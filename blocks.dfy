/**
 * Block partitioning of a filtered source table: `range(int(math.ceil(n / batch_size)))`
 * blocks, block `i` being the rows `[i * batch_size, (i + 1) * batch_size)` (Python slices
 * clamp at the end of the table).
 */
module Blocks {

  function Min(a: int, b: int): int { if a <= b then a else b }

  /** `int(math.ceil(n / size))`. */
  function NumBlocks(n: nat, size: nat): (k: nat)
    requires size > 0
    ensures k * size >= n
    ensures k > 0 ==> (k - 1) * size < n
    ensures n == 0 <==> k == 0
  {
    var k := (n + size - 1) / size;
    var r := (n + size - 1) % size;
    assert n + size - 1 == k * size + r;
    assert k > 0 ==> (k - 1) * size == k * size - size;
    k
  }

  /** `df[i * size:(i + 1) * size]`. */
  function Block<T>(s: seq<T>, i: nat, size: nat): seq<T>
  {
    s[Min(i * size, |s|)..Min((i + 1) * size, |s|)]
  }

  /** Every block of the loop is a non-empty run of at most `size` consecutive rows. */
  lemma BlockShape<T>(s: seq<T>, i: nat, size: nat)
    requires size > 0 && i < NumBlocks(|s|, size)
    ensures Block(s, i, size) == s[i * size..Min((i + 1) * size, |s|)]
    ensures 0 < |Block(s, i, size)| <= size
  {
    var k := NumBlocks(|s|, size);
    MulMono(i, k - 1, size);
    assert (i + 1) * size == i * size + size;
  }

  lemma MulMono(a: nat, b: nat, c: nat)
    requires a <= b
    ensures a * c <= b * c
  {
  }

  /** The rows of blocks `0 .. k - 1`, in order. */
  function BlocksUpTo<T>(s: seq<T>, size: nat, k: nat): seq<T>
  {
    if k == 0 then [] else BlocksUpTo(s, size, k - 1) + Block(s, k - 1, size)
  }

  lemma {:induction false} BlocksUpToPrefix<T>(s: seq<T>, size: nat, k: nat)
    requires size > 0
    ensures BlocksUpTo(s, size, k) == s[..Min(k * size, |s|)]
  {
    if k > 0 {
      BlocksUpToPrefix(s, size, k - 1);
      assert k * size == (k - 1) * size + size;
      MulMono(k - 1, k, size);
      var a, b := Min((k - 1) * size, |s|), Min(k * size, |s|);
      assert s[..a] + s[a..b] == s[..b];
    }
  }

  /**
   * The blocks cover the filtered table exactly once and in order: concatenating them gives
   * the table back, so no row is skipped and none is processed twice.
   */
  lemma BlocksCover<T>(s: seq<T>, size: nat)
    requires size > 0
    ensures BlocksUpTo(s, size, NumBlocks(|s|, size)) == s
  {
    BlocksUpToPrefix(s, size, NumBlocks(|s|, size));
  }

  /** Block `i` of a table of `n` rows takes the row at index `r`. */
  predicate InBlock(n: nat, i: nat, size: nat, r: nat)
  {
    Min(i * size, n) <= r < Min((i + 1) * size, n)
  }

  /** Block `i` is the rows at its indices, in order. */
  lemma BlockAt<T>(s: seq<T>, i: nat, size: nat, r: nat)
    requires InBlock(|s|, i, size, r)
    ensures r - i * size < |Block(s, i, size)| && Block(s, i, size)[r - i * size] == s[r]
  {
  }

  /** Two different blocks share no row index, so no row is processed twice. */
  lemma BlocksDisjoint<T>(s: seq<T>, size: nat, i: nat, j: nat)
    requires size > 0 && i < j < NumBlocks(|s|, size)
    ensures forall r: nat :: InBlock(|s|, i, size, r) ==> !InBlock(|s|, j, size, r)
  {
    MulMono(i + 1, j, size);
  }

  /** `a` holds the rows of `b`, each as often, in some order. */
  ghost predicate Rearranged<T>(a: seq<T>, b: seq<T>)
  {
    multiset(a) == multiset(b)
  }

  /**
   * The blocks of a thread pool run: `commits[i]` is the order in which the tasks of block
   * `i` finished, which the pool does not fix, so any rearrangement of the block.
   */
  ghost predicate CommitOrders<T>(s: seq<T>, size: nat, commits: seq<seq<T>>)
  {
    && size > 0
    && |commits| == NumBlocks(|s|, size)
    && forall i :: 0 <= i < |commits| ==> Rearranged(commits[i], Block(s, i, size))
  }

  /** Every row of every block's order is a row of `s`. */
  ghost predicate DrawnFrom<T>(s: seq<T>, commits: seq<seq<T>>)
  {
    forall i, x :: 0 <= i < |commits| && x in commits[i] ==> x in s
  }

  /** A task finished in any block is one of the table's rows. */
  lemma CommittedRows<T>(s: seq<T>, size: nat, commits: seq<seq<T>>)
    requires CommitOrders(s, size, commits)
    ensures DrawnFrom(s, commits)
  {
    forall i, x | 0 <= i < |commits| && x in commits[i]
      ensures x in s
    {
      assert x in multiset(commits[i]);
      assert x in multiset(Block(s, i, size));
      assert (i + 1) * size == i * size + size;
      InSlice(s, Min(i * size, |s|), Min((i + 1) * size, |s|), x);
    }
  }

  lemma InSlice<T>(s: seq<T>, lo: nat, hi: nat, x: T)
    requires lo <= hi <= |s| && x in s[lo..hi]
    ensures x in s
  {
    var j :| 0 <= j < hi - lo && s[lo..hi][j] == x;
    assert s[lo + j] == x;
  }
}
