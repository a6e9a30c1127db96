/**
 * The pieces of the incremental sync engine that every scraper shares: the id ledger
 * (the `exist_ids` set), the "no duplicate ids" invariants over a record list, the
 * filtering of a source table against the ledger, and the `_deploy` gate.
 */
module Ledger {
  import opened Wrappers
  import opened Sorting

  lemma AppendAssoc<T>(a: seq<T>, b: seq<T>, c: seq<T>)
    ensures a + b + c == a + (b + c)
  {
  }

  lemma UnionAssoc<T>(a: set<T>, b: set<T>, c: set<T>)
    ensures a + b + c == a + (b + c)
  {
  }

  /** `b` continues `a`: what `a` holds stays, in order, at the front of `b`. */
  ghost predicate Extends<T>(a: seq<T>, b: seq<T>)
  {
    a <= b
  }

  /** The lists `f` gives for the elements of `xs`, joined in order. */
  function FlatMap<T, U>(xs: seq<T>, f: T -> seq<U>): seq<U>
  {
    if xs == [] then [] else FlatMap(xs[..|xs| - 1], f) + f(xs[|xs| - 1])
  }

  lemma {:induction false} FlatMapConcat<T, U>(a: seq<T>, b: seq<T>, f: T -> seq<U>)
    ensures FlatMap(a + b, f) == FlatMap(a, f) + FlatMap(b, f)
    decreases |b|
  {
    if b == [] {
      assert a + b == a;
    } else {
      var init, last := b[..|b| - 1], b[|b| - 1];
      FlatMapConcat(a, init, f);
      assert (a + b)[..|a + b| - 1] == a + init;
      AppendAssoc(FlatMap(a, f), FlatMap(init, f), f(last));
    }
  }

  /** `set(df['id'])`: the ids of a record list. */
  function KeySet<R>(rs: seq<R>, key: R -> int): set<int>
  {
    if rs == [] then {} else KeySet(rs[..|rs| - 1], key) + {key(rs[|rs| - 1])}
  }

  /** An id is in the set exactly when some record of the list carries it. */
  lemma {:induction false} KeySetMembers<R>(rs: seq<R>, key: R -> int)
    ensures forall i :: 0 <= i < |rs| ==> key(rs[i]) in KeySet(rs, key)
    ensures forall k :: k in KeySet(rs, key) ==> exists i :: 0 <= i < |rs| && key(rs[i]) == k
  {
    if rs != [] {
      var init := rs[..|rs| - 1];
      KeySetMembers(init, key);
      assert forall i :: 0 <= i < |init| ==> init[i] == rs[i];
    }
  }

  lemma KeySetAppend<R>(rs: seq<R>, x: R, key: R -> int)
    ensures KeySet(rs + [x], key) == KeySet(rs, key) + {key(x)}
  {
    assert (rs + [x])[..|rs|] == rs;
  }

  lemma {:induction false} KeySetConcat<R>(a: seq<R>, b: seq<R>, key: R -> int)
    ensures KeySet(a + b, key) == KeySet(a, key) + KeySet(b, key)
    decreases |b|
  {
    if b != [] {
      var init := b[..|b| - 1];
      KeySetConcat(a, init, key);
      assert a + b == (a + init) + [b[|b| - 1]];
      assert b == init + [b[|b| - 1]];
      KeySetAppend(a + init, b[|b| - 1], key);
      KeySetAppend(init, b[|b| - 1], key);
    } else {
      assert a + b == a;
    }
  }

  /** No two records share an id. */
  ghost predicate DistinctKeys<R>(rs: seq<R>, key: R -> int)
  {
    forall i, j :: 0 <= i < j < |rs| ==> key(rs[i]) != key(rs[j])
  }

  /** Every record from position `from` on has an id no earlier record has. */
  ghost predicate FreshFrom<R>(rs: seq<R>, key: R -> int, from: nat)
  {
    forall i, j :: 0 <= j < i < |rs| && from <= i ==> key(rs[j]) != key(rs[i])
  }

  /** Appending a record whose id is not yet in the list keeps the appended part fresh. */
  lemma FreshAppend<R>(rs: seq<R>, x: R, key: R -> int, from: nat)
    requires FreshFrom(rs, key, from)
    requires key(x) !in KeySet(rs, key)
    ensures FreshFrom(rs + [x], key, from)
  {
    KeySetMembers(rs, key);
    var t := rs + [x];
    forall i, j | 0 <= j < i < |t| && from <= i
      ensures key(t[j]) != key(t[i])
    {
      if i == |rs| {
        assert t[j] == rs[j];
      } else {
        assert t[i] == rs[i] && t[j] == rs[j];
      }
    }
  }

  /**
   * The records admitted during a run are pairwise distinct and disjoint from the loaded
   * ones; so if the loaded table had no duplicate id, neither has the whole table.
   */
  lemma DistinctFromFresh<R>(rs: seq<R>, key: R -> int, from: nat)
    requires from <= |rs|
    requires DistinctKeys(rs[..from], key)
    requires FreshFrom(rs, key, from)
    ensures DistinctKeys(rs, key)
  {
    forall i, j | 0 <= i < j < |rs|
      ensures key(rs[i]) != key(rs[j])
    {
      if j < from {
        assert rs[..from][i] == rs[i] && rs[..from][j] == rs[j];
      }
    }
  }

  lemma CountOfTwoIndices<T>(s: seq<T>, i: nat, j: nat)
    requires i < j < |s| && s[i] == s[j]
    ensures multiset(s)[s[i]] >= 2
  {
    assert s == s[..i] + [s[i]] + s[i + 1..j] + [s[j]] + s[j + 1..];
  }

  lemma {:induction false} TwoIndicesOfCount<T>(s: seq<T>, x: T)
    requires multiset(s)[x] >= 2
    ensures exists a, b :: 0 <= a < b < |s| && s[a] == x && s[b] == x
  {
    assert s == [s[0]] + s[1..];
    if s[0] == x {
      assert x in multiset(s[1..]);
      var b :| 0 <= b < |s[1..]| && s[1..][b] == x;
      assert s[b + 1] == x;
    } else {
      TwoIndicesOfCount(s[1..], x);
      var a, b :| 0 <= a < b < |s[1..]| && s[1..][a] == x && s[1..][b] == x;
      assert s[a + 1] == x && s[b + 1] == x;
    }
  }

  /** Reordering a table (as sorting does) cannot create a duplicate id. */
  lemma PermutationKeepsDistinct<R>(s: seq<R>, r: seq<R>, key: R -> int)
    requires multiset(r) == multiset(s)
    requires DistinctKeys(s, key)
    ensures DistinctKeys(r, key)
  {
    forall i, j | 0 <= i < j < |r|
      ensures key(r[i]) != key(r[j])
    {
      if r[i] == r[j] {
        CountOfTwoIndices(r, i, j);
        TwoIndicesOfCount(s, r[i]);
      } else {
        assert r[i] in multiset(s) && r[j] in multiset(s);
        var a :| 0 <= a < |s| && s[a] == r[i];
        var b :| 0 <= b < |s| && s[b] == r[j];
      }
    }
  }

  /**
   * `df_src[~df_src['id'].isin(exist_ids)]`: the rows whose id is not in the ledger, in
   * their original order.
   */
  function FilterNew<R(!new)>(src: seq<R>, key: R -> int, exist: set<int>): (r: seq<R>)
    ensures forall i :: 0 <= i < |r| ==> key(r[i]) !in exist
    ensures forall x :: multiset(r)[x] == if key(x) in exist then 0 else multiset(src)[x]
    ensures |r| <= |src|
  {
    if src == [] then []
    else
      assert src == [src[0]] + src[1..];
      (if key(src[0]) in exist then [] else [src[0]]) + FilterNew(src[1..], key, exist)
  }

  /**
   * The gate at the head of every `_deploy(force)`: a publish happens only when there is a
   * pending update, and then when forced, on the first publish of the run, or once
   * `deploy_span` has elapsed since the last publish.
   */
  function GateOpen(hasUpdate: bool, lastUpdate: Option<int>, deploySpan: int, now: int, force: bool): (open: bool)
    ensures !hasUpdate ==> !open
    ensures hasUpdate && force ==> open
    ensures hasUpdate && lastUpdate.None? ==> open
    ensures hasUpdate && lastUpdate.Some? && lastUpdate.value + deploySpan <= now ==> open
    ensures !force && lastUpdate.Some? && now < lastUpdate.value + deploySpan ==> !open
  {
    if !hasUpdate then false
    else if !force && lastUpdate.Some? && lastUpdate.value + deploySpan > now then false
    else true
  }

  /** The list an append-loop that skips some inputs and converts the others builds. */
  function FilterMap<A(!new), B>(s: seq<A>, f: A -> Option<B>): (r: seq<B>)
    ensures |r| <= |s|
    ensures forall y :: y in r ==> exists x :: x in s && f(x) == Some(y)
  {
    if s == [] then []
    else
      var rest := FilterMap(s[1..], f);
      match f(s[0])
      case Some(y) => [y] + rest
      case None => rest
  }

  lemma FilterMapAppend<A(!new), B>(s: seq<A>, x: A, f: A -> Option<B>)
    ensures FilterMap(s + [x], f) == FilterMap(s, f) + (match f(x) case Some(y) => [y] case None => [])
  {
    if s == [] {
      assert s + [x] == [x];
    } else {
      assert (s + [x])[1..] == s[1..] + [x];
      FilterMapAppend(s[1..], x, f);
    }
  }

  /**
   * `r` lists the values of `d` once each: every element is stored under its own key, every
   * stored value occurs, and no two elements share a key.
   */
  ghost predicate ValuesOfMap<R>(d: map<int, R>, key: R -> int, r: seq<R>)
  {
    && |r| == |d|
    && (forall i :: 0 <= i < |r| ==> key(r[i]) in d && d[key(r[i])] == r[i])
    && (forall k :: k in d ==> d[k] in r)
    && DistinctKeys(r, key)
  }

  /** `list(d.values())` of a dictionary that stores every record under its own key. */
  ghost function MapValues<R>(d: map<int, R>): seq<R>
    decreases |d|
  {
    if d == map[] then []
    else
      var k := SomeKey(d);
      MapValues(d - {k}) + [d[k]]
  }

  /** Some key of a non-empty dictionary. */
  ghost function SomeKey<R>(d: map<int, R>): (k: int)
    requires d != map[]
    ensures k in d
  {
    HasKey(d);
    var k :| k in d;
    k
  }

  lemma {:induction false} MapValuesProperties<R>(d: map<int, R>, key: R -> int)
    requires forall k :: k in d ==> key(d[k]) == k
    ensures ValuesOfMap(d, key, MapValues(d))
    decreases |d|
  {
    if d != map[] {
      var k := SomeKey(d);
      MapValuesProperties(d - {k}, key);
      ValuesStep(d, k, MapValues(d - {k}), key);
    }
  }

  lemma HasKey<R>(d: map<int, R>)
    requires d != map[]
    ensures exists k :: k in d
  {
    if forall k :: k !in d {
      assert false;
    }
  }

  lemma ValuesStep<R>(d: map<int, R>, k: int, rest: seq<R>, key: R -> int)
    requires k in d
    requires forall k' :: k' in d ==> key(d[k']) == k'
    requires ValuesOfMap(d - {k}, key, rest)
    ensures ValuesOfMap(d, key, rest + [d[k]])
  {
    var r := rest + [d[k]];
    assert |r| == |d| by {
      assert |(d - {k}).Keys| == |d.Keys - {k}| == |d.Keys| - 1;
    }
    forall i | 0 <= i < |r|
      ensures key(r[i]) in d && d[key(r[i])] == r[i]
    {
      if i < |rest| {
        assert r[i] == rest[i] && key(rest[i]) in d - {k};
      }
    }
    forall k' | k' in d
      ensures d[k'] in r
    {
      if k' != k {
        assert k' in d - {k};
        assert d[k'] in rest;
      }
    }
    forall i, j | 0 <= i < j < |r|
      ensures key(r[i]) != key(r[j])
    {
      assert r[i] == rest[i] && key(rest[i]) in d - {k};
      if j < |rest| {
        assert r[j] == rest[j];
      }
    }
  }

  /**
   * A table made of a duplicate-free loaded part followed by rows admitted with fresh ids
   * publishes, once sorted by id descending, every row once in strictly descending id order.
   */
  lemma SortedTableStrict<R(!new)>(rs: seq<R>, key: R -> int, from: nat)
    requires from <= |rs|
    requires DistinctKeys(rs[..from], key)
    requires FreshFrom(rs, key, from)
    ensures multiset(SortByKeyDesc(rs, key)) == multiset(rs)
    ensures forall i, j :: 0 <= i < j < |SortByKeyDesc(rs, key)| ==>
      key(SortByKeyDesc(rs, key)[i]) > key(SortByKeyDesc(rs, key)[j])
  {
    var t := SortByKeyDesc(rs, key);
    DistinctFromFresh(rs, key, from);
    PermutationKeepsDistinct(rs, t, key);
  }

  /** A row admitted fresh after position `n` has an id none of the first `n` rows has. */
  lemma FreshNotInPrefix<R>(rs: seq<R>, key: R -> int, from: nat, n: nat)
    requires from <= n <= |rs|
    requires FreshFrom(rs, key, from)
    ensures forall i :: n <= i < |rs| ==> key(rs[i]) !in KeySet(rs[..n], key)
  {
    KeySetMembers(rs[..n], key);
    forall i, j | n <= i < |rs| && 0 <= j < n
      ensures key(rs[..n][j]) != key(rs[i])
    {
      assert rs[..n][j] == rs[j];
    }
  }

  /** Appending a record whose id is already in the list makes the ids repeat. */
  lemma KnownKeyRepeats<R>(rs: seq<R>, x: R, key: R -> int)
    requires key(x) in KeySet(rs, key)
    ensures !DistinctKeys(rs + [x], key)
  {
    KeySetMembers(rs, key);
    var i :| 0 <= i < |rs| && key(rs[i]) == key(x);
    var t := rs + [x];
    assert t[i] == rs[i] && t[|rs|] == x;
  }

  /** Filtering out the known ids keeps distinct ids distinct. */
  lemma {:induction false} FilterNewDistinct<R(!new)>(src: seq<R>, key: R -> int, exist: set<int>)
    requires DistinctKeys(src, key)
    ensures DistinctKeys(FilterNew(src, key, exist), key)
  {
    if src != [] {
      var tail := src[1..];
      assert DistinctKeys(tail, key) by {
        forall i, j | 0 <= i < j < |tail|
          ensures key(tail[i]) != key(tail[j])
        {
          assert tail[i] == src[i + 1] && tail[j] == src[j + 1];
        }
      }
      FilterNewDistinct(tail, key, exist);
      var t := FilterNew(tail, key, exist);
      if key(src[0]) !in exist {
        forall y | y in t
          ensures key(y) != key(src[0])
        {
          assert y in multiset(tail);
          var k :| 0 <= k < |tail| && tail[k] == y;
          assert src[k + 1] == y;
        }
        DistinctCons(src[0], t, key);
      }
    }
  }

  /** Putting a record with a new id in front of distinct records keeps them distinct. */
  lemma DistinctCons<R>(x: R, t: seq<R>, key: R -> int)
    requires DistinctKeys(t, key)
    requires forall y :: y in t ==> key(y) != key(x)
    ensures DistinctKeys([x] + t, key)
  {
    var r := [x] + t;
    forall i, j | 0 <= i < j < |r|
      ensures key(r[i]) != key(r[j])
    {
      assert r[j] == t[j - 1];
      if i > 0 {
        assert r[i] == t[i - 1];
      }
    }
  }

  /** The rows `FilterNew` keeps are rows of the source whose ids are not known. */
  lemma FilterNewMembers<R(!new)>(src: seq<R>, key: R -> int, exist: set<int>)
    ensures forall x :: x in FilterNew(src, key, exist) ==> x in src && key(x) !in exist
  {
    var r := FilterNew(src, key, exist);
    forall x | x in r
      ensures x in src && key(x) !in exist
    {
      assert multiset(r)[x] > 0;
    }
  }
}
