/**
 * The ordering step every publish performs (`DataFrame.sort_values`): a sort by a total
 * preorder, proved to return a permutation of its input in order.
 */
module Sorting {

  /** `le` orders every pair and is transitive. */
  ghost predicate TotalPreorder<T(!new)>(le: (T, T) -> bool)
  {
    && (forall a, b :: le(a, b) || le(b, a))
    && (forall a, b, c :: le(a, b) && le(b, c) ==> le(a, c))
  }

  ghost predicate SortedBy<T>(s: seq<T>, le: (T, T) -> bool)
  {
    forall i, j :: 0 <= i < j < |s| ==> le(s[i], s[j])
  }

  /** Inserts `x` into the sorted `s` before the first element it may precede. */
  function Insert<T(!new)>(x: T, s: seq<T>, le: (T, T) -> bool): (r: seq<T>)
    requires TotalPreorder(le) && SortedBy(s, le)
    ensures multiset(r) == multiset(s) + multiset{x}
    ensures SortedBy(r, le)
  {
    if s == [] || le(x, s[0]) then
      HeadBound(x, s, le);
      ConsSorted(x, s, le);
      [x] + s
    else
      assert s == [s[0]] + s[1..];
      var t := Insert(x, s[1..], le);
      TailBound(x, s, t, le);
      ConsSorted(s[0], t, le);
      [s[0]] + t
  }

  /** An element that may precede every element of a sorted list may be put in front of it. */
  lemma ConsSorted<T>(h: T, t: seq<T>, le: (T, T) -> bool)
    requires SortedBy(t, le)
    requires forall j :: 0 <= j < |t| ==> le(h, t[j])
    ensures SortedBy([h] + t, le)
  {
    var r := [h] + t;
    forall i, j | 0 <= i < j < |r|
      ensures le(r[i], r[j])
    {
      assert r[j] == t[j - 1];
      if i > 0 {
        assert r[i] == t[i - 1];
      }
    }
  }

  /** What may precede the head of a sorted list may precede all of it. */
  lemma HeadBound<T(!new)>(x: T, s: seq<T>, le: (T, T) -> bool)
    requires TotalPreorder(le) && SortedBy(s, le)
    requires s != [] ==> le(x, s[0])
    ensures forall j :: 0 <= j < |s| ==> le(x, s[j])
  {
    forall j | 0 <= j < |s|
      ensures le(x, s[j])
    {
      if j > 0 {
        assert le(s[0], s[j]);
      }
    }
  }

  /** Every element of `s` with `x` added is `x` or an element of `s`. */
  lemma MembersOfInsert<T>(x: T, s: seq<T>, t: seq<T>)
    requires multiset(t) == multiset(s) + multiset{x}
    ensures forall j :: 0 <= j < |t| ==> t[j] == x || t[j] in s
  {
    forall j | 0 <= j < |t|
      ensures t[j] == x || t[j] in s
    {
      assert t[j] in multiset(t);
    }
  }

  /** The head of a sorted list that `x` does not precede may precede `x` inserted into its tail. */
  lemma TailBound<T(!new)>(x: T, s: seq<T>, t: seq<T>, le: (T, T) -> bool)
    requires TotalPreorder(le) && SortedBy(s, le)
    requires s != [] && !le(x, s[0])
    requires multiset(t) == multiset(s[1..]) + multiset{x}
    ensures forall j :: 0 <= j < |t| ==> le(s[0], t[j])
  {
    MembersOfInsert(x, s[1..], t);
    forall j | 0 <= j < |t|
      ensures le(s[0], t[j])
    {
      if t[j] != x {
        var k :| 0 <= k < |s[1..]| && s[1..][k] == t[j];
        assert s[k + 1] == t[j];
      }
    }
  }

  /** `sorted(s, key=le)`: insertion sort. */
  function SortBy<T(!new)>(s: seq<T>, le: (T, T) -> bool): (r: seq<T>)
    requires TotalPreorder(le)
    ensures multiset(r) == multiset(s)
    ensures SortedBy(r, le)
  {
    if s == [] then []
    else
      assert s == [s[0]] + s[1..];
      Insert(s[0], SortBy(s[1..], le), le)
  }

  /** The order "`a` may come before `b`" of a sort by `key` descending. */
  function DescBy<T>(key: T -> int): (T, T) -> bool
  {
    (a: T, b: T) => key(a) >= key(b)
  }

  /** The order "`a` may come before `b`" of a sort by `key` ascending. */
  function AscBy<T>(key: T -> int): (T, T) -> bool
  {
    (a: T, b: T) => key(a) <= key(b)
  }

  /** `sort_values(by=[key], ascending=[False])`. */
  function SortByKeyDesc<T(!new)>(s: seq<T>, key: T -> int): (r: seq<T>)
    ensures multiset(r) == multiset(s)
    ensures forall i, j :: 0 <= i < j < |r| ==> key(r[i]) >= key(r[j])
  {
    var le := DescBy(key);
    assert TotalPreorder(le);
    var r := SortBy(s, le);
    assert forall i, j :: 0 <= i < j < |r| ==> le(r[i], r[j]);
    r
  }

  /** `sort_values(by=[key], ascending=[True])`. */
  function SortByKeyAsc<T(!new)>(s: seq<T>, key: T -> int): (r: seq<T>)
    ensures multiset(r) == multiset(s)
    ensures forall i, j :: 0 <= i < j < |r| ==> key(r[i]) <= key(r[j])
  {
    var le := AscBy(key);
    assert TotalPreorder(le);
    var r := SortBy(s, le);
    assert forall i, j :: 0 <= i < j < |r| ==> le(r[i], r[j]);
    r
  }

  /** Some listing of a finite set (what `sorted` starts from), each element once. */
  ghost function SetToSeq<T(!new)>(g: set<T>): (r: seq<T>)
    ensures |r| == |g| && forall x :: x in r <==> x in g
    ensures forall i, j :: 0 <= i < j < |r| ==> r[i] != r[j]
    decreases |g|
  {
    if g == {} then []
    else
      NonEmptySet(g);
      var x :| x in g;
      [x] + SetToSeq(g - {x})
  }

  lemma NonEmptySet<T>(g: set<T>)
    requires g != {}
    ensures exists x :: x in g
  {
    if forall x :: x !in g {
      assert false;
    }
  }
}
