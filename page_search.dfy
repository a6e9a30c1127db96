/**
 * The search for the last non-empty listing page that both `iter_all_templates`
 * (imgflip) and `find_max_page_count` (quickmeme) perform: double `r` while page `r` is
 * non-empty, then bisect between `l` and `r`. Every page request can raise; the first
 * exception ends the search.
 */
module PageSearch {
  import opened Wrappers

  /** Pages are non-empty up to some point and empty after it. */
  ghost predicate Monotone(nonEmpty: nat -> bool)
  {
    forall i, j :: 1 <= i <= j && nonEmpty(j) ==> nonEmpty(i)
  }

  /** Every page from `bound` on is empty. */
  ghost predicate EmptyFrom(nonEmpty: nat -> bool, bound: nat)
  {
    forall p :: p >= bound ==> !nonEmpty(p)
  }

  /** The last non-empty page among `2 .. top`, or 1 when there is none. */
  function LastPage(nonEmpty: nat -> bool, top: nat): (r: nat)
    ensures 1 <= r && (r == 1 || (r <= top && nonEmpty(r)))
    decreases top
  {
    if top <= 1 then 1 else if nonEmpty(top) then top else LastPage(nonEmpty, top - 1)
  }

  /**
   * Of pages non-empty up to a point and empty after `top`, the last non-empty page is the
   * only page number `m` with every later page empty, with page `m` non-empty when page 1
   * is, and equal to 1 when page 1 is empty.
   */
  lemma {:induction false} LastPageIs(nonEmpty: nat -> bool, top: nat, m: nat)
    requires Monotone(nonEmpty)
    requires forall p :: p > top ==> !nonEmpty(p)
    requires m >= 1 && (forall p :: p > m ==> !nonEmpty(p))
    requires nonEmpty(1) ==> nonEmpty(m)
    requires !nonEmpty(1) ==> m == 1
    ensures LastPage(nonEmpty, top) == m
    decreases top
  {
    if top > 1 && !nonEmpty(top) {
      LastPageIs(nonEmpty, top - 1, m);
    }
  }

  /** The pages a probe reports non-empty: a probe that raises reports nothing. */
  function NonEmpty(probe: nat -> Result<bool>): nat -> bool
  {
    (p: nat) => probe(p) == Ok(true)
  }

  /** Some probe of a page after `l` raised `e`. */
  ghost predicate RaisedAfter(probe: nat -> Result<bool>, e: Failure, l: nat)
  {
    exists p :: p > l && probe(p) == Err(e)
  }

  /**
   * The bisection `while l < r: m = (l + r + 1) // 2; l, r = (m, r) if page(m) else
   * (l, m - 1)`: `Ok(l)` once `l == r`, or the exception of the first probe that raises.
   */
  function Bisect(probe: nat -> Result<bool>, l: nat, r: nat): (res: Result<nat>)
    requires 1 <= l <= r
    ensures res.Ok? ==> l <= res.value <= r
    ensures res.Err? ==> RaisedAfter(probe, res.error, l)
    ensures (forall p :: l < p <= r ==> probe(p).Ok?) ==> res.Ok?
    decreases r - l
  {
    if l == r then Ok(l)
    else
      var m := (l + r + 1) / 2;
      match probe(m)
      case Err(e) => Err(e)
      case Ok(nonEmpty) => if nonEmpty then Bisect(probe, m, r) else Bisect(probe, l, m - 1)
  }

  /**
   * The doubling `while page(r): l <<= 1; r <<= 1` from `l, r = l, 2 * l`, then the
   * bisection. A non-empty page at or after `bound` ends the doubling as an empty one
   * would; pages from `bound` on are empty wherever the search is run.
   */
  function Doubling(probe: nat -> Result<bool>, l: nat, bound: nat): (res: Result<nat>)
    requires l >= 1
    ensures res.Ok? ==> res.value >= l
    ensures res.Err? ==> RaisedAfter(probe, res.error, l)
    ensures (forall p :: p > l ==> probe(p).Ok?) ==> res.Ok?
    decreases if 2 * l < bound then bound - 2 * l else 0
  {
    match probe(2 * l)
    case Err(e) => Err(e)
    case Ok(nonEmpty) =>
      if nonEmpty && 2 * l < bound then Doubling(probe, 2 * l, bound) else Bisect(probe, l, 2 * l)
  }

  /** The whole search from `l, r = 1, 2`: the last non-empty page, or the first exception. */
  function Search(probe: nat -> Result<bool>, bound: nat): Result<nat>
  {
    Doubling(probe, 1, bound)
  }

  /**
   * Page `v` ends the search correctly: every later page is empty, page `v` is non-empty
   * when page 1 is, and `v` is the last non-empty page before `bound`.
   */
  ghost predicate FoundLast(probe: nat -> Result<bool>, bound: nat, v: nat)
  {
    && (forall p :: p > v ==> !NonEmpty(probe)(p))
    && (NonEmpty(probe)(1) ==> NonEmpty(probe)(v))
    && v == LastPage(NonEmpty(probe), bound)
  }

  /**
   * A bisection started with page `l` non-empty (or `l == 1`) and every page after `r`
   * empty that does not raise ends on the last non-empty page.
   */
  lemma {:induction false} BisectFinds(probe: nat -> Result<bool>, l: nat, r: nat, bound: nat)
    requires 1 <= l <= r
    requires l == 1 || NonEmpty(probe)(l)
    requires forall p :: p > r ==> !NonEmpty(probe)(p)
    requires Monotone(NonEmpty(probe)) && EmptyFrom(NonEmpty(probe), bound)
    ensures Bisect(probe, l, r).Ok? ==> FoundLast(probe, bound, Bisect(probe, l, r).value)
    decreases r - l
  {
    var nonEmpty := NonEmpty(probe);
    if l == r {
      LastPageIs(nonEmpty, bound, l);
    } else {
      var m: nat := (l + r + 1) / 2;
      match probe(m)
      case Err(_) =>
      case Ok(ne) =>
        if ne {
          BisectFinds(probe, m, r, bound);
        } else {
          assert !nonEmpty(m);
          forall p | p > m - 1
            ensures !nonEmpty(p)
          {
            assert nonEmpty(p) ==> nonEmpty(m);
          }
          BisectFinds(probe, l, m - 1, bound);
        }
    }
  }

  /**
   * A doubling started with page `l` non-empty (or `l == 1`) that does not raise ends on
   * the last non-empty page, when pages are non-empty up to a point and empty from `bound`.
   */
  lemma {:induction false} DoublingFinds(probe: nat -> Result<bool>, l: nat, bound: nat)
    requires l >= 1 && (l == 1 || NonEmpty(probe)(l))
    requires Monotone(NonEmpty(probe)) && EmptyFrom(NonEmpty(probe), bound)
    ensures Doubling(probe, l, bound).Ok? ==> FoundLast(probe, bound, Doubling(probe, l, bound).value)
    decreases if 2 * l < bound then bound - 2 * l else 0
  {
    var nonEmpty := NonEmpty(probe);
    var r: nat := 2 * l;
    match probe(r)
    case Err(_) =>
    case Ok(ne) =>
      if ne && r < bound {
        DoublingFinds(probe, r, bound);
      } else {
        assert !nonEmpty(r);
        forall p | p > r
          ensures !nonEmpty(p)
        {
          assert nonEmpty(p) ==> nonEmpty(r);
        }
        BisectFinds(probe, l, r, bound);
      }
  }

  /**
   * The two loops of the search. `probe(p)` is the page request read as a truth value, or
   * the exception it raises. The result is `Search`; when no probe raises it is a page
   * number, and over pages non-empty up to a point it is the last non-empty page.
   */
  method FindMaxPage(probe: nat -> Result<bool>, ghost bound: nat) returns (maxPage: Result<nat>)
    requires EmptyFrom(NonEmpty(probe), bound)
    ensures maxPage == Search(probe, bound)
    ensures maxPage.Ok? ==> maxPage.value >= 1
    ensures maxPage.Err? ==> RaisedAfter(probe, maxPage.error, 1)
    ensures (forall p :: p > 1 ==> probe(p).Ok?) ==> maxPage.Ok?
    ensures maxPage.Ok? && Monotone(NonEmpty(probe)) ==>
      && (forall p :: p > maxPage.value ==> !NonEmpty(probe)(p))
      && (NonEmpty(probe)(1) ==> NonEmpty(probe)(maxPage.value))
      && maxPage.value == LastPage(NonEmpty(probe), bound)
  {
    var l, r := 1, 2;
    var page := probe(r);
    while page == Ok(true)
      invariant r == 2 * l && l >= 1
      invariant page == probe(r)
      invariant Doubling(probe, l, bound) == Search(probe, bound)
      decreases bound - r
    {
      assert NonEmpty(probe)(r);
      l, r := 2 * l, 2 * r;
      page := probe(r);
    }
    if page.Err? {
      return Err(page.error);
    }
    while l < r
      invariant 1 <= l <= r
      invariant Bisect(probe, l, r) == Search(probe, bound)
      decreases r - l
    {
      var m := (l + r + 1) / 2;
      page := probe(m);
      if page.Err? {
        return Err(page.error);
      }
      if page.value {
        l := m;
      } else {
        r := m - 1;
      }
    }
    maxPage := Ok(l);
    if Monotone(NonEmpty(probe)) {
      DoublingFinds(probe, 1, bound);
    }
  }
}
