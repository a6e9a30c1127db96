/**
 * The personality-database listing (`scrappers/pdb/ptx.py`): the MBTI type table, the
 * destination names, and `iter_ptx_from_cursor`, which follows the API's cursors and yields
 * every profile whose id it has not yielded before, until a page has no next cursor or
 * `max_no_new_page` pages in a row brought nothing new.
 */
module PdbPtx {
  import opened Wrappers
  import opened Text

  /** The names of `_TYPEID_MAP`, type id 1 first. */
  const TypeNames: seq<string> := ["ISTJ", "ESTJ", "ISFJ", "ESFJ", "ESFP", "ISFP", "ESTP", "ISTP",
                                   "INFJ", "ENFJ", "INFP", "ENFP", "INTP", "ENTP", "INTJ", "ENTJ"]

  /** `_TYPEID_MAP`: the type ids 1 to 16, iterated in increasing order. */
  const TypeIdMap: map<int, string> := map t | 1 <= t <= 16 :: TypeNames[t - 1]

  /** `_DEST_MAP`. */
  const DestMap: map<string, string> := map[
    "actors" := "actors-list", "anime" := "anime-characters", "books" := "books-list",
    "celebrity" := "famous-people", "kpop" := "kpop-idols", "songs" := "songs-list"]

  /** The destination keys in the table's order. */
  const DestKeys: seq<string> := ["actors", "anime", "books", "celebrity", "kpop", "songs"]

  predicate IsUpper(c: char) { 'A' <= c <= 'Z' }

  /** A four-letter MBTI name: E or I, S or N, T or F, J or P. */
  predicate MbtiName(n: string)
  {
    |n| == 4 && n[0] in "EI" && n[1] in "SN" && n[2] in "TF" && n[3] in "JP"
  }

  /** The four letters of a name as four bits. */
  function MbtiCode(n: string): (c: int)
    requires MbtiName(n)
  {
    (if n[0] == 'E' then 8 else 0) + (if n[1] == 'N' then 4 else 0)
      + (if n[2] == 'F' then 2 else 0) + (if n[3] == 'P' then 1 else 0)
  }

  lemma MbtiCodeInjective(m: string, n: string)
    requires MbtiName(m) && MbtiName(n) && MbtiCode(m) == MbtiCode(n)
    ensures m == n
  {
  }

  const TypeCodes: seq<int> := [0, 8, 2, 10, 11, 3, 9, 1, 6, 14, 7, 15, 5, 13, 4, 12]

  /** Each name of the table is a well-formed type name with its own code. */
  lemma TypeNamesCodes()
    ensures forall i :: 0 <= i < 16 ==> MbtiName(TypeNames[i]) && MbtiCode(TypeNames[i]) == TypeCodes[i]
  {
  }

  /** The type id of each code: `TypeCodes` is a permutation of 0 to 15. */
  const CodeTypes: seq<int> := [1, 8, 3, 6, 15, 13, 9, 11, 2, 7, 4, 5, 16, 14, 10, 12]

  lemma TypeCodesInverse()
    ensures forall i :: 0 <= i < 16 ==> 0 <= TypeCodes[i] < 16 && CodeTypes[TypeCodes[i]] == i + 1
  {
  }

  /** Type ids 1 to 16, each naming a well-formed type. */
  lemma TypeIdMapKeys()
    ensures forall t :: t in TypeIdMap <==> 1 <= t <= 16
    ensures forall t :: t in TypeIdMap ==> MbtiName(TypeIdMap[t])
  {
    TypeNamesCodes();
  }

  /** No two type ids share a name. */
  lemma TypeIdMapInjective()
    ensures forall a, b :: a in TypeIdMap && b in TypeIdMap && TypeIdMap[a] == TypeIdMap[b] ==> a == b
  {
    TypeNamesCodes();
    TypeCodesInverse();
    forall a, b | a in TypeIdMap && b in TypeIdMap && TypeIdMap[a] == TypeIdMap[b]
      ensures a == b
    {
      assert TypeCodes[a - 1] == TypeCodes[b - 1];
    }
  }

  /** The letters of a type name are upper-case. */
  lemma MbtiNameUpper(n: string)
    requires MbtiName(n)
    ensures forall i :: 0 <= i < |n| ==> IsUpper(n[i])
  {
    assert forall c :: c in "EISNTFJP" ==> IsUpper(c);
    assert n[0] in "EISNTFJP" && n[1] in "EISNTFJP" && n[2] in "EISNTFJP" && n[3] in "EISNTFJP";
  }

  /** The destination table lists six different keys, in `DestKeys` order. */
  lemma DestMapKeys()
    ensures DestMap.Keys == set d | d in DestKeys
    ensures |DestKeys| == 6 && forall i, j :: 0 <= i < j < 6 ==> DestKeys[i] != DestKeys[j]
  {
    assert DestMap.Keys == {"actors", "anime", "books", "celebrity", "kpop", "songs"};
  }

  /** No two destination keys share a name. */
  lemma DestMapInjective()
    ensures forall a, b :: a in DestMap && b in DestMap && DestMap[a] == DestMap[b] ==> a == b
  {
  }

  /** `_DEST_MAP.get(dest, dest)`. */
  function DestName(dest: string): string
  {
    if dest in DestMap then DestMap[dest] else dest
  }

  /** `f'{_TYPEID_MAP[typeid].lower()}-{_DEST_MAP.get(dest, dest)}'`; an unknown type id raises KeyError. */
  function Destination(typeid: int, dest: string): (r: Result<string>)
    ensures r.Err? <==> typeid !in TypeIdMap
    ensures r.Err? ==> r.error == KeyError
    ensures r.Ok? ==> r.value == Lower(TypeIdMap[typeid]) + "-" + DestName(dest)
  {
    if typeid in TypeIdMap then Ok(Lower(TypeIdMap[typeid]) + "-" + DestName(dest)) else Err(KeyError)
  }

  lemma LowerUpperInjective(a: string, b: string)
    requires |a| == |b|
    requires forall i :: 0 <= i < |a| ==> IsUpper(a[i]) && IsUpper(b[i])
    requires Lower(a) == Lower(b)
    ensures a == b
  {
    forall i | 0 <= i < |a|
      ensures a[i] == b[i]
    {
      assert Lower(a)[i] == Lower(b)[i];
    }
  }

  /** Different (type, destination) pairs of the two tables query different destinations. */
  lemma DestinationInjective(t1: int, d1: string, t2: int, d2: string)
    requires t1 in TypeIdMap && t2 in TypeIdMap && d1 in DestMap && d2 in DestMap
    requires Destination(t1, d1) == Destination(t2, d2)
    ensures t1 == t2 && d1 == d2
  {
    TypeIdMapKeys();
    TypeIdMapInjective();
    DestMapInjective();
    var s := Destination(t1, d1).value;
    var n1, n2 := TypeIdMap[t1], TypeIdMap[t2];
    MbtiNameUpper(n1);
    MbtiNameUpper(n2);
    assert s[..4] == Lower(n1) && s[..4] == Lower(n2);
    assert s[5..] == DestName(d1) && s[5..] == DestName(d2);
    LowerUpperInjective(n1, n2);
  }

  // ---------------------------------------------------------------- the cursor walk

  /** An item id as the API sends it. */
  datatype RawId = IdInt(n: int) | IdStr(s: string)

  type Fields = map<string, string>

  datatype PtxItem = PtxItem(id: RawId, rest: Fields)

  /** A page of `data`: its `results` and `cursor.nextCursor`. */
  datatype PtxPage = PtxPage(results: seq<PtxItem>, nextCursor: string)

  /** The query of one request. */
  datatype Query = Query(typeid: int, destination: string, limit: nat, cursor: string)

  /** The API: the page a query returns, or the error `raise_for_status` or a missing key raises. */
  type Fetch = Query -> Result<PtxPage>

  /**
   * The ids `exist_ids` holds and the items yielded so far. `after` is the id an item carries
   * once the consumer has had it: the generator adds `item['id']` only when it is resumed, so a
   * consumer that rewrites the id in place (as `scrappers/pdb/index.py` does) decides what is added.
   */
  datatype Scan = Scan(yielded: seq<PtxItem>, seen: set<RawId>)

  /** Scanning one page's results from the state `seen`. */
  function ScanPage(seen: set<RawId>, rs: seq<PtxItem>, after: RawId -> RawId): Scan
  {
    if rs == [] then Scan([], seen)
    else
      var s := ScanPage(seen, rs[..|rs| - 1], after);
      var x := rs[|rs| - 1];
      if x.id in s.seen then s else Scan(s.yielded + [x], s.seen + {after(x.id)})
  }

  /** Scanning a sequence of pages from the empty set. */
  function ScanPages(pages: seq<PtxPage>, after: RawId -> RawId): Scan
  {
    if pages == [] then Scan([], {})
    else
      var s := ScanPages(pages[..|pages| - 1], after);
      var t := ScanPage(s.seen, pages[|pages| - 1].results, after);
      Scan(s.yielded + t.yielded, t.seen)
  }

  /** What page `k` yields. */
  function PageYield(pages: seq<PtxPage>, k: nat, after: RawId -> RawId): seq<PtxItem>
    requires k < |pages|
  {
    ScanPage(ScanPages(pages[..k], after).seen, pages[k].results, after).yielded
  }

  /** `no_new_count` after the pages: how many pages at the end yielded nothing. */
  function NoNew(pages: seq<PtxPage>, after: RawId -> RawId): nat
  {
    if pages == [] then 0
    else if PageYield(pages, |pages| - 1, after) == [] then NoNew(pages[..|pages| - 1], after) + 1
    else 0
  }

  /** The cursor of the next request. */
  function NextCursor(init: string, pages: seq<PtxPage>): string
  {
    if pages == [] then init else pages[|pages| - 1].nextCursor
  }

  /** After these pages the loop goes on: none yet, or fewer than `maxNoNew` empty-handed pages and a next cursor. */
  predicate CanContinue(pages: seq<PtxPage>, maxNoNew: int, after: RawId -> RawId)
  {
    pages == [] || (NoNew(pages, after) < maxNoNew && pages[|pages| - 1].nextCursor != "")
  }

  /** `pages` are the responses of the loop's successive requests, the first with the initial cursor of `q`. */
  ghost predicate PtxWalked(fetch: Fetch, q: Query, pages: seq<PtxPage>, maxNoNew: int, after: RawId -> RawId)
    decreases |pages|
  {
    pages == [] ||
      var n := |pages| - 1;
      && PtxWalked(fetch, q, pages[..n], maxNoNew, after)
      && fetch(q.(cursor := NextCursor(q.cursor, pages[..n]))) == Ok(pages[n])
      && CanContinue(pages[..n], maxNoNew, after)
  }

  /** Following a cursor leads to a cursor of lower rank: the chain of cursors is finite. */
  ghost predicate Ranked(fetch: Fetch, rank: string -> nat)
  {
    forall q :: fetch(q).Ok? && fetch(q).value.nextCursor != "" ==> rank(fetch(q).value.nextCursor) < rank(q.cursor)
  }

  /** The loop over a page's results. */
  method ScanResults(seen: set<RawId>, rs: seq<PtxItem>, after: RawId -> RawId) returns (yielded: seq<PtxItem>, seenOut: set<RawId>)
    ensures Scan(yielded, seenOut) == ScanPage(seen, rs, after)
  {
    yielded, seenOut := [], seen;
    var i := 0;
    while i < |rs|
      invariant 0 <= i <= |rs|
      invariant Scan(yielded, seenOut) == ScanPage(seen, rs[..i], after)
    {
      var item := rs[i];
      assert rs[..i + 1][..i] == rs[..i];
      if item.id !in seenOut {
        yielded := yielded + [item];
        seenOut := seenOut + {after(item.id)};
      }
      i := i + 1;
    }
    assert rs[..i] == rs;
  }

  /**
   * `iter_ptx_from_cursor`, with the items it yields collected in order. `failed` says a
   * request raised (or the type id was unknown), which ends the walk with what was yielded
   * before.
   */
  method IterPtx(typeid: int, dest: string, limit: nat, initCursor: string, maxNoNewPage: int,
                 fetch: Fetch, after: RawId -> RawId, ghost rank: string -> nat)
    returns (items: seq<PtxItem>, failed: bool, ghost pages: seq<PtxPage>)
    requires Ranked(fetch, rank)
    ensures Destination(typeid, dest).Err? ==> items == [] && failed && pages == []
    ensures Destination(typeid, dest).Ok? ==>
      var q := Query(typeid, Destination(typeid, dest).value, limit, initCursor);
      && PtxWalked(fetch, q, pages, maxNoNewPage, after)
      && items == ScanPages(pages, after).yielded
      && (failed ==> CanContinue(pages, maxNoNewPage, after) && fetch(q.(cursor := NextCursor(initCursor, pages))).Err?)
      && (!failed ==> pages != [] && !CanContinue(pages, maxNoNewPage, after))
  {
    items, pages := [], [];
    var destination := Destination(typeid, dest);
    if destination.Err? {
      return items, true, pages;
    }
    ghost var q := Query(typeid, destination.value, limit, initCursor);
    var cursor := initCursor;
    var existIds: set<RawId> := {};
    var noNewCount := 0;
    while true
      invariant PtxWalked(fetch, q, pages, maxNoNewPage, after)
      invariant CanContinue(pages, maxNoNewPage, after)
      invariant Scan(items, existIds) == ScanPages(pages, after)
      invariant noNewCount == NoNew(pages, after)
      invariant cursor == NextCursor(initCursor, pages)
      decreases rank(cursor)
    {
      var resp := fetch(Query(typeid, destination.value, limit, cursor));
      if resp.Err? {
        return items, true, pages;
      }
      var page := resp.value;
      var newItems, seen := ScanResults(existIds, page.results, after);
      assert (pages + [page])[..|pages|] == pages;
      items, existIds, pages := items + newItems, seen, pages + [page];
      if newItems == [] {
        noNewCount := noNewCount + 1;
      } else {
        noNewCount := 0;
      }
      if noNewCount >= maxNoNewPage {
        return items, false, pages;
      }
      cursor := page.nextCursor;
      if cursor == "" {
        return items, false, pages;
      }
    }
  }

  // ---------------------------------------------------------------- what a walk yields

  /** Within a page: every yielded item is a result whose id was not seen, no later yielded id was added before, and every result is yielded or had its id seen. */
  lemma {:induction false} ScanPageFacts(seen: set<RawId>, rs: seq<PtxItem>, after: RawId -> RawId)
    ensures seen <= ScanPage(seen, rs, after).seen
    ensures ScanPage(seen, rs, after).seen == seen + AfterIds(ScanPage(seen, rs, after).yielded, after)
    ensures forall y :: y in ScanPage(seen, rs, after).yielded ==> y in rs && y.id !in seen
    ensures forall x :: x in rs ==> x in ScanPage(seen, rs, after).yielded || x.id in ScanPage(seen, rs, after).seen
  {
    if rs != [] {
      var init := rs[..|rs| - 1];
      ScanPageFacts(seen, init, after);
      assert forall x :: x in init ==> x in rs;
      var s := ScanPage(seen, init, after);
      var x := rs[|rs| - 1];
      if x.id !in s.seen {
        AfterIdsAppend(s.yielded, x, after);
      }
    }
  }

  /** The ids, as the consumer leaves them, of a list of items. */
  function AfterIds(ys: seq<PtxItem>, after: RawId -> RawId): set<RawId>
  {
    if ys == [] then {} else AfterIds(ys[..|ys| - 1], after) + {after(ys[|ys| - 1].id)}
  }

  lemma AfterIdsAppend(ys: seq<PtxItem>, y: PtxItem, after: RawId -> RawId)
    ensures AfterIds(ys + [y], after) == AfterIds(ys, after) + {after(y.id)}
  {
    assert (ys + [y])[..|ys|] == ys;
  }

  lemma {:induction false} AfterIdsConcat(a: seq<PtxItem>, b: seq<PtxItem>, after: RawId -> RawId)
    ensures AfterIds(a + b, after) == AfterIds(a, after) + AfterIds(b, after)
    decreases |b|
  {
    if b == [] {
      assert a + b == a;
    } else {
      var init := b[..|b| - 1];
      AfterIdsConcat(a, init, after);
      assert a + b == (a + init) + [b[|b| - 1]];
      AfterIdsAppend(a + init, b[|b| - 1], after);
      AfterIdsAppend(init, b[|b| - 1], after);
      assert b == init + [b[|b| - 1]];
    }
  }

  lemma {:induction false} AfterIdsMembers(ys: seq<PtxItem>, after: RawId -> RawId)
    ensures forall i :: 0 <= i < |ys| ==> after(ys[i].id) in AfterIds(ys, after)
  {
    if ys != [] {
      AfterIdsMembers(ys[..|ys| - 1], after);
      assert forall i :: 0 <= i < |ys| - 1 ==> ys[..|ys| - 1][i] == ys[i];
    }
  }

  /** The set the walk has built is exactly the consumer's ids of what it yielded. */
  lemma {:induction false} ScanPagesSeen(pages: seq<PtxPage>, after: RawId -> RawId)
    ensures ScanPages(pages, after).seen == AfterIds(ScanPages(pages, after).yielded, after)
  {
    if pages != [] {
      var init := pages[..|pages| - 1];
      ScanPagesSeen(init, after);
      var s := ScanPages(init, after);
      ScanPageFacts(s.seen, pages[|pages| - 1].results, after);
      AfterIdsConcat(s.yielded, ScanPage(s.seen, pages[|pages| - 1].results, after).yielded, after);
    }
  }

  /**
   * No item is yielded under an id an earlier yielded item left behind: for a consumer that
   * leaves ids alone, no id is yielded twice within one call.
   */
  lemma {:induction false} YieldedDistinct(pages: seq<PtxPage>, after: RawId -> RawId)
    ensures var ys := ScanPages(pages, after).yielded;
      forall i, j :: 0 <= i < j < |ys| ==> after(ys[i].id) != ys[j].id
  {
    if pages != [] {
      var init := pages[..|pages| - 1];
      YieldedDistinct(init, after);
      var s := ScanPages(init, after);
      var t := ScanPage(s.seen, pages[|pages| - 1].results, after);
      ScanPagesSeen(init, after);
      ScanPageDistinct(s.seen, pages[|pages| - 1].results, after);
      ScanPageFacts(s.seen, pages[|pages| - 1].results, after);
      AfterIdsMembers(s.yielded, after);
      var ys := s.yielded + t.yielded;
      forall i, j | 0 <= i < j < |ys|
        ensures after(ys[i].id) != ys[j].id
      {
        if j >= |s.yielded| {
          assert ys[j] == t.yielded[j - |s.yielded|];
          assert ys[j] in t.yielded;
          if i < |s.yielded| {
            assert ys[i] == s.yielded[i];
          } else {
            assert ys[i] == t.yielded[i - |s.yielded|];
          }
        } else {
          assert ys[i] == s.yielded[i] && ys[j] == s.yielded[j];
        }
      }
    }
  }

  lemma {:induction false} ScanPageDistinct(seen: set<RawId>, rs: seq<PtxItem>, after: RawId -> RawId)
    ensures var ys := ScanPage(seen, rs, after).yielded;
      forall i, j :: 0 <= i < j < |ys| ==> after(ys[i].id) != ys[j].id
  {
    if rs != [] {
      var init := rs[..|rs| - 1];
      ScanPageDistinct(seen, init, after);
      var s := ScanPage(seen, init, after);
      ScanPageFacts(seen, init, after);
      AfterIdsMembers(s.yielded, after);
    }
  }

  /** For a consumer that leaves ids alone, the yielded ids are pairwise different. */
  lemma YieldedDistinctPlain(pages: seq<PtxPage>)
    ensures var ys := ScanPages(pages, id => id).yielded;
      forall i, j :: 0 <= i < j < |ys| ==> ys[i].id != ys[j].id
  {
    YieldedDistinct(pages, id => id);
  }

  /**
   * Nothing is lost: every result of every page was yielded or had its id in the set, and
   * every yielded item is a result of some page.
   */
  lemma {:induction false} YieldedCovers(pages: seq<PtxPage>, after: RawId -> RawId)
    ensures forall k, x :: 0 <= k < |pages| && x in pages[k].results ==>
      x in ScanPages(pages, after).yielded || x.id in ScanPages(pages, after).seen
    ensures forall y :: y in ScanPages(pages, after).yielded ==> exists k :: 0 <= k < |pages| && y in pages[k].results
  {
    if pages != [] {
      var n := |pages| - 1;
      var init := pages[..n];
      YieldedCovers(init, after);
      var s := ScanPages(init, after);
      ScanPageFacts(s.seen, pages[n].results, after);
      var f := ScanPages(pages, after);
      forall k, x | 0 <= k < |pages| && x in pages[k].results
        ensures x in f.yielded || x.id in f.seen
      {
        if k < n {
          assert init[k] == pages[k];
        }
      }
      forall y | y in f.yielded
        ensures exists k :: 0 <= k < |pages| && y in pages[k].results
      {
        if y in s.yielded {
          var k :| 0 <= k < |init| && y in init[k].results;
          assert init[k] == pages[k];
        }
      }
    }
  }

  /** `no_new_count` counts the trailing pages that yielded nothing, and the page before them yielded something. */
  lemma {:induction false} NoNewSpec(pages: seq<PtxPage>, after: RawId -> RawId)
    ensures NoNew(pages, after) <= |pages|
    ensures forall k :: |pages| - NoNew(pages, after) <= k < |pages| ==> PageYield(pages, k, after) == []
    ensures NoNew(pages, after) < |pages| ==> PageYield(pages, |pages| - 1 - NoNew(pages, after), after) != []
  {
    if pages != [] && PageYield(pages, |pages| - 1, after) == [] {
      var init := pages[..|pages| - 1];
      NoNewSpec(init, after);
      forall k | 0 <= k < |init|
        ensures PageYield(init, k, after) == PageYield(pages, k, after)
      {
        assert init[..k] == pages[..k];
      }
    }
  }
}
