/**
 * The Know Your Meme index (`scrappers/memes/index.py`): walk the listing by offset, admit
 * every entry whose id is new with its tag list reduced to the tag names, count how many
 * admitted entries carry each tag, and publish the entries (by id descending) and the tag
 * table (by count descending, then name ascending) through the `_deploy` gate. The walk ends
 * on an empty page, after ten pages in a row without a new entry, or at the time limit.
 */
module MemesIndex {
  import opened Wrappers
  import opened Text
  import opened Ledger
  import opened Sorting

  // ---------------------------------------------------------------- `_to_list`

  /** A cell of the `tags` column as pandas hands it over. */
  datatype Cell = PyList(elems: seq<string>) | NdArray(elems: seq<string>) | Series(elems: seq<string>) | Other(text: string)

  /** `_to_list(x)`: list-like cells become a plain list of the same elements; anything else is returned as is. */
  function ToList(x: Cell): (r: Cell)
    ensures !x.Other? ==> r.PyList? && r.elems == x.elems
    ensures x.Other? ==> r == x
  {
    match x
    case PyList(_) => x
    case NdArray(e) => PyList(e)
    case Series(e) => PyList(e)
    case Other(_) => x
  }

  // ---------------------------------------------------------------- tags

  /** The columns of an entry or a tag other than the ones the sync looks at. */
  type Fields = map<string, string>

  /** A tag as listed with an entry: its name `data` and its other columns. */
  datatype TagItem = TagItem(data: string, rest: Fields)

  /** A row of `d_tags`: the tag as first seen plus its `count`. */
  datatype TagRow = TagRow(tag: TagItem, count: nat)

  /** `d_tags` keeps every row under its own tag name. */
  ghost predicate TagKeyed(d: map<string, TagRow>)
  {
    forall k :: k in d ==> d[k].tag.data == k
  }

  /** The `tag_list` of an entry: its tag names in order. */
  function TagData(ts: seq<TagItem>): (r: seq<string>)
    ensures |r| == |ts| && forall i :: 0 <= i < |ts| ==> r[i] == ts[i].data
  {
    if ts == [] then [] else TagData(ts[..|ts| - 1]) + [ts[|ts| - 1].data]
  }

  /** One tag of an admitted entry: an unseen tag enters with count 0, then its count rises by one. */
  function CountTag(d: map<string, TagRow>, t: TagItem): map<string, TagRow>
  {
    var row := if t.data in d then d[t.data] else TagRow(t, 0);
    d[t.data := row.(count := row.count + 1)]
  }

  /** All tags of an admitted entry, in order. */
  function CountTags(d: map<string, TagRow>, ts: seq<TagItem>): map<string, TagRow>
  {
    if ts == [] then d else CountTag(CountTags(d, ts[..|ts| - 1]), ts[|ts| - 1])
  }

  /**
   * After counting a tag list, the known tags are the old ones plus the listed names, and
   * each count rose by exactly the number of times the name is listed (from 0 for a new tag).
   */
  lemma {:induction false} CountTagsSpec(d: map<string, TagRow>, ts: seq<TagItem>)
    ensures forall k :: k in CountTags(d, ts) <==> k in d || k in TagData(ts)
    ensures forall k :: k in CountTags(d, ts) ==>
      CountTags(d, ts)[k].count == (if k in d then d[k].count else 0) + multiset(TagData(ts))[k]
  {
    if ts != [] {
      var init := ts[..|ts| - 1];
      var t := ts[|ts| - 1];
      CountTagsSpec(d, init);
      assert TagData(ts) == TagData(init) + [t.data];
    }
  }

  /** Counting keeps the row of a known tag (its columns as first seen) and every row under its own name. */
  lemma {:induction false} CountTagsKeepsRows(d: map<string, TagRow>, ts: seq<TagItem>)
    ensures forall k :: k in d ==> k in CountTags(d, ts) && CountTags(d, ts)[k].tag == d[k].tag
    ensures TagKeyed(d) ==> TagKeyed(CountTags(d, ts))
  {
    if ts != [] {
      CountTagsKeepsRows(d, ts[..|ts| - 1]);
    }
  }

  // ---------------------------------------------------------------- entries and the store

  /** An entry of the listing: its id, its tags and its other columns. */
  datatype Item = Item(id: int, rest: Fields, tags: seq<TagItem>)

  /** A stored row: `{**item, 'tags': tag_list}`. */
  datatype Rec = Rec(id: int, rest: Fields, tags: seq<string>)

  function RecId(r: Rec): int { r.id }

  function ToRec(item: Item): Rec
  {
    Rec(item.id, item.rest, TagData(item.tags))
  }

  /** The state the admit step works on: `records`, `exist_ids` and `d_tags`. */
  datatype Store = Store(records: seq<Rec>, ids: set<int>, tags: map<string, TagRow>)

  /** One entry: a known id changes nothing; a new one is stored, recorded and its tags counted. */
  function AdmitItem(s: Store, item: Item): Store
  {
    if item.id in s.ids then s
    else Store(s.records + [ToRec(item)], s.ids + {item.id}, CountTags(s.tags, item.tags))
  }

  /** Entries in the order they are looked at. */
  function AdmitItems(s: Store, items: seq<Item>): Store
  {
    if items == [] then s else AdmitItem(AdmitItems(s, items[..|items| - 1]), items[|items| - 1])
  }

  lemma AdmitItemsStep(s: Store, items: seq<Item>, j: nat)
    requires j < |items|
    ensures AdmitItems(s, items[..j + 1]) == AdmitItem(AdmitItems(s, items[..j]), items[j])
  {
    assert items[..j + 1][..j] == items[..j];
  }

  lemma {:induction false} AdmitItemsConcat(s: Store, a: seq<Item>, b: seq<Item>)
    ensures AdmitItems(s, a + b) == AdmitItems(AdmitItems(s, a), b)
    decreases |b|
  {
    if b == [] {
      assert a + b == a;
    } else {
      var init := b[..|b| - 1];
      AdmitItemsConcat(s, a, init);
      assert (a + b)[..|a + b| - 1] == a + init;
    }
  }

  /** The table-side invariant of a store: the ledger is the id set, admitted rows are fresh. */
  ghost predicate Consistent(s: Store, from: nat)
  {
    && from <= |s.records|
    && s.ids == KeySet(s.records, RecId)
    && FreshFrom(s.records, RecId, from)
    && TagKeyed(s.tags)
  }

  /** Admitting entries only appends rows and only adds ids. */
  lemma {:induction false} AdmitItemsGrow(s: Store, items: seq<Item>)
    ensures s.records <= AdmitItems(s, items).records && s.ids <= AdmitItems(s, items).ids
  {
    if items != [] {
      AdmitItemsGrow(s, items[..|items| - 1]);
    }
  }

  /** Admitting entries keeps a store consistent: the ledger stays the id set, new rows stay fresh. */
  lemma {:induction false} AdmitItemsConsistent(s: Store, items: seq<Item>, from: nat)
    requires Consistent(s, from)
    ensures Consistent(AdmitItems(s, items), from)
  {
    if items != [] {
      var x := items[|items| - 1];
      var p := AdmitItems(s, items[..|items| - 1]);
      AdmitItemsConsistent(s, items[..|items| - 1], from);
      if x.id !in p.ids {
        FreshAppend(p.records, ToRec(x), RecId, from);
        KeySetAppend(p.records, ToRec(x), RecId);
        CountTagsKeepsRows(p.tags, x.tags);
      }
    }
  }

  /** Every appended row is made from one of the entries and has an id the store did not know. */
  lemma {:induction false} AdmitItemsOrigin(s: Store, items: seq<Item>)
    ensures forall i :: |s.records| <= i < |AdmitItems(s, items).records| ==>
      AdmitItems(s, items).records[i].id !in s.ids
      && exists j :: 0 <= j < |items| && AdmitItems(s, items).records[i] == ToRec(items[j])
  {
    if items != [] {
      var init := items[..|items| - 1];
      var x := items[|items| - 1];
      AdmitItemsOrigin(s, init);
      AdmitItemsGrow(s, init);
      var p := AdmitItems(s, init);
      forall i | |s.records| <= i < |p.records|
        ensures exists j :: 0 <= j < |items| && p.records[i] == ToRec(items[j])
      {
        var j :| 0 <= j < |init| && p.records[i] == ToRec(init[j]);
        assert items[j] == init[j];
      }
      if x.id !in p.ids {
        assert ToRec(x) == ToRec(items[|items| - 1]);
      }
    }
  }

  /** The tag names of a run of rows, concatenated. */
  function AllTags(rs: seq<Rec>): seq<string>
  {
    if rs == [] then [] else AllTags(rs[..|rs| - 1]) + rs[|rs| - 1].tags
  }

  lemma AllTagsAppend(rs: seq<Rec>, r: Rec)
    ensures AllTags(rs + [r]) == AllTags(rs) + r.tags
  {
    assert (rs + [r])[..|rs|] == rs;
  }

  /**
   * The tag table counts tag occurrences among the admitted rows: after a run, every tag's
   * count is its count before the run plus the number of times it is listed in the rows the
   * run appended, and the tags known are the old ones plus those listed.
   */
  lemma {:induction false} AdmitItemsTags(s: Store, items: seq<Item>)
    ensures var t := AdmitItems(s, items);
      s.records <= t.records
      && (forall k :: k in t.tags <==> k in s.tags || k in AllTags(t.records[|s.records|..]))
      && (forall k :: k in t.tags ==>
            t.tags[k].count == (if k in s.tags then s.tags[k].count else 0) + multiset(AllTags(t.records[|s.records|..]))[k])
  {
    if items == [] {
      assert AdmitItems(s, items).records[|s.records|..] == [];
    } else {
      var init := items[..|items| - 1];
      var x := items[|items| - 1];
      AdmitItemsTags(s, init);
      var p := AdmitItems(s, init);
      if x.id !in p.ids {
        var t := AdmitItems(s, items);
        CountTagsSpec(p.tags, x.tags);
        assert t.records[|s.records|..] == p.records[|s.records|..] + [ToRec(x)];
        AllTagsAppend(p.records[|s.records|..], ToRec(x));
      }
    }
  }

  // ---------------------------------------------------------------- the published tables

  /** What one upload writes: `table.parquet` from the records, `tags.parquet` from `d_tags`. */
  datatype Upload = Upload(records: seq<Rec>, tags: map<string, TagRow>)

  /** `sort_values(by=['id'], ascending=[False])`. */
  function RecordsTable(u: Upload): seq<Rec>
  {
    SortByKeyDesc(u.records, RecId)
  }

  /** The tag order: larger count first, then the name in ascending string order. */
  predicate TagBefore(a: TagRow, b: TagRow)
  {
    a.count > b.count || (a.count == b.count && StrLe(a.tag.data, b.tag.data))
  }

  lemma TagOrder()
    ensures TotalPreorder((a: TagRow, b: TagRow) => TagBefore(a, b))
  {
    forall a: TagRow, b: TagRow
      ensures TagBefore(a, b) || TagBefore(b, a)
    {
      StrLeTotal(a.tag.data, b.tag.data);
    }
    forall a: TagRow, b: TagRow, c: TagRow | TagBefore(a, b) && TagBefore(b, c)
      ensures TagBefore(a, c)
    {
      if a.count == b.count == c.count {
        StrLeTransitive(a.tag.data, b.tag.data, c.tag.data);
      }
    }
  }

  /** `list(d_tags.values())`, in the order of some listing of the keys. */
  ghost function TagRows(d: map<string, TagRow>): (r: seq<TagRow>)
    ensures |r| == |SetToSeq(d.Keys)|
    ensures forall i :: 0 <= i < |r| ==> SetToSeq(d.Keys)[i] in d && r[i] == d[SetToSeq(d.Keys)[i]]
  {
    var ks := SetToSeq(d.Keys);
    seq(|ks|, i requires 0 <= i < |ks| => d[ks[i]])
  }

  /** `sort_values(['count', 'data'], ascending=[False, True])`. */
  ghost function TagsTable(u: Upload): (r: seq<TagRow>)
    ensures multiset(r) == multiset(TagRows(u.tags))
    ensures forall i, j :: 0 <= i < j < |r| ==> TagBefore(r[i], r[j])
  {
    TagOrder();
    var le := (a: TagRow, b: TagRow) => TagBefore(a, b);
    var r := SortBy(TagRows(u.tags), le);
    assert forall i, j :: 0 <= i < j < |r| ==> le(r[i], r[j]);
    r
  }

  /** The tag table lists exactly the rows of `d_tags`, each stored under its own name. */
  lemma TagsTableRows(u: Upload)
    requires TagKeyed(u.tags)
    ensures |TagsTable(u)| == |u.tags|
    ensures forall k :: k in u.tags ==> u.tags[k] in TagsTable(u)
    ensures forall i :: 0 <= i < |TagsTable(u)| ==>
      TagsTable(u)[i].tag.data in u.tags && u.tags[TagsTable(u)[i].tag.data] == TagsTable(u)[i]
  {
    var r := TagsTable(u);
    var rows := TagRows(u.tags);
    var ks := SetToSeq(u.tags.Keys);
    assert |multiset(r)| == |multiset(rows)|;
    forall k | k in u.tags
      ensures u.tags[k] in r
    {
      var i :| 0 <= i < |ks| && ks[i] == k;
      assert rows[i] in multiset(r);
    }
    forall i | 0 <= i < |r|
      ensures r[i].tag.data in u.tags && u.tags[r[i].tag.data] == r[i]
    {
      assert r[i] in multiset(rows);
    }
  }

  /**
   * The tag table is strictly ordered: by count descending, and among equal counts by
   * distinct names ascending, so no tag appears twice.
   */
  lemma TagsTableStrict(u: Upload)
    requires TagKeyed(u.tags)
    ensures forall i, j :: 0 <= i < j < |TagsTable(u)| ==>
      TagsTable(u)[i].count > TagsTable(u)[j].count
      || (TagsTable(u)[i].count == TagsTable(u)[j].count && TagsTable(u)[i].tag.data != TagsTable(u)[j].tag.data
          && StrLe(TagsTable(u)[i].tag.data, TagsTable(u)[j].tag.data))
  {
    TagsTableRows(u);
    TagsTableDistinct(u);
  }

  /** No row appears twice in the tag table, since the key listing it comes from has no repeat. */
  lemma TagsTableDistinct(u: Upload)
    requires TagKeyed(u.tags)
    ensures forall i, j :: 0 <= i < j < |TagsTable(u)| ==> TagsTable(u)[i] != TagsTable(u)[j]
  {
    var r := TagsTable(u);
    var rows := TagRows(u.tags);
    forall i, j | 0 <= i < j < |r|
      ensures r[i] != r[j]
    {
      if r[i] == r[j] {
        CountOfTwoIndices(r, i, j);
        TwoIndicesOfCount(rows, r[i]);
      }
    }
  }

  /** A table of admitted-fresh rows over a duplicate-free load is published strictly by id descending. */
  lemma PublishedRecords(loaded: seq<Rec>, u: Upload)
    requires DistinctKeys(loaded, RecId)
    requires |loaded| <= |u.records| && u.records[..|loaded|] == loaded && FreshFrom(u.records, RecId, |loaded|)
    ensures multiset(RecordsTable(u)) == multiset(u.records)
    ensures forall i, j :: 0 <= i < j < |RecordsTable(u)| ==> RecordsTable(u)[i].id > RecordsTable(u)[j].id
  {
    SortedTableStrict(u.records, RecId, |loaded|);
  }

  // ---------------------------------------------------------------- the walk

  /**
   * A fetcher of the listing: the entries of the page starting at an offset, or the
   * exception `_get_index_by_offset` raises (a failed request, a body that is not JSON, a
   * missing `groups` key).
   */
  type Fetch = nat -> Result<seq<Item>>

  /** The entries of the page at `offset`; none when its request raises. */
  function PageAt(fetch: Fetch, offset: nat): seq<Item>
  {
    if fetch(offset).Ok? then fetch(offset).value else []
  }

  /**
   * The entries of a page that are looked at when entry `j` is read at clock reading `tick`
   * and each entry takes one reading: up to the first reading past `limit`. The result is
   * the index of the first entry not looked at.
   */
  function Scanned(page: seq<Item>, j: nat, clock: nat -> int, limit: int, tick: nat): (k: nat)
    requires j <= |page|
    ensures j <= k <= |page|
    ensures k < |page| ==> limit < clock(tick + (k - j))
    decreases |page| - j
  {
    if j == |page| || limit < clock(tick) then j
    else Scanned(page, j + 1, clock, limit, tick + 1)
  }

  /**
   * The scan from `j` stops at `k` exactly when the entries from `j` up to `k` are read
   * within the limit and `k` is the end of the page or read past it.
   */
  lemma {:induction false} ScannedIs(page: seq<Item>, j: nat, clock: nat -> int, limit: int, tick: nat, k: nat)
    requires j <= k <= |page|
    requires forall t: nat :: tick <= t < tick + (k - j) ==> clock(t) <= limit
    requires k < |page| ==> limit < clock(tick + (k - j))
    ensures Scanned(page, j, clock, limit, tick) == k
    decreases k - j
  {
    if j < k {
      ScannedIs(page, j + 1, clock, limit, tick + 1, k);
    }
  }

  /** Every entry the scan looks at is read at a clock reading within the limit. */
  lemma {:induction false} ScannedWithinLimit(page: seq<Item>, j: nat, clock: nat -> int, limit: int, tick: nat)
    requires j <= |page|
    ensures forall t: nat :: tick <= t < tick + (Scanned(page, j, clock, limit, tick) - j) ==> clock(t) <= limit
    decreases |page| - j
  {
    if j < |page| && clock(tick) <= limit {
      ScannedWithinLimit(page, j + 1, clock, limit, tick + 1);
    }
  }

  /** Why the page loop of `sync` ended; `Raised` leaves `sync` with the page request's exception. */
  datatype Stop = TimeLimit | EmptyPage | NoNews | Raised(error: Failure)

  /**
   * The state of the page loop of `sync`: the store, `offset`, `empty_page_count`, the
   * clock readings taken so far, and why the loop ended once it has.
   */
  datatype Crawled = Crawled(store: Store, offset: nat, misses: nat, tick: nat, stop: Option<Stop>)

  /**
   * One pass of the loop body: the time limit is checked with one reading; a request for
   * the page at `offset` that raises ends the loop (and `sync`); otherwise the page is scanned entry by entry (one reading each, cut short at the first past the
   * limit); the non-forced deploy takes two readings; then an empty page ends the loop, and
   * otherwise the offset moves past the page, the miss count resets on a new row or rises
   * by one, and ten misses end the loop.
   */
  function Turn(fetch: Fetch, clock: nat -> int, limit: int, c: Crawled): (r: Crawled)
    ensures c.tick < r.tick
    ensures r.stop.None? ==> clock(c.tick) <= limit
  {
    if limit < clock(c.tick) then c.(tick := c.tick + 1, stop := Some(TimeLimit))
    else if fetch(c.offset).Err? then c.(tick := c.tick + 1, stop := Some(Raised(fetch(c.offset).error)))
    else
      var page := fetch(c.offset).value;
      var k := Scanned(page, 0, clock, limit, c.tick + 1);
      var s' := AdmitItems(c.store, page[..k]);
      var next := c.tick + 1 + k + (if k < |page| then 1 else 0) + 2;
      if page == [] then Crawled(s', c.offset, c.misses, next, Some(EmptyPage))
      else
        var misses' := if |s'.records| > |c.store.records| then 0 else c.misses + 1;
        Crawled(s', c.offset + |page|, misses', next, if misses' >= 10 then Some(NoNews) else None)
  }

  /** A pass whose time check is within the limit and whose page arrives, given the scan's end and the store it leaves. */
  lemma TurnPage(fetch: Fetch, clock: nat -> int, limit: int, c: Crawled, page: seq<Item>, k: nat, s': Store, next: nat)
    requires clock(c.tick) <= limit && fetch(c.offset) == Ok(page)
    requires k == Scanned(page, 0, clock, limit, c.tick + 1)
    requires s' == AdmitItems(c.store, page[..k])
    requires next == c.tick + 1 + k + (if k < |page| then 1 else 0) + 2
    ensures page == [] ==> Turn(fetch, clock, limit, c) == Crawled(s', c.offset, c.misses, next, Some(EmptyPage))
    ensures page != [] ==>
      var misses' := if |s'.records| > |c.store.records| then 0 else c.misses + 1;
      Turn(fetch, clock, limit, c)
        == Crawled(s', c.offset + |page|, misses', next, if misses' >= 10 then Some(NoNews) else None)
  {
  }

  /** One unfolding of the loop from a running state. */
  lemma CrawlFromTurn(fetch: Fetch, clock: nat -> int, limit: int, c: Crawled, deadline: nat)
    requires forall t: nat :: t >= deadline ==> limit < clock(t)
    requires c.stop.None?
    ensures var c' := Turn(fetch, clock, limit, c);
      CrawlFrom(fetch, clock, limit, c, deadline) == if c'.stop.Some? then c' else CrawlFrom(fetch, clock, limit, c', deadline)
  {
  }

  /**
   * The page loop of `sync` from a state: passes of `Turn` until one ends it. `deadline` is
   * a clock position from which on every reading is past the limit.
   */
  ghost function CrawlFrom(fetch: Fetch, clock: nat -> int, limit: int, c: Crawled, deadline: nat): Crawled
    requires forall t: nat :: t >= deadline ==> limit < clock(t)
    decreases if c.tick <= deadline then deadline - c.tick else 0
  {
    if c.stop.Some? then c
    else
      var c' := Turn(fetch, clock, limit, c);
      if c'.stop.Some? then c' else CrawlFrom(fetch, clock, limit, c', deadline)
  }

  /**
   * A pass ends the loop on the time limit only after a reading past it, on an empty page
   * only when the page at the offset is empty, on an exception only when the request for
   * the page at the offset raised it (admitting nothing), and for lack of news exactly
   * when the miss count reaches ten; the offset only moves on, and the store admits a
   * prefix of the page.
   */
  lemma TurnEnds(fetch: Fetch, clock: nat -> int, limit: int, c: Crawled)
    requires c.stop.None? && c.misses < 10
    ensures var r := Turn(fetch, clock, limit, c);
      && (r.stop == Some(TimeLimit) ==> 0 < r.tick && limit < clock(r.tick - 1))
      && (r.stop == Some(EmptyPage) ==> fetch(r.offset) == Ok([]))
      && (r.stop.Some? && r.stop.value.Raised? ==> fetch(r.offset) == Err(r.stop.value.error) && r.store == c.store)
      && (r.stop == Some(NoNews) <==> r.misses == 10)
      && r.misses <= 10 && c.offset <= r.offset
      && exists items :: items <= PageAt(fetch, c.offset) && r.store == AdmitItems(c.store, items)
  {
    var r := Turn(fetch, clock, limit, c);
    if limit < clock(c.tick) || fetch(c.offset).Err? {
      assert r.store == AdmitItems(c.store, []);
    } else {
      var page := fetch(c.offset).value;
      var k := Scanned(page, 0, clock, limit, c.tick + 1);
      assert r.store == AdmitItems(c.store, page[..k]);
    }
  }

  /**
   * The loop ends, and only for one of its four reasons: the time limit after a reading
   * past it, an empty page at the final offset, an exception raised by the request for the
   * page at the final offset, or ten pages in a row without a new row.
   */
  lemma {:induction false} CrawlFromEnds(fetch: Fetch, clock: nat -> int, limit: int, c: Crawled, deadline: nat)
    requires forall t: nat :: t >= deadline ==> limit < clock(t)
    requires c.stop.None? && c.misses < 10
    ensures var r := CrawlFrom(fetch, clock, limit, c, deadline);
      && (r.stop == Some(TimeLimit) ==> 0 < r.tick && limit < clock(r.tick - 1))
      && (r.stop == Some(EmptyPage) ==> fetch(r.offset) == Ok([]))
      && (r.stop.Some? && r.stop.value.Raised? ==> fetch(r.offset) == Err(r.stop.value.error))
      && (r.stop == Some(NoNews) <==> r.misses == 10)
      && r.stop.Some? && r.misses <= 10
      && c.offset <= r.offset && c.tick < r.tick
    decreases if c.tick <= deadline then deadline - c.tick else 0
  {
    var c' := Turn(fetch, clock, limit, c);
    TurnEnds(fetch, clock, limit, c);
    if c'.stop.None? {
      CrawlFromEnds(fetch, clock, limit, c', deadline);
    }
  }

  /** The store the loop ends with admits one run of entries into the store it started from. */
  lemma {:induction false} CrawlFromAdmits(fetch: Fetch, clock: nat -> int, limit: int, c: Crawled, deadline: nat)
    requires forall t: nat :: t >= deadline ==> limit < clock(t)
    requires c.misses < 10
    ensures exists items :: CrawlFrom(fetch, clock, limit, c, deadline).store == AdmitItems(c.store, items)
    decreases if c.tick <= deadline then deadline - c.tick else 0
  {
    if c.stop.Some? {
      assert c.store == AdmitItems(c.store, []);
    } else {
      var c' := Turn(fetch, clock, limit, c);
      TurnEnds(fetch, clock, limit, c);
      var first :| first <= PageAt(fetch, c.offset) && c'.store == AdmitItems(c.store, first);
      if c'.stop.None? {
        CrawlFromAdmits(fetch, clock, limit, c', deadline);
        var r := CrawlFrom(fetch, clock, limit, c', deadline);
        var rest :| r.store == AdmitItems(c'.store, rest);
        AdmitItemsConcat(c.store, first, rest);
        assert r.store == AdmitItems(c.store, first + rest);
      } else {
        assert c'.store == AdmitItems(c.store, first);
      }
    }
  }

  class MemesSync {
    var records: seq<Rec>
    var existIds: set<int>
    /** `d_tags`. */
    var tags: map<string, TagRow>
    var hasUpdate: bool
    /** `_last_update`. */
    var lastUpdate: Option<int>
    /** `_total_count`. */
    var totalCount: nat
    const deploySpan: int
    /** The table loaded at start. */
    ghost const loaded: seq<Rec>
    /** What the repository holds: the loaded state, then the last upload. */
    ghost var uploaded: Upload
    /** Every upload of this run, oldest first. */
    ghost var published: seq<Upload>

    ghost predicate Valid()
      reads this
    {
      && Consistent(Store(records, existIds, tags), |loaded|)
      && records[..|loaded|] == loaded
      && (!hasUpdate ==> uploaded == Upload(records, tags))
      && (forall u :: u in published ==>
            (|loaded| <= |u.records| && u.records[..|loaded|] == loaded
             && FreshFrom(u.records, RecId, |loaded|) && TagKeyed(u.tags)))
    }

    /** The state after loading `table.parquet` and `tags.parquet` (empty when absent). */
    constructor (loaded: seq<Rec>, loadedTags: map<string, TagRow>, deploySpan: int)
      requires TagKeyed(loadedTags)
      ensures Valid()
      ensures records == loaded && existIds == KeySet(loaded, RecId) && tags == loadedTags
      ensures !hasUpdate && lastUpdate.None? && totalCount == |loaded|
      ensures this.deploySpan == deploySpan && this.loaded == loaded
      ensures uploaded == Upload(loaded, loadedTags) && published == []
    {
      records := loaded;
      existIds := KeySet(loaded, RecId);
      tags := loadedTags;
      hasUpdate := false;
      lastUpdate := None;
      totalCount := |loaded|;
      this.deploySpan := deploySpan;
      this.loaded := loaded;
      uploaded := Upload(loaded, loadedTags);
      published := [];
      assert loaded[..|loaded|] == loaded;
    }

    /**
     * The effect of `_deploy(force)` at time `now` with `pending` updates: when the gate
     * opens, both tables are uploaded, the flag cleared, the time stamped with the clock
     * reading `stamp` after the upload and the total reset; otherwise nothing changes.
     */
    twostate predicate Deployed(pending: bool, now: int, stamp: int, force: bool)
      reads this
    {
      if GateOpen(pending, old(lastUpdate), deploySpan, now, force) then
        && !hasUpdate && lastUpdate == Some(stamp) && totalCount == |records|
        && uploaded == Upload(records, tags) && published == old(published) + [uploaded]
      else
        && hasUpdate == pending && lastUpdate == old(lastUpdate) && totalCount == old(totalCount)
        && uploaded == old(uploaded) && published == old(published)
    }

    /** `_deploy(force)`: `now` is the clock at the gate, `stamp` the clock after the upload. */
    method Deploy(force: bool, now: int, stamp: int)
      requires Valid()
      modifies this
      ensures Valid()
      ensures records == old(records) && existIds == old(existIds) && tags == old(tags)
      ensures Deployed(old(hasUpdate), now, stamp, force)
    {
      if !hasUpdate {
        return;
      }
      if !force && lastUpdate.Some? && lastUpdate.value + deploySpan > now {
        return;
      }
      uploaded := Upload(records, tags);
      published := published + [uploaded];
      hasUpdate := false;
      lastUpdate := Some(stamp);
      totalCount := |records|;
    }

    /** The tag loop of an admitted entry: counts its tags and returns their names in order. */
    method CountItemTags(ts: seq<TagItem>) returns (tagList: seq<string>)
      modifies this
      ensures tags == CountTags(old(tags), ts) && tagList == TagData(ts)
      ensures records == old(records) && existIds == old(existIds) && hasUpdate == old(hasUpdate)
      ensures lastUpdate == old(lastUpdate) && totalCount == old(totalCount)
      ensures uploaded == old(uploaded) && published == old(published)
    {
      tagList := [];
      var i := 0;
      while i < |ts|
        invariant 0 <= i <= |ts|
        invariant tags == CountTags(old(tags), ts[..i]) && tagList == TagData(ts[..i])
        invariant records == old(records) && existIds == old(existIds) && hasUpdate == old(hasUpdate)
        invariant lastUpdate == old(lastUpdate) && totalCount == old(totalCount)
        invariant uploaded == old(uploaded) && published == old(published)
      {
        var t := ts[i];
        if t.data !in tags {
          tags := tags[t.data := TagRow(t, 0)];
        }
        tags := tags[t.data := tags[t.data].(count := tags[t.data].count + 1)];
        tagList := tagList + [t.data];
        assert ts[..i + 1][..i] == ts[..i];
        i := i + 1;
      }
      assert ts[..i] == ts;
    }

    /** One entry of a page: a known id changes nothing; a new one is admitted and marks an update. */
    method Admit(item: Item)
      requires Valid()
      modifies this
      ensures Valid()
      ensures Store(records, existIds, tags) == AdmitItem(old(Store(records, existIds, tags)), item)
      ensures hasUpdate == (old(hasUpdate) || item.id !in old(existIds))
      ensures lastUpdate == old(lastUpdate) && totalCount == old(totalCount)
      ensures uploaded == old(uploaded) && published == old(published)
    {
      if item.id in existIds {
        return;
      }
      var tagList := CountItemTags(item.tags);
      var rec := Rec(item.id, item.rest, tagList);
      FreshAppend(records, rec, RecId, |loaded|);
      KeySetAppend(records, rec, RecId);
      CountTagsKeepsRows(old(tags), item.tags);
      assert (records + [rec])[..|loaded|] == records[..|loaded|];
      records := records + [rec];
      existIds := existIds + {item.id};
      hasUpdate := true;
    }

    /**
     * The entries of one page, each preceded by a look at the clock: the page is cut short
     * at the first reading past the time limit. `tick` counts the clock readings so far.
     */
    method ScanPage(page: seq<Item>, clock: nat -> int, limit: int, tick: nat)
      returns (consumed: nat, hasNew: bool, tickOut: nat)
      requires Valid()
      modifies this
      ensures Valid()
      ensures consumed == Scanned(page, 0, clock, limit, tick)
      ensures tickOut == tick + consumed + (if consumed < |page| then 1 else 0)
      ensures Store(records, existIds, tags) == AdmitItems(old(Store(records, existIds, tags)), page[..consumed])
      ensures hasNew <==> |records| > |old(records)|
      ensures hasNew ==> hasUpdate
      ensures !hasNew ==> hasUpdate == old(hasUpdate)
      ensures lastUpdate == old(lastUpdate) && totalCount == old(totalCount)
      ensures uploaded == old(uploaded) && published == old(published)
    {
      ghost var s0 := Store(records, existIds, tags);
      consumed, hasNew, tickOut := 0, false, tick;
      var late := false;
      while consumed < |page| && !late
        invariant consumed <= |page| && tickOut == tick + consumed + (if late then 1 else 0)
        invariant forall t: nat :: tick <= t < tick + consumed ==> clock(t) <= limit
        invariant late ==> consumed < |page| && limit < clock(tick + consumed)
        invariant Valid()
        invariant Store(records, existIds, tags) == AdmitItems(s0, page[..consumed])
        invariant |records| >= |s0.records|
        invariant hasNew <==> |records| > |s0.records|
        invariant hasNew ==> hasUpdate
        invariant !hasNew ==> hasUpdate == old(hasUpdate)
        invariant lastUpdate == old(lastUpdate) && totalCount == old(totalCount)
        invariant uploaded == old(uploaded) && published == old(published)
        decreases |page| - consumed, if late then 0 else 1
      {
        var now := clock(tick + consumed);
        tickOut := tickOut + 1;
        if limit < now {
          late := true;
        } else {
          hasNew := ScanItem(page, s0, consumed, hasNew);
          consumed := consumed + 1;
        }
      }
      ScannedIs(page, 0, clock, limit, tick, consumed);
    }

    /** One entry of the page within the time limit: admitted, and `has_new_item` set when it was new. */
    method ScanItem(page: seq<Item>, ghost s0: Store, consumed: nat, hasNew: bool) returns (hasNew': bool)
      requires Valid() && consumed < |page|
      requires Store(records, existIds, tags) == AdmitItems(s0, page[..consumed])
      requires |records| >= |s0.records| && (hasNew <==> |records| > |s0.records|) && (hasNew ==> hasUpdate)
      modifies this
      ensures Valid()
      ensures Store(records, existIds, tags) == AdmitItems(s0, page[..consumed + 1])
      ensures |records| >= |s0.records| && (hasNew' <==> |records| > |s0.records|)
      ensures hasNew' ==> hasUpdate
      ensures !hasNew' ==> !hasNew && hasUpdate == old(hasUpdate)
      ensures lastUpdate == old(lastUpdate) && totalCount == old(totalCount)
      ensures uploaded == old(uploaded) && published == old(published)
    {
      AdmitItemsStep(s0, page, consumed);
      var item := page[consumed];
      var admitted := item.id !in existIds;
      Admit(item);
      hasNew' := hasNew || admitted;
    }

    /**
     * One fetched page of `sync`: scanned, then a non-forced deploy at the next clock
     * reading (the upload stamped with the one after).
     */
    method SyncPage(page: seq<Item>, clock: nat -> int, limit: int, tick: nat)
      returns (consumed: nat, hasNew: bool, tickOut: nat)
      requires Valid()
      modifies this
      ensures Valid()
      ensures consumed == Scanned(page, 0, clock, limit, tick)
      ensures tickOut == tick + consumed + (if consumed < |page| then 1 else 0) + 2
      ensures Store(records, existIds, tags) == AdmitItems(old(Store(records, existIds, tags)), page[..consumed])
      ensures hasNew <==> |records| > |old(records)|
      ensures Deployed(hasNew || old(hasUpdate), clock(tickOut - 2), clock(tickOut - 1), false)
      ensures Extends(old(published), published)
    {
      var t;
      consumed, hasNew, t := ScanPage(page, clock, limit, tick);
      Deploy(false, clock(t), clock(t + 1));
      tickOut := t + 2;
    }

    /**
     * The page loop of `sync`, up to and not including its final forced deploy: it ends in
     * the state `CrawlFrom` gives from the start of the listing, with no miss and no reading.
     */
    method Crawl(fetch: Fetch, clock: nat -> int, startTime: int, maxTimeLimit: int, ghost deadline: nat)
      returns (offset: nat, emptyPageCount: nat, tick: nat, stop: Stop)
      requires Valid()
      requires forall t: nat :: t >= deadline ==> startTime + maxTimeLimit < clock(t)
      modifies this
      ensures Valid()
      ensures Extends(old(published), published)
      ensures Crawled(Store(records, existIds, tags), offset, emptyPageCount, tick, Some(stop))
        == CrawlFrom(fetch, clock, startTime + maxTimeLimit, Crawled(old(Store(records, existIds, tags)), 0, 0, 0, None), deadline)
    {
      var limit := startTime + maxTimeLimit;
      ghost var run := CrawlFrom(fetch, clock, limit, Crawled(old(Store(records, existIds, tags)), 0, 0, 0, None), deadline);
      offset, emptyPageCount, tick := 0, 0, 0;
      while true
        invariant Valid()
        invariant Extends(old(published), published)
        invariant run == CrawlFrom(fetch, clock, limit, Crawled(Store(records, existIds, tags), offset, emptyPageCount, tick, None), deadline)
        decreases if tick <= deadline then deadline - tick else 0
      {
        var done;
        done, offset, emptyPageCount, tick, stop := CrawlPass(fetch, clock, limit, offset, emptyPageCount, tick, deadline);
        if done {
          break;
        }
      }
    }

    /**
     * One pass of the page loop seen from `CrawlFrom`: when it ends the loop, the state it
     * leaves is where `CrawlFrom` ends; otherwise `CrawlFrom` goes on from that state.
     */
    method CrawlPass(fetch: Fetch, clock: nat -> int, limit: int, offset: nat, misses: nat, tick: nat, ghost deadline: nat)
      returns (done: bool, offset': nat, misses': nat, tick': nat, stop: Stop)
      requires Valid()
      requires forall t: nat :: t >= deadline ==> limit < clock(t)
      modifies this
      ensures Valid() && Extends(old(published), published)
      ensures var run := CrawlFrom(fetch, clock, limit, Crawled(old(Store(records, existIds, tags)), offset, misses, tick, None), deadline);
        if done then run == Crawled(Store(records, existIds, tags), offset', misses', tick', Some(stop))
        else run == CrawlFrom(fetch, clock, limit, Crawled(Store(records, existIds, tags), offset', misses', tick', None), deadline)
      ensures !done ==> tick < deadline && tick < tick'
    {
      ghost var c := Crawled(Store(records, existIds, tags), offset, misses, tick, None);
      CrawlFromTurn(fetch, clock, limit, c, deadline);
      var next;
      done, offset', misses', tick', next := CrawlStep(fetch, clock, limit, offset, misses, tick);
      stop := if done then next.value else TimeLimit;
    }

    /**
     * One pass of the page loop of `sync`, as `Turn` gives it: the time check at its head,
     * then the page, then the update of `offset` and `empty_page_count`; `done` says the
     * loop ends here, and `stop` why.
     */
    method CrawlStep(fetch: Fetch, clock: nat -> int, limit: int, offset: nat, misses: nat, tick: nat)
      returns (done: bool, offset': nat, misses': nat, tick': nat, stop: Option<Stop>)
      requires Valid()
      modifies this
      ensures Valid() && Extends(old(published), published)
      ensures Crawled(Store(records, existIds, tags), offset', misses', tick', stop)
        == Turn(fetch, clock, limit, Crawled(old(Store(records, existIds, tags)), offset, misses, tick, None))
      ensures done <==> stop.Some?
    {
      var now := clock(tick);
      if limit < now {
        done, offset', misses', tick', stop := true, offset, misses, tick + 1, Some(TimeLimit);
        return;
      }
      done, offset', misses', tick', stop := PagePass(fetch, clock, limit, offset, misses, tick);
    }

    /**
     * The pass past its time check: the request for the page at `offset` (its exception
     * ends the loop), the page, then the update of `offset` and `empty_page_count`.
     */
    method PagePass(fetch: Fetch, clock: nat -> int, limit: int, offset: nat, misses: nat, tick: nat)
      returns (done: bool, offset': nat, misses': nat, tick': nat, stop: Option<Stop>)
      requires Valid() && clock(tick) <= limit
      modifies this
      ensures Valid() && Extends(old(published), published)
      ensures Crawled(Store(records, existIds, tags), offset', misses', tick', stop)
        == Turn(fetch, clock, limit, Crawled(old(Store(records, existIds, tags)), offset, misses, tick, None))
      ensures done <==> stop.Some?
    {
      ghost var before := Store(records, existIds, tags);
      var got := fetch(offset);
      if got.Err? {
        done, offset', misses', tick', stop := true, offset, misses, tick + 1, Some(Raised(got.error));
        return;
      }
      var page := got.value;
      var consumed, hasNew;
      consumed, hasNew, tick' := SyncPage(page, clock, limit, tick + 1);
      done, offset', misses', stop := PageOutcome(fetch, clock, limit, offset, misses, tick, page, consumed, hasNew, tick',
                                                  before, Store(records, existIds, tags));
    }

    /** What a page's outcome does to `offset` and `empty_page_count`, and whether the loop ends. */
    static method PageOutcome(fetch: Fetch, clock: nat -> int, limit: int, offset: nat, misses: nat, tick: nat,
                              page: seq<Item>, consumed: nat, hasNew: bool, tick': nat, ghost before: Store, ghost after: Store)
      returns (done: bool, offset': nat, misses': nat, stop: Option<Stop>)
      requires clock(tick) <= limit
      requires fetch(offset) == Ok(page) && consumed == Scanned(page, 0, clock, limit, tick + 1)
      requires tick' == tick + 1 + consumed + (if consumed < |page| then 1 else 0) + 2
      requires after == AdmitItems(before, page[..consumed])
      requires hasNew <==> |after.records| > |before.records|
      ensures Crawled(after, offset', misses', tick', stop) == Turn(fetch, clock, limit, Crawled(before, offset, misses, tick, None))
      ensures done <==> stop.Some?
    {
      TurnPage(fetch, clock, limit, Crawled(before, offset, misses, tick, None), page, consumed, after, tick');
      if page == [] {
        done, offset', misses', stop := true, offset, misses, Some(EmptyPage);
        return;
      }
      offset' := offset + |page|;
      misses' := if hasNew then 0 else misses + 1;
      done := misses' >= 10;
      stop := if done then Some(NoNews) else None;
    }

    /**
     * `sync`: the page loop of `CrawlFrom` (pages by offset until the time limit is passed,
     * a page comes back empty, or ten pages in a row admitted nothing), then a forced deploy.
     * A page request that raises leaves `sync` at once (`failed`): the rows admitted so far
     * stay in memory, and the forced deploy does not run.
     */
    method Sync(fetch: Fetch, clock: nat -> int, startTime: int, maxTimeLimit: int, ghost deadline: nat)
      returns (offset: nat, emptyPageCount: nat, stop: Stop, failed: bool)
      requires Valid()
      requires forall t: nat :: t >= deadline ==> startTime + maxTimeLimit < clock(t)
      modifies this
      ensures Valid()
      ensures failed <==> stop.Raised?
      ensures !failed ==> !hasUpdate && uploaded == Upload(records, tags)
      ensures Extends(old(published), published)
      ensures var run := CrawlFrom(fetch, clock, startTime + maxTimeLimit, Crawled(old(Store(records, existIds, tags)), 0, 0, 0, None), deadline);
        Store(records, existIds, tags) == run.store && offset == run.offset && emptyPageCount == run.misses
        && run.stop == Some(stop)
    {
      var tick;
      offset, emptyPageCount, tick, stop := Crawl(fetch, clock, startTime, maxTimeLimit, deadline);
      failed := stop.Raised?;
      if !failed {
        Deploy(true, clock(tick), clock(tick + 1));
      }
    }
  }
}
