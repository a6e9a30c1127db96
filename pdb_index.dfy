/**
 * The personality-database index (`scrappers/pdb/index.py`): for every MBTI type and every
 * destination, the listing of `iter_ptx_from_cursor` is read; each profile's id is turned
 * into an integer, a profile with an unknown id is appended with its type, and `_deploy`
 * is tried after every profile and forced at the end.
 */
module PdbIndex {
  import opened Wrappers
  import opened Text
  import opened Ledger
  import opened Sorting
  import opened PdbPtx

  /** A stored profile: the listing item with its id as an integer, and the type it was listed under. */
  datatype Rec = Rec(id: int, rest: Fields, typeid: int, typeName: string)

  function RecId(r: Rec): int { r.id }

  /** `int(item['id'])`: an integer stays, a string of decimal digits (with an optional sign) is read, anything else raises ValueError. */
  function ToInt(raw: RawId): (r: Result<int>)
    ensures raw.IdInt? ==> r == Ok(raw.n)
    ensures raw.IdStr? ==> (r.Ok? <==> ParseInt(raw.s).Some?)
    ensures raw.IdStr? && r.Ok? ==> ParseInt(raw.s) == Some(r.value)
    ensures r.Err? ==> r.error == ValueError
  {
    match raw
    case IdInt(n) => Ok(n)
    case IdStr(s) => if ParseInt(s).Some? then Ok(ParseInt(s).value) else Err(ValueError)
  }

  /** A string id and the integer it spells are the same profile. */
  lemma ToIntAgrees(n: int)
    ensures ToInt(IdStr(IntToString(n))) == ToInt(IdInt(n)) == Ok(n)
  {
    ParseIntRoundTrip(n);
  }

  /** The id the listing generator finds in an item after this consumer has rewritten it in place. */
  function Normalized(raw: RawId): RawId
  {
    if ToInt(raw).Ok? then IdInt(ToInt(raw).value) else raw
  }

  /**
   * The row appended for an item of type `typeid`, `{**item, 'mbti_typeid': typeid,
   * 'mbti_type': typev}`, with the item's id as an integer (only items whose id reads get here).
   */
  function ToRec(item: PtxItem, typeid: int): Rec
    requires typeid in TypeIdMap
  {
    Rec(match ToInt(item.id) case Ok(n) => n case Err(_) => 0, item.rest, typeid, TypeIdMap[typeid])
  }

  /** The records and the id set. */
  datatype Store = Store(records: seq<Rec>, ids: set<int>)

  /** One row: a known id changes nothing, a new one is appended and remembered. */
  function AdmitRec(s: Store, r: Rec): Store
  {
    if r.id in s.ids then s else Store(s.records + [r], s.ids + {r.id})
  }

  function AdmitRecs(s: Store, rs: seq<Rec>): Store
  {
    if rs == [] then s else AdmitRec(AdmitRecs(s, rs[..|rs| - 1]), rs[|rs| - 1])
  }

  lemma AdmitRecsStep(s: Store, rs: seq<Rec>, r: Rec)
    ensures AdmitRecs(s, rs + [r]) == AdmitRec(AdmitRecs(s, rs), r)
  {
    assert (rs + [r])[..|rs|] == rs;
  }

  /**
   * Admitting rows only appends, and every appended row is a row of the input whose id was
   * not in the starting set; afterwards the set holds the starting ids and every input id.
   */
  lemma {:induction false} AdmitRecsGrow(s: Store, rs: seq<Rec>)
    ensures s.records <= AdmitRecs(s, rs).records
    ensures AdmitRecs(s, rs).ids == s.ids + KeySet(rs, RecId)
    ensures var t := AdmitRecs(s, rs).records;
      forall i :: |s.records| <= i < |t| ==> t[i] in rs && t[i].id !in s.ids
  {
    if rs != [] {
      var init := rs[..|rs| - 1];
      AdmitRecsGrow(s, init);
      assert forall x :: x in init ==> x in rs;
      KeySetAppend(init, rs[|rs| - 1], RecId);
      assert init + [rs[|rs| - 1]] == rs;
    }
  }

  /** The rows appended by one run have pairwise different ids, all in the final set. */
  lemma {:induction false} AdmitRecsDistinct(s: Store, rs: seq<Rec>)
    ensures var t := AdmitRecs(s, rs);
      forall i :: |s.records| <= i < |t.records| ==> t.records[i].id in t.ids
    ensures var t := AdmitRecs(s, rs).records;
      forall i, j :: |s.records| <= j < i < |t| ==> t[j].id != t[i].id
  {
    if rs != [] {
      AdmitRecsDistinct(s, rs[..|rs| - 1]);
      AdmitRecsGrow(s, rs[..|rs| - 1]);
    }
  }

  /** An integer id and the same id written as a string admit one row, not two. */
  lemma NormalizedDedup(s: Store, n: int, a: PtxItem, b: PtxItem, typeid: int)
    requires typeid in TypeIdMap
    requires n !in s.ids
    requires a.id == IdInt(n) && b.id == IdStr(IntToString(n))
    ensures AdmitRecs(s, [ToRec(a, typeid), ToRec(b, typeid)]).records == s.records + [ToRec(a, typeid)]
  {
    ToIntAgrees(n);
    var r1, r2 := ToRec(a, typeid), ToRec(b, typeid);
    AdmitRecsStep(s, [], r1);
    AdmitRecsStep(s, [r1], r2);
    assert [] + [r1] == [r1] && [r1] + [r2] == [r1, r2];
  }

  /** Every item's id reads as an integer. */
  ghost predicate AllRead(items: seq<PtxItem>)
  {
    items == [] || (AllRead(items[..|items| - 1]) && ToInt(items[|items| - 1].id).Ok?)
  }

  /** The rows appended for items of type `typeid`, in order. */
  function RecsOf(items: seq<PtxItem>, typeid: int): seq<Rec>
    requires typeid in TypeIdMap
  {
    if items == [] then [] else RecsOf(items[..|items| - 1], typeid) + [ToRec(items[|items| - 1], typeid)]
  }

  /**
   * Every upload in `ups` is the table after the first `m` items of a listing, for some
   * `m` from 1 to `n`: a deploy in the middle of the loop publishes a prefix of its rows.
   */
  ghost predicate UploadedAlong(ups: seq<Upload>, s0: Store, items: seq<PtxItem>, typeid: int, n: nat)
    requires typeid in TypeIdMap && n <= |items|
  {
    forall i :: 0 <= i < |ups| ==>
      exists m :: 1 <= m <= n && ups[i] == Upload(AdmitRecs(s0, RecsOf(items[..m], typeid)).records)
  }

  /** One item later, the uploads so far still qualify, and a new one of the longer prefix does too. */
  lemma UploadedStep(before: seq<Upload>, after: seq<Upload>, p0: seq<Upload>, s0: Store, items: seq<PtxItem>,
                     typeid: int, n: nat, u: Upload)
    requires typeid in TypeIdMap && n < |items| && p0 <= before
    requires UploadedAlong(before[|p0|..], s0, items, typeid, n)
    requires u == Upload(AdmitRecs(s0, RecsOf(items[..n + 1], typeid)).records)
    requires after == before || after == before + [u]
    ensures p0 <= after
    ensures UploadedAlong(after[|p0|..], s0, items, typeid, n + 1)
  {
    var ups := after[|p0|..];
    forall i | 0 <= i < |ups|
      ensures exists m :: 1 <= m <= n + 1 && ups[i] == Upload(AdmitRecs(s0, RecsOf(items[..m], typeid)).records)
    {
      if i < |before| - |p0| {
        assert ups[i] == before[|p0|..][i];
      } else {
        assert ups[i] == u;
      }
    }
  }

  /** One more ingested item extends the admitted rows by its row, and the readable prefix by one. */
  lemma IngestStep(s0: Store, items: seq<PtxItem>, typeid: int, k: nat, before: Store, after: Store)
    requires typeid in TypeIdMap && k < |items|
    requires AllRead(items[..k]) && ToInt(items[k].id).Ok?
    requires before == AdmitRecs(s0, RecsOf(items[..k], typeid))
    requires after == AdmitRec(before, ToRec(items[k], typeid))
    ensures after == AdmitRecs(s0, RecsOf(items[..k + 1], typeid))
    ensures AllRead(items[..k + 1])
  {
    assert items[..k + 1][..k] == items[..k];
    RecsOfStep(items, typeid, k);
    AdmitRecsStep(s0, RecsOf(items[..k], typeid), ToRec(items[k], typeid));
  }

  /** The rows of a listing all carry its type id and that type's name, and come from its items. */
  lemma {:induction false} RecsOfTyped(items: seq<PtxItem>, typeid: int)
    requires typeid in TypeIdMap
    ensures |RecsOf(items, typeid)| == |items|
    ensures forall r :: r in RecsOf(items, typeid) ==> r.typeid == typeid && r.typeName == TypeIdMap[typeid]
    ensures forall i :: 0 <= i < |items| ==> RecsOf(items, typeid)[i].rest == items[i].rest
  {
    if items != [] {
      var init := items[..|items| - 1];
      RecsOfTyped(init, typeid);
      var prev := RecsOf(init, typeid);
      var last := ToRec(items[|items| - 1], typeid);
      var r := prev + [last];
      assert RecsOf(items, typeid) == r;
      forall i | 0 <= i < |items|
        ensures r[i].rest == items[i].rest
      {
        if i < |init| {
          assert r[i] == prev[i] && init[i] == items[i];
        }
      }
      forall x | x in r
        ensures x.typeid == typeid && x.typeName == TypeIdMap[typeid]
      {
        if x !in prev {
          assert x == last;
        }
      }
    }
  }

  lemma RecsOfStep(items: seq<PtxItem>, typeid: int, k: nat)
    requires typeid in TypeIdMap
    requires k < |items|
    ensures RecsOf(items[..k + 1], typeid) == RecsOf(items[..k], typeid) + [ToRec(items[k], typeid)]
  {
    assert items[..k + 1][..k] == items[..k];
  }

  /** What `table.parquet` receives. */
  datatype Upload = Upload(records: seq<Rec>)

  /** The uploaded table: the records sorted by id descending. */
  function Table(u: Upload): seq<Rec>
  {
    SortByKeyDesc(u.records, RecId)
  }

  /** Every record past the loaded ones was listed under a known type and carries that type's name. */
  ghost predicate Typed(rs: seq<Rec>, from: nat)
  {
    forall i :: from <= i < |rs| ==> rs[i].typeid in TypeIdMap && rs[i].typeName == TypeIdMap[rs[i].typeid]
  }

  /**
   * The first `n` pairs of the two loops, in their order, as (type id, index into
   * `DestKeys`): pair `k` is type id `k / 6 + 1` with destination `k % 6`.
   */
  function PairsUpTo(n: nat): (r: seq<(int, nat)>)
    ensures |r| == n
  {
    if n == 0 then [] else PairsUpTo(n - 1) + [((n - 1) / 6 + 1, (n - 1) % 6)]
  }

  lemma {:induction false} PairsUpToIndex(n: nat)
    ensures forall k :: 0 <= k < n ==> PairsUpTo(n)[k] == (k / 6 + 1, k % 6)
  {
    if n > 0 {
      PairsUpToIndex(n - 1);
    }
  }

  /**
   * The 96 pairs of a whole run reach every type id with every destination key (`DestKeys`
   * lists the keys of the table once each), and nothing else.
   */
  lemma PairsCover(n: nat)
    requires n == 96
    ensures forall t, j :: t in TypeIdMap && 0 <= j < 6 ==> (t, j) in PairsUpTo(n)
    ensures forall k :: 0 <= k < n ==> PairsUpTo(n)[k].0 in TypeIdMap && PairsUpTo(n)[k].1 < 6
  {
    TypeIdMapKeys();
    PairsUpToIndex(n);
    var ps := PairsUpTo(n);
    forall t, j | t in TypeIdMap && 0 <= j < 6
      ensures (t, j) in ps
    {
      PairIndex(t, j);
      assert ps[(t - 1) * 6 + j] == (t, j);
    }
    forall k | 0 <= k < n
      ensures ps[k].0 in TypeIdMap && ps[k].1 < 6
    {
      assert 1 <= k / 6 + 1 <= 16;
    }
  }

  /** Type id `t` with destination `j` is pair number `(t - 1) * 6 + j`. */
  lemma PairIndex(t: int, j: nat)
    requires 1 <= t && j < 6
    ensures ((t - 1) * 6 + j) / 6 + 1 == t && ((t - 1) * 6 + j) % 6 == j
  {
  }

  /** No pair is walked twice. */
  lemma PairsDistinct(n: nat)
    ensures forall i, j :: 0 <= i < j < n ==> PairsUpTo(n)[i] != PairsUpTo(n)[j]
  {
    PairsUpToIndex(n);
    var ps := PairsUpTo(n);
    forall i, j | 0 <= i < j < n
      ensures ps[i] != ps[j]
    {
      if ps[i].0 == ps[j].0 {
        assert i / 6 == j / 6;
        assert i % 6 != j % 6;
      }
    }
  }

  /** Admitting two lists of rows one after the other is admitting their concatenation. */
  lemma {:induction false} AdmitRecsConcat(s: Store, a: seq<Rec>, b: seq<Rec>)
    ensures AdmitRecs(s, a + b) == AdmitRecs(AdmitRecs(s, a), b)
    decreases |b|
  {
    if b == [] {
      assert a + b == a;
    } else {
      var init, last := b[..|b| - 1], b[|b| - 1];
      AdmitRecsConcat(s, a, init);
      assert b == init + [last] && a + b == (a + init) + [last];
      AdmitRecsStep(s, a + init, last);
      AdmitRecsStep(AdmitRecs(s, a), init, last);
    }
  }

  /**
   * What one (type id, destination) pair did: the request its listing walk started from,
   * the pages it fetched, the items the generator yielded from them, how many of those were
   * ingested, and whether it ended with a raise. The destination is `DestKeys[slot]`.
   */
  datatype PairRun = PairRun(typeid: int, slot: nat, query: Query, pages: seq<PtxPage>, items: seq<PtxItem>, consumed: nat, raised: bool)

  predicate RunShaped(r: PairRun)
  {
    r.typeid in TypeIdMap && r.slot < 6 && r.consumed <= |r.items|
  }

  /** The first request `iter_ptx_from_cursor(typeid, DestKeys[slot])` sends: limit 100, no cursor. */
  function PairQuery(typeid: int, slot: nat): (q: Query)
    requires typeid in TypeIdMap && slot < 6
    ensures q.typeid == typeid && q.limit == 100 && q.cursor == ""
    ensures q.destination == Lower(TypeIdMap[typeid]) + "-" + DestName(DestKeys[slot])
  {
    Query(typeid, Destination(typeid, DestKeys[slot]).value, 100, "")
  }

  /** Every pair's walk started from the request its type id and destination call for. */
  ghost predicate Targeted(runs: seq<PairRun>)
    decreases |runs|
  {
    runs == [] ||
      var r := runs[|runs| - 1];
      Targeted(runs[..|runs| - 1]) && (RunShaped(r) ==> r.query == PairQuery(r.typeid, r.slot))
  }

  lemma {:induction false} TargetedAt(runs: seq<PairRun>)
    requires Targeted(runs)
    ensures forall k :: 0 <= k < |runs| && RunShaped(runs[k]) ==> runs[k].query == PairQuery(runs[k].typeid, runs[k].slot)
    decreases |runs|
  {
    if runs != [] {
      var n := |runs| - 1;
      TargetedAt(runs[..n]);
      forall k | 0 <= k < |runs| && RunShaped(runs[k])
        ensures runs[k].query == PairQuery(runs[k].typeid, runs[k].slot)
      {
        if k < n {
          assert runs[k] == runs[..n][k];
        } else {
          assert k == n;
        }
      }
    }
  }

  lemma {:induction false} TargetedConcat(a: seq<PairRun>, b: seq<PairRun>)
    requires Targeted(a) && Targeted(b)
    ensures Targeted(a + b)
    decreases |b|
  {
    if b == [] {
      assert a + b == a;
    } else {
      var n := |b| - 1;
      TargetedConcat(a, b[..n]);
      assert (a + b)[..|a| + n] == a + b[..n];
      assert (a + b)[|a| + n] == b[n];
    }
  }

  /**
   * The pair was walked as `iter_ptx_from_cursor` walks it from `query` (at most 10 pages
   * without news) and its items were ingested up to the first id
   * that does not read. The walk stopped either of itself (no cursor, or 10 pages without
   * news) or, when it could still go on, because the next request failed (`StoppedByError`).
   * The pair raised when an id did not read or the walk could still go on; otherwise every
   * item was ingested and the walk ended of itself.
   */
  ghost predicate PairRan(fetch: Fetch, r: PairRun)
  {
    && RunShaped(r)
    && PtxWalked(fetch, r.query, r.pages, 10, Normalized)
    && r.items == ScanPages(r.pages, Normalized).yielded
    && AllRead(r.items[..r.consumed])
    && (r.consumed < |r.items| ==> ToInt(r.items[r.consumed].id).Err?)
    && (r.raised <==> r.consumed < |r.items| || CanContinue(r.pages, 10, Normalized))
  }

  /**
   * A pair that raised although every id read raised because the request for its next page
   * (the first one included) failed. By `PairRan`, that is the case of a walk that stopped
   * while it could still go on.
   */
  ghost predicate StoppedByError(fetch: Fetch, r: PairRun)
  {
    r.raised && r.consumed == |r.items| ==> fetch(r.query.(cursor := NextCursor(r.query.cursor, r.pages))).Err?
  }

  /** The rows a pair's ingested items offer. */
  function RunRecs(r: PairRun): seq<Rec>
  {
    if RunShaped(r) then RecsOf(r.items[..r.consumed], r.typeid) else []
  }

  /** The rows the ingested items of a sequence of pairs offer, in order. */
  function Ingested(runs: seq<PairRun>): seq<Rec>
  {
    FlatMap(runs, RunRecs)
  }

  /**
   * `r` is pair number `k` of the two nested loops: destination `r.slot` of type id `r.typeid`
   * comes after the six destinations of each type id before it.
   */
  predicate Numbered(r: PairRun, k: int)
  {
    r.slot < 6 && (r.typeid - 1) * 6 + r.slot == k
  }

  /** Pair number `k` is type id `k / 6 + 1` with destination `k % 6`. */
  lemma NumberedPairs(runs: seq<PairRun>)
    requires forall k :: 0 <= k < |runs| ==> Numbered(runs[k], k)
    ensures forall k :: 0 <= k < |runs| ==> runs[k].typeid == k / 6 + 1 && runs[k].slot == k % 6
  {
    forall k | 0 <= k < |runs|
      ensures runs[k].typeid == k / 6 + 1 && runs[k].slot == k % 6
    {
      PairIndex(runs[k].typeid, runs[k].slot);
    }
  }

  /**
   * The pairs of type id `t` follow on from those of the type ids before it, numbered as the
   * nested loops number them, and only the last pair may have raised.
   */
  lemma RunsAppend(fetch: Fetch, a: seq<PairRun>, b: seq<PairRun>, ab: seq<PairRun>, t: int)
    requires ab == a + b
    requires 1 <= t && |a| == (t - 1) * 6 && 1 <= |b| <= 6
    requires forall k :: 0 <= k < |a| ==>
      PairRan(fetch, a[k]) && Numbered(a[k], k) && !a[k].raised
    requires forall k :: 0 <= k < |b| ==> PairRan(fetch, b[k]) && b[k].typeid == t && b[k].slot == k
    requires forall k :: 0 <= k < |b| - 1 ==> !b[k].raised
    ensures forall k :: 0 <= k < |ab| ==> PairRan(fetch, ab[k]) && Numbered(ab[k], k)
    ensures forall k :: 0 <= k < |ab| - 1 ==> !ab[k].raised
    ensures !b[|b| - 1].raised ==> forall k :: 0 <= k < |ab| ==>
      PairRan(fetch, ab[k]) && Numbered(ab[k], k) && !ab[k].raised
  {
    forall k | 0 <= k < |ab|
      ensures PairRan(fetch, ab[k]) && Numbered(ab[k], k)
      ensures k < |ab| - 1 || !b[|b| - 1].raised ==> !ab[k].raised
    {
      if k < |a| {
        assert ab[k] == a[k];
      } else {
        assert ab[k] == b[k - |a|];
        if k == |ab| - 1 {
          assert k - |a| == |b| - 1;
        }
      }
    }
  }

  /** One more pair of type id `typeid`, after pairs that all ran to their end. */
  lemma RunsSnoc(fetch: Fetch, typeid: int, runs: seq<PairRun>, run: PairRun)
    requires forall k :: 0 <= k < |runs| ==>
      PairRan(fetch, runs[k]) && runs[k].typeid == typeid && runs[k].slot == k && !runs[k].raised
    requires PairRan(fetch, run) && run.typeid == typeid && run.slot == |runs|
    ensures forall k :: 0 <= k < |runs + [run]| ==>
      PairRan(fetch, (runs + [run])[k]) && (runs + [run])[k].typeid == typeid && (runs + [run])[k].slot == k
    ensures forall k :: 0 <= k < |runs + [run]| - 1 ==> !(runs + [run])[k].raised
    ensures !run.raised ==> forall k :: 0 <= k < |runs + [run]| ==> !(runs + [run])[k].raised
  {
    forall k | 0 <= k < |runs| + 1
      ensures PairRan(fetch, (runs + [run])[k]) && (runs + [run])[k].typeid == typeid && (runs + [run])[k].slot == k
      ensures k < |runs| || !run.raised ==> !(runs + [run])[k].raised
    {
      if k < |runs| {
        assert (runs + [run])[k] == runs[k];
      } else {
        assert k == |runs|;
        assert (runs + [run])[k] == run;
      }
    }
  }

  class PdbSync {
    var records: seq<Rec>
    var existIds: set<int>
    var hasUpdate: bool
    /** `_last_update`. */
    var lastUpdate: Option<int>
    /** `_total_count`. */
    var totalCount: nat
    const deploySpan: int
    /** The table loaded at start. */
    ghost const loaded: seq<Rec>
    /** What the repository holds: the loaded state, then the last upload. */
    ghost var uploaded: Upload
    /** Every upload of this run, oldest first. */
    ghost var published: seq<Upload>

    ghost predicate Valid()
      reads this
    {
      && |loaded| <= |records| && records[..|loaded|] == loaded
      && existIds == KeySet(records, RecId)
      && FreshFrom(records, RecId, |loaded|)
      && Typed(records, |loaded|)
      && (!hasUpdate ==> uploaded == Upload(records))
      && (forall u :: u in published ==>
            (|loaded| <= |u.records| && u.records[..|loaded|] == loaded && FreshFrom(u.records, RecId, |loaded|)))
    }

    /** The state after loading `table.parquet` (empty when absent). */
    constructor (loaded: seq<Rec>, deploySpan: int)
      ensures Valid()
      ensures records == loaded && existIds == KeySet(loaded, RecId)
      ensures !hasUpdate && lastUpdate.None? && totalCount == |loaded|
      ensures this.deploySpan == deploySpan && this.loaded == loaded
      ensures uploaded == Upload(loaded) && published == []
    {
      records := loaded;
      existIds := KeySet(loaded, RecId);
      hasUpdate := false;
      lastUpdate := None;
      totalCount := |loaded|;
      this.deploySpan := deploySpan;
      this.loaded := loaded;
      uploaded := Upload(loaded);
      published := [];
      assert loaded[..|loaded|] == loaded;
    }

    /**
     * The effect of `_deploy(force)` at time `now` with `pending` updates: when the gate
     * opens, the table is uploaded, the flag cleared, the time stamped with the clock reading
     * `stamp` after the upload and the total reset; otherwise nothing changes.
     */
    twostate predicate Deployed(pending: bool, now: int, stamp: int, force: bool)
      reads this
    {
      if GateOpen(pending, old(lastUpdate), deploySpan, now, force) then
        && !hasUpdate && lastUpdate == Some(stamp) && totalCount == |records|
        && uploaded == Upload(records) && published == old(published) + [uploaded]
      else
        && hasUpdate == pending && lastUpdate == old(lastUpdate) && totalCount == old(totalCount)
        && uploaded == old(uploaded) && published == old(published)
    }

    /** `_deploy(force)`: `now` is the clock at the gate, `stamp` the clock after the upload. */
    method Deploy(force: bool, now: int, stamp: int)
      requires Valid()
      modifies this
      ensures Valid()
      ensures records == old(records) && existIds == old(existIds)
      ensures Deployed(old(hasUpdate), now, stamp, force)
    {
      if !hasUpdate {
        return;
      }
      if !force && lastUpdate.Some? && lastUpdate.value + deploySpan > now {
        return;
      }
      uploaded := Upload(records);
      published := published + [uploaded];
      hasUpdate := false;
      lastUpdate := Some(stamp);
      totalCount := |records|;
    }

    /**
     * The body of the innermost loop for one item, up to the deploy: the id is made an
     * integer (a failure raises, reported as `false`), and a profile with a new id is
     * appended with its type.
     */
    method Ingest(item: PtxItem, typeid: int) returns (ok: bool)
      requires Valid()
      requires typeid in TypeIdMap
      modifies this
      ensures Valid()
      ensures ok <==> ToInt(item.id).Ok?
      ensures !ok ==> records == old(records) && existIds == old(existIds) && hasUpdate == old(hasUpdate)
      ensures ok ==> Store(records, existIds) == AdmitRec(old(Store(records, existIds)), ToRec(item, typeid))
      ensures ok ==> hasUpdate == (old(hasUpdate) || ToInt(item.id).value !in old(existIds))
      ensures lastUpdate == old(lastUpdate) && totalCount == old(totalCount)
      ensures uploaded == old(uploaded) && published == old(published)
    {
      var id := ToInt(item.id);
      if id.Err? {
        return false;
      }
      ok := true;
      if id.value in existIds {
        return;
      }
      var rec := ToRec(item, typeid);
      FreshAppend(records, rec, RecId, |loaded|);
      KeySetAppend(records, rec, RecId);
      assert (records + [rec])[..|loaded|] == records[..|loaded|];
      records := records + [rec];
      existIds := existIds + {id.value};
      hasUpdate := true;
    }

    /**
     * The loop over a listing's items: each one is ingested and followed by an unforced
     * deploy, two clock readings per item. It stops at the first id that does not read.
     */
    method IngestItems(items: seq<PtxItem>, typeid: int, clock: nat -> int, tick: nat)
      returns (consumed: nat, tickOut: nat)
      requires Valid()
      requires typeid in TypeIdMap
      modifies this
      ensures Valid()
      ensures consumed <= |items| && tickOut == tick + 2 * consumed
      ensures AllRead(items[..consumed])
      ensures consumed < |items| ==> ToInt(items[consumed].id).Err?
      ensures Store(records, existIds) == AdmitRecs(old(Store(records, existIds)), RecsOf(items[..consumed], typeid))
      ensures old(records) <= records && old(published) <= published
      ensures !hasUpdate ==> uploaded == Upload(records)
      ensures UploadedAlong(published[|old(published)|..], old(Store(records, existIds)), items, typeid, consumed)
    {
      ghost var s0 := Store(records, existIds);
      ghost var p0 := published;
      tickOut, consumed := tick, 0;
      while consumed < |items|
        invariant consumed <= |items| && tickOut == tick + 2 * consumed
        invariant Valid()
        invariant AllRead(items[..consumed])
        invariant Store(records, existIds) == AdmitRecs(s0, RecsOf(items[..consumed], typeid))
        invariant old(records) <= records && p0 <= published
        invariant UploadedAlong(published[|p0|..], s0, items, typeid, consumed)
      {
        ghost var st := Store(records, existIds);
        var ok := Ingest(items[consumed], typeid);
        if !ok {
          return;
        }
        IngestStep(s0, items, typeid, consumed, st, Store(records, existIds));
        ghost var before := published;
        Deploy(false, clock(tickOut), clock(tickOut + 1));
        UploadedStep(before, published, p0, s0, items, typeid, consumed, Upload(records));
        tickOut := tickOut + 2;
        consumed := consumed + 1;
      }
    }

    /**
     * One (type id, destination) pair: the listing is walked with limit 100, an empty initial
     * cursor and at most 10 pages without news, and its items are ingested. `failed` says the
     * walk or an id raised, which ends the whole run.
     */
    method SyncPair(typeid: int, dest: string, fetch: Fetch, clock: nat -> int, tick: nat, ghost rank: string -> nat)
      returns (tickOut: nat, failed: bool, items: seq<PtxItem>, consumed: nat, ghost pages: seq<PtxPage>)
      requires Valid()
      requires typeid in TypeIdMap
      requires Ranked(fetch, rank)
      modifies this
      ensures Valid()
      ensures tickOut >= tick
      ensures old(records) <= records && old(published) <= published
      ensures PtxWalked(fetch, Query(typeid, Destination(typeid, dest).value, 100, ""), pages, 10, Normalized)
      ensures items == ScanPages(pages, Normalized).yielded
      ensures consumed <= |items| && AllRead(items[..consumed])
      ensures Store(records, existIds) == AdmitRecs(old(Store(records, existIds)), RecsOf(items[..consumed], typeid))
      ensures consumed < |items| ==> ToInt(items[consumed].id).Err?
      ensures CanContinue(pages, 10, Normalized) ==>
        fetch(Query(typeid, Destination(typeid, dest).value, 100, NextCursor("", pages))).Err?
      ensures failed <==> consumed < |items| || CanContinue(pages, 10, Normalized)
    {
      var fetchFailed;
      items, fetchFailed, pages := IterPtx(typeid, dest, 100, "", 10, fetch, Normalized, rank);
      consumed, tickOut := IngestItems(items, typeid, clock, tick);
      failed := consumed < |items| || fetchFailed;
    }

    /**
     * One turn of the loop over the destinations of type id `typeid`: the pair in the next
     * slot, on top of the pairs walked before it, none of which raised.
     */
    method PairStep(typeid: int, slot: nat, fetch: Fetch, clock: nat -> int, tick: nat, ghost rank: string -> nat,
                    ghost s0: Store, ghost runs: seq<PairRun>)
      returns (tickOut: nat, failed: bool, ghost runs': seq<PairRun>)
      requires Valid()
      requires Ranked(fetch, rank)
      requires typeid in TypeIdMap && slot == |runs| < 6
      requires forall k :: 0 <= k < |runs| ==>
        PairRan(fetch, runs[k]) && runs[k].typeid == typeid && runs[k].slot == k && !runs[k].raised
      requires Targeted(runs)
      requires Store(records, existIds) == AdmitRecs(s0, Ingested(runs))
      modifies this
      ensures Valid()
      ensures tickOut >= tick
      ensures old(records) <= records && old(published) <= published
      ensures |runs'| == |runs| + 1
      ensures forall k :: 0 <= k < |runs'| ==>
        PairRan(fetch, runs'[k]) && runs'[k].typeid == typeid && runs'[k].slot == k
      ensures forall k :: 0 <= k < |runs'| - 1 ==> !runs'[k].raised
      ensures !failed ==> forall k :: 0 <= k < |runs'| ==> !runs'[k].raised
      ensures Targeted(runs')
      ensures failed <==> runs'[|runs'| - 1].raised
      ensures StoppedByError(fetch, runs'[|runs'| - 1])
      ensures Store(records, existIds) == AdmitRecs(s0, Ingested(runs'))
    {
      var items, consumed;
      ghost var pages;
      tickOut, failed, items, consumed, pages := SyncPair(typeid, DestKeys[slot], fetch, clock, tick, rank);
      ghost var run := PairRun(typeid, slot, PairQuery(typeid, slot), pages, items, consumed, failed);
      FlatMapConcat(runs, [run], RunRecs);
      AdmitRecsConcat(s0, Ingested(runs), RunRecs(run));
      assert Ingested([run]) == RunRecs(run);
      RunsSnoc(fetch, typeid, runs, run);
      TargetedConcat(runs, [run]);
      runs' := runs + [run];
    }

    /**
     * The loop over the destinations of one type id: `runs` records each pair walked, in
     * `DestKeys` order; every pair but the last ran to its end, and the last one did unless
     * the run failed. The table is the old one with the rows of every pair admitted in order.
     */
    method SyncType(typeid: int, fetch: Fetch, clock: nat -> int, tick: nat, ghost rank: string -> nat)
      returns (tickOut: nat, failed: bool, ghost runs: seq<PairRun>)
      requires Valid()
      requires typeid in TypeIdMap
      requires Ranked(fetch, rank)
      modifies this
      ensures Valid()
      ensures tickOut >= tick
      ensures old(records) <= records && old(published) <= published
      ensures 1 <= |runs| <= |DestKeys| && (!failed ==> |runs| == |DestKeys|)
      ensures forall k :: 0 <= k < |runs| ==>
        PairRan(fetch, runs[k]) && runs[k].typeid == typeid && runs[k].slot == k
      ensures forall k :: 0 <= k < |runs| - 1 ==> !runs[k].raised
      ensures Targeted(runs)
      ensures failed <==> runs[|runs| - 1].raised
      ensures StoppedByError(fetch, runs[|runs| - 1])
      ensures Store(records, existIds) == AdmitRecs(old(Store(records, existIds)), Ingested(runs))
    {
      ghost var s0 := Store(records, existIds);
      tickOut, failed, runs := tick, false, [];
      var j: nat := 0;
      while j < |DestKeys| && !failed
        invariant j <= |DestKeys| && |runs| == j && (j == 0 ==> !failed)
        invariant Valid() && tickOut >= tick
        invariant old(records) <= records && old(published) <= published
        invariant forall k :: 0 <= k < |runs| ==>
          PairRan(fetch, runs[k]) && runs[k].typeid == typeid && runs[k].slot == k
        invariant forall k :: 0 <= k < |runs| - 1 ==> !runs[k].raised
        invariant !failed ==> forall k :: 0 <= k < |runs| ==> !runs[k].raised
        invariant Targeted(runs)
        invariant 0 < |runs| ==> (failed <==> runs[|runs| - 1].raised) && StoppedByError(fetch, runs[|runs| - 1])
        invariant Store(records, existIds) == AdmitRecs(s0, Ingested(runs))
      {
        tickOut, failed, runs := PairStep(typeid, j, fetch, clock, tickOut, rank, s0, runs);
        j := j + 1;
      }
    }

    /** One turn of the loop over the type ids, on top of the pairs walked before it. */
    method TypeStep(typeid: int, fetch: Fetch, clock: nat -> int, tick: nat, ghost rank: string -> nat,
                    ghost s0: Store, ghost runs: seq<PairRun>)
      returns (tickOut: nat, failed: bool, ghost runs': seq<PairRun>)
      requires Valid()
      requires Ranked(fetch, rank)
      requires 1 <= typeid <= 16 && |runs| == 6 * (typeid - 1)
      requires forall k :: 0 <= k < |runs| ==>
        PairRan(fetch, runs[k]) && Numbered(runs[k], k) && !runs[k].raised
      requires Targeted(runs)
      requires Store(records, existIds) == AdmitRecs(s0, Ingested(runs))
      modifies this
      ensures Valid()
      ensures old(records) <= records && old(published) <= published
      ensures |runs| < |runs'| <= |runs| + 6 && (!failed ==> |runs'| == |runs| + 6)
      ensures 0 < |runs'| <= 96
      ensures forall k :: 0 <= k < |runs'| ==>
        PairRan(fetch, runs'[k]) && Numbered(runs'[k], k)
      ensures forall k :: 0 <= k < |runs'| - 1 ==> !runs'[k].raised
      ensures failed <==> runs'[|runs'| - 1].raised
      ensures StoppedByError(fetch, runs'[|runs'| - 1])
      ensures !failed ==> forall k :: 0 <= k < |runs'| ==>
        PairRan(fetch, runs'[k]) && Numbered(runs'[k], k) && !runs'[k].raised
      ensures Targeted(runs')
      ensures Store(records, existIds) == AdmitRecs(s0, Ingested(runs'))
    {
      TypeIdMapKeys();
      ghost var rs;
      tickOut, failed, rs := SyncType(typeid, fetch, clock, tick, rank);
      FlatMapConcat(runs, rs, RunRecs);
      AdmitRecsConcat(s0, Ingested(runs), Ingested(rs));
      runs' := runs + rs;
      RunsAppend(fetch, runs, rs, runs', typeid);
      TargetedConcat(runs, rs);
      TypeStepLast(fetch, runs, rs, runs', typeid, failed);
    }

    /** The pairs of one more type id end the pairs walked so far: their count, and the last pair. */
    lemma TypeStepLast(fetch: Fetch, runs: seq<PairRun>, rs: seq<PairRun>, runs': seq<PairRun>, typeid: int, failed: bool)
      requires runs' == runs + rs
      requires 1 <= typeid <= 16 && |runs| == 6 * (typeid - 1)
      requires 1 <= |rs| <= |DestKeys| && (!failed ==> |rs| == |DestKeys|)
      requires failed <==> rs[|rs| - 1].raised
      requires StoppedByError(fetch, rs[|rs| - 1])
      ensures |runs| < |runs'| <= |runs| + 6 && (!failed ==> |runs'| == |runs| + 6)
      ensures 0 < |runs'| <= 96
      ensures failed <==> runs'[|runs'| - 1].raised
      ensures StoppedByError(fetch, runs'[|runs'| - 1])
    {
      assert runs'[|runs'| - 1] == rs[|rs| - 1];
    }

    /**
     * The loop over the type ids: every type id in order, every destination in order, until
     * a pair raises. `runs` records each pair walked; the table is the old one with the rows
     * of every pair admitted in order.
     */
    method SyncTypes(fetch: Fetch, clock: nat -> int, ghost rank: string -> nat)
      returns (tick: nat, failed: bool, ghost runs: seq<PairRun>)
      requires Valid()
      requires Ranked(fetch, rank)
      modifies this
      ensures Valid()
      ensures old(records) <= records && old(published) <= published
      ensures 0 < |runs| <= 96 && (!failed ==> |runs| == 96)
      ensures forall k :: 0 <= k < |runs| ==>
        PairRan(fetch, runs[k]) && Numbered(runs[k], k)
      ensures forall k :: 0 <= k < |runs| - 1 ==> !runs[k].raised
      ensures failed <==> runs[|runs| - 1].raised
      ensures StoppedByError(fetch, runs[|runs| - 1])
      ensures Targeted(runs)
      ensures Store(records, existIds) == AdmitRecs(old(Store(records, existIds)), Ingested(runs))
    {
      ghost var s0 := Store(records, existIds);
      tick, failed, runs := 0, false, [];
      var typeid := 1;
      while typeid <= 16
        invariant 1 <= typeid <= 17 && !failed
        invariant Valid()
        invariant old(records) <= records && old(published) <= published
        invariant |runs| == 6 * (typeid - 1)
        invariant forall k :: 0 <= k < |runs| ==>
          PairRan(fetch, runs[k]) && Numbered(runs[k], k) && !runs[k].raised
        invariant 0 < |runs| ==> StoppedByError(fetch, runs[|runs| - 1])
        invariant Targeted(runs)
        invariant Store(records, existIds) == AdmitRecs(s0, Ingested(runs))
      {
        tick, failed, runs := TypeStep(typeid, fetch, clock, tick, rank, s0, runs);
        if failed {
          return;
        }
        typeid := typeid + 1;
      }
    }

    /**
     * `sync` after the loading: the loop over the type ids, then a forced deploy unless a
     * pair raised. `visited` lists the pairs walked and `runs` what each did.
     */
    method Sync(fetch: Fetch, clock: nat -> int, ghost rank: string -> nat)
      returns (failed: bool, ghost visited: seq<(int, nat)>, ghost runs: seq<PairRun>)
      requires Valid()
      requires Ranked(fetch, rank)
      modifies this
      ensures Valid()
      ensures old(records) <= records && old(published) <= published
      ensures 0 < |visited| <= 96 && visited == PairsUpTo(|visited|) && |runs| == |visited|
      ensures forall k :: 0 <= k < |runs| ==>
        PairRan(fetch, runs[k]) && runs[k].typeid == k / 6 + 1 && runs[k].slot == k % 6
      ensures forall k :: 0 <= k < |runs| ==> runs[k].query == PairQuery(k / 6 + 1, k % 6)
      ensures forall k :: 0 <= k < |runs| - 1 ==> !runs[k].raised
      ensures failed <==> runs[|runs| - 1].raised
      ensures StoppedByError(fetch, runs[|runs| - 1])
      ensures Store(records, existIds) == AdmitRecs(old(Store(records, existIds)), Ingested(runs))
      ensures !failed ==> |visited| == 96 && !hasUpdate && uploaded == Upload(records)
      ensures forall i :: |old(records)| <= i < |records| ==>
        RecId(records[i]) !in old(existIds) && records[i].typeid in TypeIdMap
          && records[i].typeName == TypeIdMap[records[i].typeid]
    {
      ghost var r0 := records;
      var tick;
      tick, failed, runs := SyncTypes(fetch, clock, rank);
      visited := PairsUpTo(|runs|);
      TargetedAt(runs);
      NumberedPairs(runs);
      if !failed {
        Deploy(true, clock(tick), clock(tick + 1));
      }
      NewRowsFresh(records, loaded, r0);
    }
  }

  /** Rows past a prefix `r0` of a fresh-from-loaded table have ids outside `KeySet(r0)`. */
  lemma NewRowsFresh(records: seq<Rec>, loaded: seq<Rec>, r0: seq<Rec>)
    requires |loaded| <= |r0| && r0 <= records
    requires FreshFrom(records, RecId, |loaded|)
    ensures forall i :: |r0| <= i < |records| ==> RecId(records[i]) !in KeySet(r0, RecId)
  {
    FreshNotInPrefix(records, RecId, |loaded|, |r0|);
    assert records[..|r0|] == r0;
  }

  /**
   * Every upload of a run whose loaded table had no duplicate id publishes each profile
   * once, in strictly descending id order.
   */
  lemma PublishedTable(loaded: seq<Rec>, u: Upload)
    requires DistinctKeys(loaded, RecId)
    requires |loaded| <= |u.records| && u.records[..|loaded|] == loaded && FreshFrom(u.records, RecId, |loaded|)
    ensures multiset(Table(u)) == multiset(u.records)
    ensures forall i, j :: 0 <= i < j < |Table(u)| ==> Table(u)[i].id > Table(u)[j].id
  {
    SortedTableStrict(u.records, RecId, |loaded|);
  }
}
