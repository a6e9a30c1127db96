/**
 * The imgflip template index (`scrappers/imgflip/index.py`): a dictionary of records keyed
 * by template id, a set of known caption URLs that decides which list entries are fetched
 * at all, a fill-missing merge for `alt_names` and `default_settings`, and the gated
 * publish of the table sorted by id descending.
 */
module ImgflipIndex {
  import opened Wrappers
  import opened Ledger
  import opened Sorting
  import opened ImgflipPage

  /** One row of the index table: a list entry merged with its generator record. */
  datatype Rec = Rec(
    id: int,
    pid: string,
    title: string,
    memeUrl: string,
    thumbnailUrl: string,
    captionUrl: string,
    name: string,
    altNames: Option<string>,
    urlName: Option<string>,
    defaultSettings: Option<Json>,
    height: int,
    width: int,
    isSfw: bool,
    fileType: string,
    imageUrl: string)

  function RecId(r: Rec): int { r.id }

  /** `{**item, **vitem}`: the generator's fields win, the list entry supplies the rest. */
  function Merge(item: TemplateRef, g: Generator): (r: Rec)
    ensures r.id == g.template.id && r.captionUrl == item.captionUrl && r.pid == item.pid
    ensures r.altNames == g.template.altNames && r.defaultSettings == g.template.defaultSettings
    ensures r.imageUrl == g.imageUrl
  {
    var t := g.template;
    Rec(t.id, item.pid, item.title, item.memeUrl, item.thumbnailUrl, item.captionUrl,
        t.name, t.altNames, t.urlName, t.defaultSettings, t.height, t.width, t.isSfw,
        t.fileType, g.imageUrl)
  }

  /** Python's truth value of a string and of a decoded JSON value. */
  predicate NonEmpty(x: string) { x != "" }

  predicate Truthy(x: Json) { x.truthy }

  /** Python's `not x` on an optional value whose truth value `truthy` gives. */
  predicate Falsy<T>(x: Option<T>, truthy: T -> bool)
  {
    x.None? || !truthy(x.value)
  }

  /** One field of the merge: the stored value is replaced only when falsy and the new one is not. */
  function FillField<T>(stored: Option<T>, incoming: Option<T>, truthy: T -> bool): Option<T>
  {
    if Falsy(stored, truthy) && !Falsy(incoming, truthy) then incoming else stored
  }

  /** The two fill steps of `_fn` applied to the stored record `base`. */
  function FillMissing(base: Rec, cur: Rec): (r: Rec)
    ensures r == base.(altNames := r.altNames, defaultSettings := r.defaultSettings)
  {
    base.(altNames := FillField(base.altNames, cur.altNames, NonEmpty),
          defaultSettings := FillField(base.defaultSettings, cur.defaultSettings, Truthy))
  }

  /**
   * A filled field changes exactly when it was empty and the incoming value is not; a
   * non-empty field is never overwritten, and filling twice with the same record changes
   * nothing more.
   */
  lemma FillFieldProperties<T>(stored: Option<T>, incoming: Option<T>, truthy: T -> bool)
    ensures FillField(stored, incoming, truthy) != stored <==> Falsy(stored, truthy) && !Falsy(incoming, truthy)
    ensures !Falsy(stored, truthy) ==> FillField(stored, incoming, truthy) == stored
    ensures FillField(FillField(stored, incoming, truthy), incoming, truthy) == FillField(stored, incoming, truthy)
    ensures !Falsy(incoming, truthy) ==> !Falsy(FillField(stored, incoming, truthy), truthy)
  {
  }

  /** The merge changes the stored record exactly when one of the two fills happens. */
  lemma FillMissingChanges(base: Rec, cur: Rec)
    ensures FillMissing(base, cur) != base <==>
      (Falsy(base.altNames, NonEmpty) && !Falsy(cur.altNames, NonEmpty)) ||
      (Falsy(base.defaultSettings, Truthy) && !Falsy(cur.defaultSettings, Truthy))
    ensures FillMissing(FillMissing(base, cur), cur) == FillMissing(base, cur)
  {
    FillFieldProperties(base.altNames, cur.altNames, NonEmpty);
    FillFieldProperties(base.defaultSettings, cur.defaultSettings, Truthy);
    if FillMissing(base, cur) == base {
      assert FillMissing(base, cur).altNames == base.altNames;
      assert FillMissing(base, cur).defaultSettings == base.defaultSettings;
    }
  }

  /** The record stored under `rec.id` after the locked section of `_fn`. */
  function Stored(d: map<int, Rec>, rec: Rec): (r: Rec)
    ensures rec.id !in d ==> r == rec
    ensures rec.id in d ==> r == FillMissing(d[rec.id], rec)
  {
    FillMissing(if rec.id in d then d[rec.id] else rec, rec)
  }

  /** `{item['id']: item for item in df.to_dict('records')}`: a later row wins. */
  function MapOfRecords(rs: seq<Rec>): (d: map<int, Rec>)
    ensures forall i :: 0 <= i < |rs| ==> rs[i].id in d
    ensures forall k :: k in d ==> d[k].id == k
  {
    if rs == [] then map[]
    else
      var last := rs[|rs| - 1];
      MapOfRecords(rs[..|rs| - 1])[last.id := last]
  }

  /** Every stored record is one of the rows it was built from. */
  lemma {:induction false} MapOfRecordsFromRows(rs: seq<Rec>)
    ensures forall k :: k in MapOfRecords(rs) ==> MapOfRecords(rs)[k] in rs
  {
    if rs != [] {
      var init := rs[..|rs| - 1];
      MapOfRecordsFromRows(init);
      assert forall r :: r in init ==> r in rs;
      assert rs[|rs| - 1] in rs;
    }
  }

  /** The caption URLs of a record list (`set(df['caption_url'])`). */
  function Captions(rs: seq<Rec>): (cs: set<string>)
    ensures forall i :: 0 <= i < |rs| ==> rs[i].captionUrl in cs
  {
    if rs == [] then {} else Captions(rs[..|rs| - 1]) + {rs[|rs| - 1].captionUrl}
  }

  /** Every known caption URL is the caption URL of one of the rows. */
  lemma {:induction false} CaptionsFromRows(rs: seq<Rec>)
    ensures forall c :: c in Captions(rs) ==> exists i :: 0 <= i < |rs| && rs[i].captionUrl == c
  {
    if rs != [] {
      var init := rs[..|rs| - 1];
      CaptionsFromRows(init);
      forall c | c in Captions(rs)
        ensures exists i :: 0 <= i < |rs| && rs[i].captionUrl == c
      {
        if c in Captions(init) {
          var i :| 0 <= i < |init| && init[i].captionUrl == c;
          assert rs[i] == init[i];
        } else {
          assert rs[|rs| - 1].captionUrl == c;
        }
      }
    }
  }

  /** The table a publish uploads: every stored record, sorted by id descending. */
  ghost function Snapshot(d: map<int, Rec>): seq<Rec>
  {
    SortByKeyDesc(MapValues(d), RecId)
  }

  /**
   * Because the table is keyed by id, the published table has no duplicate id; it is sorted
   * by id descending and holds exactly the stored records.
   */
  lemma SnapshotProperties(d: map<int, Rec>)
    requires forall k :: k in d ==> d[k].id == k
    ensures DistinctKeys(Snapshot(d), RecId)
    ensures forall i, j :: 0 <= i < j < |Snapshot(d)| ==> Snapshot(d)[i].id > Snapshot(d)[j].id
    ensures |Snapshot(d)| == |d|
    ensures forall k :: k in d ==> d[k] in Snapshot(d)
    ensures forall r :: r in Snapshot(d) ==> r.id in d && d[r.id] == r
  {
    var v := MapValues(d);
    var s := Snapshot(d);
    MapValuesProperties(d, RecId);
    PermutationKeepsDistinct(v, s, RecId);
    assert |s| == |multiset(s)| == |multiset(v)| == |v|;
    forall k | k in d ensures d[k] in s {
      assert d[k] in multiset(v);
    }
    forall r | r in s ensures r.id in d && d[r.id] == r {
      assert r in multiset(v);
    }
    forall i, j | 0 <= i < j < |s| ensures s[i].id > s[j].id {
      assert RecId(s[i]) != RecId(s[j]);
    }
  }

  /** `get_generator_info(caption_url)`: a generator record, none, or the error it raised. */
  type Fetch = string -> Result<Option<Generator>>

  /** `get_generator_info(caption_url)` returns a generator record (it may also raise or find none). */
  predicate Fetched(fetch: Fetch, url: string)
  {
    fetch(url).Ok? && fetch(url).value.Some?
  }

  /** The id of the generator record `get_generator_info(url)` returns. */
  function GenId(fetch: Fetch, url: string): int
    requires Fetched(fetch, url)
  {
    fetch(url).value.value.template.id
  }

  /** Every record sits under its own id, and its caption URL is known. */
  ghost predicate Keyed(d: map<int, Rec>, captions: set<string>)
  {
    forall k :: k in d ==> d[k].id == k && d[k].captionUrl in captions
  }

  /** `d_records` and `exist_caption_urls`. */
  datatype Index = Index(records: map<int, Rec>, captions: set<string>)

  /**
   * The effect of `_fn(item)` on them: a known caption URL, or a fetch that raises or finds
   * no generator, leaves both as they are; otherwise the merged record is stored (inserted,
   * or its empty fields filled) and, when its id was new, its caption URL recorded.
   */
  function StepFn(s: Index, item: TemplateRef, fetch: Fetch): Index
  {
    if item.captionUrl in s.captions || !Fetched(fetch, item.captionUrl) then s
    else
      var rec := Merge(item, fetch(item.captionUrl).value.value);
      Index(s.records[rec.id := Stored(s.records, rec)],
            s.captions + (if rec.id in s.records then {} else {item.captionUrl}))
  }

  /** `_fn` on the entries, in the order their locked sections run. */
  function RunFn(s: Index, items: seq<TemplateRef>, fetch: Fetch): Index
  {
    if items == [] then s
    else StepFn(RunFn(s, items[..|items| - 1], fetch), items[|items| - 1], fetch)
  }

  /**
   * A run keeps every stored id and known caption URL; a stored record only ever gets its
   * empty `alt_names` or `default_settings` filled, so the first admission of an id wins and
   * a non-empty field is never overwritten; every entry whose generator was fetched had a
   * known caption URL or has its template stored, and every caption URL it records is one
   * whose template is stored; records stay under their ids with known captions.
   */
  lemma {:induction false} RunFnProperties(s: Index, items: seq<TemplateRef>, fetch: Fetch)
    requires Keyed(s.records, s.captions)
    ensures var r := RunFn(s, items, fetch);
      && Keyed(r.records, r.captions)
      && s.records.Keys <= r.records.Keys && s.captions <= r.captions
      && (forall k :: k in s.records ==>
            r.records[k] == s.records[k].(altNames := r.records[k].altNames, defaultSettings := r.records[k].defaultSettings))
      && (forall k :: k in s.records && !Falsy(s.records[k].altNames, NonEmpty) ==>
            r.records[k].altNames == s.records[k].altNames)
      && (forall k :: k in s.records && !Falsy(s.records[k].defaultSettings, Truthy) ==>
            r.records[k].defaultSettings == s.records[k].defaultSettings)
      && (forall i :: 0 <= i < |items| && Fetched(fetch, items[i].captionUrl) ==>
            items[i].captionUrl in s.captions || GenId(fetch, items[i].captionUrl) in r.records)
      && (forall c :: c in r.captions && c !in s.captions ==> Fetched(fetch, c) && GenId(fetch, c) in r.records)
  {
    if items != [] {
      var init := items[..|items| - 1];
      var t := RunFn(s, init, fetch);
      RunFnProperties(s, init, fetch);
      var item := items[|items| - 1];
      if item.captionUrl !in t.captions && Fetched(fetch, item.captionUrl) {
        var rec := Merge(item, fetch(item.captionUrl).value.value);
        if rec.id in t.records {
          FillFieldProperties(t.records[rec.id].altNames, rec.altNames, NonEmpty);
          FillFieldProperties(t.records[rec.id].defaultSettings, rec.defaultSettings, Truthy);
        }
      }
      assert forall i :: 0 <= i < |init| ==> items[i] == init[i];
    }
  }

  class IndexSync {
    /** `d_records`. */
    var records: map<int, Rec>
    /** `exist_caption_urls`. */
    var captionUrls: set<string>
    var hasUpdate: bool
    /** `_last_update`. */
    var lastUpdate: Option<int>
    /** `_total_count`. */
    var totalCount: nat
    const deploySpan: int
    /** The dictionaries whose `Snapshot` was uploaded, oldest first. */
    ghost var published: seq<map<int, Rec>>

    ghost predicate Valid()
      reads this
    {
      Keyed(records, captionUrls)
    }

    /** The state after loading `table.parquet` (an empty list when it does not exist). */
    constructor (loaded: seq<Rec>, deploySpan: int)
      ensures Valid()
      ensures records == MapOfRecords(loaded) && captionUrls == Captions(loaded)
      ensures !hasUpdate && lastUpdate.None? && totalCount == |records|
      ensures this.deploySpan == deploySpan && published == []
    {
      LoadedKeyed(loaded);
      var d := MapOfRecords(loaded);
      records := d;
      captionUrls := Captions(loaded);
      hasUpdate := false;
      lastUpdate := None;
      totalCount := |d|;
      this.deploySpan := deploySpan;
      published := [];
    }

    /** `_deploy(force)`: `now` is the clock at the gate, `stamp` the clock after the upload. */
    method Deploy(force: bool, now: int, stamp: int)
      requires Valid()
      modifies this
      ensures Valid()
      ensures records == old(records) && captionUrls == old(captionUrls)
      ensures GateOpen(old(hasUpdate), old(lastUpdate), deploySpan, now, force) ==>
        !hasUpdate && lastUpdate == Some(stamp) && totalCount == |records|
        && published == old(published) + [records]
      ensures !GateOpen(old(hasUpdate), old(lastUpdate), deploySpan, now, force) ==>
        hasUpdate == old(hasUpdate) && lastUpdate == old(lastUpdate)
        && totalCount == old(totalCount) && published == old(published)
    {
      if !hasUpdate {
        return;
      }
      if !force && lastUpdate.Some? && lastUpdate.value + deploySpan > now {
        return;
      }
      published := published + [records];
      hasUpdate := false;
      lastUpdate := Some(stamp);
      totalCount := |records|;
    }

    /**
     * The locked section of `_fn` without its deploy: the merged record is inserted when
     * its id is new (recording the caption URL), then its empty fields are filled; any
     * change sets `has_update`.
     */
    method Admit(item: TemplateRef, g: Generator)
      requires Valid()
      modifies this
      ensures Valid()
      ensures var rec := Merge(item, g);
        && records == old(records)[rec.id := Stored(old(records), rec)]
        && captionUrls == old(captionUrls) + (if rec.id in old(records) then {} else {item.captionUrl})
        && hasUpdate == (old(hasUpdate) || rec.id !in old(records) || Stored(old(records), rec) != old(records)[rec.id])
      ensures !hasUpdate ==> records == old(records)
      ensures lastUpdate == old(lastUpdate) && totalCount == old(totalCount) && published == old(published)
    {
      var rec := Merge(item, g);
      ghost var base := if rec.id in records then records[rec.id] else rec;
      FillMissingChanges(base, rec);
      if rec.id !in records {
        records := records[rec.id := rec];
        captionUrls := captionUrls + {item.captionUrl};
        hasUpdate := true;
      }
      var stored := records[rec.id];
      assert stored == base;
      if Falsy(stored.altNames, NonEmpty) && !Falsy(rec.altNames, NonEmpty) {
        stored := stored.(altNames := rec.altNames);
        hasUpdate := true;
      }
      if Falsy(stored.defaultSettings, Truthy) && !Falsy(rec.defaultSettings, Truthy) {
        stored := stored.(defaultSettings := rec.defaultSettings);
        hasUpdate := true;
      }
      assert stored == FillMissing(base, rec);
      records := records[rec.id := stored];
      if !hasUpdate {
        assert records == old(records)[rec.id := old(records)[rec.id]];
      }
    }

    /**
     * `_fn(item)`: an entry whose caption URL is known is dropped before its generator page
     * is fetched; a fetch that fails or finds no generator raises before the state is
     * touched; otherwise the record is admitted and a non-forced deploy follows.
     */
    method Fn(item: TemplateRef, fetch: Fetch, now: int, stamp: int)
      requires Valid()
      modifies this
      ensures Valid()
      ensures old(records).Keys <= records.Keys
      ensures item.captionUrl in old(captionUrls) || !Fetched(fetch, item.captionUrl) ==>
        && records == old(records) && captionUrls == old(captionUrls) && hasUpdate == old(hasUpdate)
        && lastUpdate == old(lastUpdate) && totalCount == old(totalCount) && published == old(published)
      ensures item.captionUrl !in old(captionUrls) && Fetched(fetch, item.captionUrl) ==>
        var rec := Merge(item, fetch(item.captionUrl).value.value);
        var pending := old(hasUpdate) || rec.id !in old(records) || Stored(old(records), rec) != old(records)[rec.id];
        && records == old(records)[rec.id := Stored(old(records), rec)]
        && captionUrls == old(captionUrls) + (if rec.id in old(records) then {} else {item.captionUrl})
        && (GateOpen(pending, old(lastUpdate), deploySpan, now, false) ==>
             !hasUpdate && lastUpdate == Some(stamp) && totalCount == |records|
             && published == old(published) + [records])
        && (!GateOpen(pending, old(lastUpdate), deploySpan, now, false) ==>
             hasUpdate == pending && lastUpdate == old(lastUpdate)
             && totalCount == old(totalCount) && published == old(published))
      ensures published == old(published) || published == old(published) + [records]
      ensures published == old(published) && !hasUpdate ==> !old(hasUpdate) && records == old(records)
    {
      if item.captionUrl in captionUrls {
        return;
      }
      var vitem := fetch(item.captionUrl);
      if vitem.Err? || vitem.value.None? {
        return;
      }
      Admit(item, vitem.value.value);
      Deploy(false, now, stamp);
    }

    /**
     * `sync`: every list entry goes through `_fn` (one locked step each, in whatever order
     * the thread pool runs them), then a forced deploy. `items` are the entries the
     * generator yielded and `listError` the exception it ended with, if any: that exception
     * leaves `sync` before the forced deploy (`failed`). Without it nothing is pending
     * afterwards, and if the table changed the last upload is the final table.
     */
    method Sync(items: seq<TemplateRef>, listError: Option<Failure>, fetch: Fetch, clock: nat -> int)
      returns (failed: bool)
      requires Valid()
      modifies this
      ensures Valid()
      ensures failed <==> listError.Some?
      ensures Index(records, captionUrls) == RunFn(old(Index(records, captionUrls)), items, fetch)
      ensures |old(published)| <= |published|
      ensures !failed ==> !hasUpdate
      ensures !failed && (records != old(records) || old(hasUpdate)) ==> |published| > |old(published)|
      ensures !failed && |published| > |old(published)| ==> published[|published| - 1] == records
    {
      FnAll(items, fetch, clock);
      failed := listError.Some?;
      if !failed {
        Deploy(true, clock(2 * |items|), clock(2 * |items| + 1));
      }
    }

    /** The loop of `sync`: `_fn` on each entry in turn, without the final forced deploy. */
    method FnAll(items: seq<TemplateRef>, fetch: Fetch, clock: nat -> int)
      requires Valid()
      modifies this
      ensures Valid()
      ensures Index(records, captionUrls) == RunFn(old(Index(records, captionUrls)), items, fetch)
      ensures |old(published)| <= |published|
      ensures !hasUpdate ==> (records != old(records) || old(hasUpdate) ==> |published| > |old(published)|)
      ensures !hasUpdate && |published| > |old(published)| ==> published[|published| - 1] == records
    {
      ghost var s0, n0, u0 := Index(records, captionUrls), |published|, hasUpdate;
      var i := 0;
      while i < |items|
        invariant 0 <= i <= |items|
        invariant Valid()
        invariant Index(records, captionUrls) == RunFn(s0, items[..i], fetch)
        invariant n0 <= |published|
        invariant !hasUpdate ==> (records != s0.records || u0 ==> |published| > n0)
        invariant !hasUpdate && |published| > n0 ==> published[|published| - 1] == records
      {
        Fn(items[i], fetch, clock(2 * i), clock(2 * i + 1));
        assert items[..i + 1][..i] == items[..i];
        i := i + 1;
      }
      assert items[..i] == items;
    }
  }

  /** The loaded dictionary stores each row under its id, and its caption URLs are known. */
  lemma LoadedKeyed(rs: seq<Rec>)
    ensures Keyed(MapOfRecords(rs), Captions(rs))
  {
    var d := MapOfRecords(rs);
    MapOfRecordsFromRows(rs);
    forall k | k in d
      ensures d[k].captionUrl in Captions(rs)
    {
      var i :| 0 <= i < |rs| && rs[i] == d[k];
    }
  }
}
