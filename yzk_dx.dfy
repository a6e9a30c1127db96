/**
 * The youzhik video downloader (`scrappers/yzk/dx.py`): every post of the index whose id is
 * not in the full table yet is visited in ascending id order; its video is downloaded
 * (a failed download skips the post), probed, staged under `videos/<id><ext>` and appended
 * as a row, and `_deploy` uploads the table together with the staged videos.
 */
module YzkDx {
  import opened Wrappers
  import opened Text
  import opened Ledger
  import opened Sorting

  /** The columns the model does not inspect. */
  type Fields = map<string, string>

  /** A row of the index's `pages.parquet`. */
  datatype Item = Item(id: int, videoUrl: string, rest: Fields)

  function ItemId(i: Item): int { i.id }

  /** The one file the downloader leaves in the item's directory: its base name and size. */
  datatype VideoFile = VideoFile(name: string, size: nat)

  /**
   * A row of the full table: the item's columns, the probed metadata (which has no `id`),
   * the video's path in the repository, its original file name and its size.
   */
  datatype Row = Row(item: Item, meta: Fields, fileInRepo: string, filename: string, fileSize: nat)

  function RowId(r: Row): int { r.item.id }

  /**
   * The `yt-dlp` run for an item: the files it left, or `Err` when it failed; and
   * `get_video_metadata` of a file, or `Err` for what it raised (`json.loads` of an empty
   * `ffprobe` output, say). `check_video_integrity` never raises and its verdict is ignored,
   * so a file that fails it is still probed, moved and stored.
   */
  type Download = Item -> Result<seq<VideoFile>>
  type Probe = VideoFile -> Result<Fields>

  // ---------------------------------------------------------------- the video path

  /** `videos/<id><ext>`, `ext` being the extension of the downloaded file's name. */
  function VideoPath(id: int, name: string): string
  {
    "videos/" + IntToString(id) + SplitExt(name).1
  }

  /** Two dot-free stems followed by extensions that are empty or start with a dot split the same way. */
  lemma StemsAgree(s1: string, e1: string, s2: string, e2: string)
    requires forall i :: 0 <= i < |s1| ==> s1[i] != '.'
    requires forall i :: 0 <= i < |s2| ==> s2[i] != '.'
    requires e1 == [] || e1[0] == '.'
    requires e2 == [] || e2[0] == '.'
    requires s1 + e1 == s2 + e2
    ensures s1 == s2
  {
    assert s1 == (s1 + e1)[..|s1|];
    assert s2 == (s2 + e2)[..|s2|];
  }

  /** Equal strings with the same prefix agree after it. */
  lemma SamePrefixRest(p: string, s1: string, e1: string, s2: string, e2: string)
    requires p + s1 + e1 == p + s2 + e2
    ensures s1 + e1 == s2 + e2
  {
    assert s1 + e1 == (p + s1 + e1)[|p|..];
    assert s2 + e2 == (p + s2 + e2)[|p|..];
  }

  /** Distinct ids get distinct video paths, whatever the downloaded files were called. */
  lemma VideoPathInjective(a: int, b: int, n1: string, n2: string)
    requires VideoPath(a, n1) == VideoPath(b, n2)
    ensures a == b
  {
    var s1, s2 := IntToString(a), IntToString(b);
    var e1, e2 := SplitExt(n1).1, SplitExt(n2).1;
    SamePrefixRest("videos/", s1, e1, s2, e2);
    IntToStringChars(a);
    IntToStringChars(b);
    StemsAgree(s1, e1, s2, e2);
    IntToStringInjective(a, b);
  }

  /** The row of a probed video. */
  function MakeRow(item: Item, meta: Fields, f: VideoFile): (r: Row)
    ensures RowId(r) == item.id && r.filename == f.name && r.fileSize == f.size
  {
    Row(item, meta, VideoPath(item.id, f.name), f.name, f.size)
  }

  // ---------------------------------------------------------------- the run

  /** The rows and the id set. */
  datatype Store = Store(records: seq<Row>, ids: set<int>)

  /**
   * The index rows that are not in the full table, in ascending id order
   * (`df_src_pages[~isin(exist_ids)].sort_values('id')`).
   */
  function Pending(src: seq<Item>, exist: set<int>): (r: seq<Item>)
    ensures multiset(r) == multiset(FilterNew(src, ItemId, exist))
    ensures forall i, j :: 0 <= i < j < |r| ==> r[i].id <= r[j].id
  {
    SortByKeyAsc(FilterNew(src, ItemId, exist), ItemId)
  }

  /**
   * One item: a failed download skips it; more or fewer than one file raises; a probe
   * failure raises; otherwise the row is appended and its id recorded.
   */
  function StepItem(s: Store, item: Item, download: Download, probe: Probe): Result<Store>
  {
    match download(item)
    case Err(_) => Ok(s)
    case Ok(files) =>
      if |files| != 1 then Err(AssertionError)
      else
        match probe(files[0])
        case Err(err) => Err(err)
        case Ok(meta) => Ok(Store(s.records + [MakeRow(item, meta, files[0])], s.ids + {item.id}))
  }

  /** The items in order; the first raise ends the run. */
  function RunItems(s: Store, items: seq<Item>, download: Download, probe: Probe): Result<Store>
  {
    if items == [] then Ok(s)
    else
      match RunItems(s, items[..|items| - 1], download, probe)
      case Err(err) => Err(err)
      case Ok(t) => StepItem(t, items[|items| - 1], download, probe)
  }

  lemma RunItemsStep(s: Store, items: seq<Item>, download: Download, probe: Probe, j: nat)
    requires j < |items|
    ensures RunItems(s, items[..j + 1], download, probe)
      == (match RunItems(s, items[..j], download, probe)
          case Err(err) => Err(err)
          case Ok(t) => StepItem(t, items[j], download, probe))
  {
    assert items[..j + 1][..j] == items[..j];
  }

  /** Once an item raised, the later items are not visited. */
  lemma {:induction false} RunItemsErrSticky(s: Store, items: seq<Item>, download: Download, probe: Probe, j: nat)
    requires j <= |items| && RunItems(s, items[..j], download, probe).Err?
    ensures RunItems(s, items, download, probe) == RunItems(s, items[..j], download, probe)
    decreases |items| - j
  {
    if j < |items| {
      RunItemsStep(s, items, download, probe, j);
      RunItemsErrSticky(s, items, download, probe, j + 1);
    } else {
      assert items[..j] == items;
    }
  }

  /** The ids are those of the rows. */
  ghost predicate Ledgered(s: Store)
  {
    s.ids == KeySet(s.records, RowId)
  }

  /**
   * An item changes the rows exactly when its download left one file that probes: then the
   * row of that file is appended and the ledger kept; a failed download leaves all as it was.
   */
  lemma StepItemEffect(s: Store, item: Item, download: Download, probe: Probe)
    requires Ledgered(s)
    ensures download(item).Err? ==> StepItem(s, item, download, probe) == Ok(s)
    ensures StepItem(s, item, download, probe).Err? <==>
      download(item).Ok? && (|download(item).value| != 1 || probe(download(item).value[0]).Err?)
    ensures StepItem(s, item, download, probe).Ok? ==> Ledgered(StepItem(s, item, download, probe).value)
    ensures StepItem(s, item, download, probe).Ok? && StepItem(s, item, download, probe).value != s ==>
      && download(item).Ok? && |download(item).value| == 1 && probe(download(item).value[0]).Ok?
      && StepItem(s, item, download, probe).value.records
         == s.records + [MakeRow(item, probe(download(item).value[0]).value, download(item).value[0])]
  {
    if download(item).Ok? && |download(item).value| == 1 && probe(download(item).value[0]).Ok? {
      KeySetAppend(s.records, MakeRow(item, probe(download(item).value[0]).value, download(item).value[0]), RowId);
    }
  }

  /** The invariant of a run over strictly ascending new ids: the ledger holds and the rows past `from` are fresh. */
  ghost predicate Sound(s: Store, from: nat)
  {
    from <= |s.records| && Ledgered(s) && FreshFrom(s.records, RowId, from)
  }

  /** The rows past `from` all have ids at most `bound`. */
  ghost predicate Below(rs: seq<Row>, from: nat, bound: int)
  {
    forall i :: from <= i < |rs| ==> RowId(rs[i]) <= bound
  }

  /**
   * A run over items with strictly ascending ids none of which is stored yet keeps the
   * ledger, only appends, and every appended row has an id no earlier row has and no
   * larger than the last item's.
   */
  lemma {:induction false} RunItemsSound(s0: Store, items: seq<Item>, download: Download, probe: Probe)
    requires Sound(s0, |s0.records|)
    requires forall i :: 0 <= i < |items| ==> items[i].id !in s0.ids
    requires forall i, j :: 0 <= i < j < |items| ==> items[i].id < items[j].id
    ensures RunItems(s0, items, download, probe).Ok? ==>
      && Sound(RunItems(s0, items, download, probe).value, |s0.records|)
      && s0.records <= RunItems(s0, items, download, probe).value.records
      && (items != [] ==> Below(RunItems(s0, items, download, probe).value.records, |s0.records|, items[|items| - 1].id))
  {
    if items != [] {
      var init := items[..|items| - 1];
      var x := items[|items| - 1];
      RunItemsSound(s0, init, download, probe);
      var t := RunItems(s0, init, download, probe);
      if t.Ok? {
        KeySetMembers(s0.records, RowId);
        var bound := if init == [] then x.id - 1 else init[|init| - 1].id;
        StepItemSound(t.value, x, |s0.records|, bound, download, probe);
      }
    }
  }

  /** One step of `RunItemsSound`: an item whose id exceeds every row added so far and is not among the first `n`. */
  lemma StepItemSound(t: Store, x: Item, n: nat, bound: int, download: Download, probe: Probe)
    requires Sound(t, n) && Below(t.records, n, bound) && bound < x.id
    requires forall i :: 0 <= i < n ==> RowId(t.records[i]) != x.id
    ensures StepItem(t, x, download, probe).Ok? ==>
      && Sound(StepItem(t, x, download, probe).value, n)
      && t.records <= StepItem(t, x, download, probe).value.records
      && Below(StepItem(t, x, download, probe).value.records, n, x.id)
  {
    StepItemEffect(t, x, download, probe);
    var r := StepItem(t, x, download, probe);
    if r.Ok? && r.value != t {
      var row := r.value.records[|r.value.records| - 1];
      KeySetMembers(t.records, RowId);
      assert x.id !in KeySet(t.records, RowId);
      FreshAppend(t.records, row, RowId, n);
    }
  }

  /**
   * When the index has no repeated id, a successful run over the pending items appends
   * only rows with ids new to the table and to each other.
   */
  lemma PendingFresh(s0: Store, src: seq<Item>, download: Download, probe: Probe)
    requires Ledgered(s0) && DistinctKeys(src, ItemId)
    requires RunItems(s0, Pending(src, s0.ids), download, probe).Ok?
    ensures s0.records <= RunItems(s0, Pending(src, s0.ids), download, probe).value.records
    ensures Ledgered(RunItems(s0, Pending(src, s0.ids), download, probe).value)
    ensures FreshFrom(RunItems(s0, Pending(src, s0.ids), download, probe).value.records, RowId, |s0.records|)
  {
    var f := FilterNew(src, ItemId, s0.ids);
    var p := Pending(src, s0.ids);
    FilterNewDistinct(src, ItemId, s0.ids);
    PermutationKeepsDistinct(f, p, ItemId);
    forall i | 0 <= i < |p|
      ensures p[i].id !in s0.ids
    {
      assert p[i] in multiset(f);
    }
    assert FreshFrom(s0.records, RowId, |s0.records|);
    RunItemsSound(s0, p, download, probe);
  }

  // ---------------------------------------------------------------- the sync state

  /** An upload: the table, and the videos staged since the previous upload. */
  datatype Upload = Upload(records: seq<Row>, videos: seq<string>)

  /** The uploaded `pages.parquet`: the rows sorted by id descending. */
  function Table(u: Upload): (r: seq<Row>)
    ensures multiset(r) == multiset(u.records)
    ensures forall i, j :: 0 <= i < j < |r| ==> RowId(r[i]) >= RowId(r[j])
  {
    SortByKeyDesc(u.records, RowId)
  }

  /** The repository paths of the rows' videos. */
  function Paths(rs: seq<Row>): (r: seq<string>)
    ensures |r| == |rs|
  {
    seq(|rs|, i requires 0 <= i < |rs| => rs[i].fileInRepo)
  }

  lemma PathsAppend(rs: seq<Row>, row: Row, from: nat)
    requires from <= |rs|
    ensures Paths(rs + [row])[from..] == Paths(rs)[from..] + [row.fileInRepo]
  {
  }

  /** The videos an upload carries. */
  function UploadVideos(u: Upload): seq<string> { u.videos }

  /** The videos of several uploads, in order. */
  function AllVideos(ups: seq<Upload>): seq<string> { FlatMap(ups, UploadVideos) }

  /** The stretch before `mid` followed by the rest is everything from `lo` on. */
  lemma SplitAt<T>(ps: seq<T>, lo: nat, mid: nat)
    requires lo <= mid <= |ps|
    ensures ps[lo..mid] + ps[mid..] == ps[lo..]
  {
  }

  class DxSync {
    var records: seq<Row>
    var existIds: set<int>
    /** The video paths moved into the upload directory since the last upload. */
    var staged: seq<string>
    var hasUpdate: bool
    var lastUpdate: Option<int>
    var totalCount: nat
    const deploySpan: int
    /** The table loaded at start. */
    ghost const loaded: seq<Row>
    /** What the repository holds: the loaded table, then the last upload. */
    ghost var uploaded: Upload
    /** Every upload of this run, oldest first. */
    ghost var published: seq<Upload>

    function Snapshot(): Store
      reads this`records, this`existIds
    {
      Store(records, existIds)
    }

    /**
     * The table extends the loaded one, the ids are the rows', the staged videos are those
     * of the rows since the last upload, and the uploads so far carried the videos of the
     * rows before, in order.
     */
    ghost predicate Valid()
      reads this
    {
      && loaded <= records
      && Ledgered(Snapshot())
      && |loaded| <= totalCount <= |records| && staged == Paths(records)[totalCount..]
      && AllVideos(published) == Paths(records)[|loaded|..totalCount]
    }

    /** Nothing pending means the repository holds the table and nothing is staged. */
    ghost predicate Current()
      reads this
    {
      !hasUpdate ==> uploaded.records == records && totalCount == |records|
    }

    /** The state after loading the full table's `pages.parquet` (empty when absent). */
    constructor (loaded: seq<Row>, deploySpan: int)
      ensures Valid() && Current()
      ensures records == loaded && staged == [] && !hasUpdate && lastUpdate.None? && totalCount == |loaded|
      ensures this.deploySpan == deploySpan && this.loaded == loaded
      ensures uploaded == Upload(loaded, []) && published == []
    {
      records := loaded;
      existIds := KeySet(loaded, RowId);
      staged := [];
      hasUpdate := false;
      lastUpdate := None;
      totalCount := |loaded|;
      this.deploySpan := deploySpan;
      this.loaded := loaded;
      uploaded := Upload(loaded, []);
      published := [];
    }

    /**
     * The effect of `_deploy(force)` at time `now` with `pending` updates and the videos
     * `videos` in the upload directory: when the gate opens, the table and those videos are
     * uploaded, the upload directory emptied, the flag cleared, the time stamped and the
     * total reset; otherwise nothing changes.
     */
    twostate predicate Deployed(pending: bool, videos: seq<string>, now: int, stamp: int, force: bool)
      reads this
    {
      if GateOpen(pending, old(lastUpdate), deploySpan, now, force) then
        && !hasUpdate && lastUpdate == Some(stamp) && totalCount == |records| && staged == []
        && uploaded == Upload(records, videos) && published == old(published) + [uploaded]
      else
        && hasUpdate == pending && lastUpdate == old(lastUpdate) && totalCount == old(totalCount)
        && staged == videos && uploaded == old(uploaded) && published == old(published)
    }

    /** `_deploy(force)`: `now` is the clock at the gate, `stamp` the clock after the upload. */
    method Deploy(force: bool, now: int, stamp: int)
      requires Valid()
      modifies this`hasUpdate, this`lastUpdate, this`totalCount, this`staged, this`uploaded, this`published
      ensures Valid()
      ensures Deployed(old(hasUpdate), old(staged), now, stamp, force)
      ensures old(Current()) ==> Current()
    {
      if !hasUpdate {
        return;
      }
      if !force && lastUpdate.Some? && lastUpdate.value + deploySpan > now {
        return;
      }
      Publish(stamp);
    }

    /** The body of `_deploy` past the gate: the upload, stamped with the clock reading `stamp`. */
    method Publish(stamp: int)
      requires Valid()
      modifies this`hasUpdate, this`lastUpdate, this`totalCount, this`staged, this`uploaded, this`published
      ensures Valid()
      ensures !hasUpdate && lastUpdate == Some(stamp) && totalCount == |records| && staged == []
      ensures uploaded == Upload(records, old(staged)) && published == old(published) + [uploaded]
    {
      uploaded := Upload(records, staged);
      published := published + [uploaded];
      hasUpdate, lastUpdate, totalCount, staged := false, Some(stamp), |records|, [];
    }

    /** Appends the row of a probed video and stages the video. */
    method StoreRow(row: Row)
      requires Valid()
      modifies this`records, this`existIds, this`staged
      ensures Valid()
      ensures records == old(records) + [row] && existIds == old(existIds) + {RowId(row)}
      ensures staged == old(staged) + [row.fileInRepo]
    {
      KeySetAppend(records, row, RowId);
      PathsAppend(records, row, totalCount);
      records, existIds, staged := records + [row], existIds + {RowId(row)}, staged + [row.fileInRepo];
    }

    /**
     * A stored row: the row is appended and its video staged, `has_update` is raised when
     * `markUpdate` holds, and a non-forced deploy at `now` follows.
     */
    method Admit(row: Row, markUpdate: bool, now: int, stamp: int)
      requires Valid()
      modifies this
      ensures Valid()
      ensures records == old(records) + [row] && existIds == old(existIds) + {RowId(row)}
      ensures old(published) <= published
      ensures markUpdate && old(Current()) ==> Current()
      ensures !markUpdate && !old(hasUpdate) ==> !hasUpdate && uploaded == old(uploaded) && published == old(published)
      ensures Deployed(markUpdate || old(hasUpdate), old(staged) + [row.fileInRepo], now, stamp, false)
    {
      StoreRow(row);
      if markUpdate {
        hasUpdate := true;
      }
      Deploy(false, now, stamp);
    }

    /**
     * One item, as `StepItem`; after a stored row, `has_update` is raised when `markUpdate`
     * holds and a non-forced deploy follows. With `markUpdate` false (the code as written)
     * no deploy ever uploads anything.
     */
    method ProcessItem(item: Item, download: Download, probe: Probe, markUpdate: bool, clock: nat -> int, tick: nat)
      returns (failed: bool, tickOut: nat)
      requires Valid()
      modifies this
      ensures Valid()
      ensures failed <==> StepItem(old(Snapshot()), item, download, probe).Err?
      ensures !failed ==> Snapshot() == StepItem(old(Snapshot()), item, download, probe).value
      ensures tickOut >= tick && old(records) <= records && old(published) <= published
      ensures markUpdate && old(Current()) ==> Current()
      ensures !markUpdate && !old(hasUpdate) ==> !hasUpdate && uploaded == old(uploaded) && published == old(published)
    {
      tickOut := tick;
      var files := download(item);
      if files.Err? {
        return false, tickOut;
      }
      if |files.value| != 1 {
        return true, tickOut;
      }
      var meta := probe(files.value[0]);
      if meta.Err? {
        return true, tickOut;
      }
      Admit(MakeRow(item, meta.value, files.value[0]), markUpdate, clock(tickOut), clock(tickOut + 1));
      tickOut := tickOut + 2;
      failed := false;
    }

    /** The items in order, until one raises. */
    method ProcessAll(items: seq<Item>, download: Download, probe: Probe, markUpdate: bool, clock: nat -> int)
      returns (failed: bool, tick: nat)
      requires Valid()
      modifies this
      ensures Valid()
      ensures failed <==> RunItems(old(Snapshot()), items, download, probe).Err?
      ensures !failed ==> Snapshot() == RunItems(old(Snapshot()), items, download, probe).value
      ensures old(records) <= records && old(published) <= published
      ensures markUpdate && old(Current()) ==> Current()
      ensures !markUpdate && !old(hasUpdate) ==> !hasUpdate && uploaded == old(uploaded) && published == old(published)
    {
      ghost var s0 := Snapshot();
      tick := 0;
      var j := 0;
      while j < |items|
        invariant j <= |items|
        invariant Valid()
        invariant RunItems(s0, items[..j], download, probe) == Ok(Snapshot())
        invariant old(records) <= records && old(published) <= published
        invariant markUpdate && old(Current()) ==> Current()
        invariant !markUpdate && !old(hasUpdate) ==> !hasUpdate && uploaded == old(uploaded) && published == old(published)
      {
        RunItemsStep(s0, items, download, probe, j);
        var f;
        f, tick := ProcessItem(items[j], download, probe, markUpdate, clock, tick);
        if f {
          RunItemsErrSticky(s0, items, download, probe, j + 1);
          return true, tick;
        }
        j := j + 1;
      }
      assert items[..j] == items;
      failed := false;
    }

    /**
     * `sync` after the loading, as written: the pending items are processed and a forced
     * deploy follows, but `has_update` is never raised, so nothing is ever uploaded.
     */
    method SyncAsWritten(src: seq<Item>, hasYtDlp: bool, download: Download, probe: Probe, clock: nat -> int)
      returns (failed: bool, pending: seq<Item>)
      requires Valid() && !hasUpdate
      modifies this
      ensures Valid()
      ensures pending == Pending(src, old(existIds))
      ensures failed <==> !hasYtDlp || RunItems(old(Snapshot()), pending, download, probe).Err?
      ensures !hasYtDlp ==> Snapshot() == old(Snapshot())
      ensures !failed ==> Snapshot() == RunItems(old(Snapshot()), pending, download, probe).value
      ensures uploaded == old(uploaded) && published == old(published)
    {
      pending := Pending(src, existIds);
      if !hasYtDlp {
        return true, pending;
      }
      var tick;
      failed, tick := ProcessAll(pending, download, probe, false, clock);
      if !failed {
        Deploy(true, clock(tick), clock(tick + 1));
      }
    }

    /**
     * `sync` after the loading, with `has_update` raised after each stored row: a missing
     * downloader raises before any item; otherwise the pending items are processed and a
     * forced deploy follows, after which the repository holds the final table and every
     * staged video has been uploaded.
     */
    method Sync(src: seq<Item>, hasYtDlp: bool, download: Download, probe: Probe, clock: nat -> int)
      returns (failed: bool, pending: seq<Item>)
      requires Valid() && Current()
      modifies this
      ensures Valid() && Current()
      ensures pending == Pending(src, old(existIds))
      ensures failed <==> !hasYtDlp || RunItems(old(Snapshot()), pending, download, probe).Err?
      ensures !hasYtDlp ==> Snapshot() == old(Snapshot())
      ensures !failed ==> Snapshot() == RunItems(old(Snapshot()), pending, download, probe).value
      ensures !failed ==> !hasUpdate && uploaded.records == records && staged == []
      ensures AllVideos(published) + staged == Paths(records)[|loaded|..]
      ensures !failed ==> AllVideos(published) == Paths(records)[|loaded|..]
      ensures old(records) <= records && old(published) <= published
    {
      pending := Pending(src, existIds);
      if !hasYtDlp {
        return true, pending;
      }
      var tick;
      failed, tick := ProcessAll(pending, download, probe, true, clock);
      if !failed {
        Deploy(true, clock(tick), clock(tick + 1));
        assert staged == Paths(records)[totalCount..] == [];
      }
      SplitAt(Paths(records), |loaded|, totalCount);
    }
  }

  /**
   * The as-written run loses rows: one pending item whose download leaves one file that
   * probes is stored, yet `SyncAsWritten` publishes nothing, so the repository keeps the
   * loaded table without it.
   */
  lemma StoredButNotUploaded(s0: Store, item: Item, f: VideoFile, meta: Fields, download: Download, probe: Probe)
    requires Ledgered(s0) && item.id !in s0.ids
    requires download(item) == Ok([f]) && probe(f) == Ok(meta)
    ensures Pending([item], s0.ids) == [item]
    ensures RunItems(s0, [item], download, probe).Ok?
    ensures RunItems(s0, [item], download, probe).value.records == s0.records + [MakeRow(item, meta, f)]
    ensures RunItems(s0, [item], download, probe).value.records != s0.records
  {
    assert FilterNew([item], ItemId, s0.ids) == [item];
    var p := Pending([item], s0.ids);
    assert multiset(p) == multiset{item};
    assert |p| == 1 && p[0] in multiset(p);
    assert [item][..0] == [];
  }
}
