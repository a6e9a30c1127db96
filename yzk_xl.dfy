/**
 * The youzhik list crawler (`scrappers/yzk/xl.py`): list pages 1 to 13 are read in order;
 * every listed post whose id (read from its URL) is not stored yet is fetched and appended
 * under the id its page reports, and `_deploy` is tried after every appended post and
 * forced at the end.
 */
module YzkXl {
  import opened Wrappers
  import opened Text
  import opened Ledger
  import opened Sorting

  /** The columns the model does not inspect. */
  type Fields = map<string, string>

  /** `extract_page_info(purl)`: the id read from the page's own final URL, and the other fields. */
  datatype Info = Info(id: int, rest: Fields)

  function InfoId(i: Info): int { i.id }

  /** An entry of a list page: the post's title and URL. */
  datatype Entry = Entry(title: string, url: string)

  /** `extract_page_urls` of list page `pid`, and `extract_page_info` of a post URL; `Err` is what they raised. */
  type ListFetch = nat -> Result<seq<Entry>>
  type InfoFetch = string -> Result<Info>

  // ---------------------------------------------------------------- the post id

  /** A URL up to its query or fragment. */
  function CutQuery(url: string): (r: string)
    ensures r <= url && '?' !in r && '#' !in r
    ensures '?' !in url && '#' !in url ==> r == url
  {
    if url == [] || url[0] == '?' || url[0] == '#' then []
    else
      assert url == [url[0]] + url[1..];
      [url[0]] + CutQuery(url[1..])
  }

  /** `urlsplit(url).filename`: the last `/`-separated segment of the URL's path. */
  function UrlFilename(url: string): (r: string)
    ensures '/' !in r && '?' !in r && '#' !in r
  {
    var p := CutQuery(url);
    match LastIndexOf(p, '/')
    case None => p
    case Some(k) => p[k + 1..]
  }

  /** `int(os.path.splitext(os.path.basename(urlsplit(purl).filename))[0])`; a stem that is no number raises. */
  function PostId(url: string): (r: Result<int>)
    ensures r.Err? ==> r.error == ValueError
    ensures r.Ok? <==> ParseInt(SplitExt(UrlFilename(url)).0).Some?
  {
    var stem := SplitExt(UrlFilename(url)).0;
    if ParseInt(stem).Some? then Ok(ParseInt(stem).value) else Err(ValueError)
  }

  /** The file name of a post URL is what follows its last slash. */
  lemma FilenameOfPostUrl(dir: string, name: string)
    requires '?' !in dir && '#' !in dir
    requires '/' !in name && '?' !in name && '#' !in name
    ensures UrlFilename(dir + "/" + name) == name
  {
    var url := dir + "/" + name;
    assert '?' !in url && '#' !in url by {
      forall i | 0 <= i < |url|
        ensures url[i] != '?' && url[i] != '#'
      {
        if i < |dir| {
          assert url[i] == dir[i];
        } else if i > |dir| {
          assert url[i] == name[i - |dir| - 1];
        }
      }
    }
    var k := LastIndexOf(url, '/');
    assert url[|dir|] == '/';
    assert k.Some?;
    assert url[|dir| + 1..] == name;
  }

  /** A name made of a number and an extension splits back into the two. */
  lemma SplitExtOfNumber(s: string, ext: string)
    requires s != [] && forall i :: 0 <= i < |s| ==> s[i] != '.'
    requires ext != [] && ext[0] == '.' && '.' !in ext[1..]
    ensures SplitExt(s + ext).0 == s
  {
    var name := s + ext;
    assert name[|s|] == '.' && NonDotBefore(name, |s|) by {
      assert name[0] == s[0];
    }
    var r := SplitExt(name);
    assert r.1 != [];
    var d := |r.0|;
    assert name[d] == '.' by {
      assert name == r.0 + r.1;
    }
    assert r.0 == name[..d];
  }

  /** A file extension: a dot, then no other dot and no URL separator. */
  predicate Extension(ext: string)
  {
    ext != [] && ext[0] == '.' && '.' !in ext[1..] && '/' !in ext && '?' !in ext && '#' !in ext
  }

  /** A number followed by an extension holds no URL separator. */
  lemma NumberNameClean(n: int, ext: string)
    requires Extension(ext)
    ensures '/' !in IntToString(n) + ext && '?' !in IntToString(n) + ext && '#' !in IntToString(n) + ext
  {
    var s := IntToString(n);
    IntToStringChars(n);
    var name := s + ext;
    forall i | 0 <= i < |name|
      ensures name[i] != '/' && name[i] != '?' && name[i] != '#'
    {
      if i < |s| {
        assert name[i] == s[i];
      } else {
        assert name[i] == ext[i - |s|];
      }
    }
  }

  /** The id of a post URL `…/<n><ext>`, such as `…/<n>.html`, is `n`. */
  lemma PostIdRoundTrip(dir: string, n: int, ext: string)
    requires '?' !in dir && '#' !in dir
    requires Extension(ext)
    ensures PostId(dir + "/" + IntToString(n) + ext) == Ok(n)
  {
    var s := IntToString(n);
    IntToStringChars(n);
    NumberNameClean(n, ext);
    assert dir + "/" + s + ext == dir + "/" + (s + ext);
    FilenameOfPostUrl(dir, s + ext);
    SplitExtOfNumber(s, ext);
    ParseIntRoundTrip(n);
  }

  // ---------------------------------------------------------------- the crawl

  /** The records and the id set. */
  datatype Store = Store(records: seq<Info>, ids: set<int>)

  /**
   * One listed post: its URL id is read (a failure raises); a known id is skipped;
   * otherwise the page is fetched (a failure raises) and appended under its own id.
   */
  function StepEntry(s: Store, e: Entry, fetchInfo: InfoFetch): Result<Store>
  {
    match PostId(e.url)
    case Err(err) => Err(err)
    case Ok(id) =>
      if id in s.ids then Ok(s)
      else
        match fetchInfo(e.url)
        case Err(err) => Err(err)
        case Ok(info) => Ok(Store(s.records + [info], s.ids + {info.id}))
  }

  /** The entries of one list page in order; the first raise ends the run. */
  function RunEntries(s: Store, es: seq<Entry>, fetchInfo: InfoFetch): Result<Store>
  {
    if es == [] then Ok(s)
    else
      match RunEntries(s, es[..|es| - 1], fetchInfo)
      case Err(err) => Err(err)
      case Ok(t) => StepEntry(t, es[|es| - 1], fetchInfo)
  }

  /** List pages `1 .. k` in order; a list page that cannot be read raises. */
  function RunPages(s: Store, listFetch: ListFetch, fetchInfo: InfoFetch, k: nat): Result<Store>
  {
    if k == 0 then Ok(s)
    else
      match RunPages(s, listFetch, fetchInfo, k - 1)
      case Err(err) => Err(err)
      case Ok(t) =>
        match listFetch(k)
        case Err(err) => Err(err)
        case Ok(es) => RunEntries(t, es, fetchInfo)
  }

  lemma RunEntriesStep(s: Store, es: seq<Entry>, fetchInfo: InfoFetch, j: nat)
    requires j < |es|
    ensures RunEntries(s, es[..j + 1], fetchInfo)
      == (match RunEntries(s, es[..j], fetchInfo)
          case Err(err) => Err(err)
          case Ok(t) => StepEntry(t, es[j], fetchInfo))
  {
    assert es[..j + 1][..j] == es[..j];
  }

  /** Once an entry raised, the rest of the page is not read. */
  lemma {:induction false} RunEntriesErrSticky(s: Store, es: seq<Entry>, fetchInfo: InfoFetch, j: nat)
    requires j <= |es| && RunEntries(s, es[..j], fetchInfo).Err?
    ensures RunEntries(s, es, fetchInfo) == RunEntries(s, es[..j], fetchInfo)
    decreases |es| - j
  {
    if j < |es| {
      RunEntriesStep(s, es, fetchInfo, j);
      RunEntriesErrSticky(s, es, fetchInfo, j + 1);
    } else {
      assert es[..j] == es;
    }
  }

  /** Once a page raised, the later pages are not read. */
  lemma {:induction false} RunPagesErrSticky(s: Store, listFetch: ListFetch, fetchInfo: InfoFetch, j: nat, k: nat)
    requires j <= k && RunPages(s, listFetch, fetchInfo, j).Err?
    ensures RunPages(s, listFetch, fetchInfo, k) == RunPages(s, listFetch, fetchInfo, j)
    decreases k - j
  {
    if j < k {
      RunPagesErrSticky(s, listFetch, fetchInfo, j, k - 1);
      assert RunPages(s, listFetch, fetchInfo, k - 1).Err?;
    }
  }

  /** A post whose URL id is already known is skipped whatever its page would be: it is never fetched. */
  lemma SkipWithoutFetch(s: Store, e: Entry, f1: InfoFetch, f2: InfoFetch)
    requires PostId(e.url).Ok? && PostId(e.url).value in s.ids
    ensures StepEntry(s, e, f1) == StepEntry(s, e, f2) == Ok(s)
  {
  }

  /** The ids are those of the records. */
  ghost predicate Ledgered(s: Store)
  {
    s.ids == KeySet(s.records, InfoId)
  }

  /**
   * A step keeps the ledger and only appends: a new post is exactly its fetched page, and
   * the id it is stored under is the page's, whose URL id was unknown.
   */
  lemma StepEntryEffect(s: Store, e: Entry, fetchInfo: InfoFetch)
    requires Ledgered(s)
    ensures StepEntry(s, e, fetchInfo).Ok? ==> Ledgered(StepEntry(s, e, fetchInfo).value)
    ensures StepEntry(s, e, fetchInfo).Ok? ==> s.records <= StepEntry(s, e, fetchInfo).value.records
    ensures StepEntry(s, e, fetchInfo).Ok? && StepEntry(s, e, fetchInfo).value.records != s.records ==>
      && PostId(e.url).Ok? && PostId(e.url).value !in s.ids && fetchInfo(e.url).Ok?
      && StepEntry(s, e, fetchInfo).value.records == s.records + [fetchInfo(e.url).value]
    ensures StepEntry(s, e, fetchInfo).Err? <==> PostId(e.url).Err? || (PostId(e.url).value !in s.ids && fetchInfo(e.url).Err?)
  {
    if PostId(e.url).Ok? && PostId(e.url).value !in s.ids && fetchInfo(e.url).Ok? {
      KeySetAppend(s.records, fetchInfo(e.url).value, InfoId);
    }
  }

  /**
   * Every page fetched reports the id of the URL it was fetched from (the site does not
   * redirect a post to another one).
   */
  ghost predicate SelfNamed(fetchInfo: InfoFetch)
  {
    forall url :: PostId(url).Ok? && fetchInfo(url).Ok? ==> fetchInfo(url).value.id == PostId(url).value
  }

  /** The run's invariant: the ledger holds, and under `SelfNamed` the rows past `from` are fresh. */
  ghost predicate Sound(s: Store, from: nat, fetchInfo: InfoFetch)
  {
    && from <= |s.records| && Ledgered(s)
    && (SelfNamed(fetchInfo) ==> FreshFrom(s.records, InfoId, from))
  }

  lemma StepEntrySound(s: Store, e: Entry, fetchInfo: InfoFetch, from: nat)
    requires Sound(s, from, fetchInfo)
    ensures StepEntry(s, e, fetchInfo).Ok? ==> Sound(StepEntry(s, e, fetchInfo).value, from, fetchInfo)
    ensures StepEntry(s, e, fetchInfo).Ok? ==> s.records <= StepEntry(s, e, fetchInfo).value.records
  {
    StepEntryEffect(s, e, fetchInfo);
    if PostId(e.url).Ok? && PostId(e.url).value !in s.ids && fetchInfo(e.url).Ok? && SelfNamed(fetchInfo) {
      FreshAppend(s.records, fetchInfo(e.url).value, InfoId, from);
    }
  }

  lemma {:induction false} RunEntriesSound(s: Store, es: seq<Entry>, fetchInfo: InfoFetch, from: nat)
    requires Sound(s, from, fetchInfo)
    ensures RunEntries(s, es, fetchInfo).Ok? ==> Sound(RunEntries(s, es, fetchInfo).value, from, fetchInfo)
    ensures RunEntries(s, es, fetchInfo).Ok? ==> s.records <= RunEntries(s, es, fetchInfo).value.records
  {
    if es != [] {
      RunEntriesSound(s, es[..|es| - 1], fetchInfo, from);
      var t := RunEntries(s, es[..|es| - 1], fetchInfo);
      if t.Ok? {
        StepEntrySound(t.value, es[|es| - 1], fetchInfo, from);
      }
    }
  }

  /**
   * A whole crawl keeps the ledger, and when every page reports its own URL's id, every
   * post it appends has an id no earlier row has.
   */
  lemma {:induction false} RunPagesSound(s: Store, listFetch: ListFetch, fetchInfo: InfoFetch, k: nat)
    requires Ledgered(s)
    ensures RunPages(s, listFetch, fetchInfo, k).Ok? ==> Sound(RunPages(s, listFetch, fetchInfo, k).value, |s.records|, fetchInfo)
    ensures RunPages(s, listFetch, fetchInfo, k).Ok? ==> s.records <= RunPages(s, listFetch, fetchInfo, k).value.records
  {
    if k > 0 {
      RunPagesSound(s, listFetch, fetchInfo, k - 1);
      var t := RunPages(s, listFetch, fetchInfo, k - 1);
      if t.Ok? && listFetch(k).Ok? {
        RunEntriesSound(t.value, listFetch(k).value, fetchInfo, |s.records|);
      }
    } else {
      assert FreshFrom(s.records, InfoId, |s.records|);
    }
  }

  /**
   * Without that assumption the table can get a duplicate: a post listed under a new URL id
   * whose page reports an id already stored is appended a second time, and the id set
   * does not grow.
   */
  lemma RedirectDuplicates(s: Store, e: Entry, info: Info, fetchInfo: InfoFetch)
    requires Ledgered(s) && PostId(e.url).Ok? && PostId(e.url).value !in s.ids
    requires fetchInfo(e.url) == Ok(info) && info.id in s.ids
    ensures StepEntry(s, e, fetchInfo) == Ok(Store(s.records + [info], s.ids))
    ensures !DistinctKeys(s.records + [info], InfoId)
  {
    assert s.ids + {info.id} == s.ids;
    KnownKeyRepeats(s.records, info, InfoId);
  }

  // ---------------------------------------------------------------- the sync state

  /** An upload: the rows whose table is written. */
  datatype Upload = Upload(records: seq<Info>)

  /** The uploaded `pages.parquet`: the rows sorted by id descending. */
  function Table(u: Upload): (r: seq<Info>)
    ensures multiset(r) == multiset(u.records)
    ensures forall i, j :: 0 <= i < j < |r| ==> r[i].id >= r[j].id
  {
    SortByKeyDesc(u.records, InfoId)
  }

  class XlSync {
    var records: seq<Info>
    var existIds: set<int>
    var hasUpdate: bool
    /** `_last_update`. */
    var lastUpdate: Option<int>
    /** `_total_count`. */
    var totalCount: nat
    const deploySpan: int
    /** The table loaded at start. */
    ghost const loaded: seq<Info>
    /** What the repository holds: the loaded state, then the last upload. */
    ghost var uploaded: Upload
    /** Every upload of this run, oldest first. */
    ghost var published: seq<Upload>

    function Snapshot(): Store
      reads this`records, this`existIds
    {
      Store(records, existIds)
    }

    ghost predicate Valid()
      reads this
    {
      && loaded <= records
      && Ledgered(Snapshot())
      && (!hasUpdate ==> uploaded == Upload(records))
    }

    /** The state after loading `pages.parquet` (empty when absent). */
    constructor (loaded: seq<Info>, deploySpan: int)
      ensures Valid()
      ensures records == loaded && !hasUpdate && lastUpdate.None? && totalCount == |loaded|
      ensures this.deploySpan == deploySpan && this.loaded == loaded
      ensures uploaded == Upload(loaded) && published == []
    {
      records := loaded;
      existIds := KeySet(loaded, InfoId);
      hasUpdate := false;
      lastUpdate := None;
      totalCount := |loaded|;
      this.deploySpan := deploySpan;
      this.loaded := loaded;
      uploaded := Upload(loaded);
      published := [];
    }

    /**
     * The effect of `_deploy(force)` at time `now` with `pending` updates: when the gate
     * opens, the table is uploaded, the flag cleared, the time stamped with the clock reading
     * `stamp` after the upload and the total reset; otherwise nothing changes.
     */
    twostate predicate Deployed(pending: bool, now: int, stamp: int, force: bool)
      reads this
    {
      if GateOpen(pending, old(lastUpdate), deploySpan, now, force) then
        && !hasUpdate && lastUpdate == Some(stamp) && totalCount == |records|
        && uploaded == Upload(records) && published == old(published) + [uploaded]
      else
        && hasUpdate == pending && lastUpdate == old(lastUpdate) && totalCount == old(totalCount)
        && uploaded == old(uploaded) && published == old(published)
    }

    /** `_deploy(force)`: `now` is the clock at the gate, `stamp` the clock after the upload. */
    method Deploy(force: bool, now: int, stamp: int)
      requires Valid()
      modifies this`hasUpdate, this`lastUpdate, this`totalCount, this`uploaded, this`published
      ensures Valid()
      ensures Deployed(old(hasUpdate), now, stamp, force)
    {
      if !hasUpdate {
        return;
      }
      if !force && lastUpdate.Some? && lastUpdate.value + deploySpan > now {
        return;
      }
      uploaded := Upload(records);
      published := published + [uploaded];
      hasUpdate := false;
      lastUpdate := Some(stamp);
      totalCount := |records|;
    }

    /**
     * One listed post: the step of `StepEntry`, and after an appended post a non-forced
     * deploy (two clock readings). `failed` says it raised.
     */
    method Admit(e: Entry, fetchInfo: InfoFetch, clock: nat -> int, tick: nat) returns (failed: bool, tickOut: nat)
      requires Valid()
      modifies this
      ensures Valid()
      ensures failed <==> StepEntry(old(Snapshot()), e, fetchInfo).Err?
      ensures !failed ==> Snapshot() == StepEntry(old(Snapshot()), e, fetchInfo).value
      ensures tickOut >= tick && old(records) <= records && old(published) <= published
    {
      tickOut := tick;
      var id := PostId(e.url);
      if id.Err? {
        return true, tickOut;
      }
      if id.value in existIds {
        return false, tickOut;
      }
      var info := fetchInfo(e.url);
      if info.Err? {
        return true, tickOut;
      }
      Append(info.value, clock(tickOut), clock(tickOut + 1));
      tickOut := tickOut + 2;
      failed := false;
    }

    /** An appended post: the page is stored under its own id, and a non-forced deploy at `now` follows. */
    method Append(info: Info, now: int, stamp: int)
      requires Valid()
      modifies this
      ensures Valid()
      ensures records == old(records) + [info] && existIds == old(existIds) + {info.id}
      ensures old(published) <= published
      ensures Deployed(true, now, stamp, false)
    {
      KeySetAppend(records, info, InfoId);
      records, existIds, hasUpdate := records + [info], existIds + {info.id}, true;
      Deploy(false, now, stamp);
    }

    /** The entries of one list page, in order, until one raises. */
    method AdmitEntries(es: seq<Entry>, fetchInfo: InfoFetch, clock: nat -> int, tick: nat) returns (failed: bool, tickOut: nat)
      requires Valid()
      modifies this
      ensures Valid()
      ensures failed <==> RunEntries(old(Snapshot()), es, fetchInfo).Err?
      ensures !failed ==> Snapshot() == RunEntries(old(Snapshot()), es, fetchInfo).value
      ensures tickOut >= tick && old(records) <= records && old(published) <= published
    {
      ghost var s0 := Snapshot();
      tickOut := tick;
      var j := 0;
      while j < |es|
        invariant j <= |es|
        invariant Valid()
        invariant RunEntries(s0, es[..j], fetchInfo) == Ok(Snapshot())
        invariant tickOut >= tick && old(records) <= records && old(published) <= published
      {
        RunEntriesStep(s0, es, fetchInfo, j);
        var f;
        f, tickOut := Admit(es[j], fetchInfo, clock, tickOut);
        if f {
          RunEntriesErrSticky(s0, es, fetchInfo, j + 1);
          return true, tickOut;
        }
        j := j + 1;
      }
      assert es[..j] == es;
      failed := false;
    }

    /** List pages 1 to 13 in order, until one raises. */
    method Crawl(listFetch: ListFetch, fetchInfo: InfoFetch, clock: nat -> int) returns (failed: bool, tick: nat)
      requires Valid()
      modifies this
      ensures Valid()
      ensures old(records) <= records && old(published) <= published
      ensures failed <==> RunPages(old(Snapshot()), listFetch, fetchInfo, 13).Err?
      ensures !failed ==> Snapshot() == RunPages(old(Snapshot()), listFetch, fetchInfo, 13).value
    {
      ghost var s0 := Snapshot();
      tick := 0;
      var pid := 1;
      while pid < 14
        invariant 1 <= pid <= 14
        invariant Valid()
        invariant RunPages(s0, listFetch, fetchInfo, pid - 1) == Ok(Snapshot())
        invariant old(records) <= records && old(published) <= published
      {
        var es := listFetch(pid);
        var f := true;
        if es.Ok? {
          f, tick := AdmitEntries(es.value, fetchInfo, clock, tick);
        }
        if f {
          RunPagesErrSticky(s0, listFetch, fetchInfo, pid, 13);
          return true, tick;
        }
        pid := pid + 1;
      }
      failed := false;
    }

    /**
     * `sync` after the loading: list pages 1 to 13 in order, then a forced deploy. A raise
     * ends the run at once; otherwise the state is the crawl's, nothing is left pending and
     * the repository holds the final table.
     */
    method Sync(listFetch: ListFetch, fetchInfo: InfoFetch, clock: nat -> int) returns (failed: bool)
      requires Valid()
      modifies this
      ensures Valid()
      ensures old(records) <= records && old(published) <= published
      ensures failed <==> RunPages(old(Snapshot()), listFetch, fetchInfo, 13).Err?
      ensures !failed ==> Snapshot() == RunPages(old(Snapshot()), listFetch, fetchInfo, 13).value
      ensures !failed ==> !hasUpdate && uploaded == Upload(records)
    {
      var tick;
      failed, tick := Crawl(listFetch, fetchInfo, clock);
      if !failed {
        Deploy(true, clock(tick), clock(tick + 1));
      }
    }
  }

  /**
   * After a successful run started from a consistent table, the table extends the loaded
   * one and, when every page reports its own URL's id, the rows it added are pairwise
   * distinct and new.
   */
  lemma SyncFresh(s0: Store, listFetch: ListFetch, fetchInfo: InfoFetch)
    requires Ledgered(s0) && SelfNamed(fetchInfo)
    requires RunPages(s0, listFetch, fetchInfo, 13).Ok?
    ensures s0.records <= RunPages(s0, listFetch, fetchInfo, 13).value.records
    ensures FreshFrom(RunPages(s0, listFetch, fetchInfo, 13).value.records, InfoId, |s0.records|)
  {
    RunPagesSound(s0, listFetch, fetchInfo, 13);
  }
}
