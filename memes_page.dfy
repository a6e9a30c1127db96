/**
 * The Know Your Meme entry pages (`scrappers/memes/page.py`): the small extractions of
 * `get_page_text` (reference numbers, the ids after `entry_`, `video_` and `photo_`, the
 * optional source URL), and `sync`, which takes the index rows not stored yet, cuts them into
 * blocks, appends a row for every page that could be fetched, and uploads the table after
 * each block that appended something.
 */
module MemesPage {
  import opened Wrappers
  import opened Text
  import opened Ledger
  import opened Sorting
  import opened Blocks

  // ---------------------------------------------------------------- numbers in page text

  /** The length of the run of decimal digits at the start of `s`. */
  function DigitRun(s: string): (n: nat)
    ensures n <= |s| && AllDigits(s[..n])
    ensures n < |s| ==> !IsDigit(s[n])
  {
    if s == [] || !IsDigit(s[0]) then 0
    else
      var m := DigitRun(s[1..]);
      assert s[..m + 1] == [s[0]] + s[1..][..m];
      m + 1
  }

  /** A digit string followed by a non-digit (or nothing) starts with a run of exactly its length. */
  lemma {:induction false} DigitRunOf(d: string, rest: string)
    requires AllDigits(d)
    requires rest == [] || !IsDigit(rest[0])
    ensures DigitRun(d + rest) == |d|
  {
    if d != [] {
      assert (d + rest)[1..] == d[1..] + rest;
      DigitRunOf(d[1..], rest);
    } else {
      assert d + rest == rest;
    }
  }

  /**
   * `list(map(int, re.findall(r'\[(\d+)]', text)))`: scanning left to right, every `[`
   * followed by one or more digits and a `]` yields the number, and the scan resumes after
   * the `]`.
   */
  function BracketNumbers(s: string): seq<nat>
    decreases |s|
  {
    if s == [] then []
    else
      var n := DigitRun(s[1..]);
      if s[0] == '[' && 0 < n < |s| - 1 && s[n + 1] == ']' then
        assert s[1..n + 1] == s[1..][..n];
        [DigitsValue(s[1..n + 1])] + BracketNumbers(s[n + 2..])
      else BracketNumbers(s[1..])
  }

  /** How reference markers are printed: `[n]` for every number, one after the other. */
  function Citations(ns: seq<nat>): string
  {
    if ns == [] then "" else "[" + NatToString(ns[0]) + "]" + Citations(ns[1..])
  }

  /** Reading the markers back gives the numbers in their order. */
  lemma {:induction false} BracketNumbersCitations(ns: seq<nat>)
    ensures BracketNumbers(Citations(ns)) == ns
  {
    if ns != [] {
      var d := NatToString(ns[0]);
      var rest := Citations(ns[1..]);
      var s := "[" + d + "]" + rest;
      assert s[1..] == d + ("]" + rest);
      DigitRunOf(d, "]" + rest);
      assert s[1..|d| + 1] == d;
      assert s[|d| + 1] == ']';
      assert s[|d| + 2..] == rest;
      BracketNumbersCitations(ns[1..]);
    }
  }

  /** Text without a `[` carries no reference number. */
  lemma {:induction false} BracketNumbersNone(s: string)
    requires '[' !in s
    ensures BracketNumbers(s) == []
  {
    if s != [] {
      assert s[0] != '[';
      assert forall c :: c in s[1..] ==> c in s;
      BracketNumbersNone(s[1..]);
    }
  }

  /**
   * The leftmost match of `<prefix>\d+` in `s`, read as a number: the scan tries each
   * position in turn, and a match takes all the digits that follow the prefix.
   */
  function FindPrefixed(prefix: string, s: string): Option<nat>
    decreases |s|
  {
    if prefix <= s && |prefix| < |s| && IsDigit(s[|prefix|]) then
      var t := s[|prefix|..];
      Some(DigitsValue(t[..DigitRun(t)]))
    else if s == [] then None
    else FindPrefixed(prefix, s[1..])
  }

  /**
   * `int(re.findall(prefix + r'(\d+)', attr or '')[0])`: a missing attribute reads as the
   * empty string, and no match raises IndexError.
   */
  function PrefixedNumber(prefix: string, attr: Option<string>): (r: Result<int>)
    ensures attr.None? ==> r == Err(IndexError)
    ensures r.Err? ==> r == Err(IndexError)
  {
    match FindPrefixed(prefix, if attr.Some? then attr.value else "")
    case None => Err(IndexError)
    case Some(n) => Ok(n)
  }

  /** The attribute `<prefix><n>` (followed by anything that is not a digit) yields `n`. */
  lemma PrefixedNumberRoundTrip(prefix: string, n: nat, rest: string)
    requires rest == [] || !IsDigit(rest[0])
    ensures PrefixedNumber(prefix, Some(prefix + NatToString(n) + rest)) == Ok(n)
  {
    var d := NatToString(n);
    var s := prefix + d + rest;
    assert prefix <= s;
    var t := s[|prefix|..];
    assert t == d + rest;
    DigitRunOf(d, rest);
    assert t[..|d|] == d;
    assert s[|prefix|] == d[0];
  }

  /** `urljoin(page_url, data_src) if data_src else None`. */
  function SourceUrl(join: (string, string) -> string, pageUrl: string, dataSrc: Option<string>): (r: Option<string>)
    ensures r.None? <==> dataSrc.None? || dataSrc.value == ""
    ensures r.Some? ==> r.value == join(pageUrl, dataSrc.value)
  {
    if dataSrc.Some? && dataSrc.value != "" then Some(join(pageUrl, dataSrc.value)) else None
  }

  // ---------------------------------------------------------------- the lists of a page

  /** A paragraph of the external references: the text of its `<sup>`, if it has one. */
  datatype RefPara = RefPara(sup: Option<string>, footnote: string)

  datatype Reference = Reference(ids: seq<nat>, footnote: string)

  /** The references a list of paragraphs yields: one per paragraph with a `<sup>`. */
  function RefsOf(paras: seq<RefPara>): seq<Reference>
  {
    if paras == [] then []
    else
      var p := paras[|paras| - 1];
      RefsOf(paras[..|paras| - 1]) + (if p.sup.Some? then [Reference(BracketNumbers(p.sup.value), p.footnote)] else [])
  }

  lemma {:induction false} RefsOfConcat(a: seq<RefPara>, b: seq<RefPara>)
    ensures RefsOf(a + b) == RefsOf(a) + RefsOf(b)
    decreases |b|
  {
    if b == [] {
      assert a + b == a;
    } else {
      RefsOfConcat(a, b[..|b| - 1]);
      assert (a + b)[..|a + b| - 1] == a + b[..|b| - 1];
    }
  }

  /** A paragraph without `<sup>` adds nothing wherever it stands. */
  lemma RefsSkipPlain(a: seq<RefPara>, p: RefPara, b: seq<RefPara>)
    requires p.sup.None?
    ensures RefsOf(a + [p] + b) == RefsOf(a + b)
  {
    RefsOfConcat(a + [p], b);
    RefsOfConcat(a, [p]);
    RefsOfConcat(a, b);
    assert RefsOf([p]) == RefsOf([]) + [];
  }

  /** A paragraph with `<sup>` adds one reference carrying the numbers of its markers. */
  lemma RefsKeepMarked(a: seq<RefPara>, p: RefPara, b: seq<RefPara>)
    requires p.sup.Some?
    ensures RefsOf(a + [p] + b) == RefsOf(a) + [Reference(BracketNumbers(p.sup.value), p.footnote)] + RefsOf(b)
  {
    RefsOfConcat(a + [p], b);
    RefsOfConcat(a, [p]);
    assert [p][..0] == [];
  }

  /** The loop over the reference paragraphs. */
  method CollectRefs(paras: seq<RefPara>) returns (refs: seq<Reference>)
    ensures refs == RefsOf(paras)
  {
    refs := [];
    var i := 0;
    while i < |paras|
      invariant 0 <= i <= |paras|
      invariant refs == RefsOf(paras[..i])
    {
      var p := paras[i];
      assert paras[..i + 1][..i] == paras[..i];
      if p.sup.Some? {
        refs := refs + [Reference(BracketNumbers(p.sup.value), p.footnote)];
      }
      i := i + 1;
    }
    assert paras[..i] == paras;
  }

  /** A cell of the recent videos or images: whether it has the box, its `id`, link, image and info. */
  datatype MediaCell = MediaCell(hasBox: bool, boxId: Option<string>, href: string, alt: Option<string>,
                                 src: string, dataSrc: Option<string>, info: string)

  datatype Media = Media(id: int, pageUrl: string, alt: Option<string>, previewUrl: string,
                         sourceUrl: Option<string>, info: string)

  /** What a boxed cell yields: its number after `prefix`, its URLs joined onto the page URL. */
  function MediaOf(cell: MediaCell, prefix: string, join: (string, string) -> string, pageUrl: string): Result<Media>
  {
    match PrefixedNumber(prefix, cell.boxId)
    case Err(e) => Err(e)
    case Ok(id) =>
      Ok(Media(id, join(pageUrl, cell.href), cell.alt, join(pageUrl, cell.src),
               SourceUrl(join, pageUrl, cell.dataSrc), cell.info))
  }

  /**
   * The list of a page's videos (`prefix` = `video_`) or images (`photo_`): cells without the
   * box are skipped; a boxed cell without the number raises, which ends the whole page.
   */
  function MediaList(cells: seq<MediaCell>, prefix: string, join: (string, string) -> string, pageUrl: string): Result<seq<Media>>
  {
    if cells == [] then Ok([])
    else
      var c := cells[|cells| - 1];
      match MediaList(cells[..|cells| - 1], prefix, join, pageUrl)
      case Err(e) => Err(e)
      case Ok(ms) =>
        if !c.hasBox then Ok(ms)
        else
          match MediaOf(c, prefix, join, pageUrl)
          case Err(e) => Err(e)
          case Ok(m) => Ok(ms + [m])
  }

  /**
   * Every item of a collected list comes from a boxed cell: its id is the number after the
   * prefix in the cell's `id`, and its source URL is present exactly when the cell has a
   * non-empty `data-src`.
   */
  lemma {:induction false} MediaListFromCells(cells: seq<MediaCell>, prefix: string, join: (string, string) -> string, pageUrl: string)
    ensures MediaList(cells, prefix, join, pageUrl).Ok? ==>
      forall m :: m in MediaList(cells, prefix, join, pageUrl).value ==>
        exists c :: c in cells && c.hasBox && PrefixedNumber(prefix, c.boxId) == Ok(m.id)
          && m.sourceUrl == SourceUrl(join, pageUrl, c.dataSrc)
  {
    if cells != [] {
      var init := cells[..|cells| - 1];
      MediaListFromCells(init, prefix, join, pageUrl);
      assert forall c :: c in init ==> c in cells;
    }
  }

  /** A boxed cell whose `id` lacks the number makes the whole list fail. */
  lemma {:induction false} MediaListFails(cells: seq<MediaCell>, prefix: string, join: (string, string) -> string, pageUrl: string, i: nat)
    requires i < |cells| && cells[i].hasBox && PrefixedNumber(prefix, cells[i].boxId).Err?
    ensures MediaList(cells, prefix, join, pageUrl) == Err(IndexError)
  {
    var init := cells[..|cells| - 1];
    if i < |cells| - 1 {
      assert init[i] == cells[i];
      MediaListFails(init, prefix, join, pageUrl, i);
    } else {
      MediaListNeverOther(init, prefix, join, pageUrl);
    }
  }

  lemma {:induction false} MediaListNeverOther(cells: seq<MediaCell>, prefix: string, join: (string, string) -> string, pageUrl: string)
    ensures MediaList(cells, prefix, join, pageUrl).Err? ==> MediaList(cells, prefix, join, pageUrl) == Err(IndexError)
  {
    if cells != [] {
      MediaListNeverOther(cells[..|cells| - 1], prefix, join, pageUrl);
    }
  }

  /** The loop over the video or image cells. */
  method CollectMedia(cells: seq<MediaCell>, prefix: string, join: (string, string) -> string, pageUrl: string)
    returns (r: Result<seq<Media>>)
    ensures r == MediaList(cells, prefix, join, pageUrl)
  {
    var ms: seq<Media> := [];
    var i := 0;
    while i < |cells|
      invariant 0 <= i <= |cells|
      invariant MediaList(cells[..i], prefix, join, pageUrl) == Ok(ms)
    {
      var c := cells[i];
      assert cells[..i + 1][..i] == cells[..i];
      if c.hasBox {
        var m := MediaOf(c, prefix, join, pageUrl);
        if m.Err? {
          MediaListFails(cells, prefix, join, pageUrl, i);
          return Err(m.error);
        }
        ms := ms + [m.value];
      }
      i := i + 1;
    }
    assert cells[..i] == cells;
    r := Ok(ms);
  }

  /** A cell of the related entries: whether it shows a titled image, its `class`, link and title. */
  datatype EntryCell = EntryCell(hasImage: bool, cls: Option<string>, href: string, title: string)

  datatype Entry = Entry(entryId: int, url: string, title: string)

  /** The related entries: cells without a titled image are skipped, the id follows `entry_`. */
  function EntryList(cells: seq<EntryCell>, join: (string, string) -> string, pageUrl: string): Result<seq<Entry>>
  {
    if cells == [] then Ok([])
    else
      var c := cells[|cells| - 1];
      match EntryList(cells[..|cells| - 1], join, pageUrl)
      case Err(e) => Err(e)
      case Ok(es) =>
        if !c.hasImage then Ok(es)
        else
          match PrefixedNumber("entry_", c.cls)
          case Err(e) => Err(e)
          case Ok(id) => Ok(es + [Entry(id, join(pageUrl, c.href), c.title)])
  }

  /** Every related entry comes from a cell with a titled image and carries the number after `entry_`. */
  lemma {:induction false} EntryListFromCells(cells: seq<EntryCell>, join: (string, string) -> string, pageUrl: string)
    ensures EntryList(cells, join, pageUrl).Ok? ==>
      forall e :: e in EntryList(cells, join, pageUrl).value ==>
        exists c :: c in cells && c.hasImage && PrefixedNumber("entry_", c.cls) == Ok(e.entryId) && e.title == c.title
  {
    if cells != [] {
      var init := cells[..|cells| - 1];
      EntryListFromCells(init, join, pageUrl);
      assert forall c :: c in init ==> c in cells;
    }
  }

  /** The loop over the related-entry cells. */
  method CollectEntries(cells: seq<EntryCell>, join: (string, string) -> string, pageUrl: string)
    returns (r: Result<seq<Entry>>)
    ensures r == EntryList(cells, join, pageUrl)
  {
    var es: seq<Entry> := [];
    var i := 0;
    while i < |cells|
      invariant 0 <= i <= |cells|
      invariant EntryList(cells[..i], join, pageUrl) == Ok(es)
    {
      var c := cells[i];
      assert cells[..i + 1][..i] == cells[..i];
      if c.hasImage {
        var id := PrefixedNumber("entry_", c.cls);
        if id.Err? {
          EntryListFails(cells, join, pageUrl, i);
          return Err(IndexError);
        }
        es := es + [Entry(id.value, join(pageUrl, c.href), c.title)];
      }
      i := i + 1;
    }
    assert cells[..i] == cells;
    r := Ok(es);
  }

  /** A titled cell whose `class` lacks the number makes the whole list fail. */
  lemma {:induction false} EntryListFails(cells: seq<EntryCell>, join: (string, string) -> string, pageUrl: string, i: nat)
    requires i < |cells| && cells[i].hasImage && PrefixedNumber("entry_", cells[i].cls).Err?
    ensures EntryList(cells, join, pageUrl) == Err(IndexError)
  {
    var init := cells[..|cells| - 1];
    if i < |cells| - 1 {
      assert init[i] == cells[i];
      EntryListFails(init, join, pageUrl, i);
    } else {
      EntryListNeverOther(init, join, pageUrl);
    }
  }

  lemma {:induction false} EntryListNeverOther(cells: seq<EntryCell>, join: (string, string) -> string, pageUrl: string)
    ensures EntryList(cells, join, pageUrl).Err? ==> EntryList(cells, join, pageUrl) == Err(IndexError)
  {
    if cells != [] {
      EntryListNeverOther(cells[..|cells| - 1], join, pageUrl);
    }
  }

  /** The parts of an entry page the extraction reads, already selected from the document. */
  datatype PageDoc = PageDoc(url: string, bodyHtml: string, infos: Fields, paras: seq<RefPara>,
                             related: seq<EntryCell>, videos: seq<MediaCell>, images: seq<MediaCell>)

  type Fields = map<string, string>

  /** What `get_page_text` returns. */
  datatype PageText = PageText(pageUrl: string, bodyHtml: string, infos: Fields, refs: seq<Reference>,
                               related: seq<Entry>, videos: seq<Media>, images: seq<Media>)

  /**
   * `get_page_text` on an already fetched page: the lists are collected in the source's order
   * and any id that cannot be read makes the whole call fail.
   */
  method GetPageText(doc: PageDoc, join: (string, string) -> string) returns (r: Result<PageText>)
    ensures r.Ok? <==> (EntryList(doc.related, join, doc.url).Ok?
      && MediaList(doc.videos, "video_", join, doc.url).Ok? && MediaList(doc.images, "photo_", join, doc.url).Ok?)
    ensures r.Ok? ==> r.value == PageText(doc.url, doc.bodyHtml, doc.infos, RefsOf(doc.paras),
      EntryList(doc.related, join, doc.url).value, MediaList(doc.videos, "video_", join, doc.url).value,
      MediaList(doc.images, "photo_", join, doc.url).value)
  {
    var refs := CollectRefs(doc.paras);
    var related := CollectEntries(doc.related, join, doc.url);
    if related.Err? {
      return Err(related.error);
    }
    var videos := CollectMedia(doc.videos, "video_", join, doc.url);
    if videos.Err? {
      return Err(videos.error);
    }
    var images := CollectMedia(doc.images, "photo_", join, doc.url);
    if images.Err? {
      return Err(images.error);
    }
    r := Ok(PageText(doc.url, doc.bodyHtml, doc.infos, refs, related.value, videos.value, images.value));
  }

  // ---------------------------------------------------------------- sync

  /** A row of the index table: its id, its `link` and its other columns. */
  datatype SrcRow = SrcRow(id: int, link: string, rest: Fields)

  function RowId(r: SrcRow): int { r.id }

  /** A stored row: the index row merged with what its page yielded. */
  datatype Rec = Rec(row: SrcRow, page: PageText)

  function RecId(r: Rec): int { r.row.id }

  /** The page fetcher: the extraction of the page at a link, or the error it raised. */
  type Fetch = string -> Result<PageText>

  /** The rows a block appends: one for every row whose page could be read, in the order the rows are given. */
  function BlockRecords(block: seq<SrcRow>, fetch: Fetch): seq<Rec>
  {
    if block == [] then []
    else
      var x := block[|block| - 1];
      BlockRecords(block[..|block| - 1], fetch) + (if fetch(x.link).Ok? then [Rec(x, fetch(x.link).value)] else [])
  }

  /** Every appended row is a block row whose page was read, with that page's text. */
  lemma {:induction false} BlockRecordsFromRows(block: seq<SrcRow>, fetch: Fetch)
    ensures |BlockRecords(block, fetch)| <= |block|
    ensures forall r :: r in BlockRecords(block, fetch) ==>
      r.row in block && fetch(r.row.link) == Ok(r.page)
  {
    if block != [] {
      BlockRecordsFromRows(block[..|block| - 1], fetch);
      assert forall x :: x in block[..|block| - 1] ==> x in block;
    }
  }

  /** A block whose pages all fail appends nothing. */
  lemma {:induction false} BlockRecordsEmpty(block: seq<SrcRow>, fetch: Fetch)
    requires forall x :: x in block ==> fetch(x.link).Err?
    ensures BlockRecords(block, fetch) == []
  {
    if block != [] {
      assert forall x :: x in block[..|block| - 1] ==> x in block;
      BlockRecordsEmpty(block[..|block| - 1], fetch);
    }
  }

  /** The rows blocks `0 .. k - 1` append, the tasks of block `b` finishing in the order `commits[b]`. */
  function SyncRecords(commits: seq<seq<SrcRow>>, fetch: Fetch, k: nat): seq<Rec>
    requires k <= |commits|
  {
    if k == 0 then [] else SyncRecords(commits, fetch, k - 1) + BlockRecords(commits[k - 1], fetch)
  }

  /** The tables uploaded by blocks `0 .. k - 1` of a run from `r0`: one after each block that appended a row. */
  function SyncUploads(r0: seq<Rec>, commits: seq<seq<SrcRow>>, fetch: Fetch, k: nat): seq<seq<Rec>>
    requires k <= |commits|
  {
    if k == 0 then []
    else
      SyncUploads(r0, commits, fetch, k - 1)
        + (if BlockRecords(commits[k - 1], fetch) != [] then [r0 + SyncRecords(commits, fetch, k)] else [])
  }

  /** The uploaded `table.parquet`: the rows sorted by id descending. */
  function Table(rs: seq<Rec>): seq<Rec>
  {
    SortByKeyDesc(rs, RecId)
  }

  class PageSync {
    var records: seq<Rec>
    /** `_total_count`. */
    var totalCount: nat
    /** The record lists whose `Table` was uploaded, oldest first. */
    ghost var uploads: seq<seq<Rec>>

    /** The state after loading the destination `table.parquet` (empty when absent). */
    constructor (loaded: seq<Rec>)
      ensures records == loaded && totalCount == |loaded| && uploads == []
    {
      records := loaded;
      totalCount := |loaded|;
      uploads := [];
    }

    /**
     * One block: every row's page is fetched by a task of the pool, and a task whose fetch
     * succeeds appends its row when it finishes, so in the order `commit` in which the tasks
     * finish; a row whose fetch raises is dropped. The table is uploaded, and the total
     * reset, only when the block appended something.
     */
    method SyncBlock(block: seq<SrcRow>, commit: seq<SrcRow>, fetch: Fetch) returns (hasUpdate: bool)
      requires Rearranged(commit, block)
      modifies this
      ensures records == old(records) + BlockRecords(commit, fetch)
      ensures hasUpdate <==> BlockRecords(commit, fetch) != []
      ensures hasUpdate ==> uploads == old(uploads) + [records] && totalCount == |records|
      ensures !hasUpdate ==> uploads == old(uploads) && totalCount == old(totalCount)
    {
      ghost var r0 := records;
      hasUpdate := false;
      var i := 0;
      while i < |commit|
        invariant 0 <= i <= |commit|
        invariant records == r0 + BlockRecords(commit[..i], fetch)
        invariant hasUpdate <==> BlockRecords(commit[..i], fetch) != []
        invariant uploads == old(uploads) && totalCount == old(totalCount)
      {
        var item := commit[i];
        assert commit[..i + 1][..i] == commit[..i];
        var vitem := fetch(item.link);
        if vitem.Ok? {
          records := records + [Rec(item, vitem.value)];
          hasUpdate := true;
        }
        i := i + 1;
      }
      assert commit[..i] == commit;
      if !hasUpdate {
        return;
      }
      uploads := uploads + [records];
      totalCount := |records|;
    }

    /**
     * `sync`: the index rows whose id is not stored yet, in their order, cut into
     * `ceil(n / batch_size)` blocks processed one after another, the tasks of block `b`
     * finishing in the order `commits[b]`.
     */
    method Sync(src: seq<SrcRow>, batchSize: nat, commits: seq<seq<SrcRow>>, fetch: Fetch)
      returns (pending: seq<SrcRow>)
      requires CommitOrders(FilterNew(src, RowId, KeySet(records, RecId)), batchSize, commits)
      modifies this
      ensures pending == FilterNew(src, RowId, KeySet(old(records), RecId))
      ensures records == old(records) + SyncRecords(commits, fetch, NumBlocks(|pending|, batchSize))
      ensures uploads == old(uploads) + SyncUploads(old(records), commits, fetch, NumBlocks(|pending|, batchSize))
      ensures uploads != old(uploads) ==> totalCount == |records|
      ensures uploads == old(uploads) ==> totalCount == old(totalCount)
    {
      pending := FilterNew(src, RowId, KeySet(records, RecId));
      SyncBlocks(pending, batchSize, commits, fetch);
    }

    /** The loop of `sync` over the blocks of the pending rows. */
    method SyncBlocks(pending: seq<SrcRow>, batchSize: nat, commits: seq<seq<SrcRow>>, fetch: Fetch)
      requires CommitOrders(pending, batchSize, commits)
      modifies this
      ensures records == old(records) + SyncRecords(commits, fetch, NumBlocks(|pending|, batchSize))
      ensures uploads == old(uploads) + SyncUploads(old(records), commits, fetch, NumBlocks(|pending|, batchSize))
      ensures uploads != old(uploads) ==> totalCount == |records|
      ensures uploads == old(uploads) ==> totalCount == old(totalCount)
    {
      ghost var r0, l0 := records, uploads;
      var n := NumBlocks(|pending|, batchSize);
      var b := 0;
      while b < n
        invariant 0 <= b <= n
        invariant records == r0 + SyncRecords(commits, fetch, b)
        invariant uploads == l0 + SyncUploads(r0, commits, fetch, b)
        invariant uploads != l0 ==> totalCount == |records|
        invariant uploads == l0 ==> totalCount == old(totalCount)
      {
        var block := Block(pending, b, batchSize);
        ghost var prev := SyncRecords(commits, fetch, b);
        ghost var added := BlockRecords(commits[b], fetch);
        ghost var ups := SyncUploads(r0, commits, fetch, b);
        var _ := SyncBlock(block, commits[b], fetch);
        SyncUploadsStep(r0, commits, fetch, b);
        AppendAssoc(r0, prev, added);
        AppendAssoc(l0, ups, if added != [] then [r0 + (prev + added)] else []);
        b := b + 1;
      }
    }
  }

  lemma SyncUploadsStep(r0: seq<Rec>, commits: seq<seq<SrcRow>>, fetch: Fetch, k: nat)
    requires k < |commits|
    ensures SyncRecords(commits, fetch, k + 1) == SyncRecords(commits, fetch, k) + BlockRecords(commits[k], fetch)
    ensures SyncUploads(r0, commits, fetch, k + 1)
      == SyncUploads(r0, commits, fetch, k)
        + (if BlockRecords(commits[k], fetch) != [] then [r0 + SyncRecords(commits, fetch, k + 1)] else [])
  {
  }

  /**
   * Every row a run appends is an index row that was not stored (its id was not in the
   * destination) whose page could be read.
   */
  lemma {:induction false} SyncRecordsFresh(src: seq<SrcRow>, size: nat, commits: seq<seq<SrcRow>>, fetch: Fetch, exist: set<int>, k: nat)
    requires CommitOrders(FilterNew(src, RowId, exist), size, commits) && k <= |commits|
    ensures forall r :: r in SyncRecords(commits, fetch, k) ==>
      r.row in src && RecId(r) !in exist && fetch(r.row.link) == Ok(r.page)
  {
    CommittedRows(FilterNew(src, RowId, exist), size, commits);
    SyncRecordsFromOrder(FilterNew(src, RowId, exist), commits, fetch, k);
    FilterNewMembers(src, RowId, exist);
  }

  /** Every row a run appends is a row of the order whose page could be read. */
  lemma {:induction false} SyncRecordsFromOrder(order: seq<SrcRow>, commits: seq<seq<SrcRow>>, fetch: Fetch, k: nat)
    requires DrawnFrom(order, commits) && k <= |commits|
    ensures forall r :: r in SyncRecords(commits, fetch, k) ==> r.row in order && fetch(r.row.link) == Ok(r.page)
  {
    if k > 0 {
      SyncRecordsFromOrder(order, commits, fetch, k - 1);
      BlockRecordsFromRows(commits[k - 1], fetch);
    }
  }

  /**
   * Each upload of a run is the whole table at the end of some block that appended a row:
   * the uploaded lists only grow, and the number of uploads is at most the number of blocks.
   */
  lemma {:induction false} SyncUploadsGrow(r0: seq<Rec>, commits: seq<seq<SrcRow>>, fetch: Fetch, k: nat)
    requires k <= |commits|
    ensures |SyncUploads(r0, commits, fetch, k)| <= k
    ensures forall i :: 0 <= i < |SyncUploads(r0, commits, fetch, k)| ==>
      r0 <= SyncUploads(r0, commits, fetch, k)[i] <= r0 + SyncRecords(commits, fetch, k)
    ensures forall i, j :: 0 <= i < j < |SyncUploads(r0, commits, fetch, k)| ==>
      |SyncUploads(r0, commits, fetch, k)[i]| < |SyncUploads(r0, commits, fetch, k)[j]|
  {
    if k > 0 {
      SyncUploadsGrow(r0, commits, fetch, k - 1);
      var prev := SyncRecords(commits, fetch, k - 1);
      var added := BlockRecords(commits[k - 1], fetch);
      assert r0 + (prev + added) == (r0 + prev) + added;
    }
  }
}
