/**
 * The quickmeme index (`scrappers/qmeme/index.py`): for every meme group not crawled yet,
 * find its last listing page, walk pages `1 .. max` threading the id of the last post seen
 * into the next request, admit every post whose id is new, and publish the table (sorted by
 * id descending) and the crawled groups (sorted ascending) through the `_deploy` gate.
 */
module QmemeIndex {
  import opened Wrappers
  import opened Text
  import opened Ledger
  import opened Sorting
  import opened PageSearch

  // ---------------------------------------------------------------- parsing a post

  /**
   * The id of a post element: `elem_id.split('-', maxsplit=1)`; no dash means the element
   * is skipped (`None`); otherwise the prefix must be `post` and the rest an integer.
   */
  function PostId(elemId: string): (r: Result<Option<int>>)
    ensures r == Ok(None) <==> '-' !in elemId
  {
    match IndexOf(elemId, '-')
    case None => Ok(None)
    case Some(k) =>
      if elemId[..k] != "post" then Err(AssertionError)
      else
        match ParseInt(elemId[k + 1..])
        case None => Err(ValueError)
        case Some(id) => Ok(Some(id))
  }

  /** The element id `post-<id>` parses back to `id`. */
  lemma PostIdRoundTrip(id: int)
    ensures PostId("post-" + IntToString(id)) == Ok(Some(id))
  {
    var s := "post-" + IntToString(id);
    IntToStringNoDash(id);
    assert s[..4] == "post" && s[4] == '-';
    assert '-' !in s[..4];
    assert s[5..] == IntToString(id);
    ParseIntRoundTrip(id);
  }

  /** A printed integer has a dash only as its sign. */
  lemma IntToStringNoDash(i: int)
    ensures forall k :: 1 <= k < |IntToString(i)| ==> IntToString(i)[k] != '-'
  {
    if i < 0 {
      var d := NatToString(-i);
      assert forall k :: 0 <= k < |d| ==> IsDigit(d[k]);
      assert forall k :: 1 <= k < |IntToString(i)| ==> IntToString(i)[k] == d[k - 1];
    } else {
      assert forall k :: 0 <= k < |IntToString(i)| ==> IsDigit(IntToString(i)[k]);
    }
  }

  /** Any other prefix before the first dash is rejected. */
  lemma PostIdWrongPrefix(prefix: string, rest: string)
    requires '-' !in prefix && prefix != "post"
    ensures PostId(prefix + "-" + rest) == Err(AssertionError)
  {
    var s := prefix + "-" + rest;
    assert s[|prefix|] == '-';
    assert s[..|prefix|] == prefix;
  }

  /** `int(text.replace(',', ''))`: the share count with its thousands separators removed. */
  function ShareCount(text: string): Result<int>
  {
    match ParseInt(RemoveAll(text, ','))
    case Some(n) => Ok(n)
    case None => Err(ValueError)
  }

  /** A separator anywhere in the text does not change the count. */
  lemma ShareCountIgnoresSeparator(a: string, b: string)
    ensures ShareCount(a + "," + b) == ShareCount(a + b)
  {
    RemoveSeparator(a, b);
    assert a + "," + b == a + [','] + b;
  }

  lemma RemoveSeparator(a: string, b: string)
    ensures RemoveAll(a + [','] + b, ',') == RemoveAll(a + b, ',')
  {
    var ra, rb := RemoveAll(a, ','), RemoveAll(b, ',');
    RemoveAllConcat(a, [','], ',');
    RemoveAllConcat(a + [','], b, ',');
    RemoveAllConcat(a, b, ',');
    assert RemoveAll([','], ',') == [];
  }

  /** A printed count reads back as itself. */
  lemma ShareCountOfPrinted(n: int)
    ensures ShareCount(IntToString(n)) == Ok(n)
  {
    var s := IntToString(n);
    NoCommaInPrinted(n);
    RemoveAllNoOp(s, ',');
    ParseIntRoundTrip(n);
  }

  lemma NoCommaInPrinted(i: int)
    ensures ',' !in IntToString(i)
  {
    var s := IntToString(i);
    if i < 0 {
      var d := NatToString(-i);
      assert forall k :: 0 <= k < |d| ==> IsDigit(d[k]);
      assert forall k :: 1 <= k < |s| ==> s[k] == d[k - 1];
    } else {
      assert forall k :: 0 <= k < |s| ==> IsDigit(s[k]);
    }
  }

  // ---------------------------------------------------------------- requests

  /** One post of a listing page. */
  datatype Post = Post(
    id: int,
    kind: string,
    idx: string,
    title: string,
    pageUrl: string,
    imageUrl: string,
    imageAlt: Option<string>,
    shareCount: int)

  /** The query parameters of a page request. */
  type Params = seq<(string, string)>

  /**
   * `{'inf': '1'}` when `last_id` is falsy (absent or 0), else `{'inf': '1', 'i': str(last_id)}`.
   */
  function RequestParams(lastId: Option<int>): (p: Params)
    ensures |p| >= 1 && p[0] == ("inf", "1")
    ensures |p| == 2 <==> lastId.Some? && lastId.value != 0
    ensures |p| <= 2
  {
    if lastId.None? || lastId.value == 0 then [("inf", "1")]
    else [("inf", "1"), ("i", IntToString(lastId.value))]
  }

  /** The `i` parameter carries the last id back to the site unchanged. */
  lemma RequestParamsCarryId(id: int)
    requires id != 0
    ensures RequestParams(Some(id))[1].0 == "i"
    ensures ParseInt(RequestParams(Some(id))[1].1) == Some(id)
  {
    ParseIntRoundTrip(id);
  }

  /** One `.post` element of a listing page as the parser reads it. */
  datatype RawPost = RawPost(
    elemId: string,              // the element's `id` attribute
    title: string,
    pageUrl: string,             // the post link, joined to the page url
    pathSegments: seq<string>,   // `urlsplit(page_url).path_segments`
    imageUrl: string,
    imageAlt: Option<string>,
    shareText: string)           // the text of `.sharecounts strong`

  /**
   * The body of the post loop of `get_meme_from_page` for one element: an id without a
   * dash skips it; then the id is read, the link's path must start at the root and have a
   * kind and an index, and the share count is read. The first check that fails raises.
   */
  function ParsePost(raw: RawPost): (r: Result<Option<Post>>)
    ensures r == Ok(None) <==> '-' !in raw.elemId
    ensures r.Ok? && r.value.Some? ==>
      && PostId(raw.elemId) == Ok(Some(r.value.value.id))
      && |raw.pathSegments| >= 3 && raw.pathSegments[0] == ""
      && r.value.value.kind == raw.pathSegments[1] && r.value.value.idx == raw.pathSegments[2]
      && ShareCount(raw.shareText) == Ok(r.value.value.shareCount)
    ensures r.Err? ==>
      || PostId(raw.elemId).Err?
      || |raw.pathSegments| < 3 || raw.pathSegments[0] != ""
      || ShareCount(raw.shareText).Err?
  {
    match PostId(raw.elemId)
    case Err(e) => Err(e)
    case Ok(None) => Ok(None)
    case Ok(Some(id)) =>
      if |raw.pathSegments| == 0 then Err(IndexError)
      else if raw.pathSegments[0] != "" then Err(AssertionError)
      else if |raw.pathSegments| < 3 then Err(IndexError)
      else
        match ShareCount(raw.shareText)
        case Err(e) => Err(e)
        case Ok(n) =>
          Ok(Some(Post(id, raw.pathSegments[1], raw.pathSegments[2], raw.title, raw.pageUrl, raw.imageUrl,
                       raw.imageAlt, n)))
  }

  /** An element written the way the site writes a post parses back to that post. */
  lemma ParsePostOfWritten(post: Post, rest: seq<string>)
    ensures ParsePost(RawPost("post-" + IntToString(post.id), post.title, post.pageUrl,
                              ["", post.kind, post.idx] + rest, post.imageUrl, post.imageAlt,
                              IntToString(post.shareCount)))
      == Ok(Some(post))
  {
    PostIdRoundTrip(post.id);
    ShareCountOfPrinted(post.shareCount);
    assert '-' in "post-" + IntToString(post.id) by {
      assert ("post-" + IntToString(post.id))[4] == '-';
    }
  }

  /** The posts of the elements of a page, in order, or the exception of the first bad element. */
  function ParsedPage(raws: seq<RawPost>): Result<seq<Post>>
  {
    if raws == [] then Ok([])
    else
      match ParsedPage(raws[..|raws| - 1])
      case Err(e) => Err(e)
      case Ok(prev) =>
        match ParsePost(raws[|raws| - 1])
        case Err(e) => Err(e)
        case Ok(None) => Ok(prev)
        case Ok(Some(p)) => Ok(prev + [p])
  }

  /** Element `k` is the first that does not parse, and it raises `e`. */
  ghost predicate FirstBad(raws: seq<RawPost>, e: Failure)
  {
    exists k :: 0 <= k < |raws| && ParsePost(raws[k]) == Err(e) && forall j :: 0 <= j < k ==> ParsePost(raws[j]).Ok?
  }

  /** The number of elements whose id has a dash: those the post loop does not skip. */
  function Dashed(raws: seq<RawPost>): nat
  {
    if raws == [] then 0
    else Dashed(raws[..|raws| - 1]) + (if '-' in raws[|raws| - 1].elemId then 1 else 0)
  }

  /**
   * The post loop of `get_meme_from_page` over the elements of a page: it succeeds exactly
   * when every element parses, keeping in order one post for every element with a dash in
   * its id, and otherwise raises the exception of the first element that does not parse.
   */
  method ParsePosts(raws: seq<RawPost>) returns (r: Result<seq<Post>>)
    ensures r == ParsedPage(raws)
    ensures r.Ok? <==> forall k :: 0 <= k < |raws| ==> ParsePost(raws[k]).Ok?
    ensures r.Ok? ==> |r.value| == Dashed(raws)
    ensures r.Err? ==> FirstBad(raws, r.error)
  {
    var retval: seq<Post> := [];
    var i := 0;
    while i < |raws|
      invariant 0 <= i <= |raws|
      invariant ParsedPage(raws[..i]) == Ok(retval)
      invariant forall k :: 0 <= k < i ==> ParsePost(raws[k]).Ok?
      invariant |retval| == Dashed(raws[..i])
    {
      var post := ParsePost(raws[i]);
      if post.Err? {
        ParsedPageStops(raws, i);
        assert FirstBad(raws, post.error);
        return Err(post.error);
      }
      ParsedPageStep(raws, i);
      if post.value.Some? {
        retval := retval + [post.value.value];
      }
      i := i + 1;
    }
    assert raws[..i] == raws;
    r := Ok(retval);
  }

  /** One element of the post loop past the first `i`, when it parses. */
  lemma ParsedPageStep(raws: seq<RawPost>, i: nat)
    requires i < |raws| && ParsePost(raws[i]).Ok? && ParsedPage(raws[..i]).Ok?
    ensures ParsePost(raws[i]).value.None? ==> ParsedPage(raws[..i + 1]) == ParsedPage(raws[..i])
    ensures ParsePost(raws[i]).value.Some? ==>
      ParsedPage(raws[..i + 1]) == Ok(ParsedPage(raws[..i]).value + [ParsePost(raws[i]).value.value])
    ensures Dashed(raws[..i + 1]) == Dashed(raws[..i]) + (if '-' in raws[i].elemId then 1 else 0)
  {
    var t := raws[..i + 1];
    assert t[..|t| - 1] == raws[..i] && t[|t| - 1] == raws[i] && t != [];
    var prev := ParsedPage(raws[..i]).value;
    if ParsePost(raws[i]).value.None? {
      assert ParsedPage(t) == Ok(prev);
    } else {
      assert ParsedPage(t) == Ok(prev + [ParsePost(raws[i]).value.value]);
    }
  }

  /** A page whose element `i` is the first that does not parse raises that element's exception. */
  lemma {:induction false} ParsedPageStops(raws: seq<RawPost>, i: nat)
    requires i < |raws| && ParsePost(raws[i]).Err?
    requires ParsedPage(raws[..i]).Ok?
    ensures ParsedPage(raws) == Err(ParsePost(raws[i]).error)
    decreases |raws|
  {
    var init := raws[..|raws| - 1];
    if i < |raws| - 1 {
      assert init[..i] == raws[..i] && init[i] == raws[i];
      ParsedPageStops(init, i);
    } else {
      assert init == raws[..i];
    }
  }

  /**
   * `get_meme_from_page(base_url, last_id, page_no)`: the elements of one listing page, or
   * the exception of its request (`raise_for_status`).
   */
  type Fetch = (string, nat, Params) -> Result<seq<RawPost>>

  /** The posts `get_meme_from_page` returns for page `p`, or the exception it raises. */
  function GetPage(fetch: Fetch, baseUrl: string, p: nat, params: Params): Result<seq<Post>>
  {
    match fetch(baseUrl, p, params)
    case Err(e) => Err(e)
    case Ok(raws) => ParsedPage(raws)
  }

  /** `get_meme_from_page`: the request with the parameters `last_id` gives, then the post loop. */
  method GetMemeFromPage(fetch: Fetch, baseUrl: string, lastId: Option<int>, p: nat) returns (r: Result<seq<Post>>)
    ensures r == GetPage(fetch, baseUrl, p, RequestParams(lastId))
    ensures fetch(baseUrl, p, RequestParams(lastId)).Err? ==> r == Err(fetch(baseUrl, p, RequestParams(lastId)).error)
    ensures r.Ok? ==> fetch(baseUrl, p, RequestParams(lastId)).Ok?
  {
    var resp := fetch(baseUrl, p, RequestParams(lastId));
    if resp.Err? {
      return Err(resp.error);
    }
    r := ParsePosts(resp.value);
  }

  /** The id of the last post of `items`, or `last` when there is none. */
  function LastIdAfter(items: seq<Post>, last: Option<int>): Option<int>
  {
    if items == [] then last else Some(items[|items| - 1].id)
  }

  /** The pages of one group: page `p` requested with the `last_id` given. */
  type Pages = (nat, Option<int>) -> Result<seq<Post>>

  /** The pages of the group at `baseUrl`, as `get_meme_from_page` returns them. */
  function PageOf(fetch: Fetch, baseUrl: string): Pages
  {
    (p: nat, lastId: Option<int>) => GetPage(fetch, baseUrl, p, RequestParams(lastId))
  }

  /**
   * The first `k` pages of a group as `list_all_from_page` walks them: the posts yielded,
   * in order, the `last_id` each page request carried, and the exception of the first page
   * that raised, which ends the walk.
   */
  function Listing(pages: Pages, k: nat): (seq<Post>, seq<Option<int>>, Option<Failure>)
  {
    if k == 0 then ([], [], None)
    else
      var prev := Listing(pages, k - 1);
      if prev.2.Some? then prev
      else
        var lastId := LastIdAfter(prev.0, None);
        var page := pages(k, lastId);
        if page.Err? then (prev.0, prev.1 + [lastId], Some(page.error))
        else (prev.0 + page.value, prev.1 + [lastId], None)
  }

  /** Request `j` of `ids` (for page `j + 1`) carries the id of the last post of pages `1 .. j`, or none. */
  ghost predicate CarriesLastIds(pages: Pages, ids: seq<Option<int>>)
  {
    forall j {:trigger ids[j]} :: 0 <= j < |ids| ==> ids[j] == LastIdAfter(Listing(pages, j).0, None)
  }

  lemma {:induction false} CarriesLastIdsAppend(pages: Pages, ids: seq<Option<int>>, id: Option<int>)
    requires CarriesLastIds(pages, ids)
    requires id == LastIdAfter(Listing(pages, |ids|).0, None)
    ensures CarriesLastIds(pages, ids + [id])
  {
    var ids' := ids + [id];
    forall j | 0 <= j < |ids'|
      ensures ids'[j] == LastIdAfter(Listing(pages, j).0, None)
    {
      if j < |ids| {
        assert ids'[j] == ids[j];
      }
    }
  }

  /**
   * Request `j` (for page `j + 1`) carries the id of the last post of pages `1 .. j`, and
   * none before the first post; there is one request per page up to the first that raised.
   */
  lemma {:induction false} ListingLastIds(pages: Pages, k: nat)
    ensures |Listing(pages, k).1| <= k
    ensures Listing(pages, k).2.None? ==> |Listing(pages, k).1| == k
    ensures Listing(pages, k).2.Some? ==> |Listing(pages, k).1| >= 1
    ensures CarriesLastIds(pages, Listing(pages, k).1)
  {
    if k > 0 {
      ListingLastIds(pages, k - 1);
      var prev := Listing(pages, k - 1);
      if prev.2.None? {
        var lastId := LastIdAfter(prev.0, None);
        ListingNext(pages, k, pages(k, lastId));
        assert Listing(pages, k).1 == prev.1 + [lastId];
        CarriesLastIdsAppend(pages, prev.1, lastId);
      } else {
        assert Listing(pages, k) == prev;
      }
    }
  }

  /** One more page of a walk that has not raised: its posts are appended, or its exception ends the walk. */
  lemma ListingNext(pages: Pages, k: nat, page: Result<seq<Post>>)
    requires k > 0 && Listing(pages, k - 1).2.None?
    requires page == pages(k, LastIdAfter(Listing(pages, k - 1).0, None))
    ensures var prev := Listing(pages, k - 1);
      var lastId := LastIdAfter(prev.0, None);
      Listing(pages, k)
        == if page.Err? then (prev.0, prev.1 + [lastId], Some(page.error)) else (prev.0 + page.value, prev.1 + [lastId], None)
  {
  }

  /** Once a page has raised, later pages change nothing: the walk has ended. */
  lemma {:induction false} ListingStopped(pages: Pages, f: nat, n: nat)
    requires f <= n && Listing(pages, f).2.Some?
    ensures Listing(pages, n) == Listing(pages, f)
    decreases n
  {
    if n > f {
      ListingStopped(pages, f, n - 1);
    }
  }

  /** Page `p` of a group as the page-count search reads it: its request without `last_id`. */
  function Probe(fetch: Fetch, baseUrl: string): nat -> Result<bool>
  {
    (p: nat) => match GetPage(fetch, baseUrl, p, RequestParams(None)) case Err(e) => Err(e) case Ok(page) => Ok(page != [])
  }

  /**
   * What `list_all_from_page` yields for a group and the exception it ends with, if any:
   * nothing when the page-count search raises, else its pages up to the page count.
   */
  function GroupListing(fetch: Fetch, baseUrl: string, bound: nat): (seq<Post>, Option<Failure>)
  {
    match Search(Probe(fetch, baseUrl), bound)
    case Err(e) => ([], Some(e))
    case Ok(m) => (Listing(PageOf(fetch, baseUrl), m).0, Listing(PageOf(fetch, baseUrl), m).2)
  }

  /** The listing of every group, by its url. */
  function ListedPosts(fetch: Fetch, bound: string -> nat): string -> (seq<Post>, Option<Failure>)
  {
    (u: string) => GroupListing(fetch, u, bound(u))
  }

  /** Some request of the search, for a page after the first, raised `e`. */
  ghost predicate PageRaised(fetch: Fetch, baseUrl: string, e: Failure)
  {
    exists p :: p > 1 && GetPage(fetch, baseUrl, p, RequestParams(None)) == Err(e)
  }

  /**
   * `find_max_page_count(base_url)`: the search of `PageSearch` over the group's pages.
   * When no request raises it is a page number, and over pages non-empty up to a point it
   * is the last non-empty page.
   */
  method FindMaxPageCount(fetch: Fetch, baseUrl: string, ghost bound: nat) returns (maxPage: Result<nat>)
    requires EmptyFrom(NonEmpty(Probe(fetch, baseUrl)), bound)
    ensures maxPage == Search(Probe(fetch, baseUrl), bound)
    ensures maxPage.Ok? ==> maxPage.value >= 1
    ensures maxPage.Err? ==> PageRaised(fetch, baseUrl, maxPage.error)
    ensures maxPage.Ok? && Monotone(NonEmpty(Probe(fetch, baseUrl))) ==> FoundLast(Probe(fetch, baseUrl), bound, maxPage.value)
  {
    maxPage := FindMaxPage(Probe(fetch, baseUrl), bound);
    if maxPage.Ok? && Monotone(NonEmpty(Probe(fetch, baseUrl))) {
      DoublingFinds(Probe(fetch, baseUrl), 1, bound);
    }
    if maxPage.Err? {
      var p :| p > 1 && Probe(fetch, baseUrl)(p) == Err(maxPage.error);
      assert GetPage(fetch, baseUrl, p, RequestParams(None)) == Err(maxPage.error);
    }
  }

  /**
   * `list_all_from_page(base_url)`: the page count, then pages `1 .. max_page` in order,
   * each request carrying the id of the last post yielded so far; the first exception (of
   * the search or of a page) ends it.
   */
  method ListAllFromPage(fetch: Fetch, baseUrl: string, ghost bound: nat)
    returns (maxPage: Result<nat>, items: seq<Post>, lastIds: seq<Option<int>>, failure: Option<Failure>)
    requires EmptyFrom(NonEmpty(Probe(fetch, baseUrl)), bound)
    ensures maxPage == Search(Probe(fetch, baseUrl), bound)
    ensures maxPage.Err? ==> items == [] && lastIds == [] && failure == Some(maxPage.error)
    ensures maxPage.Ok? ==> (items, lastIds, failure) == Listing(PageOf(fetch, baseUrl), maxPage.value)
    ensures (items, failure) == GroupListing(fetch, baseUrl, bound)
    ensures maxPage.Ok? && Monotone(NonEmpty(Probe(fetch, baseUrl))) ==> FoundLast(Probe(fetch, baseUrl), bound, maxPage.value)
  {
    maxPage := FindMaxPageCount(fetch, baseUrl, bound);
    if maxPage.Err? {
      return maxPage, [], [], Some(maxPage.error);
    }
    items, lastIds, failure := WalkPages(fetch, baseUrl, maxPage.value);
  }

  /**
   * The page loop of `list_all_from_page` over pages `1 .. maxPage`: each request carries
   * the id of the last post yielded so far; a page that raises ends the loop.
   */
  method WalkPages(fetch: Fetch, baseUrl: string, maxPage: nat)
    returns (items: seq<Post>, lastIds: seq<Option<int>>, failure: Option<Failure>)
    ensures (items, lastIds, failure) == Listing(PageOf(fetch, baseUrl), maxPage)
  {
    var walk: (seq<Post>, seq<Option<int>>, Option<Failure>) := ([], [], None);
    var lastId: Option<int> := None;
    var i := 1;
    while i <= maxPage
      invariant 1 <= i <= maxPage + 1
      invariant Walked(PageOf(fetch, baseUrl), i - 1, walk, lastId)
    {
      walk, lastId := WalkPage(fetch, baseUrl, i, walk, lastId);
      if walk.2.Some? {
        ListingStopped(PageOf(fetch, baseUrl), i, maxPage);
        break;
      }
      i := i + 1;
    }
    items, lastIds, failure := walk.0, walk.1, walk.2;
  }

  /** The walk after the first `k` pages, none of which raised; `lastId` is its last post's id. */
  ghost predicate Walked(pages: Pages, k: nat, walk: (seq<Post>, seq<Option<int>>, Option<Failure>),
                         lastId: Option<int>)
  {
    walk == Listing(pages, k) && walk.2.None? && lastId == LastIdAfter(walk.0, None)
  }

  /** Page `i` of the page loop of `list_all_from_page`, after pages `1 .. i - 1` raised nothing. */
  method WalkPage(fetch: Fetch, baseUrl: string, i: nat, walk: (seq<Post>, seq<Option<int>>, Option<Failure>), lastId: Option<int>)
    returns (walk': (seq<Post>, seq<Option<int>>, Option<Failure>), lastId': Option<int>)
    requires i > 0 && Walked(PageOf(fetch, baseUrl), i - 1, walk, lastId)
    ensures walk' == Listing(PageOf(fetch, baseUrl), i)
    ensures walk'.2.None? ==> Walked(PageOf(fetch, baseUrl), i, walk', lastId')
  {
    var page := GetMemeFromPage(fetch, baseUrl, lastId, i);
    assert page == PageOf(fetch, baseUrl)(i, lastId);
    ListingNext(PageOf(fetch, baseUrl), i, page);
    if page.Err? {
      return (walk.0, walk.1 + [lastId], Some(page.error)), lastId;
    }
    var items;
    items, lastId' := YieldPage(walk.0, lastId, page.value);
    walk' := (items, walk.1 + [lastId], None);
  }

  /** The inner loop of `list_all_from_page`: each post of a page is yielded and becomes `last_id`. */
  method YieldPage(items: seq<Post>, lastId: Option<int>, page: seq<Post>) returns (items': seq<Post>, lastId': Option<int>)
    requires lastId == LastIdAfter(items, None)
    ensures items' == items + page
    ensures lastId' == LastIdAfter(items', None)
  {
    items', lastId' := items, lastId;
    var j := 0;
    while j < |page|
      invariant 0 <= j <= |page|
      invariant items' == items + page[..j]
      invariant lastId' == LastIdAfter(items', None)
    {
      items' := items' + [page[j]];
      lastId' := Some(page[j].id);
      assert page[..j + 1] == page[..j] + [page[j]];
      j := j + 1;
    }
    assert page[..j] == page;
  }

  // ---------------------------------------------------------------- the sync state

  /** One row of the table: the post plus its group. */
  datatype Rec = Rec(post: Post, groupTitle: string, groupUrl: string)

  function RecId(r: Rec): int { r.post.id }

  /** What one upload writes: `table.parquet` from the records and `meta.json` from the groups. */
  datatype Upload = Upload(records: seq<Rec>, groups: set<string>)

  /** The uploaded table: the records sorted by id descending. */
  function Table(u: Upload): seq<Rec>
  {
    SortByKeyDesc(u.records, RecId)
  }

  /**
   * The posts of a group that a run admits, in order, starting from the ledger `exist`,
   * and the ledger afterwards: a post is admitted when its id is in neither.
   */
  function AdmitAll(items: seq<Post>, exist: set<int>, gtitle: string, baseUrl: string): (seq<Rec>, set<int>)
  {
    if items == [] then ([], exist)
    else
      var prev := AdmitAll(items[..|items| - 1], exist, gtitle, baseUrl);
      var x := items[|items| - 1];
      if x.id in prev.1 then prev else (prev.0 + [Rec(x, gtitle, baseUrl)], prev.1 + {x.id})
  }

  function PostKey(p: Post): int { p.id }

  /** The ledger afterwards is the old ledger plus every listed id. */
  lemma {:induction false} AdmitAllLedger(items: seq<Post>, exist: set<int>, gtitle: string, baseUrl: string)
    ensures AdmitAll(items, exist, gtitle, baseUrl).1 == exist + KeySet(items, PostKey)
  {
    if items != [] {
      var init := items[..|items| - 1];
      AdmitAllLedger(init, exist, gtitle, baseUrl);
      assert items == init + [items[|items| - 1]];
      KeySetAppend(init, items[|items| - 1], PostKey);
    }
  }

  /** The admitted rows are the group's own posts, tagged with the group, with ids outside the old ledger. */
  lemma {:induction false} AdmitAllFromGroup(items: seq<Post>, exist: set<int>, gtitle: string, baseUrl: string)
    ensures forall r :: r in AdmitAll(items, exist, gtitle, baseUrl).0 ==>
      (r.post in items && r.groupTitle == gtitle && r.groupUrl == baseUrl && RecId(r) !in exist)
  {
    if items != [] {
      var init := items[..|items| - 1];
      AdmitAllFromGroup(init, exist, gtitle, baseUrl);
      AdmitAllLedger(init, exist, gtitle, baseUrl);
      assert forall p :: p in init ==> p in items;
      assert items[|items| - 1] in items;
    }
  }

  /** The admitted rows carry pairwise distinct ids and are exactly what the ledger gained. */
  lemma {:induction false} AdmitAllDistinct(items: seq<Post>, exist: set<int>, gtitle: string, baseUrl: string)
    ensures DistinctKeys(AdmitAll(items, exist, gtitle, baseUrl).0, RecId)
    ensures AdmitAll(items, exist, gtitle, baseUrl).1 == exist + KeySet(AdmitAll(items, exist, gtitle, baseUrl).0, RecId)
  {
    if items != [] {
      var init := items[..|items| - 1];
      var x := items[|items| - 1];
      AdmitAllDistinct(init, exist, gtitle, baseUrl);
      var prev := AdmitAll(init, exist, gtitle, baseUrl);
      if x.id !in prev.1 {
        var r := Rec(x, gtitle, baseUrl);
        KeySetAppend(prev.0, r, RecId);
        KeySetMembers(prev.0, RecId);
        AppendDistinct(prev.0, r);
      }
    }
  }

  lemma AppendDistinct(added: seq<Rec>, r: Rec)
    requires DistinctKeys(added, RecId)
    requires forall i :: 0 <= i < |added| ==> RecId(added[i]) != RecId(r)
    ensures DistinctKeys(added + [r], RecId)
  {
    var t := added + [r];
    forall i, j | 0 <= i < j < |t|
      ensures RecId(t[i]) != RecId(t[j])
    {
      assert t[i] == added[i];
      if j < |added| {
        assert t[j] == added[j];
      }
    }
  }

  /** The first post of a group whose id is new is the one admitted. */
  lemma FirstAdmissionWins(items: seq<Post>, exist: set<int>, gtitle: string, baseUrl: string, i: nat)
    requires i < |items| && items[i].id !in exist
    requires forall j :: 0 <= j < i ==> items[j].id != items[i].id
    ensures Rec(items[i], gtitle, baseUrl) in AdmitAll(items, exist, gtitle, baseUrl).0
  {
    var init := items[..i];
    var upto := items[..i + 1];
    assert upto[..i] == init && upto[i] == items[i];
    AdmitAllLedger(init, exist, gtitle, baseUrl);
    KeySetMembers(init, PostKey);
    assert items[i].id !in AdmitAll(init, exist, gtitle, baseUrl).1;
    assert AdmitAll(upto, exist, gtitle, baseUrl).0
      == AdmitAll(init, exist, gtitle, baseUrl).0 + [Rec(items[i], gtitle, baseUrl)];
    AdmitAllPrefix(items, exist, gtitle, baseUrl, i + 1);
    var a := AdmitAll(upto, exist, gtitle, baseUrl).0;
    var b := AdmitAll(items, exist, gtitle, baseUrl).0;
    assert b[|a| - 1] == a[|a| - 1];
  }

  /** Admitting a prefix of the posts admits a prefix of the rows. */
  lemma {:induction false} AdmitAllPrefix(items: seq<Post>, exist: set<int>, gtitle: string, baseUrl: string, n: nat)
    requires n <= |items|
    ensures var a := AdmitAll(items[..n], exist, gtitle, baseUrl).0;
      var b := AdmitAll(items, exist, gtitle, baseUrl).0;
      |a| <= |b| && b[..|a|] == a
    decreases |items|
  {
    if n < |items| {
      var init := items[..|items| - 1];
      assert init[..n] == items[..n];
      AdmitAllPrefix(init, exist, gtitle, baseUrl, n);
    } else {
      assert items[..n] == items;
    }
  }

  // ---------------------------------------------------------------- meta.json

  lemma StrLeOrder()
    ensures TotalPreorder((a: string, b: string) => StrLe(a, b))
  {
    forall a: string, b: string
      ensures StrLe(a, b) || StrLe(b, a)
    {
      StrLeTotal(a, b);
    }
    forall a: string, b: string, c: string | StrLe(a, b) && StrLe(b, c)
      ensures StrLe(a, c)
    {
      StrLeTransitive(a, b, c);
    }
  }

  /** `sorted(exist_groups)`: every crawled group once, in ascending string order. */
  ghost function MetaGroups(g: set<string>): (r: seq<string>)
    ensures |r| == |g| && forall x :: x in r <==> x in g
    ensures forall i, j :: 0 <= i < j < |r| ==> StrLe(r[i], r[j])
  {
    StrLeOrder();
    var le := (a: string, b: string) => StrLe(a, b);
    var r := SortBy(SetToSeq(g), le);
    assert forall x :: x in r <==> x in multiset(SetToSeq(g));
    assert forall i, j :: 0 <= i < j < |r| ==> le(r[i], r[j]);
    r
  }

  /** The group names of `meta.json` are strictly ascending: sorted, and no name twice. */
  lemma MetaGroupsStrict(g: set<string>)
    ensures forall i, j :: 0 <= i < j < |MetaGroups(g)| ==> MetaGroups(g)[i] != MetaGroups(g)[j]
  {
    var r := MetaGroups(g);
    assert (set x | x in r) == g;
    forall i, j | 0 <= i < j < |r|
      ensures r[i] != r[j]
    {
      if r[i] == r[j] {
        DuplicateShrinks(r, i, j);
        assert false;
      }
    }
  }

  lemma DuplicateShrinks(r: seq<string>, i: nat, j: nat)
    requires i < j < |r| && r[i] == r[j]
    ensures |set x | x in r| < |r|
  {
    var d := r[..j] + r[j + 1..];
    assert r == r[..j] + [r[j]] + r[j + 1..];
    assert r[j] == d[i];
    assert (set x | x in r) == (set x | x in d);
    SetOfSeqSize(d);
  }

  lemma {:induction false} SetOfSeqSize(r: seq<string>)
    ensures |set x | x in r| <= |r|
  {
    if r != [] {
      SetOfSeqSize(r[1..]);
      assert (set x | x in r) == {r[0]} + (set x | x in r[1..]);
    }
  }

  // ---------------------------------------------------------------- the sync state

  /** What a run needs of a group's listing: every page from `bound` on is empty. */
  ghost predicate WellListed(fetch: Fetch, baseUrl: string, bound: nat)
  {
    EmptyFrom(NonEmpty(Probe(fetch, baseUrl)), bound)
  }

  // ---------------------------------------------------------------- the group loop

  /** The state `sync` carries from group to group: the table, `exist_ids` and `exist_groups`. */
  datatype Crawl = Crawl(records: seq<Rec>, ids: set<int>, groups: set<string>)

  /**
   * One group `g = (title, url)` with the listing `listed` (its posts and the exception that
   * ended it, if any) taken up by `sync`: a title already crawled leaves the state alone
   * and reads no clock; otherwise the posts are admitted, and when the listing ended
   * normally the title is recorded. The second component counts the clock readings this
   * takes: two for the deploy after each admitted post and two for the deploy after the
   * group; the third is the exception that leaves `sync`.
   */
  function TakeGroup(listed: (seq<Post>, Option<Failure>), c: Crawl, g: (string, string)): (Crawl, nat, Option<Failure>)
  {
    if g.0 in c.groups then (c, 0, None)
    else
      var adm := AdmitAll(listed.0, c.ids, g.0, g.1);
      if listed.1.Some? then (Crawl(c.records + adm.0, adm.1, c.groups), 2 * |adm.0|, listed.1)
      else (Crawl(c.records + adm.0, adm.1, c.groups + {g.0}), 2 * |adm.0| + 2, None)
  }

  /** 1 for a run that ended on an exception, 0 otherwise. */
  function Raised(failure: Option<Failure>): nat
  {
    if failure.Some? then 1 else 0
  }

  /**
   * The group loop of `sync` from group `i`, the next clock reading being reading `tick`,
   * with `listed(url)` the listing of the group at `url`: the clock is read before each
   * group and a reading past `limit` ends the loop; a listing that raises ends it too, and
   * `sync` with it. The result is the final state, the number of groups taken up (the
   * one that raised included), the number of readings taken by then, and the exception.
   */
  function SyncFrom(listed: string -> (seq<Post>, Option<Failure>), clock: nat -> int, limit: int,
                    groups: seq<(string, string)>, i: nat, c: Crawl, tick: nat): (r: (Crawl, nat, nat, Option<Failure>))
    requires i <= |groups|
    ensures i + Raised(r.3) <= r.1 <= |groups|
    decreases |groups| - i
  {
    if i == |groups| then (c, i, tick, None)
    else if limit < clock(tick) then (c, i, tick + 1, None)
    else
      var t := TakeGroup(listed(groups[i].1), c, groups[i]);
      if t.2.Some? then (t.0, i + 1, tick + 1 + t.1, t.2)
      else SyncFrom(listed, clock, limit, groups, i + 1, t.0, tick + 1 + t.1)
  }

  /** The time past which `sync` takes up no further group: `start_time + max_time_limit`. */
  function Deadline(startTime: int, maxTimeLimit: int): int
  {
    startTime + maxTimeLimit
  }

  /** The whole group loop of `sync`: from the first group, with no clock reading taken yet. */
  function SyncRun(listed: string -> (seq<Post>, Option<Failure>), clock: nat -> int, limit: int,
                   groups: seq<(string, string)>, c: Crawl): (Crawl, nat, nat, Option<Failure>)
  {
    SyncFrom(listed, clock, limit, groups, 0, c, 0)
  }

  /**
   * The whole group loop, from the state `c0`, ends in the state `c` with `processed`
   * groups taken up and the exception `failure`, if any.
   */
  ghost predicate Crawled(listed: string -> (seq<Post>, Option<Failure>), clock: nat -> int, limit: int,
                          groups: seq<(string, string)>, c0: Crawl, c: Crawl, processed: nat, failure: Option<Failure>)
  {
    var r := SyncRun(listed, clock, limit, groups, c0);
    c == r.0 && processed == r.1 && failure == r.3
  }

  /**
   * What the whole group loop leaves behind, from the state `c0` to the state `c`: at most
   * the listed groups taken up (the one that raised among them), the titles of exactly
   * those whose listing ended normally recorded, and rows only appended, each belonging to
   * a group taken up that had not been crawled and carrying an id the ledger did not hold.
   */
  ghost predicate CrawlEnds(groups: seq<(string, string)>, c0: Crawl, c: Crawl, processed: nat, failure: Option<Failure>)
  {
    && Raised(failure) <= processed <= |groups|
    && c.groups == c0.groups + Titles(groups[..processed - Raised(failure)])
    && c0.records <= c.records
    && forall i :: |c0.records| <= i < |c.records| ==>
      && (c.records[i].groupTitle, c.records[i].groupUrl) in groups[..processed]
      && c.records[i].groupTitle !in c0.groups && RecId(c.records[i]) !in c0.ids
  }

  /**
   * A group started within the limit is taken up; the loop goes on from the next one, or
   * ends there when its listing raised.
   */
  lemma SyncFromStep(listed: string -> (seq<Post>, Option<Failure>), clock: nat -> int, limit: int,
                     groups: seq<(string, string)>, i: nat, c: Crawl, tick: nat)
    requires i < |groups| && clock(tick) <= limit
    ensures var t := TakeGroup(listed(groups[i].1), c, groups[i]);
      SyncFrom(listed, clock, limit, groups, i, c, tick)
        == if t.2.Some? then (t.0, i + 1, tick + 1 + t.1, t.2)
           else SyncFrom(listed, clock, limit, groups, i + 1, t.0, tick + 1 + t.1)
  {
  }

  /**
   * The loop after taking up group `i` as `TakeGroup` says, leaving the state `c'`, the
   * readings up to `tick'` and the exception `f`: it ends there on an exception, else goes on.
   */
  lemma SyncFromTaken(listed: string -> (seq<Post>, Option<Failure>), clock: nat -> int, limit: int,
                      groups: seq<(string, string)>, i: nat, c: Crawl, tick: nat, c': Crawl, tick': nat, f: Option<Failure>)
    requires i < |groups| && clock(tick) <= limit
    requires var t := TakeGroup(listed(groups[i].1), c, groups[i]); c' == t.0 && tick' == tick + 1 + t.1 && f == t.2
    ensures var r := SyncFrom(listed, clock, limit, groups, i, c, tick);
      if f.Some? then r == (c', i + 1, tick', f)
      else r == SyncFrom(listed, clock, limit, groups, i + 1, c', tick')
  {
    SyncFromStep(listed, clock, limit, groups, i, c, tick);
  }

  /**
   * The loop stops early either on a clock reading past the limit, that reading being the
   * last one it took, or on the exception of the listing of the last group it took up,
   * a group not crawled before.
   */
  lemma {:induction false} SyncFromStops(listed: string -> (seq<Post>, Option<Failure>), clock: nat -> int, limit: int,
                                         groups: seq<(string, string)>, i: nat, c: Crawl, tick: nat)
    requires i <= |groups|
    ensures var r := SyncFrom(listed, clock, limit, groups, i, c, tick);
      && (r.1 < |groups| && r.3.None? ==> 0 < r.2 && limit < clock(r.2 - 1))
      && (r.3.Some? ==> groups[r.1 - 1].0 !in c.groups && listed(groups[r.1 - 1].1).1 == r.3)
    decreases |groups| - i
  {
    if i < |groups| && clock(tick) <= limit {
      var t := TakeGroup(listed(groups[i].1), c, groups[i]);
      SyncFromStep(listed, clock, limit, groups, i, c, tick);
      if t.2.None? {
        SyncFromStops(listed, clock, limit, groups, i + 1, t.0, tick + 1 + t.1);
        TakeGroupGrows(listed(groups[i].1), c, groups[i]);
      }
    }
  }

  /** The titles of the groups `gs`. */
  function Titles(gs: seq<(string, string)>): set<string>
  {
    if gs == [] then {} else {gs[0].0} + Titles(gs[1..])
  }

  /** A title is in `Titles(gs)` exactly when some group of `gs` carries it. */
  lemma {:induction false} TitlesMembers(gs: seq<(string, string)>)
    ensures forall x :: x in Titles(gs) <==> exists k :: 0 <= k < |gs| && gs[k].0 == x
  {
    if gs != [] {
      TitlesMembers(gs[1..]);
      forall x | x in Titles(gs)
        ensures exists k :: 0 <= k < |gs| && gs[k].0 == x
      {
        if x != gs[0].0 {
          assert x in Titles(gs[1..]);
          var k :| 0 <= k < |gs[1..]| && gs[1..][k].0 == x;
          assert gs[k + 1].0 == x;
        }
      }
      forall x | exists k :: 0 <= k < |gs| && gs[k].0 == x
        ensures x in Titles(gs)
      {
        var k :| 0 <= k < |gs| && gs[k].0 == x;
        if k > 0 {
          assert gs[1..][k - 1].0 == x;
        }
      }
    }
  }

  lemma TitlesNone(groups: seq<(string, string)>, i: nat)
    requires i <= |groups|
    ensures Titles(groups[i..i]) == {}
  {
    assert groups[i..i] == [];
  }

  lemma TitlesSlice(groups: seq<(string, string)>, i: nat, n: nat)
    requires i < n <= |groups|
    ensures Titles(groups[i..n]) == {groups[i].0} + Titles(groups[i + 1..n])
  {
    var gs := groups[i..n];
    assert gs[0] == groups[i] && gs[1..] == groups[i + 1..n];
  }

  /** Recording group `i`, then the titles of groups `i + 1 .. n`, records those of groups `i .. n`. */
  lemma TitlesStep(groups: seq<(string, string)>, i: nat, n: nat, before: set<string>, mid: set<string>, after: set<string>)
    requires i < n <= |groups|
    requires mid == before + {groups[i].0} && after == mid + Titles(groups[i + 1..n])
    ensures after == before + Titles(groups[i..n])
  {
    TitlesSlice(groups, i, n);
    UnionAssoc(before, {groups[i].0}, Titles(groups[i + 1..n]));
  }

  /** The loop from group `i` records the titles of exactly the groups it took up whose listing ended normally. */
  ghost predicate RecordsTitles(listed: string -> (seq<Post>, Option<Failure>), clock: nat -> int, limit: int,
                                groups: seq<(string, string)>, i: nat, c: Crawl, tick: nat)
    requires i <= |groups|
  {
    var r := SyncFrom(listed, clock, limit, groups, i, c, tick);
    r.0.groups == c.groups + Titles(groups[i..r.1 - Raised(r.3)])
  }

  /** The loop records the titles of exactly the groups it took up whose listing ended normally. */
  lemma {:induction false} SyncFromGroups(listed: string -> (seq<Post>, Option<Failure>), clock: nat -> int, limit: int,
                                   groups: seq<(string, string)>, i: nat, c: Crawl, tick: nat)
    requires i <= |groups|
    ensures RecordsTitles(listed, clock, limit, groups, i, c, tick)
    decreases |groups| - i, 1
  {
    if i < |groups| && clock(tick) <= limit {
      if TakeGroup(listed(groups[i].1), c, groups[i]).2.Some? {
        SyncFromGroupsRaised(listed, clock, limit, groups, i, c, tick);
      } else {
        SyncFromGroupsNext(listed, clock, limit, groups, i, c, tick);
      }
    } else {
      var r := SyncFrom(listed, clock, limit, groups, i, c, tick);
      assert r.0 == c && r.1 == i && r.3.None?;
      TitlesNone(groups, i);
    }
  }

  /** A group whose listing raised ends the loop with nothing more recorded. */
  lemma SyncFromGroupsRaised(listed: string -> (seq<Post>, Option<Failure>), clock: nat -> int, limit: int,
                             groups: seq<(string, string)>, i: nat, c: Crawl, tick: nat)
    requires i < |groups| && clock(tick) <= limit && TakeGroup(listed(groups[i].1), c, groups[i]).2.Some?
    ensures RecordsTitles(listed, clock, limit, groups, i, c, tick)
  {
    TakeGroupGroups(listed(groups[i].1), c, groups[i]);
    SyncFromStep(listed, clock, limit, groups, i, c, tick);
    TitlesNone(groups, i);
  }

  /** A group whose listing ended normally is recorded, then the loop goes on from the next group. */
  lemma {:induction false} SyncFromGroupsNext(listed: string -> (seq<Post>, Option<Failure>), clock: nat -> int, limit: int,
                                              groups: seq<(string, string)>, i: nat, c: Crawl, tick: nat)
    requires i < |groups| && clock(tick) <= limit && TakeGroup(listed(groups[i].1), c, groups[i]).2.None?
    ensures RecordsTitles(listed, clock, limit, groups, i, c, tick)
    decreases |groups| - i, 0
  {
    var t := TakeGroup(listed(groups[i].1), c, groups[i]);
    TakeGroupGroups(listed(groups[i].1), c, groups[i]);
    SyncFromStep(listed, clock, limit, groups, i, c, tick);
    SyncFromGroups(listed, clock, limit, groups, i + 1, t.0, tick + 1 + t.1);
    var r := SyncFrom(listed, clock, limit, groups, i + 1, t.0, tick + 1 + t.1);
    assert SyncFrom(listed, clock, limit, groups, i, c, tick) == r;
    assert r.0.groups == t.0.groups + Titles(groups[i + 1..r.1 - Raised(r.3)]);
    TitlesStep(groups, i, r.1 - Raised(r.3), c.groups, t.0.groups, r.0.groups);
  }

  /** A group taken up has its title recorded unless its listing raised. */
  lemma TakeGroupGroups(listed: (seq<Post>, Option<Failure>), c: Crawl, g: (string, string))
    ensures var t := TakeGroup(listed, c, g);
      t.0.groups == (if t.2.Some? then c.groups else c.groups + {g.0})
  {
  }

  /**
   * A group taken up only appends rows and only adds ids and, when its listing ended
   * normally, its own title; every row it appends belongs to it, has a title not crawled
   * before and an id the ledger did not hold.
   */
  lemma TakeGroupGrows(listed: (seq<Post>, Option<Failure>), c: Crawl, g: (string, string))
    ensures var t := TakeGroup(listed, c, g);
      && c.records <= t.0.records && c.ids <= t.0.ids
      && t.0.groups == (if t.2.Some? then c.groups else c.groups + {g.0})
      && (t.2.Some? ==> g.0 !in c.groups && t.2 == listed.1)
      && forall j :: |c.records| <= j < |t.0.records| ==>
        && (t.0.records[j].groupTitle, t.0.records[j].groupUrl) == g
        && t.0.records[j].groupTitle !in c.groups && RecId(t.0.records[j]) !in c.ids
  {
    if g.0 !in c.groups {
      var adm := AdmitAll(listed.0, c.ids, g.0, g.1).0;
      AdmitAllFromGroup(listed.0, c.ids, g.0, g.1);
      AdmitAllLedger(listed.0, c.ids, g.0, g.1);
      var t := TakeGroup(listed, c, g).0;
      forall j | |c.records| <= j < |t.records|
        ensures t.records[j] in adm
      {
        assert t.records[j] == adm[j - |c.records|];
      }
    }
  }

  /**
   * The loop only appends rows, and every row it appends belongs to a group it took up
   * whose title had not been crawled, and has an id the ledger did not hold.
   */
  lemma {:induction false} SyncFromRows(listed: string -> (seq<Post>, Option<Failure>), clock: nat -> int, limit: int,
                                   groups: seq<(string, string)>, i: nat, c: Crawl, tick: nat)
    requires i <= |groups|
    ensures var r := SyncFrom(listed, clock, limit, groups, i, c, tick);
      && c.records <= r.0.records && c.ids <= r.0.ids && c.groups <= r.0.groups
      && forall j :: |c.records| <= j < |r.0.records| ==>
        && (r.0.records[j].groupTitle, r.0.records[j].groupUrl) in groups[i..r.1]
        && r.0.records[j].groupTitle !in c.groups && RecId(r.0.records[j]) !in c.ids
    decreases |groups| - i
  {
    if i < |groups| && clock(tick) <= limit {
      var g := groups[i];
      var t := TakeGroup(listed(g.1), c, g);
      TakeGroupGrows(listed(g.1), c, g);
      SyncFromStep(listed, clock, limit, groups, i, c, tick);
      if t.2.Some? {
        assert groups[i..i + 1] == [g];
      } else {
        SyncFromRows(listed, clock, limit, groups, i + 1, t.0, tick + 1 + t.1);
        var r := SyncFrom(listed, clock, limit, groups, i + 1, t.0, tick + 1 + t.1);
        assert groups[i..r.1] == [g] + groups[i + 1..r.1];
        forall j | |c.records| <= j < |r.0.records|
          ensures (r.0.records[j].groupTitle, r.0.records[j].groupUrl) in groups[i..r.1]
          ensures r.0.records[j].groupTitle !in c.groups && RecId(r.0.records[j]) !in c.ids
        {
          if j < |t.0.records| {
            assert r.0.records[j] == t.0.records[j];
          }
        }
      }
    }
  }

  /**
   * The whole group loop from the first group: it takes up at most the listed groups,
   * records exactly the titles of those it took up whose listing ended normally, and only
   * appends rows, each belonging to a group it took up that had not been crawled and
   * carrying an id the ledger did not hold. When it raised, the exception is that of the
   * listing of the last group it took up.
   */
  lemma SyncFromFacts(listed: string -> (seq<Post>, Option<Failure>), clock: nat -> int, limit: int,
                      groups: seq<(string, string)>, c: Crawl)
    ensures var r := SyncRun(listed, clock, limit, groups, c);
      && CrawlEnds(groups, c, r.0, r.1, r.3)
      && (r.3.Some? ==> groups[r.1 - 1].0 !in c.groups && listed(groups[r.1 - 1].1).1 == r.3)
  {
    var r := SyncFrom(listed, clock, limit, groups, 0, c, 0);
    SyncFromGroups(listed, clock, limit, groups, 0, c, 0);
    SyncFromRows(listed, clock, limit, groups, 0, c, 0);
    SyncFromStops(listed, clock, limit, groups, 0, c, 0);
    assert groups[0..r.1] == groups[..r.1];
    assert groups[0..r.1 - Raised(r.3)] == groups[..r.1 - Raised(r.3)];
  }

  /** `SyncFromFacts` for a loop that ended in the state `c` with the counts and the exception given. */
  lemma CrawledFacts(listed: string -> (seq<Post>, Option<Failure>), clock: nat -> int, limit: int,
                     groups: seq<(string, string)>, c0: Crawl, c: Crawl, processed: nat, tick: nat, failure: Option<Failure>)
    requires (c, processed, tick, failure) == SyncRun(listed, clock, limit, groups, c0)
    ensures Crawled(listed, clock, limit, groups, c0, c, processed, failure)
    ensures CrawlEnds(groups, c0, c, processed, failure)
    ensures failure.Some? ==> groups[processed - 1].0 !in c0.groups && listed(groups[processed - 1].1).1 == failure
  {
    SyncFromFacts(listed, clock, limit, groups, c0);
  }

  /**
   * Every upload in `ups` is the table a deploy after one of the first `n` posts of a group
   * saw: the rows `r0` plus what admitting a non-empty prefix of the posts appended, with the
   * groups `groups`.
   */
  ghost predicate UploadedAlong(ups: seq<Upload>, r0: seq<Rec>, e0: set<int>, items: seq<Post>, gtitle: string, baseUrl: string,
                                groups: set<string>, n: nat)
    requires n <= |items|
  {
    forall i :: 0 <= i < |ups| ==>
      exists m :: 1 <= m <= n && ups[i] == Upload(r0 + AdmitAll(items[..m], e0, gtitle, baseUrl).0, groups)
  }

  /** One post later, the uploads so far still qualify, and a new one after that post does too. */
  lemma UploadedStep(before: seq<Upload>, after: seq<Upload>, p0: seq<Upload>, r0: seq<Rec>, e0: set<int>, items: seq<Post>,
                     gtitle: string, baseUrl: string, groups: set<string>, n: nat)
    requires n < |items| && p0 <= before
    requires UploadedAlong(before[|p0|..], r0, e0, items, gtitle, baseUrl, groups, n)
    requires after == before || after == before + [Upload(r0 + AdmitAll(items[..n + 1], e0, gtitle, baseUrl).0, groups)]
    ensures p0 <= after
    ensures UploadedAlong(after[|p0|..], r0, e0, items, gtitle, baseUrl, groups, n + 1)
  {
    var u := Upload(r0 + AdmitAll(items[..n + 1], e0, gtitle, baseUrl).0, groups);
    var ups := after[|p0|..];
    forall i | 0 <= i < |ups|
      ensures exists m :: 1 <= m <= n + 1 && ups[i] == Upload(r0 + AdmitAll(items[..m], e0, gtitle, baseUrl).0, groups)
    {
      if i < |before| - |p0| {
        assert ups[i] == before[|p0|..][i];
      } else {
        assert after == before + [u];
        assert ups[i] == u;
      }
    }
  }

  // ---------------------------------------------------------------- the run

  class QmemeSync {
    var records: seq<Rec>
    var existIds: set<int>
    var existGroups: set<string>
    var hasUpdate: bool
    /** `_last_update`. */
    var lastUpdate: Option<int>
    /** `_total_count`. */
    var totalCount: nat
    const deploySpan: int
    /** The table loaded at start. */
    ghost const loaded: seq<Rec>
    /** What the repository holds: the loaded state, then the last upload. */
    ghost var uploaded: Upload
    /** Every upload of this run, oldest first. */
    ghost var published: seq<Upload>

    /**
     * The ledger is the set of ids of the table; rows admitted after loading have fresh ids;
     * and when nothing is pending the repository holds the current state.
     */
    ghost predicate Valid()
      reads this
    {
      && |loaded| <= |records| && records[..|loaded|] == loaded
      && existIds == KeySet(records, RecId)
      && FreshFrom(records, RecId, |loaded|)
      && (!hasUpdate ==> uploaded == Upload(records, existGroups))
      && (forall u :: u in published ==>
            (|loaded| <= |u.records| && u.records[..|loaded|] == loaded && FreshFrom(u.records, RecId, |loaded|)))
    }

    /** The state after loading `table.parquet` and the `exist_groups` of `meta.json`. */
    constructor (loaded: seq<Rec>, groups: set<string>, deploySpan: int)
      ensures Valid()
      ensures records == loaded && existIds == KeySet(loaded, RecId) && existGroups == groups
      ensures !hasUpdate && lastUpdate.None? && totalCount == |loaded|
      ensures this.deploySpan == deploySpan && this.loaded == loaded
      ensures uploaded == Upload(loaded, groups) && published == []
    {
      records := loaded;
      existIds := KeySet(loaded, RecId);
      existGroups := groups;
      hasUpdate := false;
      lastUpdate := None;
      totalCount := |loaded|;
      this.deploySpan := deploySpan;
      this.loaded := loaded;
      uploaded := Upload(loaded, groups);
      published := [];
      assert loaded[..|loaded|] == loaded;
    }

    /**
     * The effect of `_deploy(force)` called at time `now` with `pending` updates: when the
     * gate opens, the current state is uploaded, the flag cleared, the time stamped with the
     * clock reading `stamp` after the upload and the total reset; otherwise nothing changes.
     */
    twostate predicate Deployed(pending: bool, now: int, stamp: int, force: bool)
      reads this
    {
      if GateOpen(pending, old(lastUpdate), deploySpan, now, force) then
        && !hasUpdate && lastUpdate == Some(stamp) && totalCount == |records|
        && uploaded == Upload(records, existGroups) && published == old(published) + [uploaded]
      else
        && hasUpdate == pending && lastUpdate == old(lastUpdate) && totalCount == old(totalCount)
        && uploaded == old(uploaded) && published == old(published)
    }

    /**
     * What a non-forced deploy at the clock reading `now` with an update pending leaves:
     * either the whole state uploaded last, the flag cleared, the time stamped `stamp` and
     * the total reset, or the flag still set because the last upload is too recent at `now`.
     */
    ghost predicate Stamped(now: int, stamp: int)
      reads this
    {
      && (hasUpdate ==> lastUpdate.Some? && now < lastUpdate.value + deploySpan)
      && (!hasUpdate ==>
            && lastUpdate == Some(stamp) && totalCount == |records| && uploaded == Upload(records, existGroups)
            && published != [] && published[|published| - 1] == uploaded)
    }

    /** `_deploy(force)`: `now` is the clock at the gate, `stamp` the clock after the upload. */
    method Deploy(force: bool, now: int, stamp: int)
      requires Valid()
      modifies this
      ensures Valid()
      ensures records == old(records) && existIds == old(existIds) && existGroups == old(existGroups)
      ensures Deployed(old(hasUpdate), now, stamp, force)
      ensures old(hasUpdate) && !force ==> Stamped(now, stamp)
    {
      if !hasUpdate {
        return;
      }
      if !force && lastUpdate.Some? && lastUpdate.value + deploySpan > now {
        return;
      }
      uploaded := Upload(records, existGroups);
      published := published + [uploaded];
      hasUpdate := false;
      lastUpdate := Some(stamp);
      totalCount := |records|;
    }

    /**
     * One post of a group: a known id is skipped without a deploy; a new one is appended
     * with its group, its id recorded, and a non-forced deploy follows.
     */
    method Admit(item: Post, gtitle: string, baseUrl: string, now: int, stamp: int)
      requires Valid()
      modifies this
      ensures Valid()
      ensures existGroups == old(existGroups)
      ensures item.id in old(existIds) ==>
        && records == old(records) && existIds == old(existIds) && hasUpdate == old(hasUpdate)
        && lastUpdate == old(lastUpdate) && totalCount == old(totalCount)
        && uploaded == old(uploaded) && published == old(published)
      ensures item.id !in old(existIds) ==>
        && records == old(records) + [Rec(item, gtitle, baseUrl)]
        && existIds == old(existIds) + {item.id}
        && Deployed(true, now, stamp, false) && Stamped(now, stamp)
    {
      if item.id in existIds {
        return;
      }
      var rec := Rec(item, gtitle, baseUrl);
      FreshAppend(records, rec, RecId, |loaded|);
      KeySetAppend(records, rec, RecId);
      assert (records + [rec])[..|loaded|] == records[..|loaded|];
      records := records + [rec];
      existIds := existIds + {item.id};
      hasUpdate := true;
      Deploy(false, now, stamp);
    }

    /**
     * One group of `sync`: a group already crawled is skipped; otherwise its posts are
     * listed page by page and admitted one by one, then the group is recorded, marked as
     * an update and a non-forced deploy follows. An exception of the listing (`failure`)
     * ends the group after the posts yielded before it, unrecorded. `tick` counts the
     * clock readings so far.
     */
    method SyncGroup(gtitle: string, baseUrl: string, fetch: Fetch, clock: nat -> int, tick: nat, ghost bound: nat)
      returns (items: seq<Post>, failure: Option<Failure>, tickOut: nat)
      requires Valid()
      requires WellListed(fetch, baseUrl, bound)
      modifies this
      ensures Valid()
      ensures var t := TakeGroup(GroupListing(fetch, baseUrl, bound), old(Crawl(records, existIds, existGroups)), (gtitle, baseUrl));
        Crawl(records, existIds, existGroups) == t.0 && tickOut == tick + t.1 && failure == t.2
      ensures old(records) <= records && old(published) <= published
      ensures gtitle in old(existGroups) ==>
        && records == old(records) && existIds == old(existIds) && existGroups == old(existGroups)
        && hasUpdate == old(hasUpdate) && lastUpdate == old(lastUpdate) && totalCount == old(totalCount)
        && uploaded == old(uploaded) && published == old(published)
      ensures gtitle !in old(existGroups) ==>
        && (items, failure) == GroupListing(fetch, baseUrl, bound)
        && records == old(records) + AdmitAll(items, old(existIds), gtitle, baseUrl).0
        && existIds == AdmitAll(items, old(existIds), gtitle, baseUrl).1
        && existGroups == old(existGroups) + (if failure.Some? then {} else {gtitle})
      ensures forall i :: |old(records)| <= i < |records| ==>
        (records[i].groupTitle == gtitle && records[i].groupUrl == baseUrl && gtitle !in old(existGroups))
    {
      tickOut := tick;
      items, failure := [], None;
      if gtitle in existGroups {
        return;
      }
      items, failure, tickOut := SyncNewGroup(gtitle, baseUrl, fetch, clock, tick, bound);
    }

    /**
     * `sync_group` for a group not yet in `exist_groups`: the posts are admitted as
     * `AdmitItems` says, then the group is recorded and a non-forced deploy follows at the
     * clock reading `tickOut - 2`. When it uploads, the flag is cleared, the time stamped
     * with the reading `tickOut - 1` and the last upload is the whole new state; when it
     * does not, the time of the last upload is too recent. Every earlier upload of the call
     * is one after some post. When the listing raised, the group ends after its posts:
     * it is not recorded and the deploy after it does not run.
     */
    method SyncNewGroup(gtitle: string, baseUrl: string, fetch: Fetch, clock: nat -> int, tick: nat, ghost bound: nat)
      returns (items: seq<Post>, failure: Option<Failure>, tickOut: nat)
      requires Valid() && gtitle !in existGroups
      requires WellListed(fetch, baseUrl, bound)
      modifies this
      ensures Valid()
      ensures tickOut == tick + 2 * |AdmitAll(items, old(existIds), gtitle, baseUrl).0| + (if failure.Some? then 0 else 2)
      ensures old(published) <= published
      ensures (items, failure) == GroupListing(fetch, baseUrl, bound)
      ensures records == old(records) + AdmitAll(items, old(existIds), gtitle, baseUrl).0
      ensures existIds == AdmitAll(items, old(existIds), gtitle, baseUrl).1
      ensures existGroups == old(existGroups) + (if failure.Some? then {} else {gtitle})
      ensures forall i :: |old(records)| <= i < |records| ==>
        (records[i].groupTitle == gtitle && records[i].groupUrl == baseUrl)
      ensures failure.Some? ==>
        && UploadedAlong(published[|old(published)|..], old(records), old(existIds), items, gtitle, baseUrl, old(existGroups), |items|)
        && (AdmitAll(items, old(existIds), gtitle, baseUrl).0 == [] ==>
              hasUpdate == old(hasUpdate) && lastUpdate == old(lastUpdate) && uploaded == old(uploaded))
      ensures failure.None? ==> Stamped(clock(tickOut - 2), clock(tickOut - 1))
      ensures failure.None? && hasUpdate ==>
        UploadedAlong(published[|old(published)|..], old(records), old(existIds), items, gtitle, baseUrl, old(existGroups), |items|)
      ensures failure.None? && !hasUpdate ==>
        && |old(published)| < |published|
        && UploadedAlong(published[|old(published)|..|published| - 1], old(records), old(existIds), items, gtitle, baseUrl,
                         old(existGroups), |items|)
    {
      var maxPage, lastIds;
      maxPage, items, lastIds, failure := ListAllFromPage(fetch, baseUrl, bound);
      tickOut := AdmitListed(gtitle, baseUrl, items, failure, clock, tick);
    }

    /**
     * The rest of `sync_group` once the listing of a new group is known: its posts `items`
     * admitted, then, unless the listing raised `failure`, the group recorded and deployed.
     */
    method AdmitListed(gtitle: string, baseUrl: string, items: seq<Post>, failure: Option<Failure>, clock: nat -> int, tick: nat)
      returns (tickOut: nat)
      requires Valid() && gtitle !in existGroups
      modifies this
      ensures Valid()
      ensures tickOut == tick + 2 * |AdmitAll(items, old(existIds), gtitle, baseUrl).0| + (if failure.Some? then 0 else 2)
      ensures old(published) <= published
      ensures records == old(records) + AdmitAll(items, old(existIds), gtitle, baseUrl).0
      ensures existIds == AdmitAll(items, old(existIds), gtitle, baseUrl).1
      ensures existGroups == old(existGroups) + (if failure.Some? then {} else {gtitle})
      ensures forall i :: |old(records)| <= i < |records| ==>
        (records[i].groupTitle == gtitle && records[i].groupUrl == baseUrl)
      ensures failure.Some? ==>
        && UploadedAlong(published[|old(published)|..], old(records), old(existIds), items, gtitle, baseUrl, old(existGroups), |items|)
        && (AdmitAll(items, old(existIds), gtitle, baseUrl).0 == [] ==>
              hasUpdate == old(hasUpdate) && lastUpdate == old(lastUpdate) && uploaded == old(uploaded))
      ensures failure.None? ==> Stamped(clock(tickOut - 2), clock(tickOut - 1))
      ensures failure.None? && hasUpdate ==>
        UploadedAlong(published[|old(published)|..], old(records), old(existIds), items, gtitle, baseUrl, old(existGroups), |items|)
      ensures failure.None? && !hasUpdate ==>
        && |old(published)| < |published|
        && UploadedAlong(published[|old(published)|..|published| - 1], old(records), old(existIds), items, gtitle, baseUrl,
                         old(existGroups), |items|)
    {
      ghost var e0 := existIds;
      tickOut := AdmitItems(items, gtitle, baseUrl, clock, tick);
      AdmitAllFromGroup(items, e0, gtitle, baseUrl);
      if failure.Some? {
        return;
      }
      ghost var mid := published;
      CloseGroup(gtitle, clock(tickOut), clock(tickOut + 1));
      assert published[..|mid|] == mid;
      tickOut := tickOut + 2;
    }

    /**
     * The end of `sync_group` for a new group: the group is recorded, marked as an update
     * and a non-forced deploy follows at the clock reading `now`, stamped `stamp`.
     */
    method CloseGroup(gtitle: string, now: int, stamp: int)
      requires Valid()
      modifies this
      ensures Valid()
      ensures records == old(records) && existIds == old(existIds) && existGroups == old(existGroups) + {gtitle}
      ensures Stamped(now, stamp)
      ensures hasUpdate ==> published == old(published)
      ensures !hasUpdate ==> published == old(published) + [uploaded]
    {
      existGroups := existGroups + {gtitle};
      hasUpdate := true;
      Deploy(false, now, stamp);
    }

    /**
     * The posts of a group in order, each admitted as `Admit` does, a new one followed by a
     * non-forced deploy at the clock reading its turn takes. Every upload is the table after
     * some post; when nothing is admitted nothing else changes either; otherwise the flag
     * and the time are those the deploy after the last admitted post left.
     */
    method AdmitItems(items: seq<Post>, gtitle: string, baseUrl: string, clock: nat -> int, tick: nat) returns (tickOut: nat)
      requires Valid()
      modifies this
      ensures Valid()
      ensures records == old(records) + AdmitAll(items, old(existIds), gtitle, baseUrl).0
      ensures existIds == AdmitAll(items, old(existIds), gtitle, baseUrl).1
      ensures existGroups == old(existGroups)
      ensures old(published) <= published
      ensures tickOut == tick + 2 * |AdmitAll(items, old(existIds), gtitle, baseUrl).0|
      ensures UploadedAlong(published[|old(published)|..], old(records), old(existIds), items, gtitle, baseUrl, existGroups, |items|)
      ensures AdmitAll(items, old(existIds), gtitle, baseUrl).0 == [] ==>
        && hasUpdate == old(hasUpdate) && lastUpdate == old(lastUpdate) && totalCount == old(totalCount)
        && uploaded == old(uploaded) && published == old(published)
      ensures AdmitAll(items, old(existIds), gtitle, baseUrl).0 != [] ==>
        Stamped(clock(tickOut - 2), clock(tickOut - 1)) && (!hasUpdate ==> |old(published)| < |published|)
    {
      tickOut := tick;
      ghost var r0, e0, g0 := records, existIds, Gate();
      var j := 0;
      while j < |items|
        invariant j <= |items| && Valid()
        invariant AdmittedTo(items, j, gtitle, baseUrl, clock, tick, tickOut, r0, e0, old(existGroups), g0)
      {
        tickOut := AdmitNext(items, j, gtitle, baseUrl, clock, tick, tickOut, r0, e0, old(existGroups), g0);
        j := j + 1;
      }
      assert items[..j] == items;
    }

    /** The flag, the time and the total of the last upload, what the repository holds, and the uploads. */
    ghost function Gate(): (bool, Option<int>, nat, Upload, seq<Upload>)
      reads this
    {
      (hasUpdate, lastUpdate, totalCount, uploaded, published)
    }

    /**
     * The loop of `AdmitItems` after its first `j` posts, begun at the clock reading `tick`
     * with the rows `r0`, the ledger `e0`, the groups `groups` and the bookkeeping `g0`.
     */
    ghost predicate AdmittedTo(items: seq<Post>, j: nat, gtitle: string, baseUrl: string, clock: nat -> int, tick: nat,
                               tickOut: nat, r0: seq<Rec>, e0: set<int>, groups: set<string>,
                               g0: (bool, Option<int>, nat, Upload, seq<Upload>))
      reads this
    {
      && j <= |items|
      && records == r0 + AdmitAll(items[..j], e0, gtitle, baseUrl).0
      && existIds == AdmitAll(items[..j], e0, gtitle, baseUrl).1
      && existGroups == groups
      && g0.4 <= published
      && tickOut == tick + 2 * |AdmitAll(items[..j], e0, gtitle, baseUrl).0|
      && UploadedAlong(published[|g0.4|..], r0, e0, items, gtitle, baseUrl, groups, j)
      && (AdmitAll(items[..j], e0, gtitle, baseUrl).0 == [] ==> Gate() == g0)
      && (AdmitAll(items[..j], e0, gtitle, baseUrl).0 != [] ==>
            tickOut >= 2 && Stamped(clock(tickOut - 2), clock(tickOut - 1)) && (!hasUpdate ==> |g0.4| < |published|))
    }

    /** One turn of the loop of `AdmitItems`: post `j`, skipped when known, else admitted by `AdmitNew`. */
    method AdmitNext(items: seq<Post>, j: nat, gtitle: string, baseUrl: string, clock: nat -> int, tick: nat, tickIn: nat,
                     ghost r0: seq<Rec>, ghost e0: set<int>, ghost groups: set<string>,
                     ghost g0: (bool, Option<int>, nat, Upload, seq<Upload>))
      returns (tickOut: nat)
      requires Valid() && j < |items|
      requires AdmittedTo(items, j, gtitle, baseUrl, clock, tick, tickIn, r0, e0, groups, g0)
      modifies this
      ensures Valid()
      ensures AdmittedTo(items, j + 1, gtitle, baseUrl, clock, tick, tickOut, r0, e0, groups, g0)
    {
      AdmitAllStep(items, j, e0, gtitle, baseUrl);
      if items[j].id in existIds {
        assert AdmitAll(items[..j + 1], e0, gtitle, baseUrl) == AdmitAll(items[..j], e0, gtitle, baseUrl);
        return tickIn;
      }
      tickOut := AdmitNew(items, j, gtitle, baseUrl, clock, tickIn, r0, e0, g0.4);
    }

    /** A new post `j` of the loop of `AdmitItems`, on top of the first `j` admitted from `r0` and `e0`. */
    method AdmitNew(items: seq<Post>, j: nat, gtitle: string, baseUrl: string, clock: nat -> int, tick: nat,
                    ghost r0: seq<Rec>, ghost e0: set<int>, ghost p0: seq<Upload>)
      returns (tickOut: nat)
      requires Valid() && j < |items|
      requires records == r0 + AdmitAll(items[..j], e0, gtitle, baseUrl).0
      requires existIds == AdmitAll(items[..j], e0, gtitle, baseUrl).1
      requires items[j].id !in existIds
      requires p0 <= published
      requires UploadedAlong(published[|p0|..], r0, e0, items, gtitle, baseUrl, existGroups, j)
      modifies this
      ensures Valid()
      ensures records == r0 + AdmitAll(items[..j + 1], e0, gtitle, baseUrl).0
      ensures existIds == AdmitAll(items[..j + 1], e0, gtitle, baseUrl).1
      ensures |AdmitAll(items[..j + 1], e0, gtitle, baseUrl).0| == |AdmitAll(items[..j], e0, gtitle, baseUrl).0| + 1
      ensures existGroups == old(existGroups) && old(published) <= published
      ensures UploadedAlong(published[|p0|..], r0, e0, items, gtitle, baseUrl, existGroups, j + 1)
      ensures tickOut == tick + 2 && Stamped(clock(tickOut - 2), clock(tickOut - 1)) && (!hasUpdate ==> |p0| < |published|)
    {
      AdmitAllStep(items, j, e0, gtitle, baseUrl);
      ghost var before := published;
      Admit(items[j], gtitle, baseUrl, clock(tick), clock(tick + 1));
      AppendAssoc(r0, AdmitAll(items[..j], e0, gtitle, baseUrl).0, [Rec(items[j], gtitle, baseUrl)]);
      UploadedStep(before, published, p0, r0, e0, items, gtitle, baseUrl, existGroups, j);
      tickOut := tick + 2;
    }

    /**
     * One turn of the group loop once the clock check passed: `SyncGroup` on group
     * `processed`, which moves the loop of `SyncFrom` on to the next group, or ends it with
     * the group's exception.
     */
    method TakeUp(groups: seq<(string, string)>, processed: nat, fetch: Fetch, clock: nat -> int, limit: int, tick: nat,
                  ghost bound: string -> nat, ghost listed: string -> (seq<Post>, Option<Failure>))
      returns (tickOut: nat, failure: Option<Failure>)
      requires Valid()
      requires processed < |groups| && clock(tick) <= limit
      requires WellListed(fetch, groups[processed].1, bound(groups[processed].1))
      requires listed(groups[processed].1) == GroupListing(fetch, groups[processed].1, bound(groups[processed].1))
      modifies this
      ensures Valid()
      ensures var r := SyncFrom(listed, clock, limit, groups, processed, old(Crawl(records, existIds, existGroups)), tick);
        if failure.Some? then r == (Crawl(records, existIds, existGroups), processed + 1, tickOut, failure)
        else r == SyncFrom(listed, clock, limit, groups, processed + 1, Crawl(records, existIds, existGroups), tickOut)
      ensures old(published) <= published
    {
      var g := groups[processed];
      assert (g.0, g.1) == g;
      ghost var c := Crawl(records, existIds, existGroups);
      var _, f, t := SyncGroup(g.0, g.1, fetch, clock, tick + 1, bound(g.1));
      tickOut, failure := t, f;
      SyncFromTaken(listed, clock, limit, groups, processed, c, tick, Crawl(records, existIds, existGroups), tickOut, failure);
    }

    /**
     * The group loop of `sync`, with `listed` the listing of each group: it runs as
     * `SyncFrom` says and returns the groups taken up, the clock readings taken and the
     * exception that ended it, if any.
     */
    method SyncGroups(groups: seq<(string, string)>, fetch: Fetch, clock: nat -> int, limit: int,
                      ghost bound: string -> nat, ghost listed: string -> (seq<Post>, Option<Failure>))
      returns (processed: nat, tick: nat, failure: Option<Failure>)
      requires Valid()
      requires forall k :: 0 <= k < |groups| ==> WellListed(fetch, groups[k].1, bound(groups[k].1))
      requires forall k :: 0 <= k < |groups| ==> listed(groups[k].1) == GroupListing(fetch, groups[k].1, bound(groups[k].1))
      modifies this
      ensures Valid()
      ensures (Crawl(records, existIds, existGroups), processed, tick, failure)
        == SyncRun(listed, clock, limit, groups, old(Crawl(records, existIds, existGroups)))
      ensures old(published) <= published
    {
      ghost var goal := SyncFrom(listed, clock, limit, groups, 0, Crawl(records, existIds, existGroups), 0);
      tick := 0;
      processed := 0;
      failure := None;
      while processed < |groups|
        invariant 0 <= processed <= |groups|
        invariant Valid()
        invariant SyncFrom(listed, clock, limit, groups, processed, Crawl(records, existIds, existGroups), tick) == goal
        invariant failure.None? && old(published) <= published
      {
        if limit < clock(tick) {
          tick := tick + 1;
          break;
        }
        tick, failure := TakeUp(groups, processed, fetch, clock, limit, tick, bound, listed);
        processed := processed + 1;
        if failure.Some? {
          return;
        }
      }
    }

    /**
     * The group loop of `sync` from the first group, with what `SyncFrom` gives about it:
     * the groups taken up whose listing ended normally are recorded, every new row belongs
     * to a group taken up that had not been crawled before and has an id the table did not
     * hold, and an exception is that of the listing of the last group taken up.
     */
    method CrawlGroups(groups: seq<(string, string)>, fetch: Fetch, clock: nat -> int, limit: int,
                       ghost bound: string -> nat)
      returns (processed: nat, tick: nat, failure: Option<Failure>)
      requires Valid()
      requires forall k :: 0 <= k < |groups| ==> WellListed(fetch, groups[k].1, bound(groups[k].1))
      modifies this
      ensures Valid()
      ensures Crawled(ListedPosts(fetch, bound), clock, limit, groups, old(Crawl(records, existIds, existGroups)),
                      Crawl(records, existIds, existGroups), processed, failure)
      ensures CrawlEnds(groups, old(Crawl(records, existIds, existGroups)), Crawl(records, existIds, existGroups), processed, failure)
      ensures failure.Some? ==>
        groups[processed - 1].0 !in old(existGroups)
        && GroupListing(fetch, groups[processed - 1].1, bound(groups[processed - 1].1)).1 == failure
      ensures old(published) <= published
    {
      ghost var c0 := Crawl(records, existIds, existGroups);
      ghost var listed := ListedPosts(fetch, bound);
      processed, tick, failure := SyncGroups(groups, fetch, clock, limit, bound, listed);
      CrawledFacts(listed, clock, limit, groups, c0, Crawl(records, existIds, existGroups), processed, tick, failure);
      if failure.Some? {
        var u := groups[processed - 1].1;
        assert listed(u) == GroupListing(fetch, u, bound(u));
      }
    }

    /**
     * `sync`: the group list (`get_meme_list`, whose request can raise), then the groups in
     * listing order until the time limit is exceeded at the start of a group, then a forced
     * deploy. The table, ledger and groups end as `SyncFrom` says; the groups taken up
     * whose listing ended normally are recorded, and every new row belongs to a group taken
     * up that had not been crawled before and has an id the table did not hold. An
     * exception leaves `sync` (`failure`) before the forced deploy; without one nothing is
     * pending afterwards, so the repository holds the final table and groups.
     */
    method Sync(memeList: Result<seq<(string, string)>>, fetch: Fetch, clock: nat -> int, startTime: int, maxTimeLimit: int,
                ghost bound: string -> nat)
      returns (processed: nat, failure: Option<Failure>)
      requires Valid()
      requires memeList.Ok? ==> forall k :: 0 <= k < |memeList.value| ==>
        WellListed(fetch, memeList.value[k].1, bound(memeList.value[k].1))
      modifies this
      ensures Valid()
      ensures memeList.Err? ==>
        && failure == Some(memeList.error) && processed == 0
        && records == old(records) && existIds == old(existIds) && existGroups == old(existGroups)
        && hasUpdate == old(hasUpdate) && uploaded == old(uploaded) && published == old(published)
      ensures memeList.Ok? ==>
        var groups := memeList.value;
        && Crawled(ListedPosts(fetch, bound), clock, Deadline(startTime, maxTimeLimit), groups,
                   old(Crawl(records, existIds, existGroups)), Crawl(records, existIds, existGroups), processed, failure)
        && CrawlEnds(groups, old(Crawl(records, existIds, existGroups)), Crawl(records, existIds, existGroups), processed, failure)
      ensures failure.None? ==> !hasUpdate && uploaded == Upload(records, existGroups)
      ensures old(records) <= records && old(published) <= published
    {
      if memeList.Err? {
        processed, failure := 0, Some(memeList.error);
      } else {
        var tick;
        processed, tick, failure := CrawlGroups(memeList.value, fetch, clock, Deadline(startTime, maxTimeLimit), bound);
        if failure.None? {
          ghost var c1 := Crawl(records, existIds, existGroups);
          Deploy(true, clock(tick), clock(tick + 1));
          assert Crawl(records, existIds, existGroups) == c1;
        }
      }
    }
  }

  /**
   * Every upload of a run whose loaded table had no duplicate id publishes each row once,
   * in strictly descending id order.
   */
  lemma PublishedTable(loaded: seq<Rec>, u: Upload)
    requires DistinctKeys(loaded, RecId)
    requires |loaded| <= |u.records| && u.records[..|loaded|] == loaded && FreshFrom(u.records, RecId, |loaded|)
    ensures multiset(Table(u)) == multiset(u.records)
    ensures forall i, j :: 0 <= i < j < |Table(u)| ==> Table(u)[i].post.id > Table(u)[j].post.id
  {
    SortedTableStrict(u.records, RecId, |loaded|);
  }

  lemma AdmitAllStep(items: seq<Post>, j: nat, exist: set<int>, gtitle: string, baseUrl: string)
    requires j < |items|
    ensures var prev := AdmitAll(items[..j], exist, gtitle, baseUrl);
      AdmitAll(items[..j + 1], exist, gtitle, baseUrl)
        == if items[j].id in prev.1 then prev else (prev.0 + [Rec(items[j], gtitle, baseUrl)], prev.1 + {items[j].id})
  {
    assert items[..j + 1][..j] == items[..j];
  }
}
