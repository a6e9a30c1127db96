/**
 * imgflip template pages: the caption-link filter of a template list page, the walk over
 * all list pages, the rewriting of a raw generator record, the choice of its image URL
 * and the base-36 rendering of ids that URL uses.
 */
module ImgflipPage {
  import opened Wrappers
  import opened Ledger
  import PageSearch

  // ---------------------------------------------------------------- base 36

  /** A character of `chars = '0123456789abcdefghijklmnopqrstuvwxyz'`. */
  predicate IsDigit36(c: char)
  {
    '0' <= c <= '9' || 'a' <= c <= 'z'
  }

  /** `chars[d]`. */
  function DigitChar36(d: nat): (c: char)
    requires d < 36
    ensures IsDigit36(c)
    ensures c == '0' <==> d == 0
  {
    if d < 10 then ('0' as int + d) as char else ('a' as int + d - 10) as char
  }

  /** The value of one base-36 digit character (lower case, as `to_base36` writes them). */
  function CharValue36(c: char): (v: Option<nat>)
    ensures v.Some? <==> IsDigit36(c)
    ensures v.Some? ==> v.value < 36 && DigitChar36(v.value) == c
  {
    if '0' <= c <= '9' then Some(c as int - '0' as int)
    else if 'a' <= c <= 'z' then Some(c as int - 'a' as int + 10)
    else None
  }

  lemma DigitCharValue(d: nat)
    requires d < 36
    ensures CharValue36(DigitChar36(d)) == Some(d)
  {
  }

  /** The digits of `n` in base 36, most significant first, without leading zeros. */
  function Digits36(n: nat): (r: string)
    ensures forall i :: 0 <= i < |r| ==> IsDigit36(r[i])
    ensures n > 0 ==> |r| > 0 && r[0] != '0'
    ensures n == 0 <==> r == []
  {
    if n == 0 then []
    else
      var p := Digits36(n / 36);
      assert n / 36 == 0 ==> 1 <= n % 36;
      p + [DigitChar36(n % 36)]
  }

  /** What `to_base36(num)` returns: the digits, or `'0'` for zero. */
  function Base36(n: nat): string
  {
    if n == 0 then "0" else Digits36(n)
  }

  /** The value of a string of base-36 digits, most significant first. */
  function Value36(s: string): Option<nat>
  {
    if s == [] then Some(0)
    else
      match (Value36(s[..|s| - 1]), CharValue36(s[|s| - 1]))
      case (Some(h), Some(d)) => Some(h * 36 + d)
      case _ => None
  }

  /** `int(s, 36)` on a non-empty string of lower-case base-36 digits. */
  function ParseBase36(s: string): Option<nat>
  {
    if s == [] then None else Value36(s)
  }

  lemma {:induction false} Digits36Value(n: nat)
    ensures Value36(Digits36(n)) == Some(n)
  {
    if n > 0 {
      Digits36Value(n / 36);
      DigitCharValue(n % 36);
      var r := Digits36(n);
      assert r[..|r| - 1] == Digits36(n / 36);
    }
  }

  /** Parsing the base-36 rendering back gives the number. */
  lemma Base36RoundTrip(n: nat)
    ensures ParseBase36(Base36(n)) == Some(n)
  {
    if n == 0 {
      assert Base36(0)[..0] == [];
    } else {
      Digits36Value(n);
    }
  }

  lemma Base36Injective(a: nat, b: nat)
    requires Base36(a) == Base36(b)
    ensures a == b
  {
    Base36RoundTrip(a);
    Base36RoundTrip(b);
  }

  /**
   * `to_base36(num)`: repeatedly `divmod(num, 36)` and prepend the remainder's digit.
   * (A negative `num` never reaches zero under Python's floor division, so only
   * non-negative numbers are accepted.)
   */
  method ToBase36(num: nat) returns (result: string)
    ensures result == Base36(num)
    ensures ParseBase36(result) == Some(num)
    ensures forall i :: 0 <= i < |result| ==> IsDigit36(result[i])
    ensures num == 0 ==> result == "0"
    ensures num > 0 ==> result[0] != '0'
  {
    var n := num;
    result := "";
    while n != 0
      invariant Digits36(n) + result == Digits36(num)
      decreases n
    {
      var remainder := n % 36;
      Digits36Step(n, result);
      n := n / 36;
      result := [DigitChar36(remainder)] + result;
    }
    assert result == Digits36(num);
    if result == "" {
      result := "0";
    }
    Base36RoundTrip(num);
  }

  /** One division of the loop of `to_base36` moves the last digit of `n` to the front of the result. */
  lemma Digits36Step(n: nat, result: string)
    requires n != 0
    ensures Digits36(n) + result == Digits36(n / 36) + ([DigitChar36(n % 36)] + result)
  {
  }

  // ---------------------------------------------------------------- template list pages

  /** One `.mt-box` of the template list: the texts and links it carries. */
  datatype TemplateBox = TemplateBox(
    title: string,
    memeUrl: string,
    thumbnailUrl: string,
    captionUrl: string,
    captionPath: seq<string>)  // `urlsplit(caption_url).path_segments`

  /** One entry of `list_template_page`'s result. */
  datatype TemplateRef = TemplateRef(
    pid: string,
    title: string,
    memeUrl: string,
    thumbnailUrl: string,
    captionUrl: string)

  datatype CaptionCheck = GifMaker | MemeGenerator(pid: string) | BadCaption(error: Failure)

  /** `list(filter(bool, segments))[-1]`. */
  function LastNonEmpty(segments: seq<string>): (r: string)
    requires exists i :: 0 <= i < |segments| && segments[i] != ""
    ensures r != ""
    ensures exists i :: 0 <= i < |segments| && segments[i] == r &&
                        (forall j :: i < j < |segments| ==> segments[j] == "")
  {
    var n := |segments|;
    if segments[n - 1] != "" then segments[n - 1]
    else
      var init := segments[..n - 1];
      assert exists i :: 0 <= i < |init| && init[i] != "" by {
        var i :| 0 <= i < n && segments[i] != "";
        assert init[i] == segments[i];
      }
      var r := LastNonEmpty(init);
      assert exists i :: 0 <= i < n && segments[i] == r && (forall j :: i < j < n ==> segments[j] == "") by {
        var i :| 0 <= i < |init| && init[i] == r && (forall j :: i < j < |init| ==> init[j] == "");
        assert segments[i] == r;
        forall j | i < j < n
          ensures segments[j] == ""
        {
          if j < n - 1 {
            assert segments[j] == init[j];
          }
        }
      }
      r
  }

  /**
   * The caption-link test: a second path segment `gif-maker` is skipped, any other than
   * `memegenerator` fails the assertion, and `pid` is the last non-empty segment.
   */
  function CheckCaption(path: seq<string>): (r: CaptionCheck)
    ensures r.GifMaker? <==> |path| >= 2 && path[1] == "gif-maker"
    ensures r.MemeGenerator? <==> |path| >= 2 && path[1] == "memegenerator"
    ensures r.MemeGenerator? ==> r.pid != "" && r.pid in path
    ensures r == BadCaption(IndexError) <==> |path| < 2
  {
    if |path| < 2 then BadCaption(IndexError)
    else if path[1] == "gif-maker" then GifMaker
    else if path[1] != "memegenerator" then BadCaption(AssertionError)
    else MemeGenerator(LastNonEmpty(path))
  }

  /** A box whose caption link passes the test. */
  predicate Accepted(box: TemplateBox)
  {
    !CheckCaption(box.captionPath).BadCaption?
  }

  /** The entry a box contributes to the page, if it is kept. */
  function RefOf(box: TemplateBox): Option<TemplateRef>
  {
    match CheckCaption(box.captionPath)
    case MemeGenerator(pid) =>
      Some(TemplateRef(pid, box.title, box.memeUrl, box.thumbnailUrl, box.captionUrl))
    case _ => None
  }

  /**
   * The loop of `list_template_page` over the boxes of one page: gif-maker boxes are
   * skipped, a malformed caption link aborts the page, every other box is kept in order.
   */
  method ListTemplatePage(boxes: seq<TemplateBox>) returns (r: Result<seq<TemplateRef>>)
    ensures r.Ok? <==> forall k :: 0 <= k < |boxes| ==> !CheckCaption(boxes[k].captionPath).BadCaption?
    ensures r.Ok? ==> r.value == FilterMap(boxes, RefOf)
    ensures r.Ok? ==> forall k :: 0 <= k < |r.value| ==> r.value[k].pid != ""
    ensures r.Err? ==> exists k :: 0 <= k < |boxes| && CheckCaption(boxes[k].captionPath) == BadCaption(r.error)
  {
    var retval: seq<TemplateRef> := [];
    var i := 0;
    while i < |boxes|
      invariant 0 <= i <= |boxes|
      invariant forall k :: 0 <= k < i ==> Accepted(boxes[k])
      invariant retval == FilterMap(boxes[..i], RefOf)
      invariant forall k :: 0 <= k < |retval| ==> retval[k].pid != ""
    {
      var box := boxes[i];
      var c := CheckCaption(box.captionPath);
      if c.BadCaption? {
        return Err(c.error);
      }
      assert Accepted(box);
      retval := KeepBox(boxes, i, retval);
      i := i + 1;
    }
    assert boxes[..i] == boxes;
    return Ok(retval);
  }

  /** One accepted box of the loop: a memegenerator box appends its entry, a gif-maker box adds nothing. */
  method KeepBox(boxes: seq<TemplateBox>, i: nat, retval: seq<TemplateRef>) returns (retval': seq<TemplateRef>)
    requires i < |boxes| && Accepted(boxes[i])
    requires retval == FilterMap(boxes[..i], RefOf)
    requires forall k :: 0 <= k < |retval| ==> retval[k].pid != ""
    ensures retval' == FilterMap(boxes[..i + 1], RefOf)
    ensures forall k :: 0 <= k < |retval'| ==> retval'[k].pid != ""
  {
    var box := boxes[i];
    var c := CheckCaption(box.captionPath);
    KeepStep(boxes, i);
    retval' := retval;
    if c.MemeGenerator? {
      retval' := retval + [TemplateRef(c.pid, box.title, box.memeUrl, box.thumbnailUrl, box.captionUrl)];
    }
  }

  /** The kept entries of the boxes up to `i + 1` extend those up to `i` by the entry of box `i`, if any. */
  lemma KeepStep(boxes: seq<TemplateBox>, i: nat)
    requires i < |boxes|
    ensures var b, c := boxes[i], CheckCaption(boxes[i].captionPath);
      c.MemeGenerator? ==>
        FilterMap(boxes[..i + 1], RefOf) ==
        FilterMap(boxes[..i], RefOf) + [TemplateRef(c.pid, b.title, b.memeUrl, b.thumbnailUrl, b.captionUrl)]
    ensures !CheckCaption(boxes[i].captionPath).MemeGenerator? ==>
      FilterMap(boxes[..i + 1], RefOf) == FilterMap(boxes[..i], RefOf)
  {
    assert boxes[..i + 1] == boxes[..i] + [boxes[i]];
    var b := boxes[i];
    var c := CheckCaption(b.captionPath);
    FilterMapAppend(boxes[..i], b, RefOf);
    if c.MemeGenerator? {
      assert RefOf(b) == Some(TemplateRef(c.pid, b.title, b.memeUrl, b.thumbnailUrl, b.captionUrl));
    } else {
      assert RefOf(b) == None;
    }
  }

  /** A list page read as a page probe: its exception, or whether it lists any entry. */
  function Listed(listPage: nat -> Result<seq<TemplateRef>>): nat -> Result<bool>
  {
    (p: nat) => match listPage(p) case Err(e) => Err(e) case Ok(page) => Ok(page != [])
  }

  /**
   * The entries of list pages `1 .. n` in page order, up to the first page that raises,
   * and that page's exception.
   */
  function PagesUpTo(listPage: nat -> Result<seq<TemplateRef>>, n: nat): (seq<TemplateRef>, Option<Failure>)
  {
    if n == 0 then ([], None)
    else
      var prev := PagesUpTo(listPage, n - 1);
      if prev.1.Some? then prev
      else match listPage(n)
        case Err(e) => (prev.0, Some(e))
        case Ok(page) => (prev.0 + page, None)
  }

  /**
   * No page among `1 .. n` raises exactly when the walk ends without an exception, and an
   * exception it ends with is that of a page among `1 .. n`.
   */
  lemma {:induction false} PagesUpToRaised(listPage: nat -> Result<seq<TemplateRef>>, n: nat)
    ensures PagesUpTo(listPage, n).1.None? <==> forall p :: 1 <= p <= n ==> listPage(p).Ok?
    ensures PagesUpTo(listPage, n).1.Some? ==> exists p :: 1 <= p <= n && listPage(p) == Err(PagesUpTo(listPage, n).1.value)
  {
    if n > 0 {
      PagesUpToRaised(listPage, n - 1);
    }
  }

  /** Once a page has raised, later pages change nothing: the generator has stopped. */
  lemma {:induction false} PagesStopped(listPage: nat -> Result<seq<TemplateRef>>, k: nat, n: nat)
    requires k <= n && PagesUpTo(listPage, k).1.Some?
    ensures PagesUpTo(listPage, n) == PagesUpTo(listPage, k)
    decreases n
  {
    if n > k {
      PagesStopped(listPage, k, n - 1);
      assert PagesUpTo(listPage, n - 1).1.Some?;
    }
  }

  /**
   * `iter_all_templates`: find the last non-empty list page, then yield the entries of
   * pages `1 .. max_page` in page order. `listPage(p)` is what `list_template_page(p)`
   * returns, or the exception it raises (a failed request or a bad caption link). A
   * raise in the search yields nothing; a raise on page `i` ends the generator after the
   * entries of pages `1 .. i - 1`.
   */
  method IterAllTemplates(listPage: nat -> Result<seq<TemplateRef>>, ghost bound: nat)
    returns (maxPage: Result<nat>, items: seq<TemplateRef>, failure: Option<Failure>)
    requires PageSearch.EmptyFrom(PageSearch.NonEmpty(Listed(listPage)), bound)
    ensures maxPage == PageSearch.Search(Listed(listPage), bound)
    ensures maxPage.Err? ==> items == [] && failure == Some(maxPage.error)
    ensures maxPage.Ok? ==> maxPage.value >= 1 && (items, failure) == PagesUpTo(listPage, maxPage.value)
    ensures maxPage.Ok? && PageSearch.Monotone(PageSearch.NonEmpty(Listed(listPage))) ==>
      PageSearch.FoundLast(Listed(listPage), bound, maxPage.value)
  {
    maxPage := PageSearch.FindMaxPage(Listed(listPage), bound);
    if maxPage.Err? {
      return maxPage, [], Some(maxPage.error);
    }
    items, failure := WalkListPages(listPage, maxPage.value);
  }

  /** The page loop of `iter_all_templates` over pages `1 .. maxPage`; a page that raises ends it. */
  method WalkListPages(listPage: nat -> Result<seq<TemplateRef>>, maxPage: nat)
    returns (items: seq<TemplateRef>, failure: Option<Failure>)
    ensures (items, failure) == PagesUpTo(listPage, maxPage)
  {
    items, failure := [], None;
    var i := 1;
    while i <= maxPage
      invariant 1 <= i <= maxPage + 1
      invariant (items, failure) == PagesUpTo(listPage, i - 1) && failure.None?
    {
      var page := listPage(i);
      if page.Err? {
        failure := Some(page.error);
        PagesStopped(listPage, i, maxPage);
        return;
      }
      items := items + page.value;
      i := i + 1;
    }
  }

  // ---------------------------------------------------------------- generator records

  /** A key of a raw JSON object: absent, or present with its value. */
  datatype Key<+T> = Absent | Present(value: T)

  /** A decoded JSON value, reduced to what the code tests: whether Python finds it truthy. */
  datatype Json = Json(text: string, truthy: bool)

  /** `json.loads`: the decoded value, or `None` for text that is not JSON. */
  type Decoder = string -> Option<Json>

  /** A raw entry of the `memes=` array of a generator page. */
  datatype RawTemplate = RawTemplate(
    id: int,
    name: string,
    altNames: Key<Option<string>>,    // `altNames`
    urlName: Key<Option<string>>,     // `url_name`
    defaultSettings: Option<string>,  // `default_settings`; absent and null read alike
    h: Key<int>,
    w: Key<int>,
    safeForWork: Key<string>,         // `safe_for_work`
    fileType: string)                 // `file_type`

  /** The same entry after `_process_item`. */
  datatype Template = Template(
    id: int,
    name: string,
    altNames: Option<string>,
    urlName: Option<string>,
    defaultSettings: Option<Json>,
    height: int,
    width: int,
    isSfw: bool,
    fileType: string)

  /** Python's `x or None` on an optional string: falsy values become `None`. */
  function OrNone(x: Option<string>): (r: Option<string>)
    ensures r.None? <==> x.None? || x.value == ""
    ensures r.Some? ==> r == x
  {
    if x.None? || x.value == "" then None else x
  }

  /** `item['default_settings']` after lines 80 and 82-83: `None` when falsy, else the decoded value. */
  function Settings(raw: Option<string>, decode: Decoder): (r: Result<Option<Json>>)
    ensures r.Err? <==> OrNone(raw).Some? && decode(raw.value).None?
    ensures r.Err? ==> r.error == DecodeError
    ensures r.Ok? ==> (r.value.None? <==> OrNone(raw).None?)
    ensures r.Ok? && r.value.Some? ==> decode(raw.value) == r.value
  {
    match OrNone(raw)
    case None => Ok(None)
    case Some(text) =>
      match decode(text)
      case None => Err(DecodeError)
      case Some(j) => Ok(Some(j))
  }

  /** The keys `_process_item` reads before it decodes `default_settings`, and after. */
  predicate KeysBefore(raw: RawTemplate)
  {
    raw.altNames.Present? && raw.urlName.Present?
  }

  predicate KeysAfter(raw: RawTemplate)
  {
    raw.h.Present? && raw.w.Present? && raw.safeForWork.Present?
  }

  /**
   * `_process_item`: the keys are read in the source's order, and the first missing one
   * raises KeyError; a truthy `default_settings` is decoded (text that is not JSON raises);
   * falsy `altNames`, `default_settings` and `url_name` become `None`, `h`/`w` are renamed
   * `height`/`width`, and `safe_for_work` must be `'yes'` or `'no'` and becomes `is_sfw`.
   */
  function ProcessItem(raw: RawTemplate, decode: Decoder): (r: Result<Template>)
    ensures r.Ok? <==>
      KeysBefore(raw) && Settings(raw.defaultSettings, decode).Ok? && KeysAfter(raw)
      && raw.safeForWork.value in {"yes", "no"}
    ensures r == Err(KeyError) <==>
      !KeysBefore(raw) || (Settings(raw.defaultSettings, decode).Ok? && !KeysAfter(raw))
    ensures r == Err(DecodeError) <==> KeysBefore(raw) && Settings(raw.defaultSettings, decode).Err?
    ensures r == Err(AssertionError) <==>
      KeysBefore(raw) && Settings(raw.defaultSettings, decode).Ok? && KeysAfter(raw)
      && raw.safeForWork.value !in {"yes", "no"}
    ensures r.Ok? ==> (r.value.isSfw <==> raw.safeForWork.value == "yes")
    ensures r.Ok? ==> r.value.height == raw.h.value && r.value.width == raw.w.value
    ensures r.Ok? ==> r.value.id == raw.id && r.value.name == raw.name && r.value.fileType == raw.fileType
    ensures r.Ok? ==> r.value.altNames == OrNone(raw.altNames.value) && r.value.urlName == OrNone(raw.urlName.value)
    ensures r.Ok? ==> r.value.defaultSettings == Settings(raw.defaultSettings, decode).value
  {
    if !KeysBefore(raw) then Err(KeyError)
    else
      match Settings(raw.defaultSettings, decode)
      case Err(e) => Err(e)
      case Ok(settings) =>
        if !KeysAfter(raw) then Err(KeyError)
        else if raw.safeForWork.value != "yes" && raw.safeForWork.value != "no" then Err(AssertionError)
        else
          Ok(Template(raw.id, raw.name, OrNone(raw.altNames.value), OrNone(raw.urlName.value),
                      settings, raw.h.value, raw.w.value, raw.safeForWork.value == "yes", raw.fileType))
  }

  /**
   * The `image_url` of a generator: from `url_name` when it is set, otherwise from the
   * base-36 form of the page's `usermemeID`.
   */
  function ImageUrl(t: Template, usermemeId: nat): string
  {
    match t.urlName
    case Some(name) => "https://imgflip.com/s/meme/" + name + Extension(t)
    case None => "https://i.imgflip.com/" + Base36(usermemeId) + Extension(t)
  }

  /** `.{file_type}`. */
  function Extension(t: Template): string
  {
    "." + t.fileType
  }

  /** Without a `url_name`, different `usermemeID`s give different image URLs. */
  lemma ImageUrlDistinguishesIds(t: Template, a: nat, b: nat)
    requires t.urlName.None?
    requires ImageUrl(t, a) == ImageUrl(t, b)
    ensures a == b
  {
    CancelAffixes("https://i.imgflip.com/", Base36(a), Base36(b), Extension(t));
    Base36Injective(a, b);
  }

  lemma CancelAffixes(p: string, x: string, y: string, s: string)
    requires p + x + s == p + y + s
    ensures x == y
  {
    var u := p + x + s;
    assert |x| == |y|;
    forall i | 0 <= i < |x|
      ensures x[i] == y[i]
    {
      assert x[i] == u[|p| + i];
      assert y[i] == (p + y + s)[|p| + i];
    }
  }

  /** A processed generator with its image URL. */
  datatype Generator = Generator(template: Template, imageUrl: string)

  /** The match test of `get_generator_info`. */
  predicate Matches(t: Template, urlName: string, usermemeId: nat)
  {
    t.urlName == Some(urlName) || t.id == usermemeId
  }

  /**
   * The loop of `get_generator_info` over the page's `memes` entries: each is processed in
   * turn (a failure aborts), and the first whose `url_name` or `id` matches is returned
   * with its image URL; no match gives `None`.
   */
  method FindGenerator(memes: seq<RawTemplate>, decode: Decoder, urlName: string, usermemeId: nat)
    returns (r: Result<Option<Generator>>)
    ensures r.Ok? && r.value.Some? ==>
      exists k :: 0 <= k < |memes|
        && (forall j :: 0 <= j < k ==> ProcessItem(memes[j], decode).Ok? && !Matches(ProcessItem(memes[j], decode).value, urlName, usermemeId))
        && ProcessItem(memes[k], decode).Ok?
        && Matches(ProcessItem(memes[k], decode).value, urlName, usermemeId)
        && r.value.value == Generator(ProcessItem(memes[k], decode).value, ImageUrl(ProcessItem(memes[k], decode).value, usermemeId))
    ensures r == Ok(None) <==>
      forall j :: 0 <= j < |memes| ==> ProcessItem(memes[j], decode).Ok? && !Matches(ProcessItem(memes[j], decode).value, urlName, usermemeId)
    ensures r.Err? ==>
      exists k :: 0 <= k < |memes|
        && (forall j :: 0 <= j < k ==> ProcessItem(memes[j], decode).Ok? && !Matches(ProcessItem(memes[j], decode).value, urlName, usermemeId))
        && ProcessItem(memes[k], decode).Err? && r.error == ProcessItem(memes[k], decode).error
  {
    var i := 0;
    while i < |memes|
      invariant 0 <= i <= |memes|
      invariant forall j :: 0 <= j < i ==> ProcessItem(memes[j], decode).Ok? && !Matches(ProcessItem(memes[j], decode).value, urlName, usermemeId)
    {
      var p := ProcessItem(memes[i], decode);
      if p.Err? {
        return Err(p.error);
      }
      var t := p.value;
      if Matches(t, urlName, usermemeId) {
        return Ok(Some(Generator(t, ImageUrl(t, usermemeId))));
      }
      i := i + 1;
    }
    return Ok(None);
  }
}
