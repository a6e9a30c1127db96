# scrappers: the incremental sync engine, in Dafny

`scrappers` fills a family of Hugging Face dataset repositories from meme and personality
sites: imgflip.com, quickmeme.com ("qmeme"), knowyourmeme.com ("memes"),
personality-database.com ("pdb") and the video site youzhik.com ("yzk"). Every scraper follows one pattern: load the table already
published, remember the ids (or URLs) it holds, crawl the site, admit only rows whose id is
new, and publish the table again — either at once or through a "deploy gate" that uploads
only when something changed and the last upload is old enough (`_deploy(force)`), with a
final forced deploy.

This project models that engine. Each core Python file is one Dafny module:

| module | file | what it models |
|---|---|---|
| `ImgflipPage` | `imgflip/page.py` | the caption-link filter, the page-count search and walk, `_process_item`, the generator match and base-36 URLs |
| `ImgflipIndex` | `imgflip/index.py` | the id-keyed index with the fill-missing merge and the gated deploy |
| `ImgflipDb` | `imgflip/db.py` | the block-by-block image archive with its volume counter and tar paths |
| `QmemeIndex` | `qmeme/index.py` | post-id paging, per-group dedup by post id, group metadata |
| `MemesIndex` | `memes/index.py` | the offset crawl that stops after empty pages, tag counting |
| `MemesPage` | `memes/page.py` | page parsing (references, media, entries) and the block archive of page texts |
| `PdbPtx` | `pdb/ptx.py` | the cursor walk over the personality-type lists and the type/destination tables |
| `PdbIndex` | `pdb/index.py` | the per-(type, subcategory) sync of profile ids |
| `PdbDb` | `pdb/db.py` | the profile and comment archive, with the comment count of each upload |
| `YzkXl` | `yzk/xl.py` | the list-page crawl with its skip set and the per-upload counter |
| `YzkDx` | `yzk/dx.py` | the video download, probe, file naming and upload |

Shared modules: `Wrappers` (`Option`, `Result`), `Text` (`str`/`int` conversions,
`splitext`, `replace`, string order), `Ledger` (id sets, freshness, the deploy gate,
dictionary values), `Sorting` (`sort_values` as an insertion sort with its permutation proof; pandas' default
quicksort is not stable, so the model fixes one order of rows with equal keys where pandas
promises none),
`Blocks` (`ceil(n / size)` blocks of consecutive rows) and `PageSearch` (the doubling and
bisection search for the last non-empty page).

Stateful scrapers are classes whose fields are the Python closure's `nonlocal` variables
(`records`, `exist_ids`, `has_update`, `_last_update`, `_total_count`, the volume counter).
Every upload is appended to a ghost field `published` (or `uploads`), so contracts can speak
of what was uploaded. Network fetches, downloads, clocks and shuffles are function
parameters: a page is `fetch(offset)`, the clock is `clock(tick)`, a shuffle is any `order`
that is a permutation of the pending rows. A thread pool finishes the tasks of a block in an
order it does not fix: the model takes that order as a parameter, `commits[b]` for block `b`,
which may be any rearrangement of the block (`Blocks.CommitOrders`), and runs each task's
step that touches the shared tables (under the lock in `pdb/db.py`, a single
`records.append` in `memes/page.py`) as one atomic step in that order. In `imgflip/db.py` the
thread-pool order is the shuffled `order` parameter itself: blocks are slices of `order`
and each block's tasks run in it, and since the shuffle may be any permutation, any
finishing order within a block is the order of some shuffle.

Across the scrapers the model proves the following:

- **Dedup.** A row is appended only when its id is not yet stored, so the rows one run
  appends never repeat a stored id. Whether the published table is free of repeated ids
  depends on more than that: `yzk/xl.py` stores a post under the id of the page it
  redirected to, which can repeat an id (`YzkXl.RedirectDuplicates`), and `yzk/dx.py` keeps
  ids distinct only when its index has none repeated (`YzkDx.PendingFresh`).
- **Published tables.** Each upload publishes the stored records, sorted as the source
  sorts them. It is a permutation with the promised order.
- **Deploy gate.** `_deploy` uploads exactly when something changed and (`force` or the
  span has elapsed). After the final forced deploy nothing is pending, and the last upload
  is the final table.
- **Counters.** The counters written into commit messages and `meta.json` count the rows
  of that upload.
- **Conversions.** The id/text conversions round-trip: base 36, `str`/`int`, and post ids
  in URLs.
- **Paging.** When the listing is non-empty up to some page and empty after it, the page
  search finds the last non-empty page; walks cover every page once, in order, up to the
  first request that raises, whose exception ends the run before its forced deploy.

## Model

| member | source | states |
|---|---|---|
| Blocks.NumBlocks | scrappers/imgflip/db.py:87 | `ceil(n / size)` is the least block count whose blocks hold all `n` rows; zero exactly when there are no rows |
| Blocks.BlockShape | scrappers/imgflip/db.py:88 | block `i` is the slice `[i*size, (i+1)*size)` cut at the end, and is non-empty and at most `size` long |
| Blocks.BlocksUpToPrefix | scrappers/imgflip/db.py:87-88 | the first `k` blocks concatenated are the prefix of the first `k*size` rows |
| Blocks.BlocksCover | scrappers/imgflip/db.py:87-88 | the blocks of the loop together are exactly the pending rows, in order: none is skipped or repeated |
| Blocks.BlockAt | scrappers/imgflip/db.py:88 | block `i` holds, in order, the rows at the indices it takes |
| Blocks.BlocksDisjoint | scrappers/imgflip/db.py:87-88 | two different blocks take no row index in common, so no row is processed twice |
| Blocks.CommittedRows | scrappers/memes/page.py:195-225 | when every block's tasks finish in some rearrangement of the block, every task finished belongs to the pending rows |
| PageSearch.FindMaxPage | scrappers/imgflip/page.py:48-60 | the doubling-then-bisection search ends with the exception of the first page request that raises (a page after the first), and never raises when no such request does; otherwise it returns a page number of at least 1, and when the pages are non-empty up to a point that is the last non-empty page (or 1 when none is), with every later page empty |
| PageSearch.LastPage | scrappers/imgflip/page.py:48-60 | the reference answer of the search: 1, or a non-empty page no later than the bound |
| PageSearch.LastPageIs | scrappers/imgflip/page.py:48-60 | for pages non-empty up to a point, the reference answer is the one page number after which every page is empty and which is non-empty when page 1 is |
| Ledger.KeySetMembers | scrappers/imgflip/db.py:54 | `set(df['id'])` holds an id exactly when some row carries it |
| Ledger.FilterNew | scrappers/imgflip/db.py:74 | `df[~df['id'].isin(exist_ids)]` keeps each row whose id is unknown, as often as the source has it, and drops every other |
| Ledger.FilterNewDistinct | scrappers/imgflip/db.py:74 | filtering out known ids keeps a source with distinct ids distinct |
| Ledger.FilterNewMembers | scrappers/imgflip/db.py:74 | every kept row is a source row with an unknown id |
| Ledger.GateOpen | scrappers/imgflip/index.py:61-64 | the deploy gate: closed without an update; open with an update when forced, never deployed before, or the span has elapsed; closed otherwise |
| Ledger.FreshAppend | scrappers/imgflip/index.py:129-132 | appending a row whose id is not stored keeps the appended part free of repeated ids |
| Ledger.DistinctFromFresh | scrappers/imgflip/index.py:129-132 | a table with distinct loaded ids and freshly admitted rows has no repeated id |
| Ledger.PermutationKeepsDistinct | scrappers/imgflip/index.py:69 | sorting a table cannot create a duplicate id |
| Ledger.SortedTableStrict | scrappers/imgflip/db.py:138-139 | the sorted table of a dedup-admitted list is a permutation of it with strictly decreasing ids |
| Ledger.KnownKeyRepeats | scrappers/imgflip/index.py:129 | without the membership test, appending a known id would repeat it |
| Ledger.MapValuesProperties | scrappers/imgflip/index.py:68 | `list(d.values())` of an id-keyed dictionary lists each stored record once, with distinct ids |
| Ledger.FilterMapAppend | scrappers/imgflip/page.py:22-41 | an append loop that skips some items and converts the rest grows by the converted item only |
| Ledger.FlatMapConcat | scrappers/pdb/index.py:104-121 | the rows of two runs of listings, joined, are the rows of the runs joined |
| Sorting.SortBy | scrappers/imgflip/index.py:69 | the sort returns a permutation of its input ordered by the comparison (the order among equal keys is one pandas does not promise) |
| Sorting.SortByKeyDesc | scrappers/imgflip/index.py:69 | `sort_values(by=[key], ascending=[False])` is a permutation with non-increasing keys |
| Sorting.SortByKeyAsc | scrappers/imgflip/db.py:76 | `sort_values(by=[key], ascending=[True])` is a permutation with non-decreasing keys |
| Text.NatToString | scrappers/imgflip/db.py:103 | `str(n)` is a non-empty digit string denoting `n`, without a leading zero unless `n` is zero |
| Text.ParseIntRoundTrip | scrappers/qmeme/index.py:55 | `int(str(i)) == i` for every integer |
| Text.IntToStringInjective | scrappers/imgflip/db.py:103 | distinct integers print as distinct strings |
| Text.IntToStringChars | scrappers/imgflip/db.py:103 | `str(i)` is non-empty and made of digits and a sign only |
| Text.RemoveAllSpec | scrappers/qmeme/index.py:63 | `s.replace(c, '')` has no `c` left and keeps every other character as often as `s` has it |
| Text.RemoveAllNoOp | scrappers/qmeme/index.py:63 | removing a character that does not occur changes nothing |
| Text.Lower | scrappers/imgflip/db.py:102 | `s.lower()` on ASCII letters: keeps the length, lowers `A`-`Z` and keeps every other character |
| Text.SplitExt | scrappers/imgflip/db.py:102 | `os.path.splitext` splits the name into stem and extension that concatenate back; the extension is empty or one dot with no other, and it is non-empty exactly when the name has a dot after a non-dot |
| Text.StrLeTotal | scrappers/qmeme/index.py:172 | Python's string order is total |
| Text.StrLeTransitive | scrappers/qmeme/index.py:172 | Python's string order is transitive |
| Text.StrLeAntisymmetric | scrappers/qmeme/index.py:172 | Python's string order is antisymmetric |
| ImgflipPage.CharValue36 | scrappers/imgflip/page.py:70 | a character is a base-36 digit exactly when it has a value, and the digit of that value is the character |
| ImgflipPage.Digits36 | scrappers/imgflip/page.py:71-74 | the digits of `n` are base-36 digits without a leading zero, empty only for zero |
| ImgflipPage.Digits36Value | scrappers/imgflip/page.py:71-74 | the digits of `n` read back as `n` |
| ImgflipPage.Base36RoundTrip | scrappers/imgflip/page.py:66-75 | `int(to_base36(n), 36) == n` |
| ImgflipPage.Base36Injective | scrappers/imgflip/page.py:66-75 | different ids never render to the same base-36 string |
| ImgflipPage.ToBase36 | scrappers/imgflip/page.py:66-75 | the loop of `to_base36` builds the base-36 digits of `num` (`'0'` for zero, no leading zero otherwise), which parse back to `num` |
| ImgflipPage.LastNonEmpty | scrappers/imgflip/page.py:34 | `list(filter(bool, segments))[-1]` is a non-empty segment after which all segments are empty |
| ImgflipPage.CheckCaption | scrappers/imgflip/page.py:29-34 | a `gif-maker` link is skipped, a `memegenerator` link yields a non-empty pid taken from the path, fewer than two segments raise IndexError, and any other link fails the assertion |
| ImgflipPage.ListTemplatePage | scrappers/imgflip/page.py:16-43 | the page succeeds exactly when no caption link is bad; it then lists, in page order, one entry for each `memegenerator` box and none for `gif-maker` boxes, each with a non-empty pid; a failure carries the error of a bad box |
| ImgflipPage.KeepStep | scrappers/imgflip/page.py:29-41 | one box adds its entry exactly when its link is a `memegenerator` link, and adds nothing otherwise |
| ImgflipPage.KeepBox | scrappers/imgflip/page.py:29-41 | an accepted box extends the page's list to the entries of the boxes up to and including it, every pid still non-empty |
| ImgflipPage.IterAllTemplates | scrappers/imgflip/page.py:46-63 | an exception of the page-count search yields nothing and ends the generator with it; otherwise the generator yields the entries of pages `1 .. max_page` in page order up to the first page that raises, and ends with that page's exception; when the pages are non-empty up to a point, `max_page` is the last non-empty page and every later page is empty |
| ImgflipPage.WalkListPages | scrappers/imgflip/page.py:62-63 | the page loop yields the entries of pages `1 .. max_page` in page order, as `PagesUpTo` says, and stops at the first page that raises |
| ImgflipPage.PagesUpToRaised | scrappers/imgflip/page.py:62-63 | the walk over pages `1 .. n` ends without an exception exactly when none of those pages raises, and an exception it ends with is that of one of them |
| ImgflipPage.PagesStopped | scrappers/imgflip/page.py:62-63 | once a page has raised, the pages after it add nothing: the generator has stopped |
| ImgflipPage.OrNone | scrappers/imgflip/page.py:79-81 | `x or None` is `None` exactly for a missing or empty value and keeps the value otherwise |
| ImgflipPage.ProcessItem | scrappers/imgflip/page.py:78-88 | a missing `altNames` or `url_name`, or after the decode a missing `h`, `w` or `safe_for_work`, raises KeyError; a non-empty `default_settings` that is not JSON raises the decode error; otherwise the rewrite succeeds exactly when `safe_for_work` is `yes` or `no` (else AssertionError); it renames `h`/`w`, turns empty optional fields into `None`, stores the decoded settings and sets `is_sfw` exactly for `yes` |
| ImgflipPage.Settings | scrappers/imgflip/page.py:80-83 | `default_settings` is `None` when missing or empty, fails exactly when non-empty text does not decode, and is otherwise the decoded value |
| ImgflipPage.ImageUrlDistinguishesIds | scrappers/imgflip/page.py:116 | without a `url_name`, different `usermemeID`s give different image URLs |
| ImgflipPage.FindGenerator | scrappers/imgflip/page.py:110-119 | the result is the first entry that processes and matches by `url_name` or id, with its image URL; `None` exactly when every entry processes and none matches; an error only when an entry fails to process before any match |
| ImgflipIndex.Merge | scrappers/imgflip/index.py:127 | `{**item, **vitem}` takes id, names, settings and image URL from the generator record and the caption URL and pid from the list entry |
| ImgflipIndex.FillFieldProperties | scrappers/imgflip/index.py:133-138 | a stored field changes exactly when it was empty and the incoming one is not; a non-empty field is never overwritten; filling twice equals filling once |
| ImgflipIndex.FillMissingChanges | scrappers/imgflip/index.py:133-138 | the merge changes the stored record exactly when one of its two fields is filled, and repeating it changes nothing |
| ImgflipIndex.Stored | scrappers/imgflip/index.py:129-138 | a new id stores the merged record; a known id keeps the stored record with its empty fields filled |
| ImgflipIndex.MapOfRecords | scrappers/imgflip/index.py:49 | the loaded dictionary has every row's id as a key and stores each record under its own id |
| ImgflipIndex.MapOfRecordsFromRows | scrappers/imgflip/index.py:49 | every stored record is one of the loaded rows |
| ImgflipIndex.Captions | scrappers/imgflip/index.py:50 | `set(df['caption_url'])` holds the caption URL of every loaded row |
| ImgflipIndex.CaptionsFromRows | scrappers/imgflip/index.py:50 | and nothing else: every URL in the set is the caption URL of some loaded row |
| ImgflipIndex.LoadedKeyed | scrappers/imgflip/index.py:44-53 | after loading, every record sits under its own id and its caption URL is known |
| ImgflipIndex.SnapshotProperties | scrappers/imgflip/index.py:68-69 | the published table holds exactly the stored records, once each, with strictly decreasing ids, so no id repeats |
| ImgflipIndex.IndexSync.constructor | scrappers/imgflip/index.py:44-56 | the state after loading: the dictionary and caption set of the loaded table, nothing pending, never deployed, the total count equal to the stored count |
| ImgflipIndex.IndexSync.Deploy | scrappers/imgflip/index.py:58-107 | with the gate open, the id-sorted snapshot is uploaded, the update flag is cleared and the time and total count are recorded; with it closed nothing changes |
| ImgflipIndex.IndexSync.Admit | scrappers/imgflip/index.py:126-138 | the merged record is stored under its id (inserted when new, filled when known), its caption URL is recorded when it is new, and the update flag is set exactly when the dictionary changed |
| ImgflipIndex.IndexSync.Fn | scrappers/imgflip/index.py:119-139 | an entry whose caption URL is known, or whose fetch fails, changes nothing; otherwise its record is admitted and a non-forced deploy may publish the dictionary; no stored id is lost |
| ImgflipIndex.IndexSync.FnAll | scrappers/imgflip/index.py:141 | after `_fn` on every entry in the given order, the dictionary and caption set are the fold `RunFn` of `_fn`'s effect over the entries, and any pending change has been published or is still flagged |
| ImgflipIndex.IndexSync.Sync | scrappers/imgflip/index.py:119-143 | the dictionary and caption set end as the fold `RunFn` of `_fn` over the entries the generator yielded; an exception of the generator is reported and skips the forced deploy; without one nothing is pending afterwards, a run that changed anything uploaded again, and the last upload is the final dictionary |
| ImgflipIndex.RunFnProperties | scrappers/imgflip/index.py:119-141 | the fold keeps every stored id and known caption URL; a stored record only gets its empty `alt_names` or `default_settings` filled, so a non-empty field is never overwritten; every fetched entry had a known caption URL or has its template stored; every caption URL it adds belongs to a stored template |
| ImgflipDb.FileExt | scrappers/imgflip/db.py:102 | the extension is empty or a single dot with no other dot |
| ImgflipDb.FileNameInjective | scrappers/imgflip/db.py:103 | rows with different ids get different member names in the tar, whatever their extensions |
| ImgflipDb.Pad3 | scrappers/imgflip/db.py:92 | `f'{n:03d}'` is three digits |
| ImgflipDb.Pad3Value | scrappers/imgflip/db.py:92 | the three digits denote `n` |
| ImgflipDb.VolumePathInjective | scrappers/imgflip/db.py:92 | different volume numbers never share a tar path |
| ImgflipDb.BlockRecordsFromRows | scrappers/imgflip/db.py:99-131 | a block yields at most one record per row; each record comes from a downloaded row of the block, lies in the block's tar and is named after its row's id |
| ImgflipDb.TableSorted | scrappers/imgflip/db.py:138-140 | the uploaded table holds exactly the records, sorted by id descending |
| ImgflipDb.ArchiveSync.constructor | scrappers/imgflip/db.py:43-67 | the loaded records, their id set, and the volume counter from `meta.json` or 0 |
| ImgflipDb.ArchiveSync.SyncBlock | scrappers/imgflip/db.py:87-179 | one block takes the next volume number, appends one record per downloaded image and remembers their ids, counts them, indexes the tar exactly when it is non-empty, and uploads the whole table with the counter |
| ImgflipDb.ArchiveSync.Commit | scrappers/imgflip/db.py:115-129 | the locked section appends the record and adds its id |
| ImgflipDb.ArchiveSync.Sync | scrappers/imgflip/db.py:87-179 | the run advances the counter by the number of blocks, appends the records of every block in order, and uploads once per block |
| ImgflipDb.PendingRows | scrappers/imgflip/db.py:74-77 | the shuffled pending rows are source rows whose ids are not archived |
| ImgflipDb.SyncAppendsOnlyNew | scrappers/imgflip/db.py:74-131 | every record a run appends comes from the source and has an id the archive did not hold |
| ImgflipDb.SyncRecordsFresh | scrappers/imgflip/db.py:99-131 | records appended from pending rows carry only unknown ids |
| ImgflipDb.SyncUploadsShape | scrappers/imgflip/db.py:87-179 | there is one upload per block; upload `i` carries counter `v0 + i + 1` and every record of blocks `0 .. i`, and its tar is indexed exactly when it archived an image |
| QmemeIndex.PostId | scrappers/qmeme/index.py:49-55 | an element id without a dash is skipped; with one, a prefix other than `post` fails the assertion and the rest must parse as an integer |
| QmemeIndex.PostIdRoundTrip | scrappers/qmeme/index.py:49-55 | the element id `post-<id>` parses back to `id` |
| QmemeIndex.PostIdWrongPrefix | scrappers/qmeme/index.py:53 | any other prefix before the first dash is rejected with AssertionError |
| QmemeIndex.ShareCountIgnoresSeparator | scrappers/qmeme/index.py:63 | a thousands separator anywhere in the share count does not change the number |
| QmemeIndex.ShareCountOfPrinted | scrappers/qmeme/index.py:63 | a printed count reads back as itself |
| QmemeIndex.ParsePost | scrappers/qmeme/index.py:49-63 | an element id without a dash is skipped exactly; a parsed post carries the id of the element id, the kind and index of the link path, which starts at the root and has at least three segments, and the share count read; a raise comes from the id, the path or the share count |
| QmemeIndex.ParsePostOfWritten | scrappers/qmeme/index.py:49-63 | an element written as the site writes a post (`post-<id>`, a link `/kind/idx/...`, a printed share count) parses back to that post |
| QmemeIndex.ParsePosts | scrappers/qmeme/index.py:46-74 | the post loop succeeds exactly when every element parses, then keeping one post per element whose id has a dash, in order; otherwise it raises the exception of the first element that does not parse |
| QmemeIndex.ParsedPageStops | scrappers/qmeme/index.py:48-63 | the first element that does not parse decides the page: its exception is the one raised |
| QmemeIndex.GetMemeFromPage | scrappers/qmeme/index.py:37-74 | a failed request raises its exception; otherwise the page is the post loop over its elements, and a page that parses came from a request that succeeded |
| QmemeIndex.RequestParams | scrappers/qmeme/index.py:43 | the request always sends `inf=1`, and adds `i` exactly when there is a non-zero last id |
| QmemeIndex.RequestParamsCarryId | scrappers/qmeme/index.py:43 | the `i` parameter carries the last id back unchanged |
| QmemeIndex.ListingLastIds | scrappers/qmeme/index.py:100-104 | page `j + 1` is requested with the id of the last post yielded before it |
| QmemeIndex.ListingStopped | scrappers/qmeme/index.py:101-104 | once a page has raised, the pages after it add nothing: the generator has stopped |
| QmemeIndex.WalkPages | scrappers/qmeme/index.py:100-104 | the page loop yields the posts of pages `1 .. max_page` in order, each request carrying the id of the last post yielded before it, as `Listing` says, and stops at the first page that raises |
| QmemeIndex.WalkPage | scrappers/qmeme/index.py:101-104 | one page of the loop moves the walk on by that page as `Listing` says, and a page that does not raise leaves `last_id` the id of the last post yielded |
| QmemeIndex.FindMaxPageCount | scrappers/qmeme/index.py:77-91 | the search ends with the exception of a request for a page after the first, and otherwise returns a page number of at least 1; when the group's pages are non-empty up to a point, that is the last non-empty page (1 when there is none), and every later page is empty |
| QmemeIndex.ListAllFromPage | scrappers/qmeme/index.py:94-104 | an exception of the search yields nothing and ends the generator; otherwise it yields the posts of pages `1 .. max_page` in order, each page requested with the id of the last post yielded before it, and stops at the first page that raises, with its exception; when the pages are non-empty up to a point, every page after `max_page` is empty |
| QmemeIndex.YieldPage | scrappers/qmeme/index.py:102-104 | yielding a page appends its posts, and `last_id` becomes the id of the last post yielded |
| QmemeIndex.AdmitAllLedger | scrappers/qmeme/index.py:227-238 | after a group the ledger is the old ledger plus every listed id |
| QmemeIndex.AdmitAllFromGroup | scrappers/qmeme/index.py:227-238 | the rows admitted for a group are its own posts, tagged with its title and URL, with ids outside the old ledger |
| QmemeIndex.AdmitAllDistinct | scrappers/qmeme/index.py:227-238 | the admitted rows carry pairwise distinct ids and are exactly what the ledger gained |
| QmemeIndex.FirstAdmissionWins | scrappers/qmeme/index.py:228-238 | the first post with a new id is the one admitted |
| QmemeIndex.AdmitAllPrefix | scrappers/qmeme/index.py:227-238 | admitting a prefix of the posts admits a prefix of the rows, so a deploy midway publishes a prefix of the final table |
| QmemeIndex.SyncFrom | scrappers/qmeme/index.py:220-244 | the group loop takes up at most the listed groups, from the one it starts at |
| QmemeIndex.SyncFromStep | scrappers/qmeme/index.py:220-244 | a group reached within the time limit is taken up and the loop goes on from the next one |
| QmemeIndex.SyncFromStops | scrappers/qmeme/index.py:220-244 | the loop stops before the last group either on a clock reading past the limit, the last reading it took, or on the exception of the listing of the last group it took up, a group that had not been crawled |
| QmemeIndex.SyncFromGroups | scrappers/qmeme/index.py:220-244 | the loop records the titles of exactly the groups it took up whose listing ended without an exception |
| QmemeIndex.TakeGroupGrows | scrappers/qmeme/index.py:223-244 | a group taken up only appends rows and adds ids, and adds its title unless its listing raised, in which case that exception ends `sync`; each appended row belongs to it, its title was not crawled before and the id was not in the ledger |
| QmemeIndex.SyncFromRows | scrappers/qmeme/index.py:220-244 | the loop only appends; every appended row belongs to a group taken up that had not been crawled, and has an id the ledger did not hold |
| QmemeIndex.SyncFromFacts | scrappers/qmeme/index.py:220-244 | the loop from the first group takes up at most the listed groups, records exactly the titles of those whose listing ended normally, and only appends; every appended row belongs to a group taken up that had not been crawled and has an id the ledger did not hold; an exception is that of the listing of the last group taken up, which had not been crawled |
| QmemeIndex.CrawledFacts | scrappers/qmeme/index.py:220-244 | the same facts for a loop known to have ended in a given state, with its count of groups and its exception |
| QmemeIndex.SyncFromTaken | scrappers/qmeme/index.py:223-244 | after a group is taken up, the loop ends there with the group's exception if its listing raised, and otherwise goes on from the next group |
| QmemeIndex.TitlesMembers | scrappers/qmeme/index.py:242 | the titles recorded for a run of groups are exactly the titles some group of the run carries |
| QmemeIndex.StrLeOrder | scrappers/qmeme/index.py:172 | Python's string order is a total preorder, so `sorted` applies |
| QmemeIndex.MetaGroups | scrappers/qmeme/index.py:172 | `sorted(exist_groups)` lists every recorded group once, in ascending order |
| QmemeIndex.MetaGroupsStrict | scrappers/qmeme/index.py:172 | the group names in `meta.json` are strictly ascending, with no name twice |
| QmemeIndex.QmemeSync.constructor | scrappers/qmeme/index.py:127-154 | the state after loading: the loaded rows, their id set, the groups of `meta.json`, nothing pending, and the repository holding that state |
| QmemeIndex.QmemeSync.Deploy | scrappers/qmeme/index.py:156-210 | with the gate open, the table and groups are uploaded, the flag cleared, the time stamped and the total reset; otherwise nothing changes |
| QmemeIndex.QmemeSync.Admit | scrappers/qmeme/index.py:228-240 | a known id changes nothing; a new one is appended with its group, its id recorded, and a non-forced deploy follows |
| QmemeIndex.QmemeSync.SyncGroup | scrappers/qmeme/index.py:223-244 | a crawled group changes nothing; a new one appends the new-id posts its listing yielded and records their ids, and records the group unless the listing raised, whose exception it returns; the state moves on exactly as `TakeGroup` says; every new row carries this group |
| QmemeIndex.QmemeSync.SyncNewGroup | scrappers/qmeme/index.py:227-244 | a group not yet crawled adds the new-id rows of the posts its listing yielded, all carrying this group, and every upload during the post loop is the table after some post of the group; when the listing raised, the group is not recorded and no deploy follows; otherwise it is recorded, and the deploy after it either uploads the whole new state with the flag cleared and the time stamped, or finds the last upload too recent |
| QmemeIndex.QmemeSync.AdmitListed | scrappers/qmeme/index.py:227-244 | the rest of `sync_group` once the listing is known: its posts admitted in order, then, unless the listing raised, the group recorded and deployed, with the same uploads as `SyncNewGroup` states |
| QmemeIndex.QmemeSync.AdmitItems | scrappers/qmeme/index.py:227-240 | admitting the posts in order appends exactly the rows the ledger lets through, and the ledger gains their ids; every upload is the table after some post; when no post is new nothing else changes, otherwise the flag and time are those of the deploy after the last new post |
| QmemeIndex.QmemeSync.AdmitNext | scrappers/qmeme/index.py:228-240 | one turn of the post loop: a known post changes nothing, a new one is admitted and deployed, and the loop's account of rows, ids, uploads and flag moves on by one post |
| QmemeIndex.QmemeSync.AdmitNew | scrappers/qmeme/index.py:230-240 | a new post is appended with its group, its id recorded, and a non-forced deploy follows at the next two readings; each upload so far is the table after some post |
| QmemeIndex.QmemeSync.CloseGroup | scrappers/qmeme/index.py:242-244 | the group is recorded and marked as an update, the table untouched; the deploy either uploads the whole state with the flag cleared and the time stamped, or leaves the uploads alone because the last one is too recent |
| QmemeIndex.UploadedStep | scrappers/qmeme/index.py:228-240 | after one more post, the earlier uploads of the loop are still tables after some post, and a new upload of the table after this post is one too |
| QmemeIndex.QmemeSync.TakeUp | scrappers/qmeme/index.py:223-244 | once the clock check has passed, `sync_group` on the next group moves the loop of `SyncFrom` on to the following group, or ends it with the group's exception |
| QmemeIndex.QmemeSync.SyncGroups | scrappers/qmeme/index.py:220-244 | the group loop ends in exactly the state `SyncFrom` gives from the first group, with the number of groups taken up, the readings taken and the exception that ended it, if any |
| QmemeIndex.QmemeSync.CrawlGroups | scrappers/qmeme/index.py:220-244 | the group loop from the first group ends as `SyncFrom` says; the groups taken up whose listing ended normally are recorded, each new row belongs to one of the groups taken up that was not crawled before and has an id the table did not hold, and an exception is that of the listing of the last group taken up |
| QmemeIndex.QmemeSync.Sync | scrappers/qmeme/index.py:220-246 | an exception of the group list changes nothing and is returned; otherwise the table, ledger and groups end as `SyncFrom` says with the limit `start_time + max_time_limit`: the groups taken up whose listing ended normally are recorded, each new row belongs to one of the groups taken up that was not crawled before and has an id the table did not hold; an exception of a listing skips the forced deploy, and without one nothing is pending afterwards and the repository holds the final table and groups |
| QmemeIndex.PublishedTable | scrappers/qmeme/index.py:166-167 | every uploaded table is a permutation of the records with strictly decreasing ids, so no id repeats |
| MemesIndex.ToList | scrappers/memes/index.py:35-43 | a list, array or series cell becomes a plain list of the same elements; any other cell is returned unchanged |
| MemesIndex.TagData | scrappers/memes/index.py:181-189 | the `tag_list` of an entry is its tag names, in order, one per tag |
| MemesIndex.CountTagsSpec | scrappers/memes/index.py:182-188 | after counting an entry's tags, the known tags are the old ones plus the listed names, and each count rose by the number of times its name is listed (from 0 for a new tag) |
| MemesIndex.CountTagsKeepsRows | scrappers/memes/index.py:183-187 | a known tag keeps the columns it was first seen with, and every tag row stays under its own name |
| MemesIndex.AdmitItemsConcat | scrappers/memes/index.py:173-193 | admitting two runs of entries in turn equals admitting them together |
| MemesIndex.AdmitItemsGrow | scrappers/memes/index.py:190-191 | admitting entries only appends rows and only adds ids |
| MemesIndex.AdmitItemsConsistent | scrappers/memes/index.py:176-191 | the ledger stays the set of stored ids and every admitted row has an id no earlier row has |
| MemesIndex.AdmitItemsOrigin | scrappers/memes/index.py:176-191 | every appended row is made from one of the entries and has an id the store did not know |
| MemesIndex.AdmitItemsTags | scrappers/memes/index.py:176-191 | after a run every tag's count is its old count plus the number of times the appended rows list it, and the known tags are the old ones plus those listed |
| MemesIndex.TagOrder | scrappers/memes/index.py:107 | count descending, then name ascending, is a total preorder on tag rows |
| MemesIndex.TagRows | scrappers/memes/index.py:106 | `list(d_tags.values())` lists the row of every key, in some order of the keys |
| MemesIndex.TagsTable | scrappers/memes/index.py:106-107 | the tag table is a permutation of the tag rows, by count descending and then name ascending |
| MemesIndex.TagsTableRows | scrappers/memes/index.py:105-108 | the tag table lists exactly the rows of `d_tags`, one per tag, each under its own name |
| MemesIndex.TagsTableStrict | scrappers/memes/index.py:107 | the tag table is strictly ordered: by count descending, and among equal counts by distinct names ascending |
| MemesIndex.TagsTableDistinct | scrappers/memes/index.py:106-107 | no row appears twice in the tag table |
| MemesIndex.PublishedRecords | scrappers/memes/index.py:101-102 | every uploaded records table is a permutation of the records with strictly decreasing ids |
| MemesIndex.Scanned | scrappers/memes/index.py:172-174 | the scan of a page stops within it, and stops before the end only at an entry read past the limit |
| MemesIndex.ScannedIs | scrappers/memes/index.py:172-174 | the scan stops at `k` whenever the entries before `k` are read within the limit and `k` is the end of the page or read past it |
| MemesIndex.ScannedWithinLimit | scrappers/memes/index.py:172-174 | every entry the scan looks at is read within the limit |
| MemesIndex.Turn | scrappers/memes/index.py:167-206 | one pass of the loop takes at least one reading, and continues only after a time check within the limit |
| MemesIndex.TurnPage | scrappers/memes/index.py:171-206 | a pass within the limit ends the loop on an empty page with the offset unchanged; otherwise it moves the offset past the page, resets the miss count on a new row or adds one, and ends the loop at ten misses |
| MemesIndex.TurnEnds | scrappers/memes/index.py:167-206 | a pass stops the loop on the time limit only after a reading past it, on an empty page only when the page at the final offset is empty, on an exception only when the request at the final offset raised it and with the store unchanged, and for lack of news exactly at ten misses; the offset never moves back, and the store admits a prefix of the page |
| MemesIndex.CrawlFromTurn | scrappers/memes/index.py:167-206 | the loop is one pass followed, unless that pass stopped it, by the loop from the state the pass left |
| MemesIndex.CrawlFromEnds | scrappers/memes/index.py:167-206 | the loop always stops, and only for one of its four reasons: a reading past the limit, an empty page at the final offset, a request at the final offset that raised, or ten pages in a row without a new row |
| MemesIndex.CrawlFromAdmits | scrappers/memes/index.py:167-206 | the store the loop ends with is the start store with one run of entries admitted, so the admission lemmas (ledger, freshness, tag counts) apply to the whole crawl |
| MemesIndex.MemesSync.CrawlStep | scrappers/memes/index.py:167-206 | one pass of the loop body changes the store, `offset`, `empty_page_count` and the readings exactly as `Turn` says, and reports whether and why the loop ends |
| MemesIndex.MemesSync.PagePass | scrappers/memes/index.py:171-206 | a pass whose time check passed: the page at `offset` is fetched and scanned, then `offset` and `empty_page_count` move on, exactly as `Turn` says |
| MemesIndex.MemesSync.CrawlPass | scrappers/memes/index.py:167-206 | a pass that ends the loop leaves the state where `CrawlFrom` ends; a pass that does not leaves a state from which `CrawlFrom` reaches the same end, and an earlier reading than the deadline |
| MemesIndex.MemesSync.constructor | scrappers/memes/index.py:66-89 | the state after loading the records, their id set and `d_tags`: nothing pending, and the repository holding that state |
| MemesIndex.MemesSync.Deploy | scrappers/memes/index.py:91-156 | with the gate open, both tables are uploaded, the flag cleared, the time stamped and the total reset; otherwise nothing changes |
| MemesIndex.MemesSync.CountItemTags | scrappers/memes/index.py:181-189 | the tag loop counts the entry's tags into `d_tags` and returns their names in order, touching nothing else |
| MemesIndex.MemesSync.Admit | scrappers/memes/index.py:176-193 | a known id changes nothing; a new entry is stored with its tag names, its id recorded, its tags counted, and marks an update |
| MemesIndex.MemesSync.ScanPage | scrappers/memes/index.py:172-193 | the entries of a page are admitted in order up to the one `Scanned` stops at (the first clock reading past the limit), one reading each; `has_new_item` holds exactly when a row was added, and then an update is flagged |
| MemesIndex.MemesSync.ScanItem | scrappers/memes/index.py:176-193 | an entry read within the limit is admitted, and `has_new_item` then holds exactly when the page added a row, with an update flagged |
| MemesIndex.MemesSync.SyncPage | scrappers/memes/index.py:171-195 | the page fetched at `offset` is scanned as `Scanned` says, `has_new_item` holds exactly when a row was added, and a non-forced deploy follows two readings later: with the gate open the table and tags are uploaded, the flag cleared and the time stamped, otherwise the flag is the update seen and nothing is uploaded; no earlier upload is lost |
| MemesIndex.MemesSync.PageOutcome | scrappers/memes/index.py:197-206 | after a page, `offset`, `empty_page_count` and the stop reason are exactly those of one turn of `CrawlFrom`, and the loop ends exactly when a stop reason is set |
| MemesIndex.MemesSync.Crawl | scrappers/memes/index.py:165-206 | the loop ends in exactly the state `CrawlFrom` gives from offset 0, no miss and no reading: the store, `offset`, `empty_page_count`, the readings taken and why it stopped, an exception of a page request included |
| MemesIndex.MemesSync.Sync | scrappers/memes/index.py:165-208 | the store, `offset` and `empty_page_count` are those `CrawlFrom` gives, and it stopped for one of its four reasons; a page request that raised is reported and skips the forced deploy; otherwise nothing is pending afterwards and the repository holds the final table and tags |
| MemesPage.DigitRun | scrappers/memes/page.py:71 | the run of digits at the start of a string is all digits and is not followed by a digit |
| MemesPage.DigitRunOf | scrappers/memes/page.py:71 | a digit string followed by a non-digit starts with a run of exactly its length |
| MemesPage.BracketNumbersCitations | scrappers/memes/page.py:71 | reading `[n]` markers printed one after another gives back the numbers in their order |
| MemesPage.BracketNumbersNone | scrappers/memes/page.py:71 | text without a `[` carries no reference number |
| MemesPage.PrefixedNumber | scrappers/memes/page.py:86 | a missing attribute, or one without the number after the prefix, raises IndexError, and that is the only failure |
| MemesPage.PrefixedNumberRoundTrip | scrappers/memes/page.py:86 | an attribute `<prefix><n>` followed by a non-digit yields `n` |
| MemesPage.SourceUrl | scrappers/memes/page.py:104-105 | the source URL is absent exactly when `data-src` is missing or empty, and otherwise is `data-src` joined onto the page URL |
| MemesPage.RefsOfConcat | scrappers/memes/page.py:67-80 | the references of two runs of paragraphs are the references of each, in order |
| MemesPage.RefsSkipPlain | scrappers/memes/page.py:68-69 | a paragraph without `<sup>` adds nothing wherever it stands |
| MemesPage.RefsKeepMarked | scrappers/memes/page.py:71-80 | a paragraph with `<sup>` adds one reference carrying the numbers of its markers and its footnote |
| MemesPage.CollectRefs | scrappers/memes/page.py:66-80 | the loop collects one reference per marked paragraph, in page order |
| MemesPage.MediaListFromCells | scrappers/memes/page.py:93-131 | every video or image comes from a boxed cell, carries the number after the prefix in the cell's `id`, and has a source URL exactly when the cell has a non-empty `data-src` |
| MemesPage.MediaListFails | scrappers/memes/page.py:97 | a boxed cell whose `id` lacks the number makes the whole list fail with IndexError |
| MemesPage.MediaListNeverOther | scrappers/memes/page.py:93-131 | IndexError is the only way the list fails |
| MemesPage.CollectMedia | scrappers/memes/page.py:93-131 | the loop over video or image cells returns the list of boxed cells in order, or the first error |
| MemesPage.EntryListFromCells | scrappers/memes/page.py:82-91 | every related entry comes from a cell with a titled image and carries the number after `entry_` |
| MemesPage.CollectEntries | scrappers/memes/page.py:82-91 | the loop over related-entry cells returns the titled cells' entries in order, or the first error |
| MemesPage.EntryListFails | scrappers/memes/page.py:86 | a titled cell whose `class` lacks the number makes the whole list fail with IndexError |
| MemesPage.EntryListNeverOther | scrappers/memes/page.py:82-91 | IndexError is the only way the list fails |
| MemesPage.GetPageText | scrappers/memes/page.py:45-144 | the page extraction succeeds exactly when all three lists can be read, and then returns the page's body, infos, references, related entries, videos and images |
| MemesPage.BlockRecordsFromRows | scrappers/memes/page.py:203-225 | a block appends at most one row per index row; each comes from a block row whose page could be read, and carries that page's text |
| MemesPage.BlockRecordsEmpty | scrappers/memes/page.py:218-220 | a block whose page fetches all raise appends nothing |
| MemesPage.PageSync.constructor | scrappers/memes/page.py:172-184 | the loaded destination rows, with the total equal to their number |
| MemesPage.PageSync.SyncBlock | scrappers/memes/page.py:195-229 | for any order in which the block's tasks finish (a rearrangement of the block), the block appends, in that order, the row of every index row whose page was read; it uploads the whole table and resets the total exactly when it appended something |
| MemesPage.PageSync.Sync | scrappers/memes/page.py:194-274 | the pending rows are the index rows whose id is not stored; whatever order each block's tasks finish in, the run appends the rows of each block in that order and uploads after every block that appended a row |
| MemesPage.PageSync.SyncBlocks | scrappers/memes/page.py:195-274 | the block loop appends the rows of every block in its finishing order and uploads once per block that appended a row, resetting the total then |
| MemesPage.SyncRecordsFresh | scrappers/memes/page.py:194-216 | whatever order each block's tasks finish in, every row a run appends is an index row whose id was not in the destination and whose page could be read |
| MemesPage.SyncRecordsFromOrder | scrappers/memes/page.py:195-216 | every row a run appends, with tasks taken from the pending rows, is a pending row whose page could be read |
| MemesPage.SyncUploadsGrow | scrappers/memes/page.py:229-274 | there are at most as many uploads as blocks; each is the table at the end of a block, they only grow, and none holds a row the run did not append |
| PdbPtx.MbtiCodeInjective | scrappers/pdb/ptx.py:8-25 | two well-formed type names with the same four-letter code are the same name |
| PdbPtx.TypeNamesCodes | scrappers/pdb/ptx.py:8-25 | each name of the type table is a well-formed MBTI name |
| PdbPtx.TypeCodesInverse | scrappers/pdb/ptx.py:8-25 | the sixteen names cover the sixteen MBTI codes, each exactly once |
| PdbPtx.TypeIdMapKeys | scrappers/pdb/ptx.py:8-25 | the type ids are exactly 1 to 16, each naming a well-formed type |
| PdbPtx.TypeIdMapInjective | scrappers/pdb/ptx.py:8-25 | no two type ids share a name |
| PdbPtx.MbtiNameUpper | scrappers/pdb/ptx.py:8-25 | the letters of a type name are upper-case |
| PdbPtx.DestMapKeys | scrappers/pdb/ptx.py:27-34 | the destination table has six different keys |
| PdbPtx.DestMapInjective | scrappers/pdb/ptx.py:27-34 | no two destination keys map to the same list name |
| PdbPtx.Destination | scrappers/pdb/ptx.py:40 | the destination is the lower-cased type name, a dash and the mapped list name (or `dest` itself when unmapped); an unknown type id raises KeyError, and that is the only failure |
| PdbPtx.LowerUpperInjective | scrappers/pdb/ptx.py:40 | lower-casing is injective on upper-case names |
| PdbPtx.DestinationInjective | scrappers/pdb/ptx.py:40 | different (type id, destination key) pairs of the two tables query different destinations |
| PdbPtx.ScanResults | scrappers/pdb/ptx.py:59-64 | the loop over a page's results yields, in order, each item whose id was not seen, and adds their ids to the set |
| PdbPtx.IterPtx | scrappers/pdb/ptx.py:37-76 | the walk requests page after page, each with the previous page's next cursor, and yields exactly the unseen items of those pages; it stops after `max_no_new_page` pages in a row yielded nothing or the cursor is empty, and a raising request ends it; an unknown type id yields nothing |
| PdbPtx.ScanPageFacts | scrappers/pdb/ptx.py:60-64 | within a page the set only grows by the yielded ids; every yielded item is a result with an unseen id; every result is yielded or has a seen id |
| PdbPtx.AfterIdsConcat | scrappers/pdb/ptx.py:64 | the ids of two runs of yielded items are the ids of each |
| PdbPtx.AfterIdsMembers | scrappers/pdb/ptx.py:64 | the id of every yielded item is in the set |
| PdbPtx.ScanPagesSeen | scrappers/pdb/ptx.py:42-64 | the set the walk has built is exactly the set of ids of what it yielded, as the consumer left them |
| PdbPtx.YieldedDistinct | scrappers/pdb/ptx.py:61-64 | no item is yielded under an id an earlier yielded item left in the set |
| PdbPtx.ScanPageDistinct | scrappers/pdb/ptx.py:60-64 | within a page no item is yielded under an id an earlier one left in the set |
| PdbPtx.YieldedDistinctPlain | scrappers/pdb/ptx.py:61-64 | for a consumer that leaves ids alone, no id is yielded twice |
| PdbPtx.YieldedCovers | scrappers/pdb/ptx.py:58-64 | nothing is lost: every result of every page was yielded or had its id in the set, and every yielded item is a result of some page |
| PdbPtx.NoNewSpec | scrappers/pdb/ptx.py:66-70 | `no_new_count` counts the pages at the end that yielded nothing, and the page before them yielded something |
| PdbIndex.ToInt | scrappers/pdb/index.py:111 | `int(item['id'])` keeps an integer, reads a string of decimal digits with an optional sign, and raises ValueError for anything else |
| PdbIndex.ToIntAgrees | scrappers/pdb/index.py:111 | a string id and the integer it spells become the same id |
| PdbIndex.AdmitRecsGrow | scrappers/pdb/index.py:112-118 | admitting rows only appends; every appended row is an input row whose id was not in the set; afterwards the set holds the old ids and every input id |
| PdbIndex.AdmitRecsDistinct | scrappers/pdb/index.py:112-118 | the rows one run appends have pairwise different ids, all in the final set |
| PdbIndex.NormalizedDedup | scrappers/pdb/index.py:111-118 | an integer id and the same id written as a string admit one row, not two |
| PdbIndex.RecsOfTyped | scrappers/pdb/index.py:113-117 | every row of a listing carries its type id and that type's name, and the listed item's other columns |
| PdbIndex.PairsUpToIndex | scrappers/pdb/index.py:104-105 | pair `k` of the two nested loops is type id `k / 6 + 1` with destination `k % 6` |
| PdbIndex.PairQuery | scrappers/pdb/index.py:106-110 | the request of a pair carries its type id, limit 100, an empty cursor, and the destination `<lowered type name>-<destination name>` |
| PdbIndex.TargetedAt | scrappers/pdb/index.py:106-110 | every recorded pair started from the request of its type id and destination |
| PdbIndex.TargetedConcat | scrappers/pdb/index.py:104-110 | two records of pairs each started from their own requests join into one that does |
| PdbIndex.RunsAppend | scrappers/pdb/index.py:104-105 | the pairs of the earlier type ids, all run to their end, followed by those of the next type id are numbered as the nested loops number them; only the last may have raised, and none did if it did not |
| PdbIndex.RunsSnoc | scrappers/pdb/index.py:105 | one more destination walked after pairs that ran to their end keeps the destinations numbered in order; only it may have raised |
| PdbIndex.NumberedPairs | scrappers/pdb/index.py:104-105 | pairs numbered by the running count `(type id - 1) * 6 + slot` are pair `k` with type id `k / 6 + 1` and destination `k % 6` |
| PdbIndex.AdmitRecsConcat | scrappers/pdb/index.py:112-118 | admitting two runs of rows in turn equals admitting them together |
| PdbIndex.UploadedStep | scrappers/pdb/index.py:106-121 | after one more item, each upload of the loop is still the table after some prefix of the items, and so is a new one |
| PdbIndex.PairsCover | scrappers/pdb/index.py:104-105 | the 96 pairs of a whole run reach every type id with every destination key, and nothing else |
| PdbIndex.PairsDistinct | scrappers/pdb/index.py:104-105 | no (type id, destination) pair is walked twice |
| PdbIndex.PdbSync.constructor | scrappers/pdb/index.py:36-49 | the state after loading: the loaded rows and their id set, nothing pending, and the repository holding that state |
| PdbIndex.PdbSync.Deploy | scrappers/pdb/index.py:51-100 | with the gate open, the table is uploaded, the flag cleared, the time stamped and the total reset; otherwise nothing changes |
| PdbIndex.PdbSync.Ingest | scrappers/pdb/index.py:111-119 | an id that does not read raises and changes nothing; otherwise a profile with a new id is appended with its type and marks an update, and a known id changes nothing |
| PdbIndex.PdbSync.IngestItems | scrappers/pdb/index.py:106-121 | the items are ingested in order up to the first id that does not read, the table being the old one with their rows admitted; each is followed by a non-forced deploy, so every upload of the loop is the table after some prefix of the items, and with nothing pending the repository holds the table |
| PdbIndex.PdbSync.SyncPair | scrappers/pdb/index.py:106-121 | one (type, destination) pair walks the listing from the request with limit 100 and an empty cursor, at most 10 pages without news, and admits the rows of its items up to the first id that does not read; it fails exactly when an id does not read or the walk ended while it could have gone on, and in that second case the request for the next page (the first one included) failed |
| PdbIndex.PdbSync.SyncType | scrappers/pdb/index.py:105-121 | the destinations of one type id are walked in order, each pair recorded with its request, pages and items; every pair but the last ran to its end, all six did unless it failed; it fails exactly when the last pair raised, and a last pair that raised with every id read did so because a page request failed; the table is the old one with the rows of every pair admitted in order |
| PdbIndex.PdbSync.PairStep | scrappers/pdb/index.py:105-121 | one more destination of the type extends the record of pairs by the pair walked and the table by its rows; it fails exactly when that pair raised, and then, with every id read, because a page request failed |
| PdbIndex.PdbSync.TypeStep | scrappers/pdb/index.py:104-121 | one more type id extends the record of pairs by its destinations, numbered as the nested loops number them, and the table by their rows; only the last pair may have raised, and a raise with every id read comes from a failed page request |
| PdbIndex.PdbSync.SyncTypes | scrappers/pdb/index.py:104-121 | the nested loops walk the pairs in their order, all 96 unless one raised, and then the walk stops at the pair that raised, which did so at an id that does not read or at a failed page request; the table is the old one with the rows of every pair admitted in order |
| PdbIndex.PdbSync.Sync | scrappers/pdb/index.py:104-123 | pair `k` walked is type id `k / 6 + 1` with destination `k % 6`, from its own request; every pair but the last ran to its end, all 96 are walked unless one raised, and a raise with every id read comes from a failed page request; the table is the old one with the rows of every pair admitted in order; after the forced deploy nothing is pending and the repository holds the table; every new row has an id that was not stored and carries the type it was listed under |
| PdbIndex.NewRowsFresh | scrappers/pdb/index.py:112-118 | rows added after any earlier state have ids that state did not hold |
| PdbIndex.PublishedTable | scrappers/pdb/index.py:61-62 | every uploaded table publishes each profile once, in strictly descending id order |
| PdbDb.AdmitCommentsFrame | scrappers/pdb/db.py:103-107 | the comment loop touches only the comments: rows are only appended, each one a fetched comment, and afterwards every fetched comment's id is known |
| PdbDb.AdmitCommentsGood | scrappers/pdb/db.py:103-107 | the comment loop keeps the id set equal to the comment ids and every new comment fresh |
| PdbDb.RunItemEffect | scrappers/pdb/db.py:92-112 | a task either changes nothing, or appends exactly the fetched profile, whose id was unknown, followed by some of its fetched comments; comments never change without a new profile, and the tables stay consistent |
| PdbDb.RunBlockGood | scrappers/pdb/db.py:114-117 | a block keeps both tables consistent and only appends to them |
| PdbDb.SyncStoreGood | scrappers/pdb/db.py:83-117 | a whole run keeps both tables consistent: every profile and comment it appends has an id no earlier row has |
| PdbDb.CommentTable | scrappers/pdb/db.py:129-131 | the uploaded comments are a permutation of the comments, by profile id descending and then id descending |
| PdbDb.CountedAppend | scrappers/pdb/db.py:216-220 | an upload whose counts are the rows added since the previous upload keeps every commit message's counts right |
| PdbDb.LoggedAppend | scrappers/pdb/db.py:122-220 | an upload of the consistent tables, counting the rows added since the previous upload, keeps the log counted and every upload extending the loaded tables |
| PdbDb.AllExtendMembers | scrappers/pdb/db.py:122-220 | every upload of the log starts with the loaded tables and adds only fresh rows |
| PdbDb.ProfileSync.constructor | scrappers/pdb/db.py:46-72 | the loaded profiles and comments with their id sets and totals, and no upload yet |
| PdbDb.ProfileSync.AdmitCommentList | scrappers/pdb/db.py:103-107 | the comment loop admits exactly the comments whose ids are unknown, and leaves the profiles alone |
| PdbDb.ProfileSync.Run | scrappers/pdb/db.py:92-112 | `_run` has the effect of one task; `has_update` is set exactly when a profile was appended, and comments change only then |
| PdbDb.ProfileSync.RunTasks | scrappers/pdb/db.py:87-117 | for any order in which the block's tasks reach the lock (a rearrangement of the block), the tasks run in that order as `RunBlock` says; `has_update` holds exactly when a profile was appended, and comments change only then |
| PdbDb.ProfileSync.SyncBlock | scrappers/pdb/db.py:86-220 | for any order in which the block's tasks reach the lock, one block runs its tasks in that order; exactly when a profile was appended, both tables are uploaded with the counts of new rows and the totals reset; otherwise nothing is uploaded, and new comments cannot exist |
| PdbDb.ProfileSync.Publish | scrappers/pdb/db.py:122-220 | the upload records both tables with the counts of rows added since the totals, which are then reset, so every commit message counts right |
| PdbDb.ProfileSync.Sync | scrappers/pdb/db.py:82-220 | the pending rows are the index rows whose id is not stored; the run is the blocks of those rows in order, the tasks of each in the order they reach the lock; every upload counted its new rows and extends the loaded tables |
| PdbDb.ProfileSync.SyncBlocks | scrappers/pdb/db.py:84-220 | the block loop runs every block in turn, in its lock order, as `SyncStore` says, keeping the tables consistent and the uploads growing |
| PdbDb.RunBlockFromRows | scrappers/pdb/db.py:92-101 | a block only appends profiles, and each one it appends is the profile fetched for one of its rows |
| PdbDb.SyncStoreFromRows | scrappers/pdb/db.py:84-117 | whatever order each block's tasks reach the lock in, every profile a run appends is the one fetched for a pending row |
| PdbDb.PublishedTables | scrappers/pdb/db.py:124-131 | every uploaded table publishes each profile once in strictly descending id order, and each comment once, by profile then id |
| PdbDb.SyncAppendsFresh | scrappers/pdb/db.py:99-107 | a run appends only profiles and comments whose ids were not stored before it |
| YzkXl.CutQuery | scrappers/yzk/xl.py:120 | the URL up to its query is a prefix of it with no `?` or `#`, and a URL without either is unchanged |
| YzkXl.UrlFilename | scrappers/yzk/xl.py:120 | the file name taken from a URL's path holds no `/`, `?` or `#` |
| YzkXl.PostId | scrappers/yzk/xl.py:120 | the post id fails only with ValueError, and succeeds exactly when the stem of the URL's file name is an integer |
| YzkXl.FilenameOfPostUrl | scrappers/yzk/xl.py:120 | the file name of `dir/name` is `name` when `dir` has no query |
| YzkXl.SplitExtOfNumber | scrappers/yzk/xl.py:120 | `splitext` of a dot-free stem followed by an extension gives back the stem |
| YzkXl.NumberNameClean | scrappers/yzk/xl.py:120 | a printed number followed by an extension holds no URL separator |
| YzkXl.PostIdRoundTrip | scrappers/yzk/xl.py:120 | the post id of `…/<n><ext>` is `n`, for every integer `n` |
| YzkXl.RunEntriesErrSticky | scrappers/yzk/xl.py:119-130 | once a post raised, the rest of its list page is not read and the outcome stays that error |
| YzkXl.RunPagesErrSticky | scrappers/yzk/xl.py:118-119 | once a list page raised, the later list pages are not read |
| YzkXl.SkipWithoutFetch | scrappers/yzk/xl.py:121-123 | a post whose URL id is known is skipped with no state change, whatever its page would have returned: it is never fetched |
| YzkXl.StepEntryEffect | scrappers/yzk/xl.py:120-128 | a post step keeps the id set equal to the records' ids and only appends; it appends exactly the fetched page of a post with an unknown URL id; it raises exactly when the URL id does not parse or the page of an unknown post cannot be fetched |
| YzkXl.StepEntrySound | scrappers/yzk/xl.py:121-128 | when every page reports its own URL's id, a post step keeps the rows appended so far pairwise distinct and new |
| YzkXl.RunEntriesSound | scrappers/yzk/xl.py:119-130 | the posts of a list page keep the ledger and freshness invariant and only append |
| YzkXl.RunPagesSound | scrappers/yzk/xl.py:118-130 | a crawl of list pages keeps the ledger, only appends, and under self-reporting pages appends only fresh ids |
| YzkXl.RedirectDuplicates | scrappers/yzk/xl.py:121-128 | because the skip test uses the URL id but the set gets the page's id, a page that reports a stored id is appended again and the table then has a repeated id |
| YzkXl.Table | scrappers/yzk/xl.py:68-69 | the uploaded `pages.parquet` is a permutation of the records in descending id order |
| YzkXl.XlSync.constructor | scrappers/yzk/xl.py:39-56 | the loaded table (or none) is the record list, the id set is its ids, nothing is pending and the total is its length |
| YzkXl.XlSync.Deploy | scrappers/yzk/xl.py:58-108 | `_deploy` uploads exactly when an update is pending and (`force`, no earlier upload, or the span has elapsed); then the table of all records is published, the flag cleared, the time stamped and the total reset; otherwise nothing changes |
| YzkXl.XlSync.Admit | scrappers/yzk/xl.py:120-130 | one listed post changes the stored state exactly as `StepEntry` says, raises exactly when it does, and never shrinks the records or the upload log |
| YzkXl.XlSync.Append | scrappers/yzk/xl.py:127-130 | an admitted post is appended and the page's id added to the set, the flag raised and a non-forced deploy tried |
| YzkXl.XlSync.AdmitEntries | scrappers/yzk/xl.py:119-130 | the posts of a list page are admitted in order, as `RunEntries` says, until one raises |
| YzkXl.XlSync.Crawl | scrappers/yzk/xl.py:118-130 | list pages 1 to 13 are crawled in order, as `RunPages` says, until one raises |
| YzkXl.XlSync.Sync | scrappers/yzk/xl.py:118-132 | after the crawl and the forced deploy nothing is pending and the last upload holds all records; a raise is reported exactly when the crawl raises |
| YzkXl.SyncFresh | scrappers/yzk/xl.py:118-132 | a successful run extends the loaded table and, when every page reports its own URL's id, appends only ids that are pairwise distinct and new |
| YzkDx.VideoPathInjective | scrappers/yzk/dx.py:166-168 | distinct item ids get distinct `videos/<id><ext>` paths, whatever the downloaded files were called |
| YzkDx.MakeRow | scrappers/yzk/dx.py:172-178 | a row keeps the item's id and the downloaded file's original name and size |
| YzkDx.Pending | scrappers/yzk/dx.py:63-64 | the items to process are a permutation of the index rows whose id is not stored, in ascending id order |
| YzkDx.RunItemsErrSticky | scrappers/yzk/dx.py:140-182 | once an item raised, the later items are not visited |
| YzkDx.StepItemEffect | scrappers/yzk/dx.py:143-180 | a failed download leaves the state unchanged; an item raises exactly when its download did not leave one file or `get_video_metadata` raised; otherwise the row of the probed file is appended and the ledger kept |
| YzkDx.RunItemsSound | scrappers/yzk/dx.py:140-180 | a run over strictly ascending ids not yet stored keeps the ledger, only appends, and appends ids that are pairwise distinct and new |
| YzkDx.PendingFresh | scrappers/yzk/dx.py:63-180 | when the index has no repeated id, a successful run over the pending items extends the table with rows whose ids are new to it and to each other |
| YzkDx.Table | scrappers/yzk/dx.py:91-93 | the uploaded `pages.parquet` is a permutation of the rows in descending id order |
| YzkDx.DxSync.constructor | scrappers/yzk/dx.py:47-79 | the loaded full table (or none) is the row list, its ids the set, nothing is staged or pending and the total is its length |
| YzkDx.DxSync.Publish | scrappers/yzk/dx.py:89-138 | past the gate: the table and the staged videos are uploaded and published, the staging emptied, the flag cleared, the time stamped and the total reset, and the uploads still cover the rows' videos in order (corrected `_deploy`, see ## Findings) |
| YzkDx.DxSync.Deploy | scrappers/yzk/dx.py:81-138 | `_deploy` uploads exactly when an update is pending and the gate opens; then the table and the staged videos are published, the upload directory emptied, the flag cleared, the time stamped and the total reset; otherwise nothing changes (corrected `_deploy`, see ## Findings) |
| YzkDx.DxSync.StoreRow | scrappers/yzk/dx.py:166-180 | a probed video's row is appended, its id added and its video staged for the next upload |
| YzkDx.DxSync.Admit | scrappers/yzk/dx.py:179-182 | a stored row followed by a non-forced deploy; without a raised flag nothing is uploaded, with it the repository stays current whenever it was |
| YzkDx.DxSync.ProcessItem | scrappers/yzk/dx.py:143-182 | one item changes the state exactly as `StepItem` says and raises exactly when it does; as written (no flag raised) nothing is ever uploaded |
| YzkDx.DxSync.ProcessAll | scrappers/yzk/dx.py:140-182 | the items are processed in order, as `RunItems` says, until one raises |
| YzkDx.DxSync.SyncAsWritten | scrappers/yzk/dx.py:63-184 | the run as written: the pending items are the unstored index rows in ascending order, a missing `yt-dlp` raises before any item, and nothing is ever uploaded |
| YzkDx.DxSync.Sync | scrappers/yzk/dx.py:63-184 | with the flag raised after each stored row: the same run, and after the forced deploy the repository holds the final table and every staged video is uploaded |
| YzkDx.StoredButNotUploaded | scrappers/yzk/dx.py:179-184 | one pending item with one probed file is stored, so the table changes, yet the as-written run publishes nothing |

## Left out

- Hugging Face hub I/O is not modelled: repository checks, downloads, parquet files and `upload_directory_as_directory`. An upload is an entry appended to a ghost log.
- The `.gitattributes` set-up of a new repository and `delete_detached_cache` have no effect on the tables, so they are left out.
- The generated dataset cards are not modelled: README.md text, `number_to_tag`, `plural_word`, `to_markdown` and `meta.json` formatting. The model keeps only the counts they report.
- HTML and JSON parsing is not modelled: pyquery, markdownify `to_md` and regular expressions over whole pages. A page's extraction is an input value; only the id and number extractions are modelled. For `ImgflipPage.FindGenerator` this leaves out the loop over the page's `<script>` elements (imgflip/page.py:99-100), the two `assert matching` on the regular expressions (102, 106) and the conversion of a `memes=` dict to its list of values (108-109): the model takes one script's entry list as given.
- HTTP sessions, proxies, cookies and request headers are left out. Fetchers are function parameters.
- The `pyrate_limiter` upload limiter only delays uploads, so it is left out.
- Thread pools, `parallel_call` and locks: the tasks of a block finish in any order, given as the parameter `commits[b]`, a permutation of the block. Each task's update of the shared tables is one atomic step; the interleaving of the fetches before it is not modelled, because the fetches touch no shared state. The model assumes that `parallel_call` (in `utils/`, not part of this model) drops a task that raises and goes on with the others, as `ThreadPoolExecutor.submit` does in `pdb/db.py` and `memes/page.py`, whose futures are never read: `ImgflipIndex.IndexSync.Fn` treats a failed generator fetch as no change, and `ImgflipDb.ArchiveSync.SyncBlock` skips a row whose download failed. It also assumes that every entry `iter_all_templates` yields before it raises goes through `_fn` (`ImgflipIndex.IndexSync.Sync`).
- The wall clock: `time.time()` is `clock(tick)` or a `now` parameter. A float time and `deploy_span` are modelled as integers.
- The random shuffle in `imgflip/db.py` is any permutation, passed as `order`.
- Tar archives, image and video files are not modelled: `tar_create_index_for_directory`, `yt-dlp`, `check_video_integrity` and `get_video_metadata`. A download is an input function. The probe returns the metadata or the error that `get_video_metadata` raised (such as `json.loads` on an empty `ffprobe` output, utils/video.py:30-31). `check_video_integrity` never raises: it returns `False` on a failure (utils/video.py:66-93), and yzk/dx.py:161 discards that verdict. So a video that fails the check does not stop its item: it is still probed, moved, stored and staged.
- Python's dynamic values are reduced to what the code compares. Record columns the code does not inspect are a `map<string, string>`. Ids are `int`; `pdb/index.py` keeps its `str`/`int` distinction through `ToInt`.
- URL handling is reduced to what the id parses read. `urljoin`, netlocs and percent-decoding are left out.
- `yzk/dx.py`'s `_deploy` writes its card into, and uploads, `td` (lines 95 and 130): the temporary directory of the last item, which the `with` at line 143 has already removed, so once `has_update` were set line 95 would raise FileNotFoundError. The corrected `YzkDx.DxSync.Sync` writes and uploads `upload_dir` (the table and the staged videos). File-system paths are not modelled.
- PdbPtx.IterPtx: termination assumes the cursor chain is finite (`Ranked`: each next cursor ranks lower). The source loops for as long as the site returns new cursors. The same assumption is carried by `PdbIndex.PdbSync.SyncPair`, `SyncType` and `Sync`.
- The clock: every `_deploy` is given two readings (the gate test and the stamp), and every time check one, whether or not the source calls `time.time()` there. A reading position can thus go unused; any run of times the source reads is still matched by some `clock`, but `tick` counts positions, not calls.
- MemesIndex.MemesSync.Crawl: termination assumes the clock eventually passes the time limit (a ghost `deadline`). `MemesIndex.MemesSync.Sync` carries the same requirement.
- YzkXl.SyncFresh: freshness of the appended ids is proved only when every page reports its own URL's id (`SelfNamed`). Without that, `YzkXl.RedirectDuplicates` shows the table can get a repeated id.
- Text.Lower: only ASCII letters are lowered; Python's `str.lower` also lowers non-ASCII letters. File extensions and type names with non-ASCII letters would differ.
- PdbIndex.ToInt: `ParseInt` reads an optional sign and ASCII digits only; Python's `int()` also accepts surrounding whitespace, underscores between digits and non-ASCII digits.
- YzkXl.PostId: the same `ParseInt` restriction: whitespace, underscores and non-ASCII digits that Python's `int()` accepts are rejected.
- QmemeIndex.PostId: the same `ParseInt` restriction: whitespace, underscores and non-ASCII digits that Python's `int()` accepts are rejected.
- MemesPage.PrefixedNumber: `DigitRun`, `BracketNumbers` and `PrefixedNumber` read ASCII digits only; Python's `\d` in `re.findall` and `re.search` also matches other Unicode decimal digits, so an id or reference number written in such digits would be read by the source and not by the model.
- Sorting.SortBy: pandas' `sort_values` uses quicksort, which is not stable; the model's insertion sort fixes one order among rows with equal keys. Only permutation and order by the key are promised.
- YzkDx.PendingFresh: freshness assumes the index table has no repeated id. The source filters the index against the stored ids only once, before the loop.
- PageSearch.FindMaxPage: the search, and with it `ImgflipPage.IterAllTemplates`, `QmemeIndex.FindMaxPageCount`, `QmemeIndex.ListAllFromPage` and `QmemeIndex.QmemeSync.Sync` (through `WellListed`), requires some page `bound` from which every page is empty; without one the doubling loops of `imgflip/page.py:49-51` and `qmeme/index.py:80-82` never end. The last-page property is promised only when the listing is non-empty up to a point and empty after it; on another listing the search returns some page whose successor is empty. A page is a function of its number (and, on quickmeme, its request parameters): a page the search reads and the walk reads again is taken to have the same content both times.
- PdbDb.ProfileSync.Publish: `pd.DataFrame([]).sort_values(by=[...])` raises KeyError on a table without rows, before anything is uploaded; the model uploads. An empty `comments` table is reached by a first run whose new profiles carry no comments (`pdb/db.py:129-131`).
- PdbDb.ProfileSync.SyncBlock: the same KeyError: a block that appends a profile but no comment, with no comment stored before, raises in the source where the model uploads.
- MemesIndex.MemesSync.Deploy: the same KeyError on an empty `d_tags` (`memes/index.py:106-107`): a first run whose admitted items carry no tags raises in the source where the model uploads; `MemesIndex.MemesSync.Sync` inherits it.
- ImgflipDb.ArchiveSync.SyncBlock: the same KeyError on an empty `records` (`imgflip/db.py:138-139`): a first run whose first block downloads nothing raises in the source where the model uploads. An empty source table raises the same way at `imgflip/db.py:76`.
- QmemeIndex.QmemeSync.Deploy: the same KeyError on an empty `records` (`qmeme/index.py:166-167`): a fresh run whose first group lists no post still sets `has_update` (line 243) with the gate open, and raises in the source where the model uploads.
- QmemeIndex.QmemeSync.CloseGroup: the same KeyError, through the deploy after the group, for the first group of a fresh run that lists no post.
- Files of the repository outside the modelled core are not part of this model: `yzk/page.py`, `pdb/mx.py`, `pdb/profile.py` and `utils/`.

## Findings

| source | as written | input that shows it | evidently intended | confidence | as-written member | corrected member |
|---|---|---|---|---|---|---|
| scrappers/yzk/dx.py:84-85 | the item loop stores rows (179-180) but never sets `has_update`, so every `_deploy`, including the final forced one, returns at the first test and nothing is uploaded; were it set, line 95 would raise FileNotFoundError, because `td` was removed when the `with` at line 143 closed | a full table without item 7, and an index with item 7 whose download leaves one file that probes: row 7 is stored but never published | set `has_update = True` after each stored row, as `yzk/xl.py:129` does, and write the card into and upload `upload_dir` instead of `td`, so that the final forced deploy publishes every row and every staged video | not executed | YzkDx.DxSync.SyncAsWritten | YzkDx.DxSync.Sync |
