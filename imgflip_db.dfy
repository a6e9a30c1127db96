/**
 * The imgflip image archive (`scrappers/imgflip/db.py`): index rows not yet archived are
 * shuffled and cut into blocks; every block gets the next volume number and its own tar
 * file, each image that downloads is added to it with one record, and every block ends with
 * an upload of the table and of the volume counter.
 */
module ImgflipDb {
  import opened Wrappers
  import opened Text
  import opened Ledger
  import opened Sorting
  import opened Blocks

  /** A row of the source index table; `urlFilename` is the last path component of `image_url`. */
  datatype SrcRow = SrcRow(id: int, imageUrl: string, urlFilename: string)

  /** What a successful download and `load_image` give. */
  datatype Image = Image(mimetype: Option<string>, fileSize: nat, mode: string, width: int, height: int)

  /**
   * One row of the archive table. The `filename`, `ext` and `volume_file` columns are
   * determined by the source row and the volume number, so they are the member functions
   * below rather than stored fields.
   */
  datatype Rec = Rec(
    item: SrcRow,
    mimetype: Option<string>,
    fileSize: nat,
    volume: nat,
    mode: string,
    width: int,
    height: int)
  {
    function Filename(): string { FileName(item) }
    function Ext(): string { FileExt(item) }
    function VolumeFile(): string { VolumePath(volume) }
  }

  function RowId(r: SrcRow): int { r.id }

  function RecId(r: Rec): int { r.item.id }

  // ---------------------------------------------------------------- names and paths

  /** `os.path.splitext(filename.lower())[1]`. */
  function FileExt(row: SrcRow): (ext: string)
    ensures ext == [] || (ext[0] == '.' && '.' !in ext[1..])
  {
    SplitExt(Lower(row.urlFilename)).1
  }

  /** `f'{item["id"]}{ext}'`: the member name inside the volume. */
  function FileName(row: SrcRow): string
  {
    IntToString(row.id) + FileExt(row)
  }

  /** In `s + e == t + f` with no dot in `t` and `e` empty or starting with a dot, `t` is no longer than `s`. */
  lemma DotBound(s: string, e: string, t: string, f: string)
    requires s + e == t + f
    requires '.' !in t
    requires e == [] || e[0] == '.'
    ensures |t| <= |s|
  {
    if e != [] {
      assert (t + f)[|s|] == '.';
    }
  }

  /** `s + e` where `s` has no dot and `e` is empty or starts with one: `s` ends at the first dot. */
  lemma SplitAtDot(s: string, e: string, t: string, f: string)
    requires s + e == t + f
    requires '.' !in s && '.' !in t
    requires e == [] || e[0] == '.'
    requires f == [] || f[0] == '.'
    ensures s == t
  {
    DotBound(s, e, t, f);
    DotBound(t, f, s, e);
    assert s == (s + e)[..|s|];
    assert t == (t + f)[..|t|];
  }

  lemma IntToStringNoDot(i: int)
    ensures '.' !in IntToString(i)
  {
    var s := IntToString(i);
    if i < 0 {
      var d := NatToString(-i);
      assert s == "-" + d;
      assert forall k :: 0 <= k < |d| ==> IsDigit(d[k]);
      assert forall k :: 1 <= k < |s| ==> s[k] == d[k - 1];
    } else {
      assert forall k :: 0 <= k < |s| ==> IsDigit(s[k]);
    }
  }

  /** Rows with different ids get different member names, whatever their extensions. */
  lemma FileNameInjective(a: SrcRow, b: SrcRow)
    requires FileName(a) == FileName(b)
    ensures a.id == b.id
  {
    IntToStringNoDot(a.id);
    IntToStringNoDot(b.id);
    SplitAtDot(IntToString(a.id), FileExt(a), IntToString(b.id), FileExt(b));
    IntToStringInjective(a.id, b.id);
  }

  /** `f'{n:03d}'` for `0 <= n < 1000`. */
  function Pad3(n: nat): (r: string)
    requires n < 1000
    ensures |r| == 3 && AllDigits(r)
  {
    [DigitChar(n / 100), DigitChar(n / 10 % 10), DigitChar(n % 10)]
  }

  lemma Pad3Value(n: nat)
    requires n < 1000
    ensures DigitsValue(Pad3(n)) == n
  {
    var r := Pad3(n);
    assert r[..|r| - 1] == r[..2];
    assert r[..2][..1] == r[..1];
    assert r[..1][..0] == [];
    assert DigitsValue(r[..1]) == n / 100;
    assert DigitsValue(r[..2]) == n / 100 * 10 + n / 10 % 10;
    assert n / 10 == n / 100 * 10 + n / 10 % 10;
    assert n == n / 10 * 10 + n % 10;
  }

  /** `images/{v // 1000}/{v % 1000:03d}.tar`, the volume's path inside the repository. */
  function VolumePath(v: nat): string
  {
    "images/" + NatToString(v / 1000) + "/" + Pad3(v % 1000) + ".tar"
  }

  /** Different volume numbers never share a tar file. */
  lemma VolumePathInjective(a: nat, b: nat)
    requires VolumePath(a) == VolumePath(b)
    ensures a == b
  {
    var p := VolumePath(a);
    var qa, qb := NatToString(a / 1000), NatToString(b / 1000);
    var ra, rb := Pad3(a % 1000), Pad3(b % 1000);
    assert p == "images/" + qa + "/" + ra + ".tar";
    assert |qa| == |qb|;
    assert qa == p[7..7 + |qa|];
    assert qb == VolumePath(b)[7..7 + |qb|];
    assert ra == p[8 + |qa|..11 + |qa|];
    assert rb == VolumePath(b)[8 + |qb|..11 + |qb|];
    Pad3Value(a % 1000);
    Pad3Value(b % 1000);
  }

  // ---------------------------------------------------------------- one block

  /** The record the locked section of `_fn` appends for a row downloaded into volume `volume`. */
  function MakeRec(row: SrcRow, img: Image, volume: nat): Rec
  {
    Rec(row, img.mimetype, img.fileSize, volume, img.mode, img.width, img.height)
  }

  /**
   * The records block `block` appends as volume `volume`, in the order its rows commit:
   * one per row whose download and image load succeed.
   */
  function BlockRecords(block: seq<SrcRow>, download: SrcRow -> Option<Image>, volume: nat): seq<Rec>
  {
    if block == [] then []
    else
      var rest := BlockRecords(block[..|block| - 1], download, volume);
      var row := block[|block| - 1];
      if download(row).Some? then rest + [MakeRec(row, download(row).value, volume)] else rest
  }

  /**
   * Every record of a block comes from one of its downloaded rows, lies in the block's tar
   * and is named after its row's id; no row yields two records.
   */
  lemma {:induction false} BlockRecordsFromRows(block: seq<SrcRow>, download: SrcRow -> Option<Image>, volume: nat)
    ensures |BlockRecords(block, download, volume)| <= |block|
    ensures forall r :: r in BlockRecords(block, download, volume) ==>
      (r.item in block && download(r.item).Some? && r.volume == volume
       && r.VolumeFile() == VolumePath(volume) && r.Filename() == FileName(r.item))
  {
    if block != [] {
      var init := block[..|block| - 1];
      BlockRecordsFromRows(init, download, volume);
      assert forall x :: x in init ==> x in block;
    }
  }

  /** One entry of the upload log: the record list, the `meta.json` counter and the tar's fate. */
  datatype Upload = Upload(records: seq<Rec>, maxVolumeId: nat, newImages: nat, indexed: bool)

  /** The `table.parquet` of an upload. */
  function Table(u: Upload): seq<Rec>
  {
    SortByKeyDesc(u.records, RecId)
  }

  /** The uploaded table holds exactly the records, sorted by id descending. */
  lemma TableSorted(u: Upload)
    ensures multiset(Table(u)) == multiset(u.records)
    ensures forall i, j :: 0 <= i < j < |Table(u)| ==> RecId(Table(u)[i]) >= RecId(Table(u)[j])
  {
  }

  class ArchiveSync {
    var records: seq<Rec>
    /** `exist_ids`. */
    var existIds: set<int>
    /** `max_volume_id`. */
    var maxVolumeId: nat
    ghost var uploads: seq<Upload>

    /** The state after loading `table.parquet` and `meta.json` (either may be absent). */
    constructor (loaded: seq<Rec>, meta: Option<nat>)
      ensures records == loaded
      ensures forall i :: 0 <= i < |loaded| ==> loaded[i].item.id in existIds
      ensures forall k :: k in existIds ==> exists i :: 0 <= i < |loaded| && loaded[i].item.id == k
      ensures meta.None? ==> maxVolumeId == 0
      ensures meta.Some? ==> maxVolumeId == meta.value
      ensures uploads == []
    {
      KeySetMembers(loaded, RecId);
      records := loaded;
      existIds := KeySet(loaded, RecId);
      maxVolumeId := if meta.Some? then meta.value else 0;
      uploads := [];
    }

    /**
     * One block of `sync`: the next volume number, every row whose download succeeds
     * appended under that volume (one locked step each), the tar indexed when it received
     * an image and removed otherwise, then an upload.
     */
    method SyncBlock(block: seq<SrcRow>, download: SrcRow -> Option<Image>)
      returns (newImageCount: nat, indexed: bool)
      modifies this
      ensures maxVolumeId == old(maxVolumeId) + 1
      ensures records == old(records) + BlockRecords(block, download, maxVolumeId)
      ensures newImageCount == |BlockRecords(block, download, maxVolumeId)|
      ensures existIds == old(existIds) + KeySet(BlockRecords(block, download, maxVolumeId), RecId)
      ensures indexed <==> newImageCount > 0
      ensures uploads == old(uploads) + [Upload(records, maxVolumeId, newImageCount, indexed)]
    {
      maxVolumeId := maxVolumeId + 1;
      ghost var r0, e0 := records, existIds;
      ghost var added: seq<Rec> := [];
      newImageCount := 0;
      var i := 0;
      while i < |block|
        invariant 0 <= i <= |block|
        invariant added == BlockRecords(block[..i], download, maxVolumeId)
        invariant records == r0 + added
        invariant existIds == e0 + KeySet(added, RecId)
        invariant newImageCount == |added|
        invariant maxVolumeId == old(maxVolumeId) + 1 && uploads == old(uploads)
      {
        var item := block[i];
        assert block[..i + 1][..i] == block[..i];
        var img := download(item);
        if img.Some? {
          var rec := MakeRec(item, img.value, maxVolumeId);
          KeySetAppend(added, rec, RecId);
          assert r0 + (added + [rec]) == (r0 + added) + [rec];
          Commit(rec);
          newImageCount := newImageCount + 1;
          added := added + [rec];
        }
        i := i + 1;
      }
      assert block[..i] == block;
      indexed := newImageCount > 0;
      uploads := uploads + [Upload(records, maxVolumeId, newImageCount, indexed)];
    }

    /** The locked section of `_fn`: append the record and remember its id. */
    method Commit(rec: Rec)
      modifies this
      ensures records == old(records) + [rec]
      ensures existIds == old(existIds) + {RecId(rec)}
      ensures maxVolumeId == old(maxVolumeId) && uploads == old(uploads)
    {
      records := records + [rec];
      existIds := existIds + {rec.item.id};
    }

    /**
     * `sync`: the source rows whose id is not archived yet, in the shuffled order `order`,
     * cut into `ceil(n / batch_size)` blocks that are processed one after another; block
     * `b` becomes volume `max_volume_id + b + 1` and is followed by its own upload.
     */
    method Sync(order: seq<SrcRow>, batchSize: nat, download: SrcRow -> Option<Image>)
      requires batchSize > 0
      modifies this
      ensures maxVolumeId == old(maxVolumeId) + NumBlocks(|order|, batchSize)
      ensures records == old(records) + SyncRecords(order, batchSize, download, old(maxVolumeId), NumBlocks(|order|, batchSize))
      ensures existIds == old(existIds) + KeySet(SyncRecords(order, batchSize, download, old(maxVolumeId), NumBlocks(|order|, batchSize)), RecId)
      ensures uploads == old(uploads) + SyncUploads(old(records), order, batchSize, download, old(maxVolumeId), NumBlocks(|order|, batchSize))
    {
      ghost var v0, r0, e0, l0 := maxVolumeId, records, existIds, uploads;
      var n := NumBlocks(|order|, batchSize);
      var b := 0;
      while b < n
        invariant 0 <= b <= n
        invariant maxVolumeId == v0 + b
        invariant records == r0 + SyncRecords(order, batchSize, download, v0, b)
        invariant existIds == e0 + KeySet(SyncRecords(order, batchSize, download, v0, b), RecId)
        invariant uploads == l0 + SyncUploads(r0, order, batchSize, download, v0, b)
      {
        var block := Block(order, b, batchSize);
        ghost var prev := SyncRecords(order, batchSize, download, v0, b);
        ghost var added := BlockRecords(block, download, v0 + b + 1);
        var _, _ := SyncBlock(block, download);
        SyncRecordsStep(order, batchSize, download, v0, b);
        AppendAssoc(r0, prev, added);
        KeySetConcat(prev, added, RecId);
        UnionAssoc(e0, KeySet(prev, RecId), KeySet(added, RecId));
        SyncUploadsStep(r0, order, batchSize, download, v0, b);
        AppendAssoc(l0, SyncUploads(r0, order, batchSize, download, v0, b), [Upload(records, v0 + b + 1, |added|, |added| > 0)]);
        b := b + 1;
      }
    }
  }

  /** The shuffled pending rows are source rows whose id is not archived. */
  lemma PendingRows(src: seq<SrcRow>, order: seq<SrcRow>, exist: set<int>)
    requires multiset(order) == multiset(FilterNew(src, RowId, exist))
    ensures forall x :: x in order ==> x in src && x.id !in exist
  {
    forall x | x in order
      ensures x in src && x.id !in exist
    {
      assert multiset(order)[x] > 0;
      assert multiset(src)[x] > 0;
    }
  }

  /**
   * When `order` is a shuffle of the source rows not yet archived, every record the first
   * `k` blocks of a run append comes from the source and has an id the archive did not hold.
   */
  lemma SyncAppendsOnlyNew(src: seq<SrcRow>, order: seq<SrcRow>, size: nat, download: SrcRow -> Option<Image>, v0: nat, k: nat, exist: set<int>)
    requires multiset(order) == multiset(FilterNew(src, RowId, exist))
    ensures forall r :: r in SyncRecords(order, size, download, v0, k) ==>
      (r.item in src && RecId(r) !in exist)
  {
    PendingRows(src, order, exist);
    SyncRecordsFresh(order, size, download, v0, k, exist);
  }

  /**
   * The records of a run come from the pending rows, have ids outside the ledger they were
   * filtered against, and lie in the run's new volumes `v0 + 1 .. v0 + k`.
   */
  lemma {:induction false} SyncRecordsFresh(order: seq<SrcRow>, size: nat, download: SrcRow -> Option<Image>, v0: nat, k: nat, exist: set<int>)
    requires forall x :: x in order ==> x.id !in exist
    ensures forall r :: r in SyncRecords(order, size, download, v0, k) ==>
      (r.item in order && RecId(r) !in exist && v0 < r.volume <= v0 + k)
  {
    if k > 0 {
      SyncRecordsFresh(order, size, download, v0, k - 1, exist);
      var block := Block(order, k - 1, size);
      BlockRecordsFromRows(block, download, v0 + k);
      assert forall x :: x in block ==> x in order;
    }
  }

  /**
   * The upload log of a run has one entry per block; entry `i` carries the counter
   * `v0 + i + 1`, the table with every record of blocks `0 .. i`, and an indexed tar exactly
   * when that block archived an image.
   */
  lemma {:induction false} SyncUploadsShape(r0: seq<Rec>, order: seq<SrcRow>, size: nat, download: SrcRow -> Option<Image>, v0: nat, k: nat)
    ensures |SyncUploads(r0, order, size, download, v0, k)| == k
    ensures forall i :: 0 <= i < k ==>
      var u := SyncUploads(r0, order, size, download, v0, k)[i];
      u.maxVolumeId == v0 + i + 1 && u.records == r0 + SyncRecords(order, size, download, v0, i + 1)
      && (u.indexed <==> u.newImages > 0)
  {
    if k > 0 {
      SyncUploadsShape(r0, order, size, download, v0, k - 1);
    }
  }

  /** The records of blocks `0 .. k - 1`, block `i` being archived as volume `v0 + i + 1`. */
  function SyncRecords(order: seq<SrcRow>, size: nat, download: SrcRow -> Option<Image>, v0: nat, k: nat): seq<Rec>
  {
    if k == 0 then [] else SyncRecords(order, size, download, v0, k - 1) + BlockRecords(Block(order, k - 1, size), download, v0 + k)
  }

  /**
   * The uploads of blocks `0 .. k - 1` of a run that started from the table `r0`: block `i`
   * uploads the whole table so far, the counter `v0 + i + 1`, its image count, and whether
   * its tar was indexed.
   */
  function SyncUploads(r0: seq<Rec>, order: seq<SrcRow>, size: nat, download: SrcRow -> Option<Image>, v0: nat, k: nat): seq<Upload>
  {
    if k == 0 then []
    else
      var added := BlockRecords(Block(order, k - 1, size), download, v0 + k);
      SyncUploads(r0, order, size, download, v0, k - 1)
        + [Upload(r0 + SyncRecords(order, size, download, v0, k), v0 + k, |added|, |added| > 0)]
  }

  lemma SyncRecordsStep(order: seq<SrcRow>, size: nat, download: SrcRow -> Option<Image>, v0: nat, k: nat)
    ensures SyncRecords(order, size, download, v0, k + 1)
      == SyncRecords(order, size, download, v0, k) + BlockRecords(Block(order, k, size), download, v0 + k + 1)
  {
  }

  lemma SyncUploadsStep(r0: seq<Rec>, order: seq<SrcRow>, size: nat, download: SrcRow -> Option<Image>, v0: nat, k: nat)
    ensures SyncUploads(r0, order, size, download, v0, k + 1)
      == SyncUploads(r0, order, size, download, v0, k)
        + [Upload(r0 + SyncRecords(order, size, download, v0, k + 1), v0 + k + 1,
                  |BlockRecords(Block(order, k, size), download, v0 + k + 1)|,
                  |BlockRecords(Block(order, k, size), download, v0 + k + 1)| > 0)]
  {
  }
}
