/**
 * The personality-database profile sync (`scrappers/pdb/db.py`): the index rows whose id is
 * not stored yet are cut into blocks; for every row the profile and its comments are
 * fetched, a profile with an unknown id is appended together with its unknown comments, and
 * a block that appended something uploads both tables.
 */
module PdbDb {
  import opened Wrappers
  import opened Text
  import opened Ledger
  import opened Sorting
  import opened Blocks

  /** The columns the model does not inspect. */
  type Fields = map<string, string>

  /** A row of the index table. */
  datatype SrcRow = SrcRow(id: int, rest: Fields)

  function RowId(r: SrcRow): int { r.id }

  /** A fetched profile (`vitem`): the id the site reports, and its other fields. */
  datatype Profile = Profile(id: int, rest: Fields)

  function ProfileId(p: Profile): int { p.id }

  /** A fetched comment, with the id of the profile it belongs to. */
  datatype Comment = Comment(id: int, profileId: int, rest: Fields)

  function CommentId(c: Comment): int { c.id }

  /** `get_profile` and `get_comments` on an index id: the value, or the error they raised. */
  type GetProfile = int -> Result<Profile>
  type GetComments = int -> Result<seq<Comment>>

  /** The two tables and their id sets. */
  datatype Store = Store(records: seq<Profile>, ids: set<int>, comments: seq<Comment>, commentIds: set<int>)

  /**
   * The id sets are those of the tables, and the rows from positions `nr` and `nc` on
   * were admitted with ids no earlier row has.
   */
  ghost predicate Good(s: Store, nr: nat, nc: nat)
  {
    && nr <= |s.records| && nc <= |s.comments|
    && s.ids == KeySet(s.records, ProfileId)
    && s.commentIds == KeySet(s.comments, CommentId)
    && FreshFrom(s.records, ProfileId, nr)
    && FreshFrom(s.comments, CommentId, nc)
  }

  /** The inner loop over a new profile's comments: each one with an unknown id is appended and remembered. */
  function AdmitComments(s: Store, cs: seq<Comment>): Store
  {
    if cs == [] then s
    else
      var t := AdmitComments(s, cs[..|cs| - 1]);
      var c := cs[|cs| - 1];
      if c.id in t.commentIds then t else t.(comments := t.comments + [c], commentIds := t.commentIds + {c.id})
  }

  /**
   * `_run(ritem)`: the profile, then the comments, are fetched by the row's id (an error
   * ends the task and nothing is stored); a profile whose own id is unknown is appended,
   * and its comments are admitted.
   */
  function RunItem(s: Store, row: SrcRow, getProfile: GetProfile, getComments: GetComments): Store
  {
    if getProfile(row.id).Err? || getComments(row.id).Err? then s
    else
      var v := getProfile(row.id).value;
      if v.id in s.ids then s
      else AdmitComments(s.(records := s.records + [v], ids := s.ids + {v.id}), getComments(row.id).value)
  }

  /** The tasks of a block, their locked parts run one after another in the given order. */
  function RunBlock(s: Store, block: seq<SrcRow>, getProfile: GetProfile, getComments: GetComments): Store
  {
    if block == [] then s
    else RunItem(RunBlock(s, block[..|block| - 1], getProfile, getComments), block[|block| - 1], getProfile, getComments)
  }

  /** The state after blocks `0 .. k - 1` of the pending rows, the tasks of block `b` finishing in the order `commits[b]`. */
  function SyncStore(s: Store, commits: seq<seq<SrcRow>>, getProfile: GetProfile, getComments: GetComments, k: nat): Store
    requires k <= |commits|
  {
    if k == 0 then s
    else RunBlock(SyncStore(s, commits, getProfile, getComments, k - 1), commits[k - 1], getProfile, getComments)
  }

  /** One step of each of the loops above. */
  lemma AdmitCommentsStep(s: Store, cs: seq<Comment>, k: nat)
    requires k < |cs|
    ensures AdmitComments(s, cs[..k + 1])
      == (var t := AdmitComments(s, cs[..k]);
          if cs[k].id in t.commentIds then t else t.(comments := t.comments + [cs[k]], commentIds := t.commentIds + {cs[k].id}))
  {
    assert cs[..k + 1][..k] == cs[..k];
  }

  lemma RunBlockStep(s: Store, block: seq<SrcRow>, getProfile: GetProfile, getComments: GetComments, i: nat)
    requires i < |block|
    ensures RunBlock(s, block[..i + 1], getProfile, getComments)
      == RunItem(RunBlock(s, block[..i], getProfile, getComments), block[i], getProfile, getComments)
  {
    assert block[..i + 1][..i] == block[..i];
  }

  /**
   * Admitting comments touches only the comments: rows are only appended, each one from
   * the fetched list, and afterwards every fetched comment's id is known.
   */
  lemma {:induction false} AdmitCommentsFrame(s: Store, cs: seq<Comment>)
    ensures AdmitComments(s, cs).records == s.records && AdmitComments(s, cs).ids == s.ids
    ensures s.comments <= AdmitComments(s, cs).comments
    ensures forall i :: |s.comments| <= i < |AdmitComments(s, cs).comments| ==> AdmitComments(s, cs).comments[i] in cs
    ensures forall c :: c in cs ==> c.id in AdmitComments(s, cs).commentIds
  {
    if cs != [] {
      var init := cs[..|cs| - 1];
      AdmitCommentsFrame(s, init);
      assert forall x :: x in init ==> x in cs;
    }
  }

  /** Admitting comments keeps the tables consistent. */
  lemma {:induction false} AdmitCommentsGood(s: Store, cs: seq<Comment>, nr: nat, nc: nat)
    requires Good(s, nr, nc)
    ensures Good(AdmitComments(s, cs), nr, nc)
  {
    if cs != [] {
      var init, c := cs[..|cs| - 1], cs[|cs| - 1];
      AdmitCommentsGood(s, init, nr, nc);
      AdmitCommentsFrame(s, init);
      var t := AdmitComments(s, init);
      if c.id !in t.commentIds {
        FreshAppend(t.comments, c, CommentId, nc);
        KeySetAppend(t.comments, c, CommentId);
      }
    }
  }

  /**
   * One task either changes nothing or appends exactly the fetched profile, whose id was
   * unknown, followed by some of its fetched comments; comments never change without a
   * new profile, and the tables stay consistent.
   */
  lemma RunItemEffect(s: Store, row: SrcRow, getProfile: GetProfile, getComments: GetComments, nr: nat, nc: nat)
    requires Good(s, nr, nc)
    ensures Good(RunItem(s, row, getProfile, getComments), nr, nc)
    ensures s.records <= RunItem(s, row, getProfile, getComments).records
    ensures s.comments <= RunItem(s, row, getProfile, getComments).comments
    ensures RunItem(s, row, getProfile, getComments).records == s.records
        ==> RunItem(s, row, getProfile, getComments) == s
    ensures RunItem(s, row, getProfile, getComments).records != s.records ==>
      && getProfile(row.id).Ok? && getComments(row.id).Ok?
      && getProfile(row.id).value.id !in s.ids
      && RunItem(s, row, getProfile, getComments).records == s.records + [getProfile(row.id).value]
      && (forall i :: |s.comments| <= i < |RunItem(s, row, getProfile, getComments).comments| ==>
            RunItem(s, row, getProfile, getComments).comments[i] in getComments(row.id).value)
  {
    if getProfile(row.id).Ok? && getComments(row.id).Ok? {
      var v := getProfile(row.id).value;
      if v.id !in s.ids {
        FreshAppend(s.records, v, ProfileId, nr);
        KeySetAppend(s.records, v, ProfileId);
        var t := s.(records := s.records + [v], ids := s.ids + {v.id});
        AdmitCommentsGood(t, getComments(row.id).value, nr, nc);
        AdmitCommentsFrame(t, getComments(row.id).value);
      }
    }
  }

  /** A block keeps the tables consistent and only appends to them. */
  lemma {:induction false} RunBlockGood(s: Store, block: seq<SrcRow>, getProfile: GetProfile, getComments: GetComments, nr: nat, nc: nat)
    requires Good(s, nr, nc)
    ensures Good(RunBlock(s, block, getProfile, getComments), nr, nc)
    ensures s.records <= RunBlock(s, block, getProfile, getComments).records
    ensures s.comments <= RunBlock(s, block, getProfile, getComments).comments
  {
    if block != [] {
      var t := RunBlock(s, block[..|block| - 1], getProfile, getComments);
      RunBlockGood(s, block[..|block| - 1], getProfile, getComments, nr, nc);
      RunItemEffect(t, block[|block| - 1], getProfile, getComments, nr, nc);
    }
  }

  /**
   * A whole run keeps the tables consistent: every profile and comment it appends has an
   * id no earlier row has, so a duplicate-free loaded table stays duplicate-free.
   */
  lemma {:induction false} SyncStoreGood(s: Store, commits: seq<seq<SrcRow>>, getProfile: GetProfile, getComments: GetComments, k: nat)
    requires Good(s, |s.records|, |s.comments|) && k <= |commits|
    ensures Good(SyncStore(s, commits, getProfile, getComments, k), |s.records|, |s.comments|)
    ensures s.records <= SyncStore(s, commits, getProfile, getComments, k).records
    ensures s.comments <= SyncStore(s, commits, getProfile, getComments, k).comments
  {
    if k > 0 {
      var t := SyncStore(s, commits, getProfile, getComments, k - 1);
      SyncStoreGood(s, commits, getProfile, getComments, k - 1);
      RunBlockGood(t, commits[k - 1], getProfile, getComments, |s.records|, |s.comments|);
    }
  }

  /** An upload: both tables, and the counts of new rows its commit message reports. */
  datatype Upload = Upload(records: seq<Profile>, comments: seq<Comment>, newRecords: int, newComments: int)

  /** The uploaded `table.parquet`: the profiles sorted by id descending. */
  function Table(u: Upload): seq<Profile>
  {
    SortByKeyDesc(u.records, ProfileId)
  }

  /** "`a` may come before `b`" in `sort_values(by=['profile_id', 'id'], ascending=[False, False])`. */
  function CommentLe(): (Comment, Comment) -> bool
  {
    (a: Comment, b: Comment) => a.profileId > b.profileId || (a.profileId == b.profileId && a.id >= b.id)
  }

  /** The uploaded `comments.parquet`: by profile id descending, then by id descending. */
  function CommentTable(u: Upload): (r: seq<Comment>)
    ensures multiset(r) == multiset(u.comments)
    ensures forall i, j :: 0 <= i < j < |r| ==>
      r[i].profileId > r[j].profileId || (r[i].profileId == r[j].profileId && r[i].id >= r[j].id)
  {
    var le := CommentLe();
    assert TotalPreorder(le);
    var r := SortBy(u.comments, le);
    assert forall i, j :: 0 <= i < j < |r| ==> le(r[i], r[j]);
    r
  }

  /**
   * Every upload counts, as new, the rows added since the previous upload (or since the
   * loading, for the first).
   */
  ghost predicate Counted(published: seq<Upload>, loadedRecords: seq<Profile>, loadedComments: seq<Comment>)
  {
    && (published != [] ==>
          published[0].newRecords == |published[0].records| - |loadedRecords|
          && published[0].newComments == |published[0].comments| - |loadedComments|)
    && (forall i :: 0 < i < |published| ==>
          published[i].newRecords == |published[i].records| - |published[i - 1].records|
          && published[i].newComments == |published[i].comments| - |published[i - 1].comments|)
  }

  /** An upload counting the rows added since the last one keeps the log counted. */
  lemma CountedAppend(published: seq<Upload>, loadedRecords: seq<Profile>, loadedComments: seq<Comment>, u: Upload)
    requires Counted(published, loadedRecords, loadedComments)
    requires published == [] ==>
      u.newRecords == |u.records| - |loadedRecords| && u.newComments == |u.comments| - |loadedComments|
    requires published != [] ==>
      u.newRecords == |u.records| - |published[|published| - 1].records|
      && u.newComments == |u.comments| - |published[|published| - 1].comments|
    ensures Counted(published + [u], loadedRecords, loadedComments)
  {
    var p := published + [u];
    forall i | 0 < i < |p|
      ensures p[i].newRecords == |p[i].records| - |p[i - 1].records|
      ensures p[i].newComments == |p[i].comments| - |p[i - 1].comments|
    {
      if i < |published| {
        assert p[i] == published[i] && p[i - 1] == published[i - 1];
      }
    }
  }

  /** An upload's tables start with the loaded ones, and every row after them was admitted fresh. */
  ghost predicate Extends(u: Upload, loadedRecords: seq<Profile>, loadedComments: seq<Comment>)
  {
    && loadedRecords <= u.records && loadedComments <= u.comments
    && FreshFrom(u.records, ProfileId, |loadedRecords|) && FreshFrom(u.comments, CommentId, |loadedComments|)
  }

  /** Every upload of the log extends the loaded tables. */
  ghost predicate AllExtend(published: seq<Upload>, loadedRecords: seq<Profile>, loadedComments: seq<Comment>)
  {
    published != [] ==>
      && AllExtend(published[..|published| - 1], loadedRecords, loadedComments)
      && Extends(published[|published| - 1], loadedRecords, loadedComments)
  }

  /**
   * An upload of a consistent store that extends the loaded tables, counting the rows added
   * since the previous upload, keeps the log counted and every upload extending them.
   */
  lemma LoggedAppend(published: seq<Upload>, loadedRecords: seq<Profile>, loadedComments: seq<Comment>, s: Store, u: Upload)
    requires Counted(published, loadedRecords, loadedComments) && AllExtend(published, loadedRecords, loadedComments)
    requires loadedRecords <= s.records && loadedComments <= s.comments
    requires Good(s, |loadedRecords|, |loadedComments|)
    requires u.records == s.records && u.comments == s.comments
    requires published == [] ==>
      u.newRecords == |u.records| - |loadedRecords| && u.newComments == |u.comments| - |loadedComments|
    requires published != [] ==>
      u.newRecords == |u.records| - |published[|published| - 1].records|
      && u.newComments == |u.comments| - |published[|published| - 1].comments|
    ensures Counted(published + [u], loadedRecords, loadedComments)
    ensures AllExtend(published + [u], loadedRecords, loadedComments)
  {
    CountedAppend(published, loadedRecords, loadedComments, u);
    assert (published + [u])[..|published|] == published;
  }

  lemma {:induction false} AllExtendMembers(published: seq<Upload>, loadedRecords: seq<Profile>, loadedComments: seq<Comment>)
    requires AllExtend(published, loadedRecords, loadedComments)
    ensures forall u :: u in published ==> Extends(u, loadedRecords, loadedComments)
  {
    if published != [] {
      AllExtendMembers(published[..|published| - 1], loadedRecords, loadedComments);
      assert forall u :: u in published ==> u in published[..|published| - 1] || u == published[|published| - 1];
    }
  }

  class ProfileSync {
    var records: seq<Profile>
    var existIds: set<int>
    var comments: seq<Comment>
    var existCommentIds: set<int>
    /** `_total_count` and `_total_comments_count`. */
    var totalCount: nat
    var totalCommentsCount: nat
    /** The tables loaded at start. */
    ghost const loadedRecords: seq<Profile>
    ghost const loadedComments: seq<Comment>
    /** Every upload of this run, oldest first. */
    ghost var published: seq<Upload>

    function Snapshot(): Store
      reads this`records, this`existIds, this`comments, this`existCommentIds
    {
      Store(records, existIds, comments, existCommentIds)
    }

    /** The tables extend the loaded ones and are consistent. */
    ghost predicate Stored()
      reads this`records, this`existIds, this`comments, this`existCommentIds
    {
      && loadedRecords <= records && loadedComments <= comments
      && Good(Snapshot(), |loadedRecords|, |loadedComments|)
    }

    /** The row counts of the last upload, or of the loaded tables before any. */
    ghost function LastCounts(): (nat, nat)
      reads this`published
    {
      if published == [] then (|loadedRecords|, |loadedComments|)
      else (|published[|published| - 1].records|, |published[|published| - 1].comments|)
    }

    /** The totals are those of the last upload, and every upload counted its new rows. */
    ghost predicate Logged()
      reads this`published, this`totalCount, this`totalCommentsCount
    {
      && (totalCount, totalCommentsCount) == LastCounts()
      && Counted(published, loadedRecords, loadedComments)
      && AllExtend(published, loadedRecords, loadedComments)
    }

    ghost predicate Valid()
      reads this
    {
      Stored() && Logged()
    }

    /** The state after loading `table.parquet` and `comments.parquet` (each empty when absent). */
    constructor (loadedRecords: seq<Profile>, loadedComments: seq<Comment>)
      ensures Valid()
      ensures records == loadedRecords && comments == loadedComments && published == []
      ensures this.loadedRecords == loadedRecords && this.loadedComments == loadedComments
    {
      records := loadedRecords;
      existIds := KeySet(loadedRecords, ProfileId);
      comments := loadedComments;
      existCommentIds := KeySet(loadedComments, CommentId);
      totalCount := |loadedRecords|;
      totalCommentsCount := |loadedComments|;
      this.loadedRecords := loadedRecords;
      this.loadedComments := loadedComments;
      published := [];
    }

    /** The comment loop of `_run`, inside the lock. */
    method AdmitCommentList(cs: seq<Comment>)
      modifies this`records, this`existIds, this`comments, this`existCommentIds
      ensures Snapshot() == AdmitComments(old(Snapshot()), cs)
      ensures records == old(records) && existIds == old(existIds)
    {
      ghost var s0 := Snapshot();
      var k := 0;
      while k < |cs|
        invariant k <= |cs|
        invariant Snapshot() == AdmitComments(s0, cs[..k])
        invariant records == old(records) && existIds == old(existIds)
      {
        AdmitCommentsStep(s0, cs, k);
        var c := cs[k];
        if c.id !in existCommentIds {
          comments := comments + [c];
          existCommentIds := existCommentIds + {c.id};
        }
        k := k + 1;
      }
      assert cs[..k] == cs;
    }

    /** `_run(ritem)`; `admitted` says the profile was new (`has_update` is then set). */
    method Run(row: SrcRow, getProfile: GetProfile, getComments: GetComments) returns (admitted: bool)
      requires Stored()
      modifies this`records, this`existIds, this`comments, this`existCommentIds
      ensures Stored()
      ensures Snapshot() == RunItem(old(Snapshot()), row, getProfile, getComments)
      ensures old(records) <= records && old(comments) <= comments
      ensures admitted <==> |records| > |old(records)|
      ensures !admitted ==> comments == old(comments)
    {
      ghost var s0 := Snapshot();
      RunItemEffect(s0, row, getProfile, getComments, |loadedRecords|, |loadedComments|);
      admitted := false;
      var vitem := getProfile(row.id);
      if vitem.Err? {
        return;
      }
      var commentItems := getComments(row.id);
      if commentItems.Err? {
        return;
      }
      if vitem.value.id in existIds {
        return;
      }
      records := records + [vitem.value];
      existIds := existIds + {vitem.value.id};
      admitted := true;
      AdmitCommentList(commentItems.value);
    }

    /**
     * The tasks of one block on the pool: the part of each one under the lock is an atomic
     * step, and these steps run in the order `commit` in which the tasks reach the lock;
     * `hasUpdate` says some profile was admitted.
     */
    method RunTasks(block: seq<SrcRow>, commit: seq<SrcRow>, getProfile: GetProfile, getComments: GetComments)
      returns (hasUpdate: bool)
      requires Stored()
      requires Rearranged(commit, block)
      modifies this`records, this`existIds, this`comments, this`existCommentIds
      ensures Stored()
      ensures Snapshot() == RunBlock(old(Snapshot()), commit, getProfile, getComments)
      ensures hasUpdate <==> |records| > |old(records)|
      ensures !hasUpdate ==> comments == old(comments)
    {
      ghost var s0 := Snapshot();
      hasUpdate := false;
      var i := 0;
      while i < |commit|
        invariant i <= |commit|
        invariant Stored()
        invariant Snapshot() == RunBlock(s0, commit[..i], getProfile, getComments)
        invariant s0.records <= records && (hasUpdate <==> |records| > |s0.records|)
        invariant !hasUpdate ==> comments == s0.comments
      {
        RunBlockStep(s0, commit, getProfile, getComments, i);
        var admitted := Run(commit[i], getProfile, getComments);
        hasUpdate := hasUpdate || admitted;
        i := i + 1;
      }
      assert commit[..i] == commit;
    }

    /**
     * One block: its tasks run; when some profile was admitted both tables are uploaded
     * with the counts of new rows, and the totals reset.
     */
    method SyncBlock(block: seq<SrcRow>, commit: seq<SrcRow>, getProfile: GetProfile, getComments: GetComments)
      returns (hasUpdate: bool)
      requires Valid()
      requires Rearranged(commit, block)
      modifies this`records, this`existIds, this`comments, this`existCommentIds, this`published, this`totalCount, this`totalCommentsCount
      ensures Valid()
      ensures Snapshot() == RunBlock(old(Snapshot()), commit, getProfile, getComments)
      ensures hasUpdate <==> |records| > |old(records)|
      ensures published == old(published) + (if hasUpdate then [LastUpload(old(totalCount), old(totalCommentsCount))] else [])
      ensures !hasUpdate ==> comments == old(comments)
    {
      hasUpdate := RunTasks(block, commit, getProfile, getComments);
      assert Logged();
      if hasUpdate {
        Publish();
        assert Stored();
      }
    }

    /** The upload of both tables, counting the rows beyond the given totals. */
    function LastUpload(total: nat, totalComments: nat): Upload
      reads this`records, this`comments
    {
      Upload(records, comments, |records| - total, |comments| - totalComments)
    }

    /** The upload of both tables with the counts of new rows, then the reset of the totals. */
    method Publish()
      requires Valid()
      modifies this`published, this`totalCount, this`totalCommentsCount
      ensures Logged()
      ensures published == old(published) + [LastUpload(old(totalCount), old(totalCommentsCount))]
      ensures totalCount == |records| && totalCommentsCount == |comments|
    {
      var u := LastUpload(totalCount, totalCommentsCount);
      LoggedAppend(published, loadedRecords, loadedComments, Snapshot(), u);
      published, totalCount, totalCommentsCount := published + [u], |records|, |comments|;
    }

    /**
     * `sync` after the loading: the index rows whose id is not stored yet, in their order,
     * cut into `ceil(n / batch_size)` blocks processed one after another, the tasks of block
     * `b` reaching the lock in the order `commits[b]`.
     */
    method Sync(src: seq<SrcRow>, batchSize: nat, commits: seq<seq<SrcRow>>, getProfile: GetProfile, getComments: GetComments)
      returns (pending: seq<SrcRow>)
      requires Valid()
      requires CommitOrders(FilterNew(src, RowId, existIds), batchSize, commits)
      modifies this
      ensures Valid()
      ensures pending == FilterNew(src, RowId, old(existIds))
      ensures Snapshot() == SyncStore(old(Snapshot()), commits, getProfile, getComments, NumBlocks(|pending|, batchSize))
      ensures old(published) <= published
    {
      pending := FilterNew(src, RowId, existIds);
      SyncBlocks(pending, batchSize, commits, getProfile, getComments);
    }

    /** The loop of `sync` over the blocks of the pending rows. */
    method SyncBlocks(pending: seq<SrcRow>, batchSize: nat, commits: seq<seq<SrcRow>>, getProfile: GetProfile, getComments: GetComments)
      requires Valid()
      requires CommitOrders(pending, batchSize, commits)
      modifies this
      ensures Valid()
      ensures Snapshot() == SyncStore(old(Snapshot()), commits, getProfile, getComments, NumBlocks(|pending|, batchSize))
      ensures old(published) <= published
    {
      var n := NumBlocks(|pending|, batchSize);
      ghost var s0 := Snapshot();
      var b := 0;
      while b < n
        invariant b <= n
        invariant Valid()
        invariant Snapshot() == SyncStore(s0, commits, getProfile, getComments, b)
        invariant old(published) <= published
      {
        var _ := SyncBlock(Block(pending, b, batchSize), commits[b], getProfile, getComments);
        b := b + 1;
      }
    }
  }

  /**
   * Every upload of a run whose loaded tables had no duplicate id publishes each profile
   * once in strictly descending id order, and each comment once, by profile then id.
   */
  lemma PublishedTables(u: Upload, loadedRecords: seq<Profile>, loadedComments: seq<Comment>)
    requires DistinctKeys(loadedRecords, ProfileId) && DistinctKeys(loadedComments, CommentId)
    requires Extends(u, loadedRecords, loadedComments)
    ensures multiset(Table(u)) == multiset(u.records)
    ensures forall i, j :: 0 <= i < j < |Table(u)| ==> Table(u)[i].id > Table(u)[j].id
    ensures multiset(CommentTable(u)) == multiset(u.comments)
    ensures DistinctKeys(CommentTable(u), CommentId)
  {
    SortedTableStrict(u.records, ProfileId, |loadedRecords|);
    DistinctFromFresh(u.comments, CommentId, |loadedComments|);
    PermutationKeepsDistinct(u.comments, CommentTable(u), CommentId);
  }

  /**
   * A run appends only profiles whose id was not stored before it, and only comments whose
   * id was not stored before it.
   */
  lemma SyncAppendsFresh(s: Store, commits: seq<seq<SrcRow>>, getProfile: GetProfile, getComments: GetComments, k: nat)
    requires Good(s, |s.records|, |s.comments|) && k <= |commits|
    ensures forall i :: |s.records| <= i < |SyncStore(s, commits, getProfile, getComments, k).records| ==>
      SyncStore(s, commits, getProfile, getComments, k).records[i].id !in s.ids
    ensures forall i :: |s.comments| <= i < |SyncStore(s, commits, getProfile, getComments, k).comments| ==>
      SyncStore(s, commits, getProfile, getComments, k).comments[i].id !in s.commentIds
  {
    var r := SyncStore(s, commits, getProfile, getComments, k);
    SyncStoreGood(s, commits, getProfile, getComments, k);
    FreshNotInPrefix(r.records, ProfileId, |s.records|, |s.records|);
    FreshNotInPrefix(r.comments, CommentId, |s.comments|, |s.comments|);
    assert r.records[..|s.records|] == s.records;
    assert r.comments[..|s.comments|] == s.comments;
  }

  /** `p` is the profile fetched for one of `rows`. */
  ghost predicate FetchedFor(rows: seq<SrcRow>, getProfile: GetProfile, p: Profile)
  {
    exists row :: row in rows && getProfile(row.id) == Ok(p)
  }

  /** Every profile a block appends is the one fetched for a row of the block. */
  lemma {:induction false} RunBlockFromRows(s: Store, block: seq<SrcRow>, getProfile: GetProfile, getComments: GetComments)
    ensures s.records <= RunBlock(s, block, getProfile, getComments).records
    ensures forall i :: |s.records| <= i < |RunBlock(s, block, getProfile, getComments).records| ==>
      FetchedFor(block, getProfile, RunBlock(s, block, getProfile, getComments).records[i])
  {
    if block != [] {
      var init, row := block[..|block| - 1], block[|block| - 1];
      var t := RunBlock(s, init, getProfile, getComments);
      var r := RunBlock(s, block, getProfile, getComments);
      RunBlockFromRows(s, init, getProfile, getComments);
      if getProfile(row.id).Ok? && getComments(row.id).Ok? && getProfile(row.id).value.id !in t.ids {
        var v := getProfile(row.id).value;
        AdmitCommentsFrame(t.(records := t.records + [v], ids := t.ids + {v.id}), getComments(row.id).value);
      }
      forall i | |s.records| <= i < |r.records|
        ensures FetchedFor(block, getProfile, r.records[i])
      {
        if i < |t.records| {
          assert r.records[i] == t.records[i];
          var x :| x in init && getProfile(x.id) == Ok(t.records[i]);
          assert x in block;
        } else {
          assert getProfile(row.id) == Ok(r.records[i]);
        }
      }
    }
  }

  /**
   * Every profile a run appends is the one fetched for a pending row, whichever order the
   * tasks of each block finished in.
   */
  lemma {:induction false} SyncStoreFromRows(s: Store, order: seq<SrcRow>, commits: seq<seq<SrcRow>>,
                                             getProfile: GetProfile, getComments: GetComments, k: nat)
    requires DrawnFrom(order, commits) && k <= |commits|
    ensures s.records <= SyncStore(s, commits, getProfile, getComments, k).records
    ensures forall i :: |s.records| <= i < |SyncStore(s, commits, getProfile, getComments, k).records| ==>
      FetchedFor(order, getProfile, SyncStore(s, commits, getProfile, getComments, k).records[i])
  {
    if k > 0 {
      var t := SyncStore(s, commits, getProfile, getComments, k - 1);
      var r := SyncStore(s, commits, getProfile, getComments, k);
      SyncStoreFromRows(s, order, commits, getProfile, getComments, k - 1);
      RunBlockFromRows(t, commits[k - 1], getProfile, getComments);
      forall i | |s.records| <= i < |r.records|
        ensures FetchedFor(order, getProfile, r.records[i])
      {
        if i < |t.records| {
          assert r.records[i] == t.records[i];
        } else {
          var row :| row in commits[k - 1] && getProfile(row.id) == Ok(r.records[i]);
          assert row in order;
        }
      }
    }
  }
}
