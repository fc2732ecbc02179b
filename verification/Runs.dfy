/** The operations of the service on one store, and what every run of them keeps. */
module Runs {
  import opened Snapshots
  import opened SaveTheory
  import opened TableRows
  import Stores
  import opened Totals
  import SavePipeline
  import opened Clones
  import opened Collector

  // ---- Uploading and deleting single files

  /** findDatasetVersion with allowEditing false: the version is listed and not committed. */
  predicate Editable(versions: map<Version, VersionRow>, v: Version) {
    v in versions && !versions[v].deleted && versions[v].editing
  }

  /** uploadDatasetFile: an old file of that path is deleted before the new one is saved. */
  ghost function Uploaded(a: Snapshot, v: Version, f: HashedFile): Snapshot {
    if !Editable(a.versions, v) then a
    else SavedWithRow(if FileKey(v, f.path) in a.files then Purged(a, ExactPath(v, f.path)) else a, v, [f])
  }

  method UploadDatasetFile(store: Stores.Store, v: Version, f: HashedFile) returns (ok: bool)
    requires Ok(store.T()) && Clean(Abs(store.T()))
    modifies store
    ensures ok <==> Editable(old(store.versions), v)
    ensures Ok(store.T()) && Abs(store.T()) == Uploaded(old(Abs(store.T())), v, f)
  {
    if !Editable(store.versions, v) {
      return false;
    }
    if FileKey(v, f.path) in store.files {
      PurgeKeeps(Abs(store.T()), ExactPath(v, f.path));
      var _ := store.DeleteFiles(ExactPath(v, f.path), false);
    }
    SavePipeline.SaveFSToDB(store, v, [f]);
    return true;
  }

  /** Because the old file goes first, an uploaded file always reads back as uploaded. */
  lemma UploadReadsBack(a: Snapshot, v: Version, f: HashedFile, rows: seq<Link>)
    requires Clean(a) && Editable(a.versions, v)
    requires OrderedRead(rows, LinksOf(Uploaded(a, v, f), FileKey(v, f.path)))
    ensures HashList(rows) == Submitted(f)
  {
    var k := FileKey(v, f.path);
    var b := if k in a.files then Purged(a, ExactPath(v, f.path)) else a;
    PurgeKeeps(a, ExactPath(v, f.path));
    assert forall l | l in b.links :: l.file != k;
    var c := b.(versions := PutVersion(b.versions, v, SavedRow(b, v, [f])));
    assert PositionsKept(c, v, f);
    assert LinksOf(Uploaded(a, v, f), k) == LinksOf(Saved(c, v, [f]), k);
    ReadsBackIffPositionsKept(c, v, [f], 0, rows);
  }

  /** UpdateDatasetVersionSize */
  ghost function Recounted(a: Snapshot, v: Version): Snapshot {
    if v !in a.versions then a
    else
      var sizes := PathSizes(a.files, v);
      a.(versions := a.versions[v := a.versions[v].(size := Sum(sizes), fileCount := |sizes|)])
  }

  /** deleteDatasetFile: the files that `like` matches go, and the totals are recomputed. When
      no chunk is found the request fails and nothing changes. */
  ghost function FileDeleted(a: Snapshot, v: Version, like: string -> bool): Snapshot {
    if Editable(a.versions, v) && InScope(a.links, Matching(v, like)) != {}
    then Recounted(Purged(a, Matching(v, like)), v)
    else a
  }

  method DeleteDatasetFile(store: Stores.Store, v: Version, like: string -> bool) returns (ok: bool)
    requires Ok(store.T()) && Clean(Abs(store.T()))
    modifies store
    ensures ok <==> Editable(old(store.versions), v) && InScope(old(Abs(store.T())).links, Matching(v, like)) != {}
    ensures Ok(store.T()) && Abs(store.T()) == FileDeleted(old(Abs(store.T())), v, like)
  {
    if !Editable(store.versions, v) {
      return false;
    }
    ok := store.DeleteFiles(Matching(v, like), true);
    if ok {
      UpdateDatasetVersionSize(store, v);
    }
  }

  method UpdateDatasetVersionSize(store: Stores.Store, v: Version)
    requires Ok(store.T())
    modifies store`versions
    ensures Ok(store.T()) && Abs(store.T()) == Recounted(old(Abs(store.T())), v)
  {
    var stored, _ := store.ListFiles(v);
    var size, count := ComputeTotals(Abs(store.T()).files, v, [], stored);
    store.SetTotals(v, size, count);
  }

  // ---- Runs

  datatype Op =
    | Save(v: Version, fs: seq<HashedFile>)
    | Upload(v: Version, f: HashedFile)
    | DeleteFile(v: Version, like: string -> bool)
    | Clone(v: Version, target: Version, message: string)
    | CreateVersion(v: Version, message: string)
    | CommitVersion(v: Version, message: string)
    | DeleteVersion(v: Version)
    | NewDataset(d: Dataset)
    | DeleteDataset(d: Dataset)
    | Collect

  ghost function MarkDeleted(a: Snapshot, d: Dataset): Snapshot {
    var versions := map v | v in a.versions ::
      if v.dataset == d then a.versions[v].(deleted := true) else a.versions[v];
    a.(versions := versions, datasets := a.datasets[d := true])
  }

  ghost function Apply(a: Snapshot, op: Op): Snapshot {
    match op
    case Save(v, fs) => SavedWithRow(a, v, fs)
    case Upload(v, f) => Uploaded(a, v, f)
    case DeleteFile(v, like) => FileDeleted(a, v, like)
    case Clone(v, target, message) => if v in a.versions then Cloned(a, v, target, message) else a
    case CreateVersion(v, message) => a.(versions := PutVersion(a.versions, v, VersionRow(0, 0, false, true, message)))
    case CommitVersion(v, message) =>
      if v !in a.versions || a.versions[v].deleted then a
      else
        var kept := if message != "" then message else a.versions[v].message;
        a.(versions := a.versions[v := a.versions[v].(editing := false, message := kept)])
    case DeleteVersion(v) =>
      if v in a.versions then a.(versions := a.versions[v := a.versions[v].(deleted := true)]) else a
    case NewDataset(d) => a.(datasets := a.datasets[d := false])
    case DeleteDataset(d) => if d in a.datasets then MarkDeleted(a, d) else a
    case Collect => Collected(a)
  }

  ghost predicate PathsDiffer(op: Op) {
    op.Save? ==> DistinctPaths(op.fs)
  }

  ghost function After(a: Snapshot, ops: seq<Op>): Snapshot {
    if ops == [] then a else Apply(After(a, ops[..|ops| - 1]), ops[|ops| - 1])
  }

  /** No operation leaves a link without its rows, a chunk row without a link, or a chunk in
      the delete buffer. */
  lemma StepKeepsClean(a: Snapshot, op: Op)
    requires Clean(a) && PathsDiffer(op)
    ensures Clean(Apply(a, op))
  {
    match op
    case Save(v, fs) => SavedIsClean(a.(versions := PutVersion(a.versions, v, SavedRow(a, v, fs))), v, fs);
    case Upload(v, f) =>
      PurgeKeeps(a, ExactPath(v, f.path));
      var b := if FileKey(v, f.path) in a.files then Purged(a, ExactPath(v, f.path)) else a;
      SavedIsClean(b.(versions := PutVersion(b.versions, v, SavedRow(b, v, [f]))), v, [f]);
    case DeleteFile(v, like) => PurgeKeeps(a, Matching(v, like));
    case Clone(v, target, message) =>
      if v in a.versions {
        if v == target { SelfCloneIsPurge(a, v, message); } else { CloneIsFaithful(a, v, target, message, ""); }
      }
    case Collect => CollectionIsSafeAndComplete(a, FileKey(Version(Dataset("", "", ""), ""), ""));
    case _ =>
  }

  lemma SelfCloneIsPurge(a: Snapshot, v: Version, message: string)
    requires Clean(a) && v in a.versions
    ensures Cloned(a, v, v, message).files == Purged(a, WholeVersion(v)).files
    ensures Clean(Cloned(a, v, v, message))
  {
    PurgeKeeps(a, WholeVersion(v));
    var p := Purged(a, WholeVersion(v));
    assert CopiedLinks(p.links, v, v) == p.links && CopiedFiles(p.files, v, v) == p.files;
  }

  /** The store invariant holds after every run that starts from a store with it: links refer to rows,
      chunk rows are those of the linked hashes, and nothing waits. */
  lemma {:induction false} RunsKeepClean(a: Snapshot, ops: seq<Op>)
    requires Clean(a) && forall op | op in ops :: PathsDiffer(op)
    ensures var b := After(a, ops);
            && Clean(b) && b.pending == {}
            && (forall l | l in b.links :: l.file in b.files && l.hash in b.chunks)
            && (forall h :: h in b.chunks <==> exists l :: l in b.links && l.hash == h)
  {
    if ops != [] {
      RunsKeepClean(a, ops[..|ops| - 1]);
      StepKeepsClean(After(a, ops[..|ops| - 1]), ops[|ops| - 1]);
    }
    CleanMeansExactlyLinked(After(a, ops));
  }

  // ---- Totals over runs

  type Counting = (map<FileKey, int>, Version) -> (int, int)

  /** Size and count of the files of one version. */
  ghost function Count(files: map<FileKey, int>, v: Version): (int, int) {
    (Sum(PathSizes(files, v)), |PathSizes(files, v)|)
  }

  ghost function Cached(row: VersionRow): (int, int) {
    (row.size, row.fileCount)
  }

  /** Every file belongs to a version that has a row, and every row caches what counting the
      version's files gives. */
  ghost predicate CountedBy(count: Counting, a: Snapshot) {
    && (forall k | k in a.files :: k.version in a.versions)
    && (forall v | v in a.versions :: Cached(a.versions[v]) == count(a.files, v))
  }

  ghost predicate Counted(a: Snapshot) {
    CountedBy(Count, a)
  }

  lemma CountedMeansTotalsRight(a: Snapshot, v: Version)
    requires Counted(a) && v in a.versions
    ensures TotalsRight(a, v)
  {
    assert Cached(a.versions[v]) == Count(a.files, v);
  }

  /** The files of all other versions are the same. */
  ghost predicate SameElsewhere(files: map<FileKey, int>, files': map<FileKey, int>, v: Version) {
    && (forall k | k in files && k.version != v :: k in files' && files'[k] == files[k])
    && (forall k | k in files' && k.version != v :: k in files)
  }

  ghost predicate SameCounts(count: Counting, files: map<FileKey, int>, files': map<FileKey, int>, v: Version) {
    forall u | u != v :: count(files', u) == count(files, u)
  }

  lemma ElsewhereSameCounts(files: map<FileKey, int>, files': map<FileKey, int>, v: Version)
    requires SameElsewhere(files, files', v)
    ensures SameCounts(Count, files, files', v)
  {
    forall u | u != v ensures Count(files', u) == Count(files, u) {
      SamePathSizes(files, files', u);
    }
  }

  lemma SamePathSizes(files: map<FileKey, int>, files': map<FileKey, int>, u: Version)
    requires forall k | k in files && k.version == u :: k in files' && files'[k] == files[k]
    requires forall k | k in files' && k.version == u :: k in files
    ensures PathSizes(files', u) == PathSizes(files, u)
  {
    forall p ensures p in PathSizes(files', u) <==> p in PathSizes(files, u)
             ensures p in PathSizes(files, u) ==> PathSizes(files', u)[p] == PathSizes(files, u)[p]
    {
      InPathSizes(files, u, p);
      InPathSizes(files', u, p);
    }
  }

  /** If nothing else changes, only the one version is left to count. */
  lemma OneRowDecides(count: Counting, a: Snapshot, b: Snapshot, v: Version)
    requires CountedBy(count, a)
    requires SameElsewhere(a.files, b.files, v) && SameCounts(count, a.files, b.files, v)
    requires v in b.versions
    requires forall u | u != v ::
               (u in b.versions <==> u in a.versions) && (u in a.versions ==> b.versions[u] == a.versions[u])
    ensures CountedBy(count, b) <==> Cached(b.versions[v]) == count(b.files, v)
  {
  }

  lemma PutVersionElsewhere(versions: map<Version, VersionRow>, v: Version, row: VersionRow, u: Version)
    requires u != v
    ensures u in PutVersion(versions, v, row) <==> u in versions
    ensures u in versions ==> PutVersion(versions, v, row)[u] == versions[u]
  {
  }

  /** Totals are written to a live or new version; a soft-deleted one keeps its own. */
  lemma RowWritten(count: Counting, a: Snapshot, b: Snapshot, v: Version, row: VersionRow)
    requires CountedBy(count, a)
    requires SameElsewhere(a.files, b.files, v) && SameCounts(count, a.files, b.files, v)
    requires b.versions == PutVersion(a.versions, v, row)
    ensures CountedBy(count, b) <==>
            count(b.files, v) == if DeletedVersion(a, v) then Cached(a.versions[v]) else Cached(row)
  {
    forall u | u != v
      ensures (u in b.versions <==> u in a.versions) && (u in a.versions ==> b.versions[u] == a.versions[u]) {
      PutVersionElsewhere(a.versions, v, row, u);
    }
    assert v in b.versions &&
           Cached(b.versions[v]) == if DeletedVersion(a, v) then Cached(a.versions[v]) else Cached(row);
    OneRowDecides(count, a, b, v);
  }

  lemma PutFilesElsewhere(files: map<FileKey, int>, v: Version, fs: seq<HashedFile>)
    ensures SameElsewhere(files, PutFiles(files, v, fs), v)
  {
    var files' := PutFiles(files, v, fs);
    forall k: FileKey | k.version != v
      ensures (k in files <==> k in files') && (k in files ==> files'[k] == files[k])
    {
      PutFilesKeys(files, v, fs, k);
    }
  }

  lemma SavedFields(a: Snapshot, v: Version, fs: seq<HashedFile>)
    ensures SavedWithRow(a, v, fs).files == PutFiles(a.files, v, fs)
    ensures SavedWithRow(a, v, fs).versions == PutVersion(a.versions, v, SavedRow(a, v, fs))
    ensures Cached(SavedRow(a, v, fs)) == Count(PutFiles(a.files, v, fs), v)
  {
  }

  lemma SameElsewhereTrans(f0: map<FileKey, int>, f1: map<FileKey, int>, f2: map<FileKey, int>, v: Version)
    requires SameElsewhere(f0, f1, v) && SameElsewhere(f1, f2, v)
    ensures SameElsewhere(f0, f2, v)
  {
  }

  /** A save into a store `a'` that differs from `a` at most in the files of `v`. */
  lemma SaveCounted(a: Snapshot, a': Snapshot, v: Version, fs: seq<HashedFile>)
    requires Counted(a)
    requires a'.versions == a.versions && SameElsewhere(a.files, a'.files, v)
    ensures Counted(SavedWithRow(a', v, fs)) <==>
            (DeletedVersion(a, v) ==> Cached(a.versions[v]) == Cached(SavedRow(a', v, fs)))
  {
    SavedFields(a', v, fs);
    PutFilesElsewhere(a'.files, v, fs);
    SameElsewhereTrans(a.files, a'.files, PutFiles(a'.files, v, fs), v);
    ElsewhereSameCounts(a.files, PutFiles(a'.files, v, fs), v);
    RowWritten(Count, a, SavedWithRow(a', v, fs), v, SavedRow(a', v, fs));
  }

  lemma PurgedElsewhere(a: Snapshot, v: Version, like: string -> bool)
    ensures var b := Purged(a, Matching(v, like));
            b.versions == a.versions && SameElsewhere(a.files, b.files, v)
  {
  }

  lemma UploadCounted(a: Snapshot, v: Version, f: HashedFile)
    requires Counted(a)
    ensures Counted(Uploaded(a, v, f))
  {
    if Editable(a.versions, v) {
      PurgedElsewhere(a, v, ExactPath(v, f.path).like);
      SaveCounted(a, if FileKey(v, f.path) in a.files then Purged(a, ExactPath(v, f.path)) else a, v, [f]);
    }
  }

  lemma CloneSizes(a: Snapshot, v: Version, target: Version, message: string)
    requires Clean(a) && v in a.versions && v != target
    ensures Count(Cloned(a, v, target, message).files, target) == Count(a.files, v)
    ensures SameElsewhere(a.files, Cloned(a, v, target, message).files, target)
  {
    var files := Cloned(a, v, target, message).files;
    forall p ensures p in PathSizes(files, target) <==> p in PathSizes(a.files, v)
             ensures p in PathSizes(a.files, v) ==> PathSizes(files, target)[p] == PathSizes(a.files, v)[p]
    {
      InPathSizes(files, target, p);
      InPathSizes(a.files, v, p);
      CloneIsFaithful(a, v, target, message, p);
    }
    assert PathSizes(files, target) == PathSizes(a.files, v);
    forall k: FileKey | k.version != target
      ensures (k in a.files <==> k in files) && (k in a.files ==> files[k] == a.files[k])
    {
      CloneLeavesOthers(a, v, target, message, k);
    }
  }

  /** Onto another version: a soft-deleted target keeps its own totals. */
  lemma CloneCounted(a: Snapshot, v: Version, target: Version, message: string)
    requires Clean(a) && Counted(a) && v in a.versions && v != target
    ensures Counted(Cloned(a, v, target, message)) <==>
            (DeletedVersion(a, target) ==> Cached(a.versions[target]) == Cached(a.versions[v]))
  {
    var b := Cloned(a, v, target, message);
    CloneSizes(a, v, target, message);
    ElsewhereSameCounts(a.files, b.files, target);
    RowWritten(Count, a, b, target, VersionRow(a.versions[v].size, a.versions[v].fileCount, false, true, message));
    assert Cached(a.versions[v]) == Count(a.files, v);
  }

  lemma SelfCloneFiles(a: Snapshot, v: Version, message: string)
    requires Clean(a) && v in a.versions
    ensures var b := Cloned(a, v, v, message);
            SameElsewhere(a.files, b.files, v) && forall k | k in b.files :: k.version != v
  {
    SelfCloneIsPurge(a, v, message);
    PurgeKeeps(a, WholeVersion(v));
  }

  /** Onto itself: the version is emptied and keeps its totals. */
  lemma SelfCloneCounted(a: Snapshot, v: Version, message: string)
    requires Clean(a) && Counted(a) && v in a.versions
    ensures Counted(Cloned(a, v, v, message)) <==> forall k | k in a.files :: k.version != v
  {
    var b := Cloned(a, v, v, message);
    SelfCloneFiles(a, v, message);
    ElsewhereSameCounts(a.files, b.files, v);
    RowWritten(Count, a, b, v, VersionRow(a.versions[v].size, a.versions[v].fileCount, false, true, message));
    ZeroCount(b.files, v);
    ZeroCount(a.files, v);
    assert Cached(a.versions[v]) == Count(a.files, v);
  }

  lemma DeleteFileCounted(a: Snapshot, v: Version, like: string -> bool)
    requires Counted(a)
    ensures Counted(FileDeleted(a, v, like))
  {
    PurgedElsewhere(a, v, like);
    if Editable(a.versions, v) {
      RecountCounted(a, Purged(a, Matching(v, like)), v);
    }
  }

  lemma RecountCounted(a: Snapshot, b: Snapshot, v: Version)
    requires Counted(a) && v in a.versions && b.versions == a.versions && SameElsewhere(a.files, b.files, v)
    ensures Counted(Recounted(b, v))
  {
    ElsewhereSameCounts(a.files, b.files, v);
    var row := b.versions[v].(size := Count(b.files, v).0, fileCount := Count(b.files, v).1);
    RowReplaced(Count, a, b.(versions := b.versions[v := row]), v, row);
  }

  lemma RowReplaced(count: Counting, a: Snapshot, b: Snapshot, v: Version, row: VersionRow)
    requires CountedBy(count, a) && SameElsewhere(a.files, b.files, v) && SameCounts(count, a.files, b.files, v)
    requires b.versions == a.versions[v := row] && Cached(row) == count(b.files, v)
    ensures CountedBy(count, b)
  {
    OneRowDecides(count, a, b, v);
  }

  lemma CollectCounted(a: Snapshot)
    requires Counted(a)
    ensures Counted(Collected(a))
  {
    var b := Collected(a);
    forall v | v in b.versions ensures Cached(b.versions[v]) == Count(b.files, v) {
      SamePathSizes(a.files, b.files, v);
    }
  }

  /** A new version has no files; a soft-deleted one comes back with its totals. A live one is
      answered with a conflict, but the code goes on and resets its totals. */
  lemma CreateCounted(a: Snapshot, v: Version, message: string)
    requires Counted(a)
    ensures Counted(Apply(a, CreateVersion(v, message))) <==>
            (v in a.versions && !a.versions[v].deleted ==> forall k | k in a.files :: k.version != v)
  {
    RowWritten(Count, a, Apply(a, CreateVersion(v, message)), v, VersionRow(0, 0, false, true, message));
    ZeroCount(a.files, v);
    if DeletedVersion(a, v) {
      assert Cached(a.versions[v]) == Count(a.files, v);
    }
  }

  /** The rows keep their totals and the files stay. */
  lemma RowsTouched(count: Counting, a: Snapshot, b: Snapshot)
    requires CountedBy(count, a) && b.files == a.files && b.versions.Keys == a.versions.Keys
    requires forall v | v in a.versions :: Cached(b.versions[v]) == Cached(a.versions[v])
    ensures CountedBy(count, b)
  {
  }

  /** Committing, soft-deleting and registering touch neither files nor totals. */
  lemma OtherSteps(a: Snapshot, op: Op)
    requires op.CommitVersion? || op.DeleteVersion? || op.NewDataset? || op.DeleteDataset?
    ensures Apply(a, op).files == a.files && Apply(a, op).versions.Keys == a.versions.Keys
    ensures forall v | v in a.versions :: Cached(Apply(a, op).versions[v]) == Cached(a.versions[v])
  {
  }

  /** When an operation leaves all cached totals right. */
  ghost predicate TotalsFit(a: Snapshot, op: Op) {
    match op
    case Save(v, fs) => DeletedVersion(a, v) ==> Cached(a.versions[v]) == Cached(SavedRow(a, v, fs))
    case Clone(v, target, _) =>
      v in a.versions ==>
        if v == target then forall k | k in a.files :: k.version != v
        else DeletedVersion(a, target) ==> Cached(a.versions[target]) == Cached(a.versions[v])
    case CreateVersion(v, _) => v in a.versions && !a.versions[v].deleted ==> forall k | k in a.files :: k.version != v
    case _ => true
  }

  /** An operation leaves all totals right exactly if it is none of four writes: a save or a clone
      into a soft-deleted version whose old totals do not happen to fit, and a clone onto itself
      or a creation of a live version that has files. */
  lemma StepKeepsCounted(a: Snapshot, op: Op)
    requires Clean(a) && Counted(a)
    ensures Counted(Apply(a, op)) <==> TotalsFit(a, op)
  {
    match op
    case Save(v, fs) => SaveCounted(a, a, v, fs);
    case Upload(v, f) => UploadCounted(a, v, f);
    case DeleteFile(v, like) => DeleteFileCounted(a, v, like);
    case Clone(v, target, message) =>
      if v in a.versions {
        if v == target { SelfCloneCounted(a, v, message); } else { CloneCounted(a, v, target, message); }
      }
    case CreateVersion(v, message) => CreateCounted(a, v, message);
    case Collect => CollectCounted(a);
    case _ => OtherStepsCounted(Count, a, op);
  }

  lemma OtherStepsCounted(count: Counting, a: Snapshot, op: Op)
    requires op.CommitVersion? || op.DeleteVersion? || op.NewDataset? || op.DeleteDataset?
    requires CountedBy(count, a)
    ensures CountedBy(count, Apply(a, op))
  {
    OtherSteps(a, op);
    RowsTouched(count, a, Apply(a, op));
  }

  /** The totals are right now and were after every earlier operation. */
  ghost predicate AlwaysCounted(a: Snapshot, ops: seq<Op>) {
    Counted(After(a, ops)) && (ops != [] ==> AlwaysCounted(a, ops[..|ops| - 1]))
  }

  /** Every operation fits where it is applied. */
  ghost predicate AllFit(a: Snapshot, ops: seq<Op>) {
    ops != [] ==> TotalsFit(After(a, ops[..|ops| - 1]), ops[|ops| - 1]) && AllFit(a, ops[..|ops| - 1])
  }

  /** Over every run, the cached totals of every version are at all times those that counting its
      files gives, exactly if every operation fits where it is applied. */
  lemma {:induction false} RunsKeepCounted(a: Snapshot, ops: seq<Op>)
    requires Clean(a) && Counted(a) && forall op | op in ops :: PathsDiffer(op)
    ensures AlwaysCounted(a, ops) <==> AllFit(a, ops)
  {
    if ops != [] {
      var init := ops[..|ops| - 1];
      RunsKeepCounted(a, init);
      if AlwaysCounted(a, init) {
        RunsKeepClean(a, init);
        StepKeepsCounted(After(a, init), ops[|ops| - 1]);
      }
    }
  }

  // ---- Inputs for which the totals go wrong

  /** One version with one file, and another that was soft-deleted when it was empty. */
  lemma OneFile(v: Version, dead: Version) returns (a: Snapshot)
    requires v != dead
    ensures Clean(a) && Counted(a) && v in a.versions && !a.versions[v].deleted && DeletedVersion(a, dead)
    ensures Cached(a.versions[v]) == (1, 1) && Cached(a.versions[dead]) == (0, 0)
    ensures FileKey(v, "f") in a.files
  {
    var files := map[FileKey(v, "f") := 1];
    var versions := map[v := VersionRow(1, 1, false, false, ""), dead := VersionRow(0, 0, true, false, "")];
    a := Snapshot(files, map[], {}, {}, versions, map[]);
    OneFileCounts(files, v, dead);
    TwoRowsCounted(Count, a, v, dead);
  }

  lemma TwoRowsCounted(count: Counting, a: Snapshot, v: Version, dead: Version)
    requires a.versions.Keys == {v, dead} && forall k | k in a.files :: k.version == v
    requires Cached(a.versions[v]) == count(a.files, v) && Cached(a.versions[dead]) == count(a.files, dead)
    ensures CountedBy(count, a)
  {
  }

  lemma OneFileCounts(files: map<FileKey, int>, v: Version, dead: Version)
    requires files == map[FileKey(v, "f") := 1] && v != dead
    ensures Count(files, v) == (1, 1) && Count(files, dead) == (0, 0)
  {
    var none: map<string, int> := map[];
    var sizes := PathSizes(files, v);
    forall p ensures p in sizes <==> p == "f" {
      InPathSizes(files, v, p);
    }
    InPathSizes(files, v, "f");
    assert sizes == none["f" := 1];
    SumPut(none, "f", 1);
    ZeroCount(files, dead);
  }

  /** Cloned into the deleted version, the file is there and its version reports none. */
  lemma CloneIntoDeletedCounterexample(v: Version, dead: Version, message: string) returns (a: Snapshot)
    requires v != dead
    ensures Clean(a) && Counted(a) && v in a.versions && !Counted(Cloned(a, v, dead, message))
  {
    a := OneFile(v, dead);
    CloneCounted(a, v, dead, message);
  }

  /** Cloned onto itself, the version has lost its file and still reports it. */
  lemma SelfCloneCounterexample(v: Version, dead: Version, message: string) returns (a: Snapshot)
    requires v != dead
    ensures Clean(a) && Counted(a) && v in a.versions && !Counted(Cloned(a, v, v, message))
  {
    a := OneFile(v, dead);
    SelfCloneCounted(a, v, message);
  }

  /** Created again, the version has its file and reports none. */
  lemma CreateLiveCounterexample(v: Version, dead: Version, message: string) returns (a: Snapshot)
    requires v != dead
    ensures Clean(a) && Counted(a) && !Counted(Apply(a, CreateVersion(v, message)))
  {
    a := OneFile(v, dead);
    CreateCounted(a, v, message);
  }

  lemma ZeroCount(files: map<FileKey, int>, v: Version)
    ensures Count(files, v) == (0, 0) <==> forall k | k in files :: k.version != v
  {
    if k :| k in files && k.version == v {
      InPathSizes(files, v, k.path);
      assert k.path in PathSizes(files, v).Keys;
    } else {
      forall p ensures p !in PathSizes(files, v) { InPathSizes(files, v, p); }
      assert PathSizes(files, v) == map[];
    }
  }
}
