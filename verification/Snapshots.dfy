/** The store as its callers see it: files, chunks and links named by version, path and
    hash instead of by row id. Every operation of the store is specified here as a
    function on such snapshots. */
module Snapshots {

  datatype Dataset = Dataset(dsType: string, workspace: string, name: string)
  datatype Version = Version(dataset: Dataset, tag: string)
  datatype FileKey = FileKey(version: Version, path: string)

  /** A chunk row without its key; `layout` is the byte that selects the path layout on disk. */
  datatype ChunkInfo = ChunkInfo(size: int, layout: nat)

  /** What a client submits: a file is a path, a size and an ordered list of chunk hashes. */
  datatype HashRef = HashRef(hash: string, size: int, layout: nat)
  datatype HashedFile = HashedFile(path: string, size: int, hashes: seq<HashRef>)

  datatype VersionRow = VersionRow(size: int, fileCount: int, deleted: bool, editing: bool, message: string)

  /** Chunk `hash` stands at position `index` of `file`. */
  datatype Link = Link(file: FileKey, hash: string, index: nat)

  /** A link to be made, with the chunk row it needs. */
  datatype Entry = Entry(link: Link, info: ChunkInfo)

  datatype Snapshot = Snapshot(
    files: map<FileKey, int>,
    chunks: map<string, ChunkInfo>,
    links: set<Link>,
    pending: set<string>,
    versions: map<Version, VersionRow>,
    datasets: map<Dataset, bool>)

  ghost function Hashes(links: set<Link>): set<string> {
    set l | l in links :: l.hash
  }

  /** Holds between any two database calls: links refer to existing rows, and a chunk row that
      no link uses is waiting in the delete buffer. */
  ghost predicate Consistent(a: Snapshot) {
    && (forall l | l in a.links :: l.file in a.files && l.hash in a.chunks)
    && (forall h | h in a.chunks :: h in Hashes(a.links) || h in a.pending)
    && (forall h | h in a.pending :: h in a.chunks)
  }

  /** Holds between operations: nothing waits, so the chunk rows are exactly the linked ones. */
  ghost predicate Clean(a: Snapshot) {
    Consistent(a) && a.pending == {}
  }

  lemma CleanMeansExactlyLinked(a: Snapshot)
    requires Clean(a)
    ensures a.chunks.Keys == Hashes(a.links)
  {
    forall h | h in Hashes(a.links) ensures h in a.chunks {
      var l :| l in a.links && l.hash == h;
    }
  }

  // ---- Single database steps

  /** TriggerDeleteChunks: pending chunks that nothing links to any more go away. */
  ghost function Flushed(a: Snapshot): Snapshot {
    a.(pending := {},
       chunks := map h | h in a.chunks && (h !in a.pending || h in Hashes(a.links)) :: a.chunks[h])
  }

  lemma FlushedConsistent(a: Snapshot)
    requires Consistent(a)
    ensures Clean(Flushed(a))
  {
    var b := Flushed(a);
    forall l | l in b.links ensures l.file in b.files && l.hash in b.chunks {
      assert l.hash in Hashes(a.links);
    }
  }

  /** An old link of a file that the replacement file no longer mentions by hash. */
  ghost predicate Stale(l: Link, v: Version, f: HashedFile) {
    && l.file == FileKey(v, f.path)
    && forall i | 0 <= i < |f.hashes| :: f.hashes[i].hash != l.hash
  }

  /** ClearExtraChunks. */
  ghost function ClearExtra(a: Snapshot, v: Version, f: HashedFile): Snapshot {
    var stale := set l | l in a.links && Stale(l, v, f);
    a.(links := a.links - stale, pending := a.pending + Hashes(stale))
  }

  /** CreateFiles: upsert by path. */
  ghost function PutFiles(files: map<FileKey, int>, v: Version, fs: seq<HashedFile>): map<FileKey, int> {
    if fs == [] then files
    else
      var last := fs[|fs| - 1];
      PutFiles(files, v, fs[..|fs| - 1])[FileKey(v, last.path) := last.size]
  }

  /** CreateChunks: upsert by hash. */
  ghost function PutInfos(chunks: map<string, ChunkInfo>, es: seq<Entry>): map<string, ChunkInfo> {
    if es == [] then chunks
    else
      var last := es[|es| - 1];
      PutInfos(chunks, es[..|es| - 1])[last.link.hash := last.info]
  }

  ghost function LinkSet(es: seq<Entry>): set<Link> {
    set e | e in es :: e.link
  }

  /** createConnections: chunk rows, then links. */
  ghost function Connect(a: Snapshot, es: seq<Entry>): Snapshot {
    a.(chunks := PutInfos(a.chunks, es), links := a.links + LinkSet(es))
  }

  // ---- Which files a call is about

  datatype Scope =
    | WholeDataset(dataset: Dataset)
    | WholeVersion(version: Version)
    | Matching(inVersion: Version, like: string -> bool)

  predicate Selects(s: Scope, k: FileKey) {
    match s
    case WholeDataset(d) => k.version.dataset == d
    case WholeVersion(v) => k.version == v
    case Matching(v, like) => k.version == v && like(k.path)
  }

  function ExactPath(v: Version, path: string): Scope {
    Matching(v, p => p == path)
  }

  ghost function InScope(links: set<Link>, s: Scope): set<Link> {
    set l | l in links && Selects(s, l.file)
  }

  ghost function LinksOf(a: Snapshot, k: FileKey): set<Link> {
    set l | l in a.links && l.file == k
  }

  /** The files in scope are gone, with their links. */
  ghost function Dropped(a: Snapshot, s: Scope): Snapshot {
    var files := map k | k in a.files && !Selects(s, k) :: a.files[k];
    a.(files := files, links := a.links - InScope(a.links, s))
  }

  /** DeleteFiles and the garbage collector's deletions: the files in scope go with their
      links, their chunks are queued, and the queue is flushed. */
  ghost function Purged(a: Snapshot, s: Scope): Snapshot {
    Flushed(Dropped(a, s).(pending := a.pending + Hashes(InScope(a.links, s))))
  }

  /** What SaveDatasetVersion makes of the versions table. Bringing back a soft-deleted
      version does not write its totals. */
  function PutVersion(versions: map<Version, VersionRow>, v: Version, row: VersionRow): map<Version, VersionRow> {
    if v !in versions then versions[v := row]
    else if versions[v].deleted then versions[v := versions[v].(deleted := false)]
    else versions[v := VersionRow(row.size, row.fileCount, false, row.editing || versions[v].editing,
                                  if row.message != "" then row.message else versions[v].message)]
  }

  /** Whatever the row was, two writes settle it: the version is live and has the totals sent,
      and a third changes nothing. One write is enough unless it finds the version soft-deleted,
      and then only if the totals sent are those it had. */
  lemma TwoWritesSettle(versions: map<Version, VersionRow>, v: Version, row: VersionRow)
    requires !row.deleted
    ensures var once := PutVersion(versions, v, row); var twice := PutVersion(once, v, row);
            && !twice[v].deleted && twice[v].size == row.size && twice[v].fileCount == row.fileCount
            && PutVersion(twice, v, row) == twice
            && (once[v].size == row.size && once[v].fileCount == row.fileCount <==>
                (v in versions && versions[v].deleted ==>
                   versions[v].size == row.size && versions[v].fileCount == row.fileCount))
            && forall u | u != v :: (u in twice <==> u in versions) && (u in versions ==> twice[u] == versions[u])
  {
    var once := PutVersion(versions, v, row);
    var twice := PutVersion(once, v, row);
    assert PutVersion(twice, v, row)[v] == twice[v];
  }

  // ---- What one save asks for

  ghost function Entries(v: Version, f: HashedFile): seq<Entry> {
    seq(|f.hashes|, i requires 0 <= i < |f.hashes| =>
      Entry(Link(FileKey(v, f.path), f.hashes[i].hash, i), ChunkInfo(f.hashes[i].size, f.hashes[i].layout)))
  }

  ghost function AllEntries(v: Version, fs: seq<HashedFile>): seq<Entry> {
    if fs == [] then []
    else AllEntries(v, fs[..|fs| - 1]) + Entries(v, fs[|fs| - 1])
  }

  ghost predicate DistinctPaths(fs: seq<HashedFile>) {
    forall i, j | 0 <= i < j < |fs| :: fs[i].path != fs[j].path
  }

  /** The links of `links` that saving `fs` leaves in place. */
  ghost function Kept(links: set<Link>, v: Version, fs: seq<HashedFile>): set<Link> {
    set l | l in links && forall f | f in fs :: !Stale(l, v, f)
  }

  /** The reference: save the files one at a time, each with its own flush. */
  ghost function SaveOne(a: Snapshot, v: Version, f: HashedFile): Snapshot {
    var cleared := ClearExtra(a, v, f);
    Connect(Flushed(cleared.(files := cleared.files[FileKey(v, f.path) := f.size])), Entries(v, f))
  }

  ghost function SaveOneByOne(a: Snapshot, v: Version, fs: seq<HashedFile>): Snapshot {
    if fs == [] then Flushed(a)
    else SaveOne(SaveOneByOne(a, v, fs[..|fs| - 1]), v, fs[|fs| - 1])
  }

  // ---- Lemmas about entries and upserts

  lemma {:induction false} EntriesBelong(v: Version, fs: seq<HashedFile>, e: Entry)
    ensures e in AllEntries(v, fs) <==>
            exists j, i :: 0 <= j < |fs| && 0 <= i < |fs[j].hashes| && e == Entries(v, fs[j])[i]
  {
    if fs != [] {
      var n := |fs| - 1;
      EntriesBelong(v, fs[..n], e);
      if e in AllEntries(v, fs) {
        if e in AllEntries(v, fs[..n]) {
          var j, i :| 0 <= j < n && 0 <= i < |fs[..n][j].hashes| && e == Entries(v, fs[..n][j])[i];
          assert fs[..n][j] == fs[j];
        } else {
          assert e in Entries(v, fs[n]);
        }
      }
      if j, i :| 0 <= j < |fs| && 0 <= i < |fs[j].hashes| && e == Entries(v, fs[j])[i] {
        if j < n { assert fs[..n][j] == fs[j]; }
      }
    }
  }

  lemma {:induction false} EntriesPrefix(v: Version, fs: seq<HashedFile>, n: nat)
    requires n <= |fs|
    ensures AllEntries(v, fs[..n]) <= AllEntries(v, fs)
  {
    if n == |fs| {
      assert fs[..n] == fs;
    } else {
      assert fs[..|fs| - 1][..n] == fs[..n];
      EntriesPrefix(v, fs[..|fs| - 1], n);
    }
  }

  lemma {:induction false} EntriesAppend(v: Version, fs: seq<HashedFile>, gs: seq<HashedFile>)
    ensures AllEntries(v, fs + gs) == AllEntries(v, fs) + AllEntries(v, gs)
  {
    if gs == [] {
      assert fs + gs == fs;
    } else {
      assert (fs + gs)[..|fs + gs| - 1] == fs + gs[..|gs| - 1];
      EntriesAppend(v, fs, gs[..|gs| - 1]);
    }
  }

  lemma {:induction false} PutFilesAppend(files: map<FileKey, int>, v: Version, fs: seq<HashedFile>,
                                          gs: seq<HashedFile>)
    ensures PutFiles(files, v, fs + gs) == PutFiles(PutFiles(files, v, fs), v, gs)
  {
    if gs == [] {
      assert fs + gs == fs;
    } else {
      assert (fs + gs)[..|fs + gs| - 1] == fs + gs[..|gs| - 1];
      PutFilesAppend(files, v, fs, gs[..|gs| - 1]);
    }
  }

  lemma {:induction false} PutFilesKeys(files: map<FileKey, int>, v: Version, fs: seq<HashedFile>, k: FileKey)
    ensures k in PutFiles(files, v, fs) <==> k in files || exists f :: f in fs && k == FileKey(v, f.path)
    ensures (forall f | f in fs :: k != FileKey(v, f.path)) && k in files ==> PutFiles(files, v, fs)[k] == files[k]
  {
    if fs != [] {
      PutFilesKeys(files, v, fs[..|fs| - 1], k);
      assert fs == fs[..|fs| - 1] + [fs[|fs| - 1]];
    }
  }

  lemma {:induction false} PutFilesAt(files: map<FileKey, int>, v: Version, fs: seq<HashedFile>, j: nat)
    requires DistinctPaths(fs) && j < |fs|
    ensures FileKey(v, fs[j].path) in PutFiles(files, v, fs)
    ensures PutFiles(files, v, fs)[FileKey(v, fs[j].path)] == fs[j].size
  {
    if j < |fs| - 1 {
      PutFilesAt(files, v, fs[..|fs| - 1], j);
    }
  }

  lemma {:induction false} PutInfosAppend(chunks: map<string, ChunkInfo>, es: seq<Entry>, ds: seq<Entry>)
    ensures PutInfos(chunks, es + ds) == PutInfos(PutInfos(chunks, es), ds)
  {
    if ds == [] {
      assert es + ds == es;
    } else {
      assert (es + ds)[..|es + ds| - 1] == es + ds[..|ds| - 1];
      PutInfosAppend(chunks, es, ds[..|ds| - 1]);
    }
  }

  /** An upsert decides each hash on its own. */
  lemma {:induction false} PutInfosLocal(c0: map<string, ChunkInfo>, c1: map<string, ChunkInfo>, es: seq<Entry>,
                                         h: string)
    requires h in c0 <==> h in c1
    requires h in c0 ==> c0[h] == c1[h]
    ensures h in PutInfos(c0, es) <==> h in c0 || h in Hashes(LinkSet(es))
    ensures h in PutInfos(c0, es) <==> h in PutInfos(c1, es)
    ensures h in PutInfos(c0, es) ==> PutInfos(c0, es)[h] == PutInfos(c1, es)[h]
    ensures h !in Hashes(LinkSet(es)) && h in c0 ==> PutInfos(c0, es)[h] == c0[h]
  {
    if es != [] {
      var init, last := es[..|es| - 1], es[|es| - 1];
      assert es == init + [last];
      PutInfosLocal(c0, c1, init, h);
      assert Hashes(LinkSet(es)) == Hashes(LinkSet(init)) + {last.link.hash} by {
        assert LinkSet(es) == LinkSet(init) + {last.link};
      }
    }
  }

  /** Where the new links win the chunk row, the old row does not matter. */
  lemma {:induction false} PutInfosOverrides(c0: map<string, ChunkInfo>, c1: map<string, ChunkInfo>, es: seq<Entry>,
                                             h: string)
    requires h in Hashes(LinkSet(es))
    ensures h in PutInfos(c0, es) && h in PutInfos(c1, es) && PutInfos(c0, es)[h] == PutInfos(c1, es)[h]
  {
    var init, last := es[..|es| - 1], es[|es| - 1];
    assert es == init + [last];
    if last.link.hash != h {
      assert LinkSet(es) == LinkSet(init) + {last.link};
      PutInfosOverrides(c0, c1, init, h);
    }
  }
}
