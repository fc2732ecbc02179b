/** Bytes in, bytes out, through everything: a body is uploaded, the version's rows are joined and
    built into a tree, and the file found there is read to its end. */
module RoundTrip {
  import opened ChunkedFiles
  import opened EndToEnd
  import opened SaveTheory
  import opened Snapshots
  import opened TableRows
  import opened Uploads
  import opened UploadReads
  import opened UploadRequests
  import Clones
  import Flattening
  import Push
  import Runs
  import Stores
  import Trees
  import Walks

  /** Some file of the version lies below the path, which makes the path a directory. */
  ghost predicate Hidden(a: Snapshot, v: Version, path: string) {
    exists l :: l in a.links && l.file.version == v && Trees.Above(Trees.Split(path), Trees.Split(l.file.path))
  }

  // ---- The rows of the uploaded file

  /** The file that an upload records. */
  ghost predicate IsUpload(f: HashedFile, path: string, calcHash: seq<Byte> -> string, cs: seq<seq<Byte>>, size: nat) {
    f.path == path && f.size >= 0 && f.hashes == Recorded(calcHash, cs, size) && cs != []
  }

  lemma {:induction false} LastWord(es: seq<Entry>, h: string) returns (e: Entry)
    requires h in PutInfos(map[], es)
    ensures e in es && e.link.hash == h && PutInfos(map[], es)[h] == e.info
  {
    var last := es[|es| - 1];
    assert last in es;
    if last.link.hash == h {
      e := last;
    } else {
      e := LastWord(es[..|es| - 1], h);
    }
  }

  /** Whatever chunk of the upload had the last word, layout and sign of the size are the same. */
  lemma UploadedInfo(a: Snapshot, v: Version, f: HashedFile, path: string, calcHash: seq<Byte> -> string,
                     cs: seq<seq<Byte>>, size: nat, i: nat)
    requires IsUpload(f, path, calcHash, cs, size) && i < |f.hashes|
    ensures var h, b := f.hashes[i].hash, Saved(a, v, [f]);
            h in b.chunks && b.chunks[h].layout == CHUNK_VERSION && b.chunks[h].size >= 0
  {
    var fs, r := [f], f.hashes[i];
    var all := AllEntries(v, fs);
    assert f in fs && r in f.hashes;
    var e := Entries(v, fs[0])[i];
    EntriesBelong(v, fs, e);
    assert e.link in LinkSet(all) && e.link.hash in Hashes(LinkSet(all));
    PutInfosOverrides(map[], a.chunks, all, r.hash);
    assert e.link in Saved(a, v, fs).links;
    var last := LastWord(all, r.hash);
    EntriesBelong(v, fs, last);
  }

  /** The join has the uploaded file's hashes in order, all at the upload's layout. */
  ghost predicate UploadedRows(mine: seq<RawFile>, f: HashedFile) {
    && |mine| == |f.hashes| > 0 && mine[0].fileSize == f.size
    && forall i | 0 <= i < |mine| ::
         mine[i].hash == f.hashes[i].hash && mine[i].layout == CHUNK_VERSION && mine[i].chunkSize >= 0
  }

  lemma RowsOfUpload(t: Tables, b: Snapshot, v: Version, f: HashedFile, calcHash: seq<Byte> -> string,
                     cs: seq<seq<Byte>>, size: nat, mine: seq<RawFile>)
    requires IsUpload(f, f.path, calcHash, cs, size) && LinksOf(b, FileKey(v, f.path)) == {}
    requires Abs(t) == Saved(b, v, [f]).(versions := t.versions) && IsFileJoin(t, FileKey(v, f.path), mine)
    ensures UploadedRows(mine, f)
  {
    var k := FileKey(v, f.path);
    var links := LinksOfRows(k, mine);
    FileJoinIsOrderedRead(t, k, mine);
    assert LinksOf(Abs(t), k) == LinksOf(Saved(b, v, [f]), k);
    ReadsBackIffPositionsKept(b, v, [f], 0, links);
    SameHashes(k, mine, f);
    SavedSize(t, b, v, [f], 0, mine);
    forall i | 0 <= i < |mine| ensures mine[i].layout == CHUNK_VERSION && mine[i].chunkSize >= 0 {
      UploadedInfo(b, v, f, f.path, calcHash, cs, size, i);
      assert mine[i] in mine;
    }
  }

  // ---- From the rows to the bytes

  lemma {:induction false} SamePathsSameRest(disk: Disk, xs: seq<Chunk>, ys: seq<Chunk>)
    requires |xs| == |ys| && forall i | 0 <= i < |xs| :: xs[i].path == ys[i].path
    ensures Rest(disk, xs, 0, 0) == Rest(disk, ys, 0, 0)
  {
    if xs != [] {
      RestShift(disk, xs, 0, 0);
      RestShift(disk, ys, 0, 0);
      SamePathsSameRest(disk, xs[1..], ys[1..]);
    }
  }

  /** The tree's chunks of the uploaded file lie where the upload put them. */
  ghost predicate AtUploadedPaths(refs: seq<Trees.ChunkRef>, dataDir: string, calcHash: seq<Byte> -> string,
                                  cs: seq<seq<Byte>>, size: nat)
    requires IsHash(calcHash)
  {
    && |refs| == |cs|
    && forall i | 0 <= i < |cs| :: refs[i].path == PathOf(dataDir, calcHash, Pad(cs[i], size)) && refs[i].size >= 0
  }

  method ReadRefs(refs: seq<Trees.ChunkRef>, fileSize: nat, store: ChunkStore, bufSize: nat,
                  ghost cs: seq<seq<Byte>>, ghost size: nat)
    returns (out: seq<Byte>)
    requires IsHash(store.calcHash) && bufSize > 0
    requires AtUploadedPaths(refs, store.dataDir, store.calcHash, cs, size)
    ensures out == Rest(store.disk, KeptAs(store.dataDir, store.calcHash, cs, size), 0, 0)
  {
    var list := seq(|refs|, i requires 0 <= i < |refs| => Chunk(refs[i].path, refs[i].size));
    SamePathsSameRest(store.disk, list, KeptAs(store.dataDir, store.calcHash, cs, size));
    var file := new ChunkedFile(store.disk, list, fileSize);
    out := CopyAll(file, bufSize);
  }

  lemma RefsOfUpload(dataDir: string, calcHash: seq<Byte> -> string, cs: seq<seq<Byte>>, size: nat, f: HashedFile,
                     mine: seq<RawFile>)
    requires IsHash(calcHash) && IsUpload(f, f.path, calcHash, cs, size) && UploadedRows(mine, f)
    requires Flattening.AllStorable(mine)
    ensures AtUploadedPaths(Trees.ChunksOf(Flattening.RowsFor(dataDir, mine)), dataDir, calcHash, cs, size)
  {
    var refs := Trees.ChunksOf(Flattening.RowsFor(dataDir, mine));
    forall i | 0 <= i < |cs| ensures refs[i].path == PathOf(dataDir, calcHash, Pad(cs[i], size)) && refs[i].size >= 0 {
      assert refs[i] == Flattening.RowFor(dataDir, mine[i]).chunk;
      assert mine[i].hash == f.hashes[i].hash == calcHash(Pad(cs[i], size));
    }
  }

  // ---- The tree

  /** What the prepared tree of the rows has at a path. */
  ghost function Lookup(dataDir: string, rows: seq<RawFile>, path: string): Trees.Found
    requires Flattening.AllStorable(rows)
  {
    Trees.Lookup(Trees.Prepared(Trees.Build(Flattening.RowsFor(dataDir, rows))), Trees.Split(path))
  }

  /** The tree has the file, unless the path is a directory in it. */
  lemma UploadInTree(t: Tables, v: Version, f: HashedFile, dataDir: string, rows: seq<RawFile>)
    requires IsJoin(t, WholeVersion(v), rows) && Flattening.AllStorable(rows) && Trees.WellFormed(Trees.Split(f.path))
    requires Ok(t) && UploadedRows(Flattening.OfPath(rows, f.path), f)
    ensures var mine, parts := Flattening.OfPath(rows, f.path), Trees.Split(f.path);
            && Flattening.AllStorable(mine)
            && Lookup(dataDir, rows, f.path) ==
               if Hidden(Abs(t), v, f.path) then Trees.IsDir
               else Trees.IsFile(Trees.Node(parts[|parts| - 1], f.size,
                                            Trees.ChunksOf(Flattening.RowsFor(dataDir, mine))))
  {
    var parts, all := Trees.Split(f.path), Flattening.RowsFor(dataDir, rows);
    Trees.JoinSplit(f.path);
    Flattening.RowsAreClean(dataDir, rows);
    Flattening.RowsOfPath(dataDir, rows, parts);
    Trees.TreeAgreesWithRows(all, parts);
    HiddenInRows(t, v, f.path, dataDir, rows);
  }

  lemma LinkOfRow(t: Tables, v: Version, rows: seq<RawFile>, i: nat) returns (l: Link)
    requires IsJoin(t, WholeVersion(v), rows) && i < |rows|
    ensures l in JoinLinks(t) && l.file.version == v && l.file.path == rows[i].path
  {
    var r := rows[i];
    assert r in rows;
    var k :| Selects(WholeVersion(v), k) && Joined(t, k, r.hash, r.index) && r == RowOf(t, k, r.hash, r.index);
    l := Link(k, r.hash, r.index);
    LinkJoined(t, l);
  }

  lemma RowOfLink(t: Tables, v: Version, rows: seq<RawFile>, l: Link) returns (i: nat)
    requires Ok(t) && IsJoin(t, WholeVersion(v), rows) && l in JoinLinks(t) && l.file.version == v
    ensures i < |rows| && rows[i].path == l.file.path
  {
    LinkRead(t, WholeVersion(v), rows, l);
    i :| i < |rows| && rows[i] == RowOf(t, l.file, l.hash, l.index);
  }

  lemma TreeRow(dataDir: string, rows: seq<RawFile>, i: nat) returns (r: Trees.Row)
    requires Flattening.AllStorable(rows) && i < |rows|
    ensures r in Flattening.RowsFor(dataDir, rows) && r.path == rows[i].path
  {
    r := Flattening.RowsFor(dataDir, rows)[i];
  }

  lemma RawRow(dataDir: string, rows: seq<RawFile>, r: Trees.Row) returns (i: nat)
    requires Flattening.AllStorable(rows) && r in Flattening.RowsFor(dataDir, rows)
    ensures i < |rows| && r.path == rows[i].path
  {
    i :| i < |rows| && Flattening.RowsFor(dataDir, rows)[i] == r;
  }

  lemma HiddenInRows(t: Tables, v: Version, path: string, dataDir: string, rows: seq<RawFile>)
    requires Ok(t) && IsJoin(t, WholeVersion(v), rows) && Flattening.AllStorable(rows)
    ensures Hidden(Abs(t), v, path) <==>
            exists r :: r in Flattening.RowsFor(dataDir, rows) && Trees.Above(Trees.Split(path), Trees.Split(r.path))
  {
    var all, parts := Flattening.RowsFor(dataDir, rows), Trees.Split(path);
    if r :| r in all && Trees.Above(parts, Trees.Split(r.path)) {
      var i := RawRow(dataDir, rows, r);
      var l := LinkOfRow(t, v, rows, i);
    }
    if l :| l in Abs(t).links && l.file.version == v && Trees.Above(parts, Trees.Split(l.file.path)) {
      var i := RowOfLink(t, v, rows, l);
      var r := TreeRow(dataDir, rows, i);
    }
  }

  // ---- The store before and after

  /** An upload neither hides its path nor uncovers it. */
  lemma HiddenStays(a: Snapshot, v: Version, f: HashedFile)
    requires Clean(a)
    ensures Hidden(Saved(FailedUpload(a, v, f.path), v, [f]), v, f.path) <==> Hidden(a, v, f.path)
  {
    var k, b := FileKey(v, f.path), FailedUpload(a, v, f.path);
    var c, parts := Saved(b, v, [f]), Trees.Split(f.path);
    FailedUploadKeepsStore(a, v, f.path);
    Clones.PurgeKeeps(a, ExactPath(v, f.path));
    forall l: Link | l.file != k ensures l in c.links <==> l in a.links {
      SaveLeavesOthers(b, v, [f], l.file);
      assert l in c.links <==> l in LinksOf(c, l.file);
      assert l in b.links <==> l in LinksOf(b, l.file);
    }
    assert !Trees.Above(parts, parts);
    if l :| l in c.links && l.file.version == v && Trees.Above(parts, Trees.Split(l.file.path)) {
      assert l.file != k;
    }
    if l :| l in a.links && l.file.version == v && Trees.Above(parts, Trees.Split(l.file.path)) {
      assert l.file != k;
    }
  }

  lemma UploadKeepsFit(a: Snapshot, v: Version, f: HashedFile, calcHash: seq<Byte> -> string, cs: seq<seq<Byte>>,
                       size: nat)
    requires Clean(a) && FitStore(a, v) && IsHash(calcHash) && IsUpload(f, f.path, calcHash, cs, size)
    requires Trees.WellFormed(Trees.Split(f.path))
    ensures FitStore(Saved(FailedUpload(a, v, f.path), v, [f]), v)
  {
    Clones.PurgeKeeps(a, ExactPath(v, f.path));
    forall r | r in f.hashes ensures FitHash(r.hash, r.layout) {
      var i :| 0 <= i < |f.hashes| && f.hashes[i] == r;
      assert f.hashes[i].hash == calcHash(Pad(cs[i], size));
    }
    SaveKeepsFit(FailedUpload(a, v, f.path), v, [f]);
  }

  /** The tables after the upload are one save onto the store without the old file. */
  lemma UploadedStore(a: Snapshot, v: Version, f: HashedFile, t: Tables, calcHash: seq<Byte> -> string,
                      cs: seq<seq<Byte>>, size: nat)
    requires Clean(a) && FitStore(a, v) && Runs.Editable(a.versions, v) && Trees.WellFormed(Trees.Split(f.path))
    requires IsHash(calcHash) && IsUpload(f, f.path, calcHash, cs, size) && Abs(t) == Runs.Uploaded(a, v, f)
    ensures Abs(t) == Saved(FailedUpload(a, v, f.path), v, [f]).(versions := t.versions)
    ensures LinksOf(FailedUpload(a, v, f.path), FileKey(v, f.path)) == {}
    ensures FitStore(Abs(t), v) && (Hidden(Abs(t), v, f.path) <==> Hidden(a, v, f.path))
  {
    FailedUploadKeepsStore(a, v, f.path);
    Push.WithRow(FailedUpload(a, v, f.path), v, [f]);
    UploadKeepsFit(a, v, f, calcHash, cs, size);
    HiddenStays(a, v, f);
  }

  /** All n = |cs| chunks of the body are on the disk. */
  lemma UploadedBytes(disk: Disk, disk': Disk, dataDir: string, calcHash: seq<Byte> -> string, body: seq<Byte>, n: nat,
                      size: nat)
    requires IsHash(calcHash) && size > 0 && n == |Cut(body, size)|
    requires disk' == PutAll(disk, dataDir, calcHash, Cut(body, size)[..n], size)
    ensures Rest(disk', KeptAs(dataDir, calcHash, Cut(body, size), size), 0, 0) == body <==> TailTellsApart(body, size)
  {
    assert Cut(body, size)[..n] == Cut(body, size);
    UploadReadsBack(disk, dataDir, calcHash, body, size);
  }

  /** GetFS, Prepare and GetFile. */
  method Find(dataDir: string, rows: seq<RawFile>, path: string) returns (found: Trees.Found)
    requires Flattening.AllStorable(rows) && Trees.WellFormed(Trees.Split(path))
    ensures found == Lookup(dataDir, rows, path)
  {
    var all := Flattening.RowsFor(dataDir, rows);
    Flattening.RowsAreClean(dataDir, rows);
    Walks.BuildIsRooted(all);
    var fs := Trees.GetFS(all);
    var t := Trees.Prepare(fs);
    found := Trees.GetFile(t, path);
  }

  /** What the lookup in the tree of the version's rows finds at the uploaded path. */
  lemma FoundUpload(t: Tables, v: Version, f: HashedFile, b: Snapshot, rows: seq<RawFile>, dataDir: string,
                    calcHash: seq<Byte> -> string, cs: seq<seq<Byte>>, size: nat)
    requires Ok(t) && IsJoin(t, WholeVersion(v), rows) && Flattening.AllStorable(rows)
    requires Trees.WellFormed(Trees.Split(f.path)) && IsHash(calcHash) && IsUpload(f, f.path, calcHash, cs, size)
    requires Abs(t) == Saved(b, v, [f]).(versions := t.versions) && LinksOf(b, FileKey(v, f.path)) == {}
    ensures var found := Lookup(dataDir, rows, f.path);
            if Hidden(Abs(t), v, f.path) then found.IsDir?
            else found.IsFile? && found.file.size == f.size &&
                 AtUploadedPaths(found.file.chunks, dataDir, calcHash, cs, size)
  {
    var mine := Flattening.OfPath(rows, f.path);
    PathIsFileJoin(t, v, f.path, rows);
    RowsOfUpload(t, b, v, f, calcHash, cs, size, mine);
    UploadInTree(t, v, f, dataDir, rows);
    RefsOfUpload(dataDir, calcHash, cs, size, f, mine);
  }

  /** Join, tree, lookup and reader: what is read is what lies under the recorded paths. */
  method ReadUpload(store: Stores.Store, v: Version, ghost f: HashedFile, path: string, chunks: ChunkStore,
                    bufSize: nat, ghost b: Snapshot, ghost cs: seq<seq<Byte>>, ghost size: nat)
    returns (found: Trees.Found, out: seq<Byte>)
    requires Ok(store.T()) && FitStore(Abs(store.T()), v) && Trees.WellFormed(Trees.Split(path)) && bufSize > 0
    requires IsHash(chunks.calcHash) && IsUpload(f, path, chunks.calcHash, cs, size) &&
             LinksOf(b, FileKey(v, path)) == {}
    requires Abs(store.T()) == Saved(b, v, [f]).(versions := store.versions)
    ensures found.IsDir? <==> Hidden(Abs(store.T()), v, path)
    ensures found.IsFile? <==> !Hidden(Abs(store.T()), v, path)
    ensures found.IsFile? ==> out == Rest(chunks.disk, KeptAs(chunks.dataDir, chunks.calcHash, cs, size), 0, 0)
  {
    var rows := store.GetRawFiles(WholeVersion(v));
    JoinIsStorable(store.T(), v, rows);
    FoundUpload(store.T(), v, f, b, rows, chunks.dataDir, chunks.calcHash, cs, size);
    found := Find(chunks.dataDir, rows, path);
    out := [];
    if found.IsFile? {
      out := ReadRefs(found.file.chunks, found.file.size, chunks, bufSize, cs, size);
    }
  }

  /** Upload a body, and read the file at its path: it is the body exactly if no full chunk of the
      body is its last chunk with zeros behind it; unless files below the path make it a
      directory, which hides it. */
  method UploadThenRead(store: Stores.Store, v: Version, path: string, body: Source, chunks: ChunkStore, chunkSize: nat,
                        bufSize: nat)
    returns (reply: Reply, found: Trees.Found, out: seq<Byte>)
    requires Ok(store.T()) && Clean(Abs(store.T())) && FitStore(Abs(store.T()), v) &&
             Trees.WellFormed(Trees.Split(path))
    requires chunkSize > 0 && IsHash(chunks.calcHash) && Sound(chunks.disk, chunks.dataDir, chunks.calcHash, chunkSize)
    requires bufSize > 0
    modifies store, body`left, chunks`disk
    ensures reply.Created? ==> (found.IsDir? <==> Hidden(old(Abs(store.T())), v, path))
    ensures reply.Created? ==> (found.IsFile? <==> !Hidden(old(Abs(store.T())), v, path))
    ensures reply.Created? && found.IsFile? ==> (out == old(body.left) <==> TailTellsApart(old(body.left), chunkSize))
  {
    ghost var a, disk, bytes := Abs(store.T()), chunks.disk, body.left;
    ghost var cs, n := Cut(bytes, chunkSize), 0;
    reply, n := UploadBody(store, v, path, body, chunks, chunkSize);
    found, out := Trees.Nil, [];
    if reply.Created? {
      UploadedStore(a, v, reply.file, store.T(), chunks.calcHash, cs, chunkSize);
      found, out := ReadUpload(store, v, reply.file, path, chunks, bufSize, FailedUpload(a, v, path), cs, chunkSize);
      UploadedBytes(disk, chunks.disk, chunks.dataDir, chunks.calcHash, bytes, n, chunkSize);
    }
  }
}
