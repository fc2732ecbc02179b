/** From a saved file list through the tables, the join, the tree and the walk back to a file
    list. */
module EndToEnd {
  import opened Snapshots
  import opened SaveTheory
  import opened TableRows
  import PathCodec
  import Flattening
  import Push
  import SavePipeline
  import Stores
  import Trees

  // ---- One path of the join

  ghost function LinksOfRows(k: FileKey, mine: seq<RawFile>): seq<Link> {
    seq(|mine|, i requires 0 <= i < |mine| => Link(k, mine[i].hash, mine[i].index))
  }

  ghost predicate InOrder(rows: seq<RawFile>) {
    forall i, j | 0 <= i < j < |rows| :: rows[i] != rows[j] && rows[i].index <= rows[j].index
  }

  /** `mine` is the join for one file, in index order. */
  ghost predicate IsFileJoin(t: Tables, k: FileKey, mine: seq<RawFile>) {
    && InOrder(mine)
    && forall r: RawFile :: r in mine <==> Joined(t, k, r.hash, r.index) && r == RowOf(t, k, r.hash, r.index)
  }

  /** Picking the rows of a path keeps their order. */
  lemma {:induction false} PickedInOrder(rows: seq<RawFile>, path: string)
    requires InOrder(rows)
    ensures InOrder(Flattening.OfPath(rows, path))
  {
    if rows != [] {
      var init, last := rows[..|rows| - 1], rows[|rows| - 1];
      var picked := Flattening.OfPath(init, path);
      PickedInOrder(init, path);
      Flattening.OfPathMembers(init, path);
      forall i | 0 <= i < |picked| ensures picked[i] != last && picked[i].index <= last.index {
        assert picked[i] in picked;
        var p :| 0 <= p < |init| && rows[p] == picked[i];
      }
    }
  }

  lemma RowOfPath(t: Tables, v: Version, path: string, rows: seq<RawFile>, r: RawFile)
    requires IsJoin(t, WholeVersion(v), rows)
    ensures r in rows && r.path == path <==>
            Joined(t, FileKey(v, path), r.hash, r.index) && r == RowOf(t, FileKey(v, path), r.hash, r.index)
  {
    var k := FileKey(v, path);
    if r in rows && r.path == path {
      var k' :| Selects(WholeVersion(v), k') && Joined(t, k', r.hash, r.index) && r == RowOf(t, k', r.hash, r.index);
      assert k' == k;
    }
    if Joined(t, k, r.hash, r.index) && r == RowOf(t, k, r.hash, r.index) {
      assert Selects(WholeVersion(v), k);
    }
  }

  /** The rows of a path are the join of its file. */
  lemma PathIsFileJoin(t: Tables, v: Version, path: string, rows: seq<RawFile>)
    requires IsJoin(t, WholeVersion(v), rows)
    ensures IsFileJoin(t, FileKey(v, path), Flattening.OfPath(rows, path))
  {
    Flattening.OfPathMembers(rows, path);
    PickedInOrder(rows, path);
    var k, mine := FileKey(v, path), Flattening.OfPath(rows, path);
    forall r: RawFile ensures r in mine <==> Joined(t, k, r.hash, r.index) && r == RowOf(t, k, r.hash, r.index) {
      RowOfPath(t, v, path, rows, r);
    }
  }

  lemma LinkOfRow(t: Tables, k: FileKey, mine: seq<RawFile>, l: Link)
    requires IsFileJoin(t, k, mine)
    ensures l in LinksOfRows(k, mine) <==> l in LinksOf(Abs(t), k)
  {
    var links := LinksOfRows(k, mine);
    LinkJoined(t, l);
    if l in links {
      var i :| 0 <= i < |mine| && l == Link(k, mine[i].hash, mine[i].index);
      assert mine[i] in mine;
    }
    if l in LinksOf(Abs(t), k) {
      var r := RowOf(t, k, l.hash, l.index);
      assert r in mine;
      var i :| 0 <= i < |mine| && mine[i] == r;
      assert links[i] == l;
    }
  }

  lemma FileJoinIsOrderedRead(t: Tables, k: FileKey, mine: seq<RawFile>)
    requires IsFileJoin(t, k, mine)
    ensures OrderedRead(LinksOfRows(k, mine), LinksOf(Abs(t), k))
  {
    var links := LinksOfRows(k, mine);
    forall l: Link ensures l in links <==> l in LinksOf(Abs(t), k) {
      LinkOfRow(t, k, mine, l);
    }
    forall i, j | 0 <= i < j < |links| ensures links[i] != links[j] && links[i].index <= links[j].index {
      assert mine[i] in mine && mine[j] in mine;
    }
  }

  // ---- What was saved is what the join describes

  /** The chunk row of a hash says what the file says of it. */
  predicate Agrees(infos: map<string, ChunkInfo>, r: HashRef) {
    r.hash in infos && infos[r.hash] == ChunkInfo(r.size, r.layout)
  }

  /** No later mention of one of the file's hashes disagrees with the file. */
  ghost predicate LastWordKept(v: Version, fs: seq<HashedFile>, f: HashedFile) {
    forall r | r in f.hashes :: Agrees(PutInfos(map[], AllEntries(v, fs)), r)
  }

  lemma SavedInfo(a: Snapshot, v: Version, fs: seq<HashedFile>, f: HashedFile, r: HashRef)
    requires f in fs && r in f.hashes
    ensures Agrees(Saved(a, v, fs).chunks, r) <==> Agrees(PutInfos(map[], AllEntries(v, fs)), r)
  {
    var j :| 0 <= j < |fs| && fs[j] == f;
    var i :| 0 <= i < |f.hashes| && f.hashes[i] == r;
    var all, e := AllEntries(v, fs), Entries(v, fs[j])[i];
    EntriesBelong(v, fs, e);
    assert e.link in LinkSet(all) && e.link.hash in Hashes(LinkSet(all));
    PutInfosOverrides(map[], a.chunks, all, e.link.hash);
    assert e.link in Saved(a, v, fs).links;
  }

  ghost function RefsOf(mine: seq<RawFile>): seq<HashRef> {
    seq(|mine|, i requires 0 <= i < |mine| => HashRef(mine[i].hash, mine[i].chunkSize, mine[i].layout))
  }

  /** Where the hashes are the submitted ones, sizes and layouts are too exactly if the chunk
      rows agree with the file. */
  lemma RefsIffAgree(t: Tables, k: FileKey, mine: seq<RawFile>, refs: seq<HashRef>)
    requires IsFileJoin(t, k, mine) && |mine| == |refs|
    requires forall i | 0 <= i < |refs| :: mine[i].hash == refs[i].hash
    ensures RefsOf(mine) == refs <==> forall r | r in refs :: Agrees(Abs(t).chunks, r)
  {
    forall i | 0 <= i < |refs| ensures RefsOf(mine)[i] == refs[i] <==> Agrees(Abs(t).chunks, refs[i]) {
      assert mine[i] in mine;
    }
    if RefsOf(mine) == refs {
      forall r | r in refs ensures Agrees(Abs(t).chunks, r) {
        var i :| 0 <= i < |refs| && refs[i] == r;
      }
    }
  }

  lemma SavedSize(t: Tables, a: Snapshot, v: Version, fs: seq<HashedFile>, j: nat, mine: seq<RawFile>)
    requires DistinctPaths(fs) && j < |fs| && mine != []
    requires Abs(t).files == PutFiles(a.files, v, fs) && IsFileJoin(t, FileKey(v, fs[j].path), mine)
    ensures mine[0].fileSize == fs[j].size
  {
    PutFilesAt(a.files, v, fs, j);
    assert mine[0] in mine;
    assert Abs(t).files[FileKey(v, fs[j].path)] == t.files[FileKey(v, fs[j].path)].size;
  }

  /** Size, hashes, chunk sizes and layouts of a file come back exactly if it has a hash at all,
      its kept hashes kept their positions, and no later mention of one of its hashes
      disagrees with it. */
  lemma DescribedIffKept(t: Tables, a: Snapshot, v: Version, fs: seq<HashedFile>, j: nat, mine: seq<RawFile>)
    requires DistinctPaths(fs) && j < |fs| && IsFileJoin(t, FileKey(v, fs[j].path), mine)
    requires Abs(t) == Saved(a, v, fs).(versions := t.versions)
    ensures (mine != [] && Flattening.Described(fs[j].path, mine) == fs[j]) <==>
            fs[j].hashes != [] && PositionsKept(a, v, fs[j]) && LastWordKept(v, fs, fs[j])
  {
    var f, k := fs[j], FileKey(v, fs[j].path);
    var links := LinksOfRows(k, mine);
    FileJoinIsOrderedRead(t, k, mine);
    assert LinksOf(Abs(t), k) == LinksOf(Saved(a, v, fs), k);
    ReadsBackIffPositionsKept(a, v, fs, j, links);
    if mine != [] {
      SavedSize(t, a, v, fs, j, mine);
      assert Flattening.Described(f.path, mine) == HashedFile(f.path, mine[0].fileSize, RefsOf(mine));
    }
    SameHashes(k, mine, f);
    if HashList(links) == Submitted(f) {
      RefsIffAgree(t, k, mine, f.hashes);
      AgreesIffLastWord(t, a, v, fs, f);
    }
  }

  lemma SameHashes(k: FileKey, mine: seq<RawFile>, f: HashedFile)
    ensures HashList(LinksOfRows(k, mine)) == Submitted(f) <==>
            |mine| == |f.hashes| && forall i | 0 <= i < |mine| :: mine[i].hash == f.hashes[i].hash
    ensures RefsOf(mine) == f.hashes ==> HashList(LinksOfRows(k, mine)) == Submitted(f)
  {
    var hs, gs := HashList(LinksOfRows(k, mine)), Submitted(f);
    assert |hs| == |mine| && |gs| == |f.hashes|;
    assert forall i | 0 <= i < |mine| :: hs[i] == mine[i].hash;
    assert forall i | 0 <= i < |f.hashes| :: gs[i] == f.hashes[i].hash;
    if RefsOf(mine) == f.hashes {
      assert forall i | 0 <= i < |mine| :: mine[i].hash == RefsOf(mine)[i].hash;
    }
  }

  lemma AgreesIffLastWord(t: Tables, a: Snapshot, v: Version, fs: seq<HashedFile>, f: HashedFile)
    requires f in fs && Abs(t).chunks == Saved(a, v, fs).chunks
    ensures (forall r | r in f.hashes :: Agrees(Abs(t).chunks, r)) <==> LastWordKept(v, fs, f)
  {
    forall r | r in f.hashes
      ensures Agrees(Abs(t).chunks, r) <==> Agrees(PutInfos(map[], AllEntries(v, fs)), r)
    {
      SavedInfo(a, v, fs, f, r);
    }
  }

  // ---- Files that are not saved

  /** The store holds the file as `g` describes it. */
  ghost predicate StoredAs(a: Snapshot, v: Version, g: HashedFile) {
    var k := FileKey(v, g.path);
    && k in a.files && a.files[k] == g.size && g.hashes != []
    && LinksOf(a, k) == ExactSet(k, Submitted(g))
    && forall r | r in g.hashes :: Agrees(a.chunks, r)
  }

  ghost predicate Unsaved(fs: seq<HashedFile>, g: HashedFile) {
    forall f | f in fs :: f.path != g.path
  }

  lemma StoredRow(t: Tables, a: Snapshot, v: Version, fs: seq<HashedFile>, g: HashedFile, mine: seq<RawFile>)
    requires Consistent(a) && StoredAs(a, v, g) && Unsaved(fs, g) && IsFileJoin(t, FileKey(v, g.path), mine)
    requires Abs(t) == Saved(a, v, fs).(versions := t.versions)
    ensures |mine| == |g.hashes| && forall i | 0 <= i < |mine| :: mine[i].hash == g.hashes[i].hash
    ensures mine[0].fileSize == g.size
  {
    var k := FileKey(v, g.path);
    var links := LinksOfRows(k, mine);
    SaveLeavesOthers(a, v, fs, k);
    FileJoinIsOrderedRead(t, k, mine);
    assert LinksOf(Abs(t), k) == LinksOf(Saved(a, v, fs), k);
    ReadOfExactLinks(links, k, Submitted(g));
    SameHashes(k, mine, g);
    assert mine[0] in mine && Abs(t).files[k] == t.files[k].size;
  }

  lemma SharedInfo(a: Snapshot, v: Version, fs: seq<HashedFile>, g: HashedFile, r: HashRef)
    requires Consistent(a) && StoredAs(a, v, g) && Unsaved(fs, g) && r in g.hashes
    ensures Agrees(Saved(a, v, fs).chunks, r) <==> NotContradicted(a.chunks, v, fs, r.hash)
  {
    var k := FileKey(v, g.path);
    var i :| 0 <= i < |g.hashes| && g.hashes[i] == r;
    SaveLeavesOthers(a, v, fs, k);
    assert Link(k, Submitted(g)[i], i) in LinksOf(a, k);
    assert Agrees(a.chunks, r);
  }

  /** A file that is not saved comes back as it was, sizes and layouts included, exactly if the
      save does not contradict it about a chunk that they share. */
  lemma StoredIffNotContradicted(t: Tables, a: Snapshot, v: Version, fs: seq<HashedFile>, g: HashedFile,
                                 mine: seq<RawFile>)
    requires Consistent(a) && StoredAs(a, v, g) && Unsaved(fs, g) && IsFileJoin(t, FileKey(v, g.path), mine)
    requires Abs(t) == Saved(a, v, fs).(versions := t.versions)
    ensures (mine != [] && Flattening.Described(g.path, mine) == g) <==>
            forall r | r in g.hashes :: NotContradicted(a.chunks, v, fs, r.hash)
  {
    StoredRow(t, a, v, fs, g, mine);
    RefsIffAgree(t, FileKey(v, g.path), mine, g.hashes);
    assert Flattening.Described(g.path, mine) == HashedFile(g.path, mine[0].fileSize, RefsOf(mine));
    forall r | r in g.hashes ensures Agrees(Abs(t).chunks, r) <==> NotContradicted(a.chunks, v, fs, r.hash) {
      SharedInfo(a, v, fs, g, r);
    }
  }

  /** A save that calls a shared chunk shorter takes the other file's chunk size with it. */
  lemma ContradictedCounterexample(v: Version)
    ensures var g, f := HashedFile("g", 3, [HashRef("h", 3, 2)]), HashedFile("f", 1, [HashRef("h", 1, 2)]);
            var k := FileKey(v, "g");
            var a := Snapshot(map[k := 3], map["h" := ChunkInfo(3, 2)], {Link(k, "h", 0)}, {}, map[], map[]);
            Clean(a) && StoredAs(a, v, g) && Unsaved([f], g) && !NotContradicted(a.chunks, v, [f], "h") &&
            "h" in Saved(a, v, [f]).chunks && Saved(a, v, [f]).chunks["h"] != a.chunks["h"]
  {
    var g, f := HashedFile("g", 3, [HashRef("h", 3, 2)]), HashedFile("f", 1, [HashRef("h", 1, 2)]);
    var k := FileKey(v, "g");
    var a := Snapshot(map[k := 3], map["h" := ChunkInfo(3, 2)], {Link(k, "h", 0)}, {}, map[], map[]);
    assert Hashes(a.links) == {"h"};
    var hs := ["h"];
    assert Submitted(g) == hs && hs[0] == "h";
    assert Link(k, hs[0], 0) in ExactSet(k, hs);
    assert ExactSet(k, hs) == {Link(k, "h", 0)};
    assert "g"[0] != "f"[0];
    var e := Entry(Link(FileKey(v, "f"), "h", 0), ChunkInfo(1, 2));
    assert Entries(v, f) == [e] && [f][..0] == [] && AllEntries(v, [f]) == [e] && [e][..0] == [];
    assert PutInfos(map[], [e])["h"] == ChunkInfo(1, 2);
    SaveLeavesOthers(a, v, [f], k);
    assert Link(k, "h", 0) in LinksOf(a, k);
  }

  // ---- The whole way round

  /** A hash that the layout can cut up. */
  predicate FitHash(hash: string, layout: nat) {
    layout <= 2 && |hash| >= PathCodec.MinLength(layout) && '/' !in hash
  }

  /** Paths of the version are in their shortest form, and every hash fits its layout. */
  ghost predicate FitStore(a: Snapshot, v: Version) {
    && (forall k | k in a.files && k.version == v :: Trees.WellFormed(Trees.Split(k.path)))
    && (forall h | h in a.chunks :: FitHash(h, a.chunks[h].layout))
  }

  ghost predicate FitFiles(fs: seq<HashedFile>) {
    forall f | f in fs :: Trees.WellFormed(Trees.Split(f.path)) && forall r | r in f.hashes :: FitHash(r.hash, r.layout)
  }

  lemma {:induction false} FitInfos(chunks: map<string, ChunkInfo>, es: seq<Entry>, h: string)
    requires h in PutInfos(chunks, es) && (h in chunks ==> FitHash(h, chunks[h].layout))
    requires forall e | e in es :: FitHash(e.link.hash, e.info.layout)
    ensures FitHash(h, PutInfos(chunks, es)[h].layout)
  {
    if es != [] {
      assert es[|es| - 1] in es;
      if es[|es| - 1].link.hash != h {
        FitInfos(chunks, es[..|es| - 1], h);
      }
    }
  }

  lemma SaveKeepsFit(a: Snapshot, v: Version, fs: seq<HashedFile>)
    requires FitStore(a, v) && FitFiles(fs)
    ensures FitStore(Saved(a, v, fs), v)
  {
    var b, es := Saved(a, v, fs), AllEntries(v, fs);
    forall k | k in b.files && k.version == v ensures Trees.WellFormed(Trees.Split(k.path)) {
      PutFilesKeys(a.files, v, fs, k);
    }
    forall e | e in es ensures FitHash(e.link.hash, e.info.layout) {
      EntriesBelong(v, fs, e);
      var j, i :| 0 <= j < |fs| && 0 <= i < |fs[j].hashes| && e == Entries(v, fs[j])[i];
      assert fs[j] in fs && fs[j].hashes[i] in fs[j].hashes;
    }
    forall h | h in b.chunks ensures FitHash(h, b.chunks[h].layout) {
      FitInfos(a.chunks, es, h);
    }
  }

  lemma JoinIsStorable(t: Tables, v: Version, rows: seq<RawFile>)
    requires FitStore(Abs(t), v) && IsJoin(t, WholeVersion(v), rows)
    ensures Flattening.AllStorable(rows)
  {
    forall r | r in rows ensures Flattening.Storable(r) {
      var k :| Selects(WholeVersion(v), k) && Joined(t, k, r.hash, r.index) && r == RowOf(t, k, r.hash, r.index);
      assert k in Abs(t).files && r.hash in Abs(t).chunks;
    }
  }

  /** Save, read the join back, build the tree, walk it and flatten it: a saved file comes back
      whole exactly under the three conditions, and into a version without files nothing but
      the saved files with a hash comes back. */
  method SaveThenReplicate(store: Stores.Store, v: Version, fs: seq<HashedFile>, dataDir: string)
    returns (files: seq<HashedFile>)
    requires Ok(store.T()) && Consistent(Abs(store.T())) && DistinctPaths(fs)
    requires FitStore(Abs(store.T()), v) && FitFiles(fs)
    modifies store
    ensures DistinctPaths(files)
    ensures forall f | f in fs :: f in files <==>
              f.hashes != [] && PositionsKept(old(Abs(store.T())), v, f) && LastWordKept(v, fs, f)
    ensures forall g | StoredAs(old(Abs(store.T())), v, g) && Unsaved(fs, g) :: g in files <==>
              forall r | r in g.hashes :: NotContradicted(old(Abs(store.T())).chunks, v, fs, r.hash)
    ensures (forall k | k in old(Abs(store.T())).files :: k.version != v) &&
            (forall f | f in fs :: LastWordKept(v, fs, f)) ==>
              forall f :: f in files <==> f in fs && f.hashes != []
  {
    ghost var a := Abs(store.T());
    SavePipeline.SaveFSToDB(store, v, fs);
    ghost var t := store.T();
    Push.WithRow(a, v, fs);
    assert Abs(t) == Saved(a, v, fs).(versions := t.versions);
    SaveKeepsFit(a, v, fs);
    var rows := store.GetRawFiles(WholeVersion(v));
    JoinIsStorable(t, v, rows);
    files := Flattening.Replicate(dataDir, rows);
    ComesBack(t, a, v, fs, rows, files);
    OthersComeBack(t, a, v, fs, rows, files);
    if forall k | k in a.files :: k.version != v {
      NothingElse(t, a, v, fs, rows, files);
    }
  }

  lemma ComesBack(t: Tables, a: Snapshot, v: Version, fs: seq<HashedFile>, rows: seq<RawFile>, files: seq<HashedFile>)
    requires DistinctPaths(fs) && IsJoin(t, WholeVersion(v), rows) && Flattening.ListsRows(rows, files)
    requires Abs(t) == Saved(a, v, fs).(versions := t.versions)
    ensures forall f | f in fs :: f in files <==> f.hashes != [] && PositionsKept(a, v, f) && LastWordKept(v, fs, f)
  {
    forall f | f in fs ensures f in files <==> f.hashes != [] && PositionsKept(a, v, f) && LastWordKept(v, fs, f) {
      var j :| 0 <= j < |fs| && fs[j] == f;
      PathIsFileJoin(t, v, f.path, rows);
      DescribedIffKept(t, a, v, fs, j, Flattening.OfPath(rows, f.path));
    }
  }

  lemma OthersComeBack(t: Tables, a: Snapshot, v: Version, fs: seq<HashedFile>, rows: seq<RawFile>,
                       files: seq<HashedFile>)
    requires Consistent(a) && IsJoin(t, WholeVersion(v), rows) && Flattening.ListsRows(rows, files)
    requires Abs(t) == Saved(a, v, fs).(versions := t.versions)
    ensures forall g | StoredAs(a, v, g) && Unsaved(fs, g) :: g in files <==>
              forall r | r in g.hashes :: NotContradicted(a.chunks, v, fs, r.hash)
  {
    forall g | StoredAs(a, v, g) && Unsaved(fs, g)
      ensures g in files <==> forall r | r in g.hashes :: NotContradicted(a.chunks, v, fs, r.hash)
    {
      PathIsFileJoin(t, v, g.path, rows);
      StoredIffNotContradicted(t, a, v, fs, g, Flattening.OfPath(rows, g.path));
    }
  }

  lemma NothingElse(t: Tables, a: Snapshot, v: Version, fs: seq<HashedFile>, rows: seq<RawFile>, files: seq<HashedFile>)
    requires Consistent(a) && DistinctPaths(fs) && IsJoin(t, WholeVersion(v), rows) && Flattening.ListsRows(rows, files)
    requires Abs(t) == Saved(a, v, fs).(versions := t.versions)
    requires forall k | k in a.files :: k.version != v
    ensures forall f | f in fs :: PositionsKept(a, v, f)
    ensures (forall f | f in fs :: LastWordKept(v, fs, f)) ==> forall g | g in files :: g in fs
  {
    if forall f | f in fs :: LastWordKept(v, fs, f) {
      forall g | g in files ensures g in fs {
        var mine := Flattening.OfPath(rows, g.path);
        PathIsFileJoin(t, v, g.path, rows);
        assert mine[0] in mine && FileKey(v, g.path) in Abs(t).files;
        PutFilesKeys(a.files, v, fs, FileKey(v, g.path));
        var f :| f in fs && f.path == g.path;
        var j :| 0 <= j < |fs| && fs[j] == f;
        PathHasHashes(t, a, v, fs, j, mine);
        DescribedIffKept(t, a, v, fs, j, mine);
      }
    }
  }

  lemma PathHasHashes(t: Tables, a: Snapshot, v: Version, fs: seq<HashedFile>, j: nat, mine: seq<RawFile>)
    requires DistinctPaths(fs) && j < |fs| && IsFileJoin(t, FileKey(v, fs[j].path), mine) && mine != []
    requires Abs(t).links == Saved(a, v, fs).links && LinksOf(a, FileKey(v, fs[j].path)) == {}
    ensures fs[j].hashes != []
  {
    var k := FileKey(v, fs[j].path);
    assert mine[0] in mine;
    var l := Link(k, mine[0].hash, mine[0].index);
    LinkJoined(t, l);
    SavedLinksOf(a, v, fs, j);
    assert l in LinksOf(Saved(a, v, fs), k);
  }
}
