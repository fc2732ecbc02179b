/** Flattening a tree into a list of files, as a slave does with the tree of its master. */
module Flattening {
  import opened Options
  import opened PathCodec
  import opened Trees
  import opened Walks
  import opened Snapshots
  import T = TableRows

  // ---- The flattened list of a tree

  function HashesOf(dataDir: string, chunks: seq<ChunkRef>): seq<HashRef> {
    seq(|chunks|, i requires 0 <= i < |chunks| =>
      var (hash, layout) := GetHashFromPath(dataDir, chunks[i].path); HashRef(hash, chunks[i].size, layout))
  }

  function Flattened(dataDir: string, path: string, node: Node): HashedFile {
    HashedFile(path, node.size, HashesOf(dataDir, node.chunks))
  }

  lemma {:induction false} HeldAt(t: Tree, above: seq<string>, parts: seq<string>, node: Node)
    requires parts != []
    ensures (above + parts, Some(node)) in Held(t, above) <==> FileAt(t, parts) == Some(node)
    decreases t
  {
    var x := (above + parts, Some(node));
    if |parts| == 1 {
      assert parts[..0] == [] && parts == [parts[0]];
      assert parts[0] in t.files ==> (above + [parts[0]], Some(t.files[parts[0]])) in FilesOf(t, above, t.files.Keys);
      assert x in FilesOf(t, above, t.files.Keys) ==> FileAt(t, parts) == Some(node) by {
        if k :| k in t.files && x == (above + [k], Some(t.files[k])) {
          SameNext(above, k, parts[0], above + parts);
        }
      }
      if x in DirsOf(t, above, t.dirs.Keys) {
        var k :| k in t.dirs && x in Held(t.dirs[k], above + [k]);
        HeldBelow(t.dirs[k], above + [k], x);
      }
    } else {
      var k := parts[0];
      FileBelow(t, parts);
      assert above + parts == above + [k] + parts[1..];
      if k in t.dirs {
        HeldAt(t.dirs[k], above + [k], parts[1..], node);
      }
      if x in DirsOf(t, above, t.dirs.Keys) {
        var j :| j in t.dirs && x in Held(t.dirs[j], above + [j]);
        HeldBelow(t.dirs[j], above + [j], x);
        SameNext(above, j, k, above + parts);
      }
    }
  }

  /** The directories that a walk comes by are those of the tree. */
  lemma {:induction false} HeldDirAt(t: Tree, above: seq<string>, parts: seq<string>)
    ensures (above + parts, None) in Held(t, above) <==> DirAt(t, parts).Some?
    decreases t
  {
    var x: (seq<string>, Option<Node>) := (above + parts, None);
    if parts == [] {
      assert above + parts == above;
    } else {
      var k := parts[0];
      assert above + parts == above + [k] + parts[1..];
      if k in t.dirs {
        HeldDirAt(t.dirs[k], above + [k], parts[1..]);
      }
      if x in DirsOf(t, above, t.dirs.Keys) {
        var j :| j in t.dirs && x in Held(t.dirs[j], above + [j]);
        HeldBelow(t.dirs[j], above + [j], x);
        SameNext(above, j, k, above + parts);
      }
    }
  }

  /** The files of the tree, under the paths they have in it. */
  ghost predicate ListsTree(t: Tree, dataDir: string, files: seq<HashedFile>) {
    && DistinctPaths(files)
    && forall f :: f in files <==> exists parts :: Lists(t, dataDir, parts, f)
  }

  method SaveFSLocally(t: Tree, dataDir: string) returns (files: seq<HashedFile>)
    requires Rooted(t, [])
    ensures ListsTree(t, dataDir, files)
  {
    var visits := Walk(t, []);
    files := [];
    for i := 0 to |visits|
      invariant forall f :: f in files <==> exists j :: 0 <= j < i && Makes(dataDir, visits[j], f)
      invariant DistinctPaths(files)
    {
      if visits[i].file.Some? {
        var f := Flattened(dataDir, TrimPrefix(visits[i].path, "/"), visits[i].file.value);
        assert Makes(dataDir, visits[i], f);
        forall g | g in files ensures g.path != f.path {
          var j :| 0 <= j < i && Makes(dataDir, visits[j], g);
          DifferentVisits(t, visits, j, i);
        }
        files := files + [f];
      }
    }
    ListedOnce(t, dataDir, visits, files);
  }

  ghost predicate Makes(dataDir: string, v: Visit, f: HashedFile) {
    v.file.Some? && f == Flattened(dataDir, TrimPrefix(v.path, "/"), v.file.value)
  }

  lemma VisitIsHeld(t: Tree, visits: seq<Visit>, i: nat)
    requires Once(visits, Held(t, [])) && i < |visits|
    ensures (PathParts(visits[i].path), visits[i].file) in Held(t, [])
  {
    var x := Located(visits)[i];
    assert x in multiset(Located(visits));
  }

  lemma HeldIsVisited(t: Tree, visits: seq<Visit>, x: (seq<string>, Option<Node>)) returns (i: nat)
    requires Once(visits, Held(t, [])) && x in Held(t, [])
    ensures i < |visits| && x == (PathParts(visits[i].path), visits[i].file)
  {
    assert x in multiset(Held(t, []));
    assert x in Located(visits);
    i :| i < |visits| && Located(visits)[i] == x;
  }

  lemma TwiceInBag<X>(s: seq<X>, i: nat, j: nat)
    requires i < j < |s| && s[i] == s[j]
    ensures multiset(s)[s[i]] >= 2
  {
    assert s == s[..j] + [s[j]] + s[j + 1..];
    assert s[i] in s[..j];
    assert s[i] in multiset(s[..j]);
    assert multiset(s) == multiset(s[..j]) + multiset{s[j]} + multiset(s[j + 1..]);
  }

  /** Two visits to files are under different paths. */
  lemma DifferentVisits(t: Tree, visits: seq<Visit>, i: nat, j: nat)
    requires Once(visits, Held(t, [])) && i < j < |visits| && visits[i].file.Some? && visits[j].file.Some?
    ensures TrimPrefix(visits[i].path, "/") != TrimPrefix(visits[j].path, "/")
  {
    VisitIsHeld(t, visits, i);
    VisitIsHeld(t, visits, j);
    var p, q := PathParts(visits[i].path), PathParts(visits[j].path);
    HeldBelow(t, [], (p, visits[i].file));
    HeldBelow(t, [], (q, visits[j].file));
    if p == q {
      assert [] + p == p;
      HeldAt(t, [], p, visits[i].file.value);
      HeldAt(t, [], q, visits[j].file.value);
      TwiceInBag(Located(visits), i, j);
      assert false;
    }
  }

  /** A file of the tree, and the file of the list that it makes. */
  ghost predicate Lists(t: Tree, dataDir: string, parts: seq<string>, f: HashedFile) {
    parts != [] && FileAt(t, parts).Some? && f == Flattened(dataDir, Join(parts), FileAt(t, parts).value)
  }

  lemma MadeIsListed(t: Tree, dataDir: string, visits: seq<Visit>, j: nat, f: HashedFile)
    requires Once(visits, Held(t, [])) && j < |visits| && Makes(dataDir, visits[j], f)
    ensures Lists(t, dataDir, PathParts(visits[j].path), f)
  {
    var parts := PathParts(visits[j].path);
    VisitIsHeld(t, visits, j);
    HeldBelow(t, [], (parts, visits[j].file));
    assert [] + parts == parts;
    HeldAt(t, [], parts, visits[j].file.value);
    Trimmed(visits[j].path);
  }

  lemma ListedIsMade(t: Tree, dataDir: string, visits: seq<Visit>, parts: seq<string>, f: HashedFile) returns (j: nat)
    requires Once(visits, Held(t, [])) && Lists(t, dataDir, parts, f)
    ensures j < |visits| && Makes(dataDir, visits[j], f)
  {
    var file := FileAt(t, parts);
    assert [] + parts == parts;
    HeldAt(t, [], parts, file.value);
    j := HeldIsVisited(t, visits, (parts, file));
    Trimmed(visits[j].path);
  }

  lemma ListedOnce(t: Tree, dataDir: string, visits: seq<Visit>, files: seq<HashedFile>)
    requires Once(visits, Held(t, [])) && DistinctPaths(files)
    requires forall f :: f in files <==> exists j :: 0 <= j < |visits| && Makes(dataDir, visits[j], f)
    ensures ListsTree(t, dataDir, files)
  {
    forall f ensures f in files <==> exists parts :: Lists(t, dataDir, parts, f) {
      if j :| 0 <= j < |visits| && Makes(dataDir, visits[j], f) {
        MadeIsListed(t, dataDir, visits, j, f);
      }
      if parts :| Lists(t, dataDir, parts, f) {
        var j := ListedIsMade(t, dataDir, visits, parts, f);
      }
    }
  }

  // ---- From rows to the tree and back

  /** A path without empty, "." or ".." parts, and a hash that its layout can cut up. */
  predicate Storable(raw: T.RawFile) {
    && WellFormed(Split(raw.path))
    && raw.layout <= 2 && |raw.hash| >= MinLength(raw.layout) && '/' !in raw.hash
  }

  function RowFor(dataDir: string, raw: T.RawFile): Row
    requires Storable(raw)
  {
    Row(raw.path, raw.fileSize, ChunkRef(GetHashedFilename(dataDir, raw.hash, raw.layout), raw.chunkSize, raw.layout))
  }

  ghost predicate AllStorable(raws: seq<T.RawFile>) {
    forall raw | raw in raws :: Storable(raw)
  }

  function RowsFor(dataDir: string, raws: seq<T.RawFile>): seq<Row>
    requires AllStorable(raws)
  {
    seq(|raws|, i requires 0 <= i < |raws| => RowFor(dataDir, raws[i]))
  }

  /** The rows of one path, in their order. */
  ghost function OfPath(raws: seq<T.RawFile>, path: string): seq<T.RawFile> {
    if raws == [] then []
    else
      var init, last := OfPath(raws[..|raws| - 1], path), raws[|raws| - 1];
      if last.path == path then init + [last] else init
  }

  /** The file that the rows of one path describe. */
  ghost function Described(path: string, mine: seq<T.RawFile>): HashedFile
    requires mine != []
  {
    HashedFile(path, mine[0].fileSize,
               seq(|mine|, i requires 0 <= i < |mine| => HashRef(mine[i].hash, mine[i].chunkSize, mine[i].layout)))
  }

  lemma {:induction false} OfPathMembers(raws: seq<T.RawFile>, path: string)
    ensures forall raw :: raw in OfPath(raws, path) <==> raw in raws && raw.path == path
  {
    if raws != [] {
      OfPathMembers(raws[..|raws| - 1], path);
      assert raws == raws[..|raws| - 1] + [raws[|raws| - 1]];
    }
  }

  lemma {:induction false} RowsOfPath(dataDir: string, raws: seq<T.RawFile>, parts: seq<string>)
    requires AllStorable(raws) && WellFormed(parts)
    ensures AllStorable(OfPath(raws, Join(parts)))
    ensures RowsOf(RowsFor(dataDir, raws), parts) == RowsFor(dataDir, OfPath(raws, Join(parts)))
  {
    OfPathMembers(raws, Join(parts));
    if raws != [] {
      var init, last := raws[..|raws| - 1], raws[|raws| - 1];
      assert AllStorable(init) && Storable(last);
      RowsOfPath(dataDir, init, parts);
      OneRowMore(dataDir, raws, parts);
      if last.path == Join(parts) {
        var mine := OfPath(init, Join(parts));
        assert RowsFor(dataDir, mine + [last]) == RowsFor(dataDir, mine) + [RowFor(dataDir, last)];
      }
    }
  }

  lemma OneRowMore(dataDir: string, raws: seq<T.RawFile>, parts: seq<string>)
    requires AllStorable(raws) && raws != [] && WellFormed(parts)
    ensures AllStorable(raws[..|raws| - 1]) && Storable(raws[|raws| - 1])
    ensures var init, last := RowsOf(RowsFor(dataDir, raws[..|raws| - 1]), parts), raws[|raws| - 1];
            RowsOf(RowsFor(dataDir, raws), parts) ==
            if last.path == Join(parts) then init + [RowFor(dataDir, last)] else init
  {
    var n := |raws| - 1;
    assert raws[n] in raws && forall raw | raw in raws[..n] :: raw in raws;
    assert RowsFor(dataDir, raws)[..n] == RowsFor(dataDir, raws[..n]);
    SamePath(raws[n].path, parts);
  }

  lemma SamePath(path: string, parts: seq<string>)
    requires WellFormed(parts)
    ensures Split(path) == parts <==> path == Join(parts)
  {
    SplitJoin(parts);
    JoinSplit(path);
  }

  lemma RowsAreClean(dataDir: string, raws: seq<T.RawFile>)
    requires AllStorable(raws)
    ensures CleanPaths(RowsFor(dataDir, raws))
  {
    forall r | r in RowsFor(dataDir, raws) ensures WellFormed(Split(r.path)) {
      var i :| 0 <= i < |raws| && r == RowFor(dataDir, raws[i]);
      assert raws[i] in raws;
    }
  }

  /** Hash, size and layout of every chunk come back from its path. */
  lemma FlattenedIsDescribed(dataDir: string, raws: seq<T.RawFile>, parts: seq<string>)
    requires AllStorable(raws) && WellFormed(parts)
    ensures var mine := OfPath(raws, Join(parts));
            var found := FileAt(Build(RowsFor(dataDir, raws)), parts);
            && (found.Some? <==> mine != [])
            && (mine != [] ==> Flattened(dataDir, Join(parts), found.value) == Described(Join(parts), mine))
  {
    var mine := OfPath(raws, Join(parts));
    RowsAreClean(dataDir, raws);
    BuildFiles(RowsFor(dataDir, raws), parts);
    RowsOfPath(dataDir, raws, parts);
    if mine != [] {
      var node := FileAt(Build(RowsFor(dataDir, raws)), parts).value;
      forall i | 0 <= i < |mine|
        ensures HashesOf(dataDir, node.chunks)[i] == HashRef(mine[i].hash, mine[i].chunkSize, mine[i].layout)
      {
        assert mine[i] in mine;
        PathRoundTrip(dataDir, mine[i].hash, mine[i].layout);
      }
      assert HashesOf(dataDir, node.chunks) == Described(Join(parts), mine).hashes;
    }
  }

  /** The tree's file has a chunk for each row of its path, in their order, with the size and the
      layout of the row, under the path that the layout gives the hash. */
  lemma TreeHasRows(dataDir: string, raws: seq<T.RawFile>, path: string)
    requires AllStorable(raws) && WellFormed(Split(path))
    ensures var mine, found := OfPath(raws, path), FileAt(Build(RowsFor(dataDir, raws)), Split(path));
            && (found.Some? <==> mine != [])
            && (found.Some? ==>
                  && found.value.size == mine[0].fileSize && |found.value.chunks| == |mine|
                  && forall i | 0 <= i < |mine| ::
                       && mine[i].layout <= 2 && |mine[i].hash| >= MinLength(mine[i].layout)
                       && found.value.chunks[i].size == mine[i].chunkSize
                       && found.value.chunks[i].layout == mine[i].layout
                       && found.value.chunks[i].path == GetHashedFilename(dataDir, mine[i].hash, mine[i].layout))
  {
    var mine := OfPath(raws, path);
    JoinSplit(path);
    RowsAreClean(dataDir, raws);
    BuildFiles(RowsFor(dataDir, raws), Split(path));
    RowsOfPath(dataDir, raws, Split(path));
    forall i | 0 <= i < |mine| ensures Storable(mine[i]) {
      assert mine[i] in mine;
    }
  }

  /** What the flattened tree of `raws` is. */
  ghost predicate ListsRows(raws: seq<T.RawFile>, files: seq<HashedFile>) {
    && DistinctPaths(files)
    && forall f :: f in files <==> OfPath(raws, f.path) != [] && f == Described(f.path, OfPath(raws, f.path))
  }

  /** Build the tree from rows, walk it, and flatten it: every path once, with the size and the
      chunks it had in the rows, in their order. */
  method Replicate(dataDir: string, raws: seq<T.RawFile>) returns (files: seq<HashedFile>)
    requires AllStorable(raws)
    ensures ListsRows(raws, files)
  {
    var rows := RowsFor(dataDir, raws);
    RowsAreClean(dataDir, raws);
    var fs := GetFS(rows);
    BuildIsRooted(rows);
    files := SaveFSLocally(fs, dataDir);
    FlattenInvertsBuild(dataDir, raws, files);
  }

  lemma FlattenInvertsBuild(dataDir: string, raws: seq<T.RawFile>, files: seq<HashedFile>)
    requires AllStorable(raws) && Rooted(Build(RowsFor(dataDir, raws)), [])
    requires ListsTree(Build(RowsFor(dataDir, raws)), dataDir, files)
    ensures ListsRows(raws, files)
  {
    var t := Build(RowsFor(dataDir, raws));
    forall f ensures f in files <==> OfPath(raws, f.path) != [] && f == Described(f.path, OfPath(raws, f.path)) {
      if f in files {
        var parts :| Lists(t, dataDir, parts, f);
        FilesAreClean(t, [], parts);
        assert [] + parts == parts;
        FlattenedIsDescribed(dataDir, raws, parts);
      }
      if OfPath(raws, f.path) != [] && f == Described(f.path, OfPath(raws, f.path)) {
        OfPathMembers(raws, f.path);
        assert OfPath(raws, f.path)[0] in OfPath(raws, f.path);
        JoinSplit(f.path);
        FlattenedIsDescribed(dataDir, raws, Split(f.path));
        assert Lists(t, dataDir, Split(f.path), f);
      }
    }
  }

  lemma {:induction false} FilesAreClean(t: Tree, above: seq<string>, parts: seq<string>)
    requires Rooted(t, above) && parts != [] && FileAt(t, parts).Some?
    ensures WellFormed(above + parts)
    decreases |parts|
  {
    if |parts| == 1 {
      assert parts == [parts[0]] && parts[..0] == [];
    } else {
      FileBelow(t, parts);
      FilesAreClean(t.dirs[parts[0]], above + [parts[0]], parts[1..]);
      assert above + [parts[0]] + parts[1..] == above + parts;
    }
  }
}
