/** Walking a tree, and flattening it back into the list of files it was built from. */
module Walks {
  import opened Options
  import opened PathCodec
  import opened Trees

  /** The root of every directory is its path, and every file has the name it is filed under. */
  ghost predicate Rooted(t: Tree, above: seq<string>) {
    && t.root == (if above == [] then "/" else Join(above))
    && (forall k | k in t.files :: t.files[k].name == k && WellFormed(above + [k]))
    && (forall k | k in t.dirs :: WellFormed(above + [k]) && Rooted(t.dirs[k], above + [k]))
  }

  lemma {:induction false} InsertKeepsRooted(t: Tree, above: seq<string>, parts: seq<string>, row: Row)
    requires parts != [] && WellFormed(above + parts) && Rooted(t, above)
    ensures Rooted(Insert(t, above, parts, row), above)
    decreases |parts|
  {
    if |parts| > 1 {
      var part := parts[0];
      var dir := if part in t.dirs then t.dirs[part] else NewDir(Join(above + [part]));
      InsertBelow(t, above, parts, row);
      assert forall p | p in above + [part] :: p in above + parts;
      InsertKeepsRooted(dir, above + [part], parts[1..], row);
    } else {
      assert parts == [parts[0]];
    }
  }

  lemma {:induction false} BuildIsRooted(rows: seq<Row>)
    requires CleanPaths(rows)
    ensures Rooted(Build(rows), [])
  {
    if rows != [] {
      var init, last := rows[..|rows| - 1], rows[|rows| - 1];
      assert rows == init + [last] && [] + Split(last.path) == Split(last.path);
      BuildIsRooted(init);
      InsertKeepsRooted(Build(init), [], Split(last.path), last);
    }
  }

  // ---- Walk

  /** One call of the walk function; a directory comes without a file. */
  datatype Visit = Visit(path: string, file: Option<Node>)

  /** filepath.Join, for clean arguments. */
  function JoinPath(root: string, name: string): string {
    if root == "/" then "/" + name else root + "/" + name
  }

  /** The parts of a walked path; only the root and its own files come with a leading slash. */
  function PathParts(path: string): seq<string> {
    if path == "/" then [] else Split(TrimPrefix(path, "/"))
  }

  ghost function Located(visits: seq<Visit>): seq<(seq<string>, Option<Node>)> {
    seq(|visits|, i requires 0 <= i < |visits| => (PathParts(visits[i].path), visits[i].file))
  }

  lemma LocatedAppend(vs: seq<Visit>, ws: seq<Visit>)
    ensures Located(vs + ws) == Located(vs) + Located(ws)
  {
  }

  ghost function FilesOf(t: Tree, above: seq<string>, ks: set<string>): set<(seq<string>, Option<Node>)>
    requires ks <= t.files.Keys
  {
    set k | k in ks :: (above + [k], Some(t.files[k]))
  }

  ghost function DirsOf(t: Tree, above: seq<string>, ks: set<string>): set<(seq<string>, Option<Node>)>
    requires ks <= t.dirs.Keys
    decreases t, 0
  {
    set k, x | k in ks && x in Held(t.dirs[k], above + [k]) :: x
  }

  /** All directories and files of the tree with their paths. */
  ghost function Held(t: Tree, above: seq<string>): set<(seq<string>, Option<Node>)>
    decreases t, 1
  {
    {(above, None)} + DirsOf(t, above, t.dirs.Keys) + FilesOf(t, above, t.files.Keys)
  }

  lemma {:induction false} HeldBelow(t: Tree, above: seq<string>, x: (seq<string>, Option<Node>))
    requires x in Held(t, above)
    ensures above <= x.0 && (x.1.Some? ==> |above| < |x.0|)
    decreases t
  {
    if x in DirsOf(t, above, t.dirs.Keys) {
      var k :| k in t.dirs && x in Held(t.dirs[k], above + [k]);
      HeldBelow(t.dirs[k], above + [k], x);
      assert above <= above + [k];
    }
  }

  lemma DirsOfMore(t: Tree, above: seq<string>, ks: set<string>, k: string)
    requires ks <= t.dirs.Keys && k in t.dirs
    ensures DirsOf(t, above, ks + {k}) == DirsOf(t, above, ks) + Held(t.dirs[k], above + [k])
  {
    var more := DirsOf(t, above, ks + {k});
    forall x ensures x in more <==> x in DirsOf(t, above, ks) || x in Held(t.dirs[k], above + [k]) {
      if x in more {
        var j :| j in ks + {k} && x in Held(t.dirs[j], above + [j]);
      }
    }
  }

  lemma SameNext(above: seq<string>, j: string, k: string, parts: seq<string>)
    requires above + [j] <= parts && above + [k] <= parts
    ensures j == k
  {
    assert (above + [k])[|above|] == k && (above + [j])[|above|] == j;
  }

  lemma DirsAreApart(t: Tree, above: seq<string>, ks: set<string>, k: string)
    requires ks <= t.dirs.Keys && k in t.dirs && k !in ks
    ensures ({(above, None)} + DirsOf(t, above, ks)) !! Held(t.dirs[k], above + [k])
  {
    forall x | x in Held(t.dirs[k], above + [k]) ensures x !in {(above, None)} + DirsOf(t, above, ks) {
      HeldBelow(t.dirs[k], above + [k], x);
      if x in DirsOf(t, above, ks) {
        var j :| j in ks && x in Held(t.dirs[j], above + [j]);
        HeldBelow(t.dirs[j], above + [j], x);
        SameNext(above, j, k, x.0);
      }
    }
  }

  lemma FilesOfMore(t: Tree, above: seq<string>, ks: set<string>, k: string)
    requires ks <= t.files.Keys && k in t.files && k !in ks
    ensures FilesOf(t, above, ks + {k}) == FilesOf(t, above, ks) + {(above + [k], Some(t.files[k]))}
    ensures (above + [k], Some(t.files[k])) !in {(above, None)} + DirsOf(t, above, t.dirs.Keys) + FilesOf(t, above, ks)
  {
    var y := (above + [k], Some(t.files[k]));
    if y in DirsOf(t, above, t.dirs.Keys) {
      var j :| j in t.dirs && y in Held(t.dirs[j], above + [j]);
      HeldBelow(t.dirs[j], above + [j], y);
    }
    forall j | j in ks ensures above + [j] != above + [k] {
      assert (above + [j])[|above|] == j && (above + [k])[|above|] == k;
    }
  }

  lemma RootParts(t: Tree, above: seq<string>)
    requires Rooted(t, above) && (above == [] || WellFormed(above))
    ensures PathParts(t.root) == above
  {
    if above != [] {
      SplitJoin(above);
      LastChar(above);
      assert above[0] in above;
      FirstChar(above);
    }
  }

  lemma FirstChar(parts: seq<string>)
    requires WellFormed(parts)
    ensures var s := Join(parts); s != "" && s[0] != '/' && TrimPrefix(s, "/") == s
  {
    assert parts[0] in parts;
  }

  lemma {:induction false} JoinMore(parts: seq<string>, name: string)
    requires parts != []
    ensures Join(parts + [name]) == Join(parts) + "/" + name
  {
    if |parts| == 1 {
      assert (parts + [name])[1..] == [name];
    } else {
      JoinMore(parts[1..], name);
      assert (parts + [name])[1..] == parts[1..] + [name];
    }
  }

  lemma FileParts(t: Tree, above: seq<string>, name: string)
    requires Rooted(t, above) && name in t.files && (above == [] || WellFormed(above))
    ensures PathParts(JoinPath(t.root, name)) == above + [name]
  {
    var parts, path := above + [name], JoinPath(t.root, name);
    FirstChar(parts);
    LastChar(parts);
    SplitJoin(parts);
    if above == [] {
      assert path == "/" + name && path[1..] == name && parts == [name];
    } else {
      JoinMore(above, name);
      FirstChar(above);
    }
  }

  lemma Trimmed(path: string)
    ensures TrimPrefix(path, "/") == Join(PathParts(path))
  {
    JoinSplit(TrimPrefix(path, "/"));
  }

  /** The directory itself, its directories `ks` with all they hold, and its files `fs`. */
  ghost function Part(t: Tree, above: seq<string>, ks: set<string>, fs: set<string>): set<(seq<string>, Option<Node>)>
    requires ks <= t.dirs.Keys && fs <= t.files.Keys
  {
    {(above, None)} + DirsOf(t, above, ks) + FilesOf(t, above, fs)
  }

  lemma PartWithDir(t: Tree, above: seq<string>, ks: set<string>, k: string)
    requires ks <= t.dirs.Keys && k in t.dirs && k !in ks
    ensures Part(t, above, ks, {}) !! Held(t.dirs[k], above + [k])
    ensures Part(t, above, ks + {k}, {}) == Part(t, above, ks, {}) + Held(t.dirs[k], above + [k])
  {
    assert FilesOf(t, above, {}) == {};
    DirsOfMore(t, above, ks, k);
    DirsAreApart(t, above, ks, k);
  }

  lemma PartWithFile(t: Tree, above: seq<string>, ks: set<string>, k: string)
    requires ks <= t.files.Keys && k in t.files && k !in ks
    ensures (above + [k], Some(t.files[k])) !in Part(t, above, t.dirs.Keys, ks)
    ensures Part(t, above, t.dirs.Keys, ks + {k}) == Part(t, above, t.dirs.Keys, ks) + {(above + [k], Some(t.files[k]))}
  {
    FilesOfMore(t, above, ks, k);
  }

  /** The visits are to the places in `places`, each once. */
  ghost predicate Once(visits: seq<Visit>, places: set<(seq<string>, Option<Node>)>) {
    multiset(Located(visits)) == multiset(places)
  }

  lemma OnceMore(vs: seq<Visit>, ws: seq<Visit>, xs: set<(seq<string>, Option<Node>)>,
                 ys: set<(seq<string>, Option<Node>)>)
    requires Once(vs, xs) && Once(ws, ys) && xs !! ys
    ensures Once(vs + ws, xs + ys)
  {
    LocatedAppend(vs, ws);
  }

  lemma VisitRoot(t: Tree, above: seq<string>)
    requires Rooted(t, above) && (above == [] || WellFormed(above))
    ensures Once([Visit(t.root, None)], Part(t, above, {}, {}))
  {
    RootParts(t, above);
    assert Located([Visit(t.root, None)]) == [(above, None)];
    assert Part(t, above, {}, {}) == {(above, None)};
  }

  lemma VisitFile(t: Tree, above: seq<string>, k: string)
    requires Rooted(t, above) && (above == [] || WellFormed(above)) && k in t.files
    ensures Once([Visit(JoinPath(t.root, t.files[k].name), Some(t.files[k]))], {(above + [k], Some(t.files[k]))})
  {
    FileParts(t, above, k);
    assert Located([Visit(JoinPath(t.root, k), Some(t.files[k]))]) == [(above + [k], Some(t.files[k]))];
  }

  /** Walk from a directory's own root: it and everything below it is visited exactly once,
      whatever order the maps are ranged over in. */
  method Walk(t: Tree, ghost above: seq<string>) returns (visits: seq<Visit>)
    requires Rooted(t, above) && (above == [] || WellFormed(above))
    ensures Once(visits, Held(t, above))
    decreases t, 1
  {
    visits := [Visit(t.root, None)];
    VisitRoot(t, above);
    visits := WalkDirs(t, above, visits);
    visits := WalkFiles(t, above, visits);
  }

  method WalkDirs(t: Tree, ghost above: seq<string>, before: seq<Visit>) returns (visits: seq<Visit>)
    requires Rooted(t, above) && Once(before, Part(t, above, {}, {}))
    ensures Once(visits, Part(t, above, t.dirs.Keys, {}))
    decreases t, 0
  {
    visits := before;
    var todo := t.dirs.Keys;
    ghost var done: set<string> := {};
    while todo != {}
      invariant todo <= t.dirs.Keys && done == t.dirs.Keys - todo
      invariant Once(visits, Part(t, above, done, {}))
    {
      var k :| k in todo;
      var below := Walk(t.dirs[k], above + [k]);
      PartWithDir(t, above, done, k);
      OnceMore(visits, below, Part(t, above, done, {}), Held(t.dirs[k], above + [k]));
      visits := visits + below;
      todo, done := todo - {k}, done + {k};
    }
    assert done == t.dirs.Keys;
  }

  method WalkFiles(t: Tree, ghost above: seq<string>, before: seq<Visit>) returns (visits: seq<Visit>)
    requires Rooted(t, above) && (above == [] || WellFormed(above))
    requires Once(before, Part(t, above, t.dirs.Keys, {}))
    ensures Once(visits, Held(t, above))
  {
    visits := before;
    var todo := t.files.Keys;
    ghost var done: set<string> := {};
    while todo != {}
      invariant todo <= t.files.Keys && done == t.files.Keys - todo
      invariant Once(visits, Part(t, above, t.dirs.Keys, done))
    {
      var k :| k in todo;
      var v := Visit(JoinPath(t.root, t.files[k].name), Some(t.files[k]));
      VisitFile(t, above, k);
      PartWithFile(t, above, done, k);
      OnceMore(visits, [v], Part(t, above, t.dirs.Keys, done), {(above + [k], Some(t.files[k]))});
      visits := visits + [v];
      todo, done := todo - {k}, done + {k};
    }
    assert done == t.files.Keys;
  }
}
