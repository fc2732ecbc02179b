/** The directory tree: built from flat rows, looked up by path, walked, and flattened again. */
module Trees {
  import opened Options

  // ---- Paths and their parts

  /** strings.Split(s, "/") */
  function Split(s: string): (parts: seq<string>)
    ensures parts != []
  {
    if s == "" then [""]
    else
      var rest := Split(s[1..]);
      if s[0] == '/' then [""] + rest else [[s[0]] + rest[0]] + rest[1..]
  }

  /** strings.Join(parts, "/") */
  function Join(parts: seq<string>): string {
    if parts == [] then ""
    else if |parts| == 1 then parts[0]
    else parts[0] + "/" + Join(parts[1..])
  }

  lemma {:induction false} JoinSplit(s: string)
    ensures Join(Split(s)) == s
  {
    if s != "" {
      JoinSplit(s[1..]);
      var rest := Split(s[1..]);
      if s[0] == '/' {
        assert ([""] + rest)[1..] == rest;
      } else if |rest| > 1 {
        assert ([[s[0]] + rest[0]] + rest[1..])[1..] == rest[1..];
        assert [s[0]] + (rest[0] + "/" + Join(rest[1..])) == [s[0]] + rest[0] + "/" + Join(rest[1..]);
      }
    }
  }

  lemma {:induction false} SplitFirst(part: string, rest: string)
    requires '/' !in part
    ensures Split(part + "/" + rest) == [part] + Split(rest)
    ensures Split(part) == [part]
  {
    if part == "" {
      assert (part + "/" + rest)[1..] == rest;
    } else {
      SplitFirst(part[1..], rest);
      assert (part + "/" + rest)[1..] == part[1..] + "/" + rest;
      assert [part[0]] + part[1..] == part;
    }
  }

  lemma {:induction false} SplitJoin(parts: seq<string>)
    requires parts != [] && forall p | p in parts :: '/' !in p
    ensures Split(Join(parts)) == parts
  {
    assert parts[0] in parts;
    SplitFirst(parts[0], Join(parts[1..]));
    if |parts| > 1 {
      SplitJoin(parts[1..]);
      assert parts == [parts[0]] + parts[1..];
    } else {
      assert parts == [parts[0]];
    }
  }

  function WithoutTrailingSlashes(path: string): string {
    if path != "" && path[|path| - 1] == '/' then WithoutTrailingSlashes(path[..|path| - 1]) else path
  }

  /** filepath.Base */
  function Base(path: string): string {
    var p := WithoutTrailingSlashes(path);
    if path == "" then "." else if p == "" then "/" else Split(p)[|Split(p)| - 1]
  }

  /** A relative path in its shortest form. */
  predicate WellFormed(parts: seq<string>) {
    parts != [] && forall p | p in parts :: p != "" && '/' !in p && p != "." && p != ".."
  }

  lemma {:induction false} LastChar(parts: seq<string>)
    requires WellFormed(parts)
    ensures var s := Join(parts); s != "" && s[|s| - 1] != '/'
  {
    assert parts[0] in parts;
    if |parts| > 1 {
      assert forall p | p in parts[1..] :: p in parts;
      LastChar(parts[1..]);
    }
  }

  lemma BaseOfJoin(above: seq<string>, part: string)
    requires WellFormed(above + [part])
    ensures Join(above + [part]) != "/" && Base(Join(above + [part])) == part
  {
    LastChar(above + [part]);
    SplitJoin(above + [part]);
  }

  // ---- The tree

  datatype ChunkRef = ChunkRef(path: string, size: int, layout: nat)
  datatype Node = Node(name: string, size: int, chunks: seq<ChunkRef>)

  /** `asFile` says whether the directory object has been computed. */
  datatype Tree = Tree(root: string, asFile: bool, dirs: map<string, Tree>, files: map<string, Node>)

  /** What GetFS reads of one row of the join. */
  datatype Row = Row(path: string, fileSize: int, chunk: ChunkRef)

  function NewDir(root: string): Tree {
    Tree(root, false, map[], map[])
  }

  /** The inner loop of GetFS: walk down the parts, adding directories, and append the chunk to
      the file at the end. */
  function Insert(t: Tree, above: seq<string>, parts: seq<string>, row: Row): Tree
    requires parts != []
    decreases |parts|
  {
    var part := parts[0];
    if |parts| == 1 then
      if part in t.files then t.(files := t.files[part := t.files[part].(chunks := t.files[part].chunks + [row.chunk])])
      else t.(files := t.files[part := Node(part, row.fileSize, [row.chunk])])
    else
      var dirname := Join(above + [part]);
      if dirname == "/" then Insert(t, above + [part], parts[1..], row)
      else
        // AddDir
        var base := Base(dirname);
        var dir := if base in t.dirs then t.dirs[base] else NewDir(dirname);
        t.(dirs := t.dirs[base := Insert(dir, above + [part], parts[1..], row)])
  }

  /** On a well-formed path no directory is skipped, and each is filed under its own part. */
  lemma InsertBelow(t: Tree, above: seq<string>, parts: seq<string>, row: Row)
    requires WellFormed(above + parts) && |parts| > 1
    ensures var part := parts[0];
            var dir := if part in t.dirs then t.dirs[part] else NewDir(Join(above + [part]));
            && WellFormed((above + [part]) + parts[1..])
            && Insert(t, above, parts, row) == t.(dirs := t.dirs[part := Insert(dir, above + [part], parts[1..], row)])
  {
    assert (above + [parts[0]]) + parts[1..] == above + parts;
    assert forall p | p in above + [parts[0]] :: p in above + parts;
    BaseOfJoin(above, parts[0]);
  }

  ghost function Build(rows: seq<Row>): Tree {
    if rows == [] then NewDir("/")
    else Insert(Build(rows[..|rows| - 1]), [], Split(rows[|rows| - 1].path), rows[|rows| - 1])
  }

  method GetFS(rows: seq<Row>) returns (fs: Tree)
    ensures fs == Build(rows)
  {
    fs := NewDir("/");
    for i := 0 to |rows|
      invariant fs == Build(rows[..i])
    {
      assert rows[..i + 1][..i] == rows[..i];
      fs := Insert(fs, [], Split(rows[i].path), rows[i]);
    }
    assert rows[..|rows|] == rows;
  }

  // ---- What is where

  ghost function DirAt(t: Tree, parts: seq<string>): Option<Tree>
    decreases |parts|
  {
    if parts == [] then Some(t)
    else if parts[0] in t.dirs then DirAt(t.dirs[parts[0]], parts[1..])
    else None
  }

  ghost function FileAt(t: Tree, parts: seq<string>): Option<Node>
    requires parts != []
  {
    var d := DirAt(t, parts[..|parts| - 1]);
    if d.Some? && parts[|parts| - 1] in d.value.files then Some(d.value.files[parts[|parts| - 1]]) else None
  }

  lemma FileBelow(t: Tree, parts: seq<string>)
    requires |parts| > 1
    ensures FileAt(t, parts) == if parts[0] in t.dirs then FileAt(t.dirs[parts[0]], parts[1..]) else None
  {
    assert parts[..|parts| - 1][1..] == parts[1..][..|parts[1..]| - 1];
  }

  /** `q` is a directory on the way to `parts`. */
  ghost predicate Above(q: seq<string>, parts: seq<string>) {
    |q| < |parts| && q == parts[..|q|]
  }

  lemma AboveTail(q: seq<string>, parts: seq<string>)
    requires q != [] && |parts| > 1
    ensures Above(q, parts) <==> q[0] == parts[0] && Above(q[1..], parts[1..])
  {
    if |q| < |parts| {
      assert parts[..|q|] == [parts[0]] + parts[1..][..|q| - 1];
      assert q == [q[0]] + q[1..];
    }
  }

  lemma {:induction false} InsertDirs(t: Tree, above: seq<string>, parts: seq<string>, row: Row, q: seq<string>)
    requires parts != [] && WellFormed(above + parts)
    ensures DirAt(Insert(t, above, parts, row), q).Some? <==> DirAt(t, q).Some? || Above(q, parts)
    decreases |parts|
  {
    if q != [] {
      var part := parts[0];
      if |parts| > 1 {
        var dir := if part in t.dirs then t.dirs[part] else NewDir(Join(above + [part]));
        InsertBelow(t, above, parts, row);
        InsertDirs(dir, above + [part], parts[1..], row, q[1..]);
        AboveTail(q, parts);
      }
    }
  }

  ghost function Appended(n: Option<Node>, name: string, row: Row): Node {
    if n.Some? then n.value.(chunks := n.value.chunks + [row.chunk]) else Node(name, row.fileSize, [row.chunk])
  }

  lemma {:induction false} InsertFiles(t: Tree, above: seq<string>, parts: seq<string>, row: Row, q: seq<string>)
    requires parts != [] && q != [] && WellFormed(above + parts)
    ensures FileAt(Insert(t, above, parts, row), q) ==
            if q == parts then Some(Appended(FileAt(t, q), q[|q| - 1], row)) else FileAt(t, q)
    decreases |parts|
  {
    if |parts| == 1 {
      FileHere(t, above, parts, row, q);
    } else {
      var part := parts[0];
      var dir := if part in t.dirs then t.dirs[part] else NewDir(Join(above + [part]));
      InsertBelow(t, above, parts, row);
      if |q| > 1 {
        InsertFiles(dir, above + [part], parts[1..], row, q[1..]);
        FileUnder(t, part, dir, Insert(dir, above + [part], parts[1..], row), q);
        assert q == [q[0]] + q[1..] && parts == [part] + parts[1..];
      }
    }
  }

  lemma FileHere(t: Tree, above: seq<string>, parts: seq<string>, row: Row, q: seq<string>)
    requires |parts| == 1 && q != []
    ensures FileAt(Insert(t, above, parts, row), q) ==
            if q == parts then Some(Appended(FileAt(t, q), q[|q| - 1], row)) else FileAt(t, q)
  {
    if |q| > 1 {
      FileBelow(t, q);
      FileBelow(Insert(t, above, parts, row), q);
    }
  }

  lemma FileUnder(t: Tree, part: string, dir: Tree, dir': Tree, q: seq<string>)
    requires |q| > 1
    requires dir == if part in t.dirs then t.dirs[part] else NewDir(dir.root)
    ensures FileAt(t.(dirs := t.dirs[part := dir']), q) == if q[0] == part then FileAt(dir', q[1..]) else FileAt(t, q)
    ensures q[0] == part ==> FileAt(t, q) == FileAt(dir, q[1..])
  {
    FileBelow(t, q);
    FileBelow(t.(dirs := t.dirs[part := dir']), q);
  }

  ghost predicate CleanPaths(rows: seq<Row>) {
    forall r | r in rows :: WellFormed(Split(r.path))
  }

  /** The rows of one path, in order. */
  ghost function RowsOf(rows: seq<Row>, parts: seq<string>): seq<Row> {
    if rows == [] then []
    else
      var init, last := RowsOf(rows[..|rows| - 1], parts), rows[|rows| - 1];
      if Split(last.path) == parts then init + [last] else init
  }

  ghost function ChunksOf(rows: seq<Row>): seq<ChunkRef> {
    seq(|rows|, i requires 0 <= i < |rows| => rows[i].chunk)
  }

  /** The file that rows of one path make: the size of the first, the chunks of all. */
  ghost function FileOf(mine: seq<Row>, name: string): Option<Node> {
    if mine == [] then None else Some(Node(name, mine[0].fileSize, ChunksOf(mine)))
  }

  lemma FileOfAppend(mine: seq<Row>, name: string, row: Row)
    ensures FileOf(mine + [row], name) == Some(Appended(FileOf(mine, name), name, row))
  {
    assert ChunksOf(mine + [row]) == ChunksOf(mine) + [row.chunk];
    if mine == [] {
      assert mine + [row] == [row] && ChunksOf([row]) == [row.chunk];
    }
  }

  /** The tree has a directory for each proper prefix of a row's path. */
  lemma {:induction false} BuildDirs(rows: seq<Row>, q: seq<string>)
    requires CleanPaths(rows)
    ensures DirAt(Build(rows), q).Some? <==> q == [] || exists r :: r in rows && Above(q, Split(r.path))
  {
    if rows != [] {
      var init, last := rows[..|rows| - 1], rows[|rows| - 1];
      assert rows == init + [last];
      BuildDirs(init, q);
      assert [] + Split(last.path) == Split(last.path);
      InsertDirs(Build(init), [], Split(last.path), last, q);
    }
  }

  /** The tree has a file for each path, with the chunks of its rows in their order. */
  lemma {:induction false} BuildFiles(rows: seq<Row>, q: seq<string>)
    requires q != [] && CleanPaths(rows)
    ensures FileAt(Build(rows), q) == FileOf(RowsOf(rows, q), q[|q| - 1])
  {
    if rows != [] {
      var init, last := rows[..|rows| - 1], rows[|rows| - 1];
      BuildFiles(init, q);
      assert rows == init + [last] && [] + Split(last.path) == Split(last.path);
      InsertFiles(Build(init), [], Split(last.path), last, q);
      FileOfAppend(RowsOf(init, q), q[|q| - 1], last);
    }
  }

  // ---- Looking up

  /** Prepare: compute the directory objects below, and that of the root itself. */
  function Prepared(t: Tree): Tree {
    t.(asFile := t.asFile || t.root == "/", dirs := map k | k in t.dirs :: Prepared(t.dirs[k]).(asFile := true))
  }

  method Prepare(t: Tree) returns (t': Tree)
    ensures t' == Prepared(t)
    decreases t
  {
    t' := if t.root == "/" then t.(asFile := true) else t;
    var todo := t.dirs.Keys;
    while todo != {}
      invariant todo <= t.dirs.Keys
      invariant t' == t.(asFile := t.asFile || t.root == "/", dirs := t'.dirs)
      invariant t'.dirs == map k | k in t.dirs :: if k in todo then t.dirs[k] else Prepared(t.dirs[k]).(asFile := true)
    {
      var k :| k in todo;
      var d := Prepare(t.dirs[k]);
      t' := t'.(dirs := t'.dirs[k := d.(asFile := true)]);
      todo := todo - {k};
    }
  }

  lemma {:induction false} PreparedDirs(t: Tree, q: seq<string>)
    ensures DirAt(Prepared(t), q).Some? <==> DirAt(t, q).Some?
    ensures DirAt(Prepared(t), q).Some? ==>
              var d, d' := DirAt(t, q).value, DirAt(Prepared(t), q).value;
              d'.files == d.files && (q != [] || t.root == "/" ==> d'.asFile)
    decreases |q|
  {
    if q != [] && q[0] in t.dirs {
      var d, d' := t.dirs[q[0]], Prepared(t).dirs[q[0]];
      PreparedDirs(d, q[1..]);
      assert q[1..] != [] ==> DirAt(d', q[1..]) == DirAt(Prepared(d), q[1..]);
    }
  }

  /** What GetFile returns: nil, a file, or a directory object. */
  datatype Found = Nil | IsFile(file: Node) | IsDir

  /** What stands at a path; a directory of that name hides a file of that name. */
  ghost function Lookup(t: Tree, parts: seq<string>): Found
    requires parts != []
  {
    match DirAt(t, parts)
    case Some(d) => if d.asFile then IsDir else Nil
    case None => match FileAt(t, parts) case Some(f) => IsFile(f) case None => Nil
  }

  method GetDir(t: Tree, dirname: string) returns (dir: Option<Tree>)
    ensures dir == if dirname == t.root || dirname == "." || dirname == "" then Some(t) else DirAt(t, Split(dirname))
  {
    if dirname == t.root || dirname == "." {
      return Some(t);
    }
    var splitted := Split(dirname);
    var curDir := t;
    if dirname == "" {
      return Some(curDir);
    }
    for i := 0 to |splitted|
      invariant DirAt(t, splitted) == DirAt(curDir, splitted[i..])
    {
      assert splitted[i..][0] == splitted[i] && splitted[i..][1..] == splitted[i + 1..];
      if splitted[i] !in curDir.dirs {
        return None;
      }
      curDir := curDir.dirs[splitted[i]];
    }
    return Some(curDir);
  }

  method GetFile(t: Tree, absname: string) returns (found: Found)
    requires t.root == "/"
    ensures absname == "" ==> found == if t.asFile then IsDir else Nil
    ensures WellFormed(Split(absname)) ==> found == Lookup(t, Split(absname))
  {
    var splitted := Split(absname);
    var dirname := Join(splitted[..|splitted| - 1]);
    var filename := splitted[|splitted| - 1];
    if absname == "" {
      assert "" in splitted;
      return if t.asFile then IsDir else Nil;
    }
    var curDir := GetDir(t, dirname);
    if WellFormed(splitted) {
      Dirname(t, splitted);
      DirStep(t, splitted);
    }
    if curDir.None? {
      return Nil;
    }
    if filename in curDir.value.dirs {
      return if curDir.value.dirs[filename].asFile then IsDir else Nil;
    }
    return if filename in curDir.value.files then IsFile(curDir.value.files[filename]) else Nil;
  }

  /** The directory part of a well-formed path names the directory it should. */
  lemma Dirname(t: Tree, parts: seq<string>)
    requires t.root == "/" && WellFormed(parts)
    ensures var init := parts[..|parts| - 1]; var dirname := Join(init);
            (dirname == t.root || dirname == "." || dirname == "" <==> init == []) &&
            (init != [] ==> Split(dirname) == init)
  {
    var init := parts[..|parts| - 1];
    if init != [] {
      SplitJoin(init);
      assert init[0] in parts && init[0] != "";
      assert "/"[1..] == "";
      SplitFirst(".", "");
    }
  }

  lemma {:induction false} JoinAbove(q: seq<string>, rest: seq<string>)
    requires q != [] && rest != []
    ensures Join(q + rest) == Join(q) + "/" + Join(rest)
  {
    if |q| == 1 {
      assert (q + rest)[1..] == rest;
    } else {
      assert (q + rest)[1..] == q[1..] + rest;
      JoinAbove(q[1..], rest);
      assert q[0] + "/" + (Join(q[1..]) + "/" + Join(rest)) == q[0] + "/" + Join(q[1..]) + "/" + Join(rest);
    }
  }

  /** A path is above another one exactly if it stands before a slash of it. */
  lemma AboveIsBeforeSlash(q: seq<string>, path: string)
    requires WellFormed(q) && WellFormed(Split(path))
    ensures Above(q, Split(path)) <==> Join(q) + "/" <= path
  {
    var parts := Split(path);
    JoinSplit(path);
    if Above(q, parts) {
      var rest := parts[|q|..];
      assert parts == q + rest;
      JoinAbove(q, rest);
    }
    if Join(q) + "/" <= path {
      var behind := path[|Join(q) + "/"|..];
      assert path == Join(q) + "/" + behind;
      var rest := Split(behind);
      JoinSplit(behind);
      JoinAbove(q, rest);
      assert forall p | p in q + rest :: '/' !in p by {
        PartsAreSlashFree(behind);
      }
      SplitJoin(q + rest);
      assert parts == q + rest && (q + rest)[..|q|] == q;
    }
  }

  lemma {:induction false} PartsAreSlashFree(s: string)
    ensures forall p | p in Split(s) :: '/' !in p
  {
    if s != "" {
      PartsAreSlashFree(s[1..]);
      var rest := Split(s[1..]);
      assert rest[0] in rest && forall p | p in rest[1..] :: p in rest;
    }
  }

  lemma {:induction false} DirStep(t: Tree, parts: seq<string>)
    requires parts != []
    ensures var d, last := DirAt(t, parts[..|parts| - 1]), parts[|parts| - 1];
            DirAt(t, parts) == if d.Some? && last in d.value.dirs then Some(d.value.dirs[last]) else None
    decreases |parts|
  {
    if |parts| == 1 {
      assert parts[1..] == [];
    } else if parts[0] in t.dirs {
      DirStep(t.dirs[parts[0]], parts[1..]);
      assert parts[..|parts| - 1][1..] == parts[1..][..|parts[1..]| - 1];
    }
  }

  /** GetFile on the prepared tree of any rows: a directory object for a proper prefix of some
      row's path; else the file with that path, its chunks in row order; else nothing. */
  lemma TreeAgreesWithRows(rows: seq<Row>, parts: seq<string>)
    requires CleanPaths(rows) && parts != []
    ensures Lookup(Prepared(Build(rows)), parts) ==
            var mine := RowsOf(rows, parts);
            if exists r :: r in rows && Above(parts, Split(r.path)) then IsDir
            else if mine == [] then Nil
            else IsFile(Node(parts[|parts| - 1], mine[0].fileSize, ChunksOf(mine)))
  {
    PreparedDirs(Build(rows), parts);
    PreparedDirs(Build(rows), parts[..|parts| - 1]);
    BuildDirs(rows, parts);
    BuildFiles(rows, parts);
  }
}
