/** The archive of a tree, and its length foretold without reading a file. */
module Tars {
  import opened Options
  import PathCodec
  import opened Trees
  import opened Walks
  import ChunkedFiles
  import Flattening

  type Byte = ChunkedFiles.Byte

  /** What goes down the wire: the header blocks of a file, its data, or filling. */
  datatype Piece = Header(name: string, size: int, blocks: nat) | Data(bytes: seq<Byte>) | Zeros(count: nat)

  const BLOCK := 512

  function Length(archive: seq<Piece>): nat {
    if archive == [] then 0
    else
      Length(archive[..|archive| - 1]) +
      match archive[|archive| - 1]
      case Header(_, _, blocks) => BLOCK * blocks
      case Data(bytes) => |bytes|
      case Zeros(count) => count
  }

  /** The remainder as Go computes it. */
  function Rem(a: int, b: int): int
    requires b > 0
  {
    if a >= 0 then a % b else -((-a) % b)
  }

  function Padded(size: int): int {
    size + if Rem(size, BLOCK) != 0 then BLOCK - Rem(size, BLOCK) else 0
  }

  /** Data is filled up to the next multiple of 512, and not beyond. */
  lemma PaddedIs(size: nat)
    ensures Padded(size) % 512 == 0 && size <= Padded(size) < size + 512
  {
  }

  /** The names of visible files: not hidden at the top. */
  function NameOf(path: string): string {
    PathCodec.TrimPrefix(path, "/")
  }

  predicate Skipped(path: string) {
    "." <= NameOf(path) || path == "/"
  }

  // ---- Sums over the tree, in no order

  // The fields of a ustar header (IEEE Std 1003.1, pax utility): 100 bytes for the name, 155 for
  // a prefix of it, and eleven octal digits for the size.
  const NAME_SIZE := 100
  const PREFIX_SIZE := 155
  const SIZE_LIMIT := 0x2_0000_0000

  predicate IsAscii(name: string) {
    forall c | c in name :: 0 < c as int < 128
  }

  /** The name falls apart at the slash at `i` into a prefix and a name that fit. */
  predicate SplitsAt(name: string, i: nat) {
    i < |name| && name[i] == '/' && 0 < i <= PREFIX_SIZE && 0 < |name| - i - 1 <= NAME_SIZE
  }

  /** Name and size fit a plain ustar header. */
  predicate FitsUstar(name: string, size: int) {
    && 0 <= size < SIZE_LIMIT
    && IsAscii(name)
    && (|name| <= NAME_SIZE || exists i :: 0 <= i < |name| && SplitsAt(name, i))
  }

  /** How many blocks the archive's writer needs for the header of a name and a size. */
  type Headers = (string, int) -> nat

  /** One exactly for what fits a plain header, else more. */
  ghost predicate IsUstar(headers: Headers) {
    forall name, size :: headers(name, size) >= 1 && (headers(name, size) == 1 <==> FitsUstar(name, size))
  }

  function OneBlock(name: string, size: int): nat {
    1
  }

  type Place = (seq<string>, Option<Node>)

  predicate Shown(x: Place) {
    x.1.Some? && x.0 != [] && !("." <= Join(x.0))
  }

  function Cost(x: Place, headers: Headers): int {
    if Shown(x) then BLOCK * headers(Join(x.0), x.1.value.size) + Padded(x.1.value.size) else 0
  }

  ghost function CostOf(places: set<Place>, headers: Headers): int {
    if places == {} then 0
    else
      var x :| x in places;
      Cost(x, headers) + CostOf(places - {x}, headers)
  }

  lemma {:induction false} CostWithout(places: set<Place>, headers: Headers, x: Place)
    requires x in places
    ensures CostOf(places, headers) == Cost(x, headers) + CostOf(places - {x}, headers)
    decreases |places|
  {
    var y :| y in places && CostOf(places, headers) == Cost(y, headers) + CostOf(places - {y}, headers);
    if y != x {
      CostWithout(places - {y}, headers, x);
      CostWithout(places - {x}, headers, y);
      assert places - {y} - {x} == places - {x} - {y};
    }
  }

  function Total(places: seq<Place>, headers: Headers): int {
    if places == [] then 0 else Total(places[..|places| - 1], headers) + Cost(places[|places| - 1], headers)
  }

  lemma {:induction false} TotalAppend(xs: seq<Place>, ys: seq<Place>, headers: Headers)
    ensures Total(xs + ys, headers) == Total(xs, headers) + Total(ys, headers)
  {
    if ys == [] {
      assert xs + ys == xs;
    } else {
      assert (xs + ys)[..|xs + ys| - 1] == xs + ys[..|ys| - 1];
      TotalAppend(xs, ys[..|ys| - 1], headers);
    }
  }

  /** Any listing of the set has the same total. */
  lemma {:induction false} TotalIsCost(xs: seq<Place>, places: set<Place>, headers: Headers)
    requires multiset(xs) == multiset(places)
    ensures Total(xs, headers) == CostOf(places, headers)
    decreases |xs|
  {
    if xs == [] {
      assert |multiset(places)| == 0;
    } else {
      var n := |xs| - 1;
      var x := xs[n];
      assert xs == xs[..n] + [x];
      assert x in multiset(xs);
      assert multiset(xs[..n]) == multiset(xs) - multiset{x};
      assert multiset(places - {x}) == multiset(places) - multiset{x};
      TotalIsCost(xs[..n], places - {x}, headers);
      CostWithout(places, headers, x);
    }
  }

  /** A header and padded data for each visible file, and two end blocks. */
  ghost function ArchiveSize(t: Tree): int {
    CostOf(Held(t, []), OneBlock) + 2 * BLOCK
  }

  lemma VisitCost(v: Visit, headers: Headers)
    ensures Cost((PathParts(v.path), v.file), headers) ==
            if v.file.None? || Skipped(v.path) then 0
            else BLOCK * headers(NameOf(v.path), v.file.value.size) + Padded(v.file.value.size)
  {
    Trimmed(v.path);
  }

  method TarSize(t: Tree) returns (size: int)
    requires Rooted(t, [])
    ensures size == ArchiveSize(t)
  {
    var visits := Walk(t, []);
    size := 0;
    for i := 0 to |visits|
      invariant size == Total(Located(visits)[..i], OneBlock)
    {
      var path := visits[i].path;
      VisitCost(visits[i], OneBlock);
      assert Located(visits)[..i + 1][..i] == Located(visits)[..i];
      if !Skipped(path) && visits[i].file.Some? {
        var f := visits[i].file.value;
        size := size + BLOCK;
        size := size + f.size;
        if Rem(f.size, BLOCK) != 0 {
          size := size + BLOCK - Rem(f.size, BLOCK);
        }
      }
    }
    assert Located(visits)[..|visits|] == Located(visits);
    TotalIsCost(Located(visits), Held(t, []), OneBlock);
    size := size + BLOCK * 2;
  }

  /** Every file in the tree reads as many bytes as it claims. */
  ghost predicate ReadsItsSize(t: Tree, content: Node -> seq<Byte>) {
    forall x | x in Held(t, []) && x.1.Some? :: |content(x.1.value)| == x.1.value.size
  }

  /** The named files in the archive, read off its headers: the data behind a header is a file if it
      is as long as the header says. */
  function Members(archive: seq<Piece>): seq<(string, seq<Byte>)> {
    if archive == [] then []
    else
      var n := |archive| - 1;
      Members(archive[..n]) +
      if n > 0 && archive[n].Data? && archive[n - 1].Header? && archive[n - 1].size == |archive[n].bytes|
      then [(archive[n - 1].name, archive[n].bytes)]
      else []
  }

  function PiecesOf(name: string, size: int, blocks: nat, bytes: seq<Byte>): seq<Piece>
    requires |bytes| == size
  {
    [Header(name, size, blocks), Data(bytes), Zeros(Padded(size) - size)]
  }

  lemma MorePieces(archive: seq<Piece>, name: string, size: int, blocks: nat, bytes: seq<Byte>)
    requires |bytes| == size
    ensures var more := archive + PiecesOf(name, size, blocks, bytes);
            Members(more) == Members(archive) + [(name, bytes)] &&
            Length(more) == Length(archive) + BLOCK * blocks + Padded(size)
  {
    var h, d, z := Header(name, size, blocks), Data(bytes), Zeros(Padded(size) - size);
    var one, two := archive + [h], archive + [h] + [d];
    assert one[..|archive|] == archive && two[..|one|] == one;
    assert archive + PiecesOf(name, size, blocks, bytes) == two + [z];
    assert (two + [z])[..|two|] == two;
    assert Members(one) == Members(archive) && Length(one) == Length(archive) + BLOCK * blocks;
    assert two[|archive|] == h && two[|one|] == d;
    assert Members(two) == Members(one) + [(name, bytes)] && Length(two) == Length(one) + |bytes|;
    assert Members(two + [z]) == Members(two) + [];
    assert Length(two + [z]) == Length(two) + (Padded(size) - size);
  }

  lemma Trailer(archive: seq<Piece>)
    ensures Members(archive + [Zeros(2 * BLOCK)]) == Members(archive)
    ensures Length(archive + [Zeros(2 * BLOCK)]) == Length(archive) + 2 * BLOCK
  {
    assert (archive + [Zeros(2 * BLOCK)])[..|archive|] == archive;
  }

  ghost predicate IsMember(t: Tree, content: Node -> seq<Byte>, name: string, bytes: seq<Byte>) {
    exists parts {:trigger FileAt(t, parts)} ::
      parts != [] && FileAt(t, parts).Some? && name == Join(parts) && !("." <= name) &&
      bytes == content(FileAt(t, parts).value)
  }

  /** An archive that holds the first `n` visited places. */
  ghost predicate Holds(archive: seq<Piece>, content: Node -> seq<Byte>, headers: Headers, visits: seq<Visit>, n: nat)
    requires n <= |visits|
  {
    && Length(archive) == Total(Located(visits)[..n], headers)
    && forall m :: m in Members(archive) <==> exists j :: 0 <= j < n && Writes(content, visits[j], m)
  }

  ghost predicate Writes(content: Node -> seq<Byte>, v: Visit, m: (string, seq<Byte>)) {
    v.file.Some? && !Skipped(v.path) && m == (NameOf(v.path), content(v.file.value))
  }

  lemma OneMoreTotal(visits: seq<Visit>, i: nat, headers: Headers)
    requires i < |visits|
    ensures Total(Located(visits)[..i + 1], headers) ==
            Total(Located(visits)[..i], headers) +
              if visits[i].file.Some? && !Skipped(visits[i].path)
              then BLOCK * headers(NameOf(visits[i].path), visits[i].file.value.size) +
                   Padded(visits[i].file.value.size)
              else 0
  {
    VisitCost(visits[i], headers);
    assert Located(visits)[..i + 1][..i] == Located(visits)[..i];
  }

  method WriteFile(archive: seq<Piece>, content: Node -> seq<Byte>, headers: Headers, ghost visits: seq<Visit>,
                   ghost i: nat, v: Visit)
    returns (more: seq<Piece>)
    requires i < |visits| && visits[i] == v && Holds(archive, content, headers, visits, i)
    requires v.file.Some? ==> |content(v.file.value)| == v.file.value.size
    ensures Holds(more, content, headers, visits, i + 1)
  {
    OneMoreTotal(visits, i, headers);
    more := archive;
    if !Skipped(v.path) && v.file.Some? {
      var f := v.file.value;
      var blocks := headers(NameOf(v.path), f.size);
      MorePieces(archive, NameOf(v.path), f.size, blocks, content(f));
      more := archive + PiecesOf(NameOf(v.path), f.size, blocks, content(f));
      assert Writes(content, visits[i], (NameOf(v.path), content(f)));
    }
  }

  /** Every visible name and size fits a plain header. */
  ghost predicate HeadersFit(t: Tree) {
    FitIn(Held(t, []))
  }

  ghost predicate FitIn(places: set<Place>) {
    forall x: Place | x in places && Shown(x) :: FitsUstar(Join(x.0), x.1.value.size)
  }

  lemma {:induction false} FitsIffSameCost(places: set<Place>, headers: Headers)
    requires IsUstar(headers)
    ensures CostOf(places, headers) >= CostOf(places, OneBlock)
    ensures CostOf(places, headers) == CostOf(places, OneBlock) <==> FitIn(places)
  {
    if places != {} {
      var x :| x in places;
      CostWithout(places, headers, x);
      CostWithout(places, OneBlock, x);
      FitsIffSameCost(places - {x}, headers);
      assert FitIn(places) <==> FitIn(places - {x}) && (Shown(x) ==> FitsUstar(Join(x.0), x.1.value.size));
    }
  }

  /** WriteTar and the writer's Close: every visible file of the tree, whole, in as many bytes as
      TarSize foretells exactly if every visible name and size fits a plain header; else in
      more. */
  method WriteTar(t: Tree, content: Node -> seq<Byte>, headers: Headers) returns (archive: seq<Piece>)
    requires Rooted(t, []) && ReadsItsSize(t, content) && IsUstar(headers)
    ensures Length(archive) >= ArchiveSize(t)
    ensures Length(archive) == ArchiveSize(t) <==> HeadersFit(t)
    ensures forall name, bytes :: (name, bytes) in Members(archive) <==> IsMember(t, content, name, bytes)
  {
    var visits := Walk(t, []);
    archive := [];
    for i := 0 to |visits|
      invariant Holds(archive, content, headers, visits, i)
    {
      Flattening.VisitIsHeld(t, visits, i);
      archive := WriteFile(archive, content, headers, visits, i, visits[i]);
    }
    assert Located(visits)[..|visits|] == Located(visits);
    TotalIsCost(Located(visits), Held(t, []), headers);
    FitsIffSameCost(Held(t, []), headers);
    Trailer(archive);
    forall name, bytes ensures (name, bytes) in Members(archive) <==> IsMember(t, content, name, bytes) {
      if j :| 0 <= j < |visits| && Writes(content, visits[j], (name, bytes)) {
        WrittenIsMember(t, content, visits, j, name, bytes);
      }
      if IsMember(t, content, name, bytes) {
        var j := MemberIsWritten(t, content, visits, name, bytes);
      }
    }
    archive := archive + [Zeros(2 * BLOCK)];
  }

  lemma WrittenIsMember(t: Tree, content: Node -> seq<Byte>, visits: seq<Visit>, j: nat, name: string, bytes: seq<Byte>)
    requires Once(visits, Held(t, [])) && j < |visits| && Writes(content, visits[j], (name, bytes))
    ensures IsMember(t, content, name, bytes)
  {
    var parts := PathParts(visits[j].path);
    Flattening.VisitIsHeld(t, visits, j);
    HeldBelow(t, [], (parts, visits[j].file));
    assert [] + parts == parts;
    Flattening.HeldAt(t, [], parts, visits[j].file.value);
    Trimmed(visits[j].path);
  }

  lemma MemberIsWritten(t: Tree, content: Node -> seq<Byte>, visits: seq<Visit>, name: string, bytes: seq<Byte>)
    returns (j: nat)
    requires Once(visits, Held(t, [])) && IsMember(t, content, name, bytes)
    ensures j < |visits| && Writes(content, visits[j], (name, bytes))
  {
    var parts {:trigger FileAt(t, parts)} :|
      parts != [] && FileAt(t, parts).Some? && name == Join(parts) && !("." <= name) &&
      bytes == content(FileAt(t, parts).value);
    var file := FileAt(t, parts);
    assert [] + parts == parts;
    Flattening.HeldAt(t, [], parts, file.value);
    j := Flattening.HeldIsVisited(t, visits, (parts, file));
    VisitWrites(content, visits[j], parts, file.value);
  }

  lemma VisitWrites(content: Node -> seq<Byte>, v: Visit, parts: seq<string>, file: Node)
    requires parts != [] && PathParts(v.path) == parts && v.file == Some(file) && !("." <= Join(parts))
    ensures Writes(content, v, (Join(parts), content(file)))
  {
    Trimmed(v.path);
  }

  /** Every archive is made of whole blocks. */
  lemma {:induction false} WholeBlocks(places: set<Place>) returns (n: int)
    ensures CostOf(places, OneBlock) == BLOCK * n
  {
    n := 0;
    if places != {} {
      var x :| x in places;
      CostWithout(places, OneBlock, x);
      var m := WholeBlocks(places - {x});
      n := m;
      if Shown(x) {
        var k := PaddedBlocks(x.1.value.size);
        n := m + k + 1;
        assert Cost(x, OneBlock) == BLOCK + BLOCK * k;
      } else {
        assert Cost(x, OneBlock) == 0;
      }
      assert Cost(x, OneBlock) == BLOCK * (n - m);
    }
  }

  lemma PaddedBlocks(size: int) returns (n: int)
    ensures Padded(size) == BLOCK * n
  {
    n := if Rem(size, BLOCK) == 0 then size / BLOCK else if size > 0 then size / BLOCK + 1 else 1 - (-size) / BLOCK;
  }

  lemma ArchiveIsWholeBlocks(t: Tree)
    ensures ArchiveSize(t) % 512 == 0
  {
    var n := WholeBlocks(Held(t, []));
    assert ArchiveSize(t) == BLOCK * (n + 2);
  }

  /** A file costs 512 bytes and its data filled up, unless its path begins with a dot. */
  lemma CostIs(parts: seq<string>, node: Node)
    requires parts != [] && node.size >= 0
    ensures var hidden, cost := Join(parts) != "" && Join(parts)[0] == '.', Cost((parts, Some(node)), OneBlock);
            if hidden then cost == 0
            else cost % 512 == 0 && 512 + node.size <= cost < 512 + node.size + 512
  {
    PaddedIs(node.size);
  }

  lemma CostOfOne(x: Place, y: Place, headers: Headers)
    requires x != y && Cost(x, headers) == 0
    ensures CostOf({x, y}, headers) == Cost(y, headers)
  {
    CostWithout({x, y}, headers, x);
    assert {x, y} - {x} == {y};
    CostWithout({y}, headers, y);
    assert {y} - {y} == {};
  }

  /** The archive of a tree of one file: a header, its data filled up, and two end blocks. */
  lemma SizeOfOneFile(name: string, node: Node)
    requires node.size >= 0
    ensures var size := ArchiveSize(Tree("/", false, map[], map[name := node]));
            if name != "" && name[0] == '.' then size == 1024
            else size % 512 == 0 && 1536 + node.size <= size < 1536 + node.size + 512
  {
    var t := Tree("/", false, map[], map[name := node]);
    var root: Place, file: Place := ([], None), ([name], Some(node));
    assert [] + [name] == [name];
    assert FilesOf(t, [], t.files.Keys) == {file};
    assert Held(t, []) == {root, file};
    CostOfOne(root, file, OneBlock);
    CostIs([name], node);
  }

  /** What the pieces of one file are on the wire. */
  lemma PiecesOnWire(name: string, size: int, blocks: nat, bytes: seq<Byte>, zeros: nat)
    ensures var archive := [Header(name, size, blocks), Data(bytes), Zeros(zeros)];
            && Length(archive) == 512 * blocks + |bytes| + zeros
            && Members(archive) == if size == |bytes| then [(name, bytes)] else []
  {
    var h, d, z := Header(name, size, blocks), Data(bytes), Zeros(zeros);
    var one, two, all := [h], [h, d], [h, d, z];
    assert one[..0] == [] && two[..1] == one && all[..2] == two;
    assert Length(one) == 512 * blocks && Members(one) == [];
    assert Length(two) == Length(one) + |bytes| && two[0] == h && two[1] == d;
    assert Members(two) == [] + if size == |bytes| then [(name, bytes)] else [];
    assert Length(all) == Length(two) + zeros && Members(all) == Members(two) + [];
  }

  // ---- Names at the limit

  function Letters(n: nat): string {
    seq(n, _ => 'a')
  }

  /** A hundred letters fit, one more does not. */
  lemma LongestName(n: nat, size: int)
    requires 0 <= size < SIZE_LIMIT
    ensures FitsUstar(Letters(n), size) <==> n <= 100
  {
    assert forall i | 0 <= i < n :: Letters(n)[i] == 'a';
  }

  /** The limits: a size of eleven octal digits, and with one slash 155 letters before it and 100
      behind it. */
  lemma Limits(m: nat, n: nat, size: int)
    requires m > 0
    ensures FitsUstar(Letters(m) + "/" + Letters(n), size) <==>
            0 <= size < 8589934592 && (m + 1 + n <= 100 || (m <= 155 && 0 < n <= 100))
  {
    var name := Letters(m) + "/" + Letters(n);
    assert name[m] == '/' && |name| == m + 1 + n;
    assert forall i | 0 <= i < |name| && i != m :: name[i] == 'a';
    assert IsAscii(name);
    if SplitsAt(name, m) {
      assert 0 <= m < |name|;
    }
  }

  lemma OneFileTree(name: string, node: Node) returns (t: Tree)
    requires WellFormed([name]) && node.name == name
    ensures Rooted(t, []) && ([name], Some(node)) in Held(t, [])
  {
    t := Tree("/", false, map[], map[name := node]);
    assert [] + [name] == [name];
    assert ([] + [name], Some(t.files[name])) in FilesOf(t, [], t.files.Keys);
  }

  /** An empty file with a name of 101 letters makes the archive longer than foretold. */
  lemma LongNameCounterexample() returns (t: Tree)
    ensures Rooted(t, []) && !HeadersFit(t)
  {
    var name := Letters(NAME_SIZE + 1);
    assert name[0] == 'a' && name[1] == 'a' && forall i | 0 <= i < |name| :: name[i] == 'a';
    var node := Node(name, 0, []);
    t := OneFileTree(name, node);
    LongestName(NAME_SIZE + 1, 0);
    var x: Place := ([name], Some(node));
    assert Join([name]) == name && Shown(x);
  }
}
