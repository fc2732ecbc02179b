/** The database tables with their row ids, the snapshot that `Abs` makes of them, and the
    loops inside the database calls. */
module TableRows {
  import opened Options
  import opened Snapshots

  datatype FileRow = FileRow(id: nat, size: int)
  datatype ChunkRow = ChunkRow(id: nat, info: ChunkInfo)
  datatype FileChunk = FileChunk(fileId: nat, chunkId: nat, index: nat)

  /** A file row to be written. */
  datatype File = File(key: FileKey, size: int)

  /** A chunk waiting in the delete buffer. */
  datatype Doomed = Doomed(id: nat, hash: string)

  /** One row of the join of links, files and chunks; also the form in which a save queues
      the links it has yet to make. */
  datatype RawFile = RawFile(fileId: nat, chunkId: nat, path: string, fileSize: int, index: nat,
                             chunkSize: int, hash: string, layout: nat)

  /** Files and chunks stand under their unique index, and carry their id. */
  datatype Tables = Tables(files: map<FileKey, FileRow>, chunks: map<string, ChunkRow>, links: set<FileChunk>,
                           pending: seq<Doomed>, versions: map<Version, VersionRow>, datasets: map<Dataset, bool>)

  ghost predicate HasFile(t: Tables, id: nat) {
    exists k :: k in t.files && t.files[k].id == id
  }

  ghost predicate HasChunk(t: Tables, id: nat) {
    exists h :: h in t.chunks && t.chunks[h].id == id
  }

  /** Ids are unique, and references are to rows that exist. */
  ghost predicate Ok(t: Tables) {
    && (forall k, k' | k in t.files && k' in t.files && t.files[k].id == t.files[k'].id :: k == k')
    && (forall h, h' | h in t.chunks && h' in t.chunks && t.chunks[h].id == t.chunks[h'].id :: h == h')
    && (forall l | l in t.links :: HasFile(t, l.fileId) && HasChunk(t, l.chunkId))
    && (forall p | p in t.pending :: p.hash in t.chunks && t.chunks[p.hash].id == p.id)
  }

  /** The join of the three tables: file `k` has chunk `h` at position `i`. */
  ghost predicate Joined(t: Tables, k: FileKey, h: string, i: nat) {
    k in t.files && h in t.chunks && FileChunk(t.files[k].id, t.chunks[h].id, i) in t.links
  }

  ghost function Sizes(files: map<FileKey, FileRow>): map<FileKey, int> {
    map k | k in files :: files[k].size
  }

  ghost function RowInfos(chunks: map<string, ChunkRow>): map<string, ChunkInfo> {
    map h | h in chunks :: chunks[h].info
  }

  ghost function JoinLinks(t: Tables): set<Link> {
    set k, h, l | k in t.files && h in t.chunks && l in t.links && Joined(t, k, h, l.index) :: Link(k, h, l.index)
  }

  ghost function DoomedHashes(pending: seq<Doomed>): set<string> {
    set p | p in pending :: p.hash
  }

  ghost function Abs(t: Tables): Snapshot {
    Snapshot(Sizes(t.files), RowInfos(t.chunks), JoinLinks(t), DoomedHashes(t.pending), t.versions, t.datasets)
  }

  lemma LinkJoined(t: Tables, l: Link)
    ensures l in JoinLinks(t) <==> Joined(t, l.file, l.hash, l.index)
  {
    if Joined(t, l.file, l.hash, l.index) {
      assert FileChunk(t.files[l.file].id, t.chunks[l.hash].id, l.index) in t.links;
    }
  }

  /** What a snapshot of the tables says, row by row. */
  lemma AbsIs(t: Tables, k: FileKey, h: string, i: nat)
    ensures k in Abs(t).files <==> k in t.files
    ensures k in t.files ==> Abs(t).files[k] == t.files[k].size
    ensures h in Abs(t).chunks <==> h in t.chunks
    ensures h in t.chunks ==> Abs(t).chunks[h] == t.chunks[h].info
    ensures Link(k, h, i) in Abs(t).links <==>
            k in t.files && h in t.chunks && FileChunk(t.files[k].id, t.chunks[h].id, i) in t.links
    ensures h in Abs(t).pending <==> exists p :: p in t.pending && p.hash == h
    ensures Abs(t).versions == t.versions && Abs(t).datasets == t.datasets
  {
    LinkJoined(t, Link(k, h, i));
  }

  function Row(files: map<FileKey, FileRow>, chunks: map<string, ChunkRow>, k: FileKey, h: string, i: nat): RawFile
    requires k in files && h in chunks
  {
    RawFile(files[k].id, chunks[h].id, k.path, files[k].size, i, chunks[h].info.size, h, chunks[h].info.layout)
  }

  ghost function RowOf(t: Tables, k: FileKey, h: string, i: nat): RawFile
    requires Joined(t, k, h, i)
  {
    Row(t.files, t.chunks, k, h, i)
  }

  /** `rows` is the join for scope `s`, each link once, ordered by index. */
  ghost predicate IsJoin(t: Tables, s: Scope, rows: seq<RawFile>) {
    && (forall r: RawFile :: r in rows <==>
        exists k :: Selects(s, k) && Joined(t, k, r.hash, r.index) && r == RowOf(t, k, r.hash, r.index))
    && (forall i, j | 0 <= i < j < |rows| :: rows[i] != rows[j] && rows[i].index <= rows[j].index)
  }

  // ---- Upserts

  ghost function PutRows(files: map<FileKey, int>, batch: seq<File>): map<FileKey, int> {
    if batch == [] then files
    else PutRows(files, batch[..|batch| - 1])[batch[|batch| - 1].key := batch[|batch| - 1].size]
  }

  function RowsFor(v: Version, fs: seq<HashedFile>): seq<File> {
    seq(|fs|, i requires 0 <= i < |fs| => File(FileKey(v, fs[i].path), fs[i].size))
  }

  lemma {:induction false} PutRowsIsPutFiles(files: map<FileKey, int>, v: Version, fs: seq<HashedFile>)
    ensures PutRows(files, RowsFor(v, fs)) == PutFiles(files, v, fs)
  {
    if fs != [] {
      assert RowsFor(v, fs)[..|fs| - 1] == RowsFor(v, fs[..|fs| - 1]);
      PutRowsIsPutFiles(files, v, fs[..|fs| - 1]);
    }
  }

  lemma PutFileOk(t: Tables, k: FileKey, row: FileRow)
    requires Ok(t)
    requires k in t.files ==> row.id == t.files[k].id
    requires k !in t.files ==> !HasFile(t, row.id)
    ensures Ok(t.(files := t.files[k := row]))
  {
    var t' := t.(files := t.files[k := row]);
    forall l | l in t'.links ensures HasFile(t', l.fileId) && HasChunk(t', l.chunkId) {
      var k0 :| k0 in t.files && t.files[k0].id == l.fileId;
      assert t'.files[k0].id == l.fileId;
      var h0 :| h0 in t.chunks && t.chunks[h0].id == l.chunkId;
      assert t'.chunks[h0].id == l.chunkId;
    }
  }

  /** Updating a row's columns, or adding a row under a new id, leaves the join alone. */
  lemma PutFileRow(t: Tables, k: FileKey, row: FileRow)
    requires Ok(t)
    requires k in t.files ==> row.id == t.files[k].id
    requires k !in t.files ==> !HasFile(t, row.id)
    ensures var t' := t.(files := t.files[k := row]);
            Ok(t') && Abs(t') == Abs(t).(files := Abs(t).files[k := row.size])
  {
    var t' := t.(files := t.files[k := row]);
    PutFileOk(t, k, row);
    PutFileJoin(t, k, row);
    SameJoin(t, t');
    assert Sizes(t'.files) == Sizes(t.files)[k := row.size];
  }

  lemma PutFileJoin(t: Tables, k: FileKey, row: FileRow)
    requires Ok(t)
    requires k in t.files ==> row.id == t.files[k].id
    requires k !in t.files ==> !HasFile(t, row.id)
    ensures forall k', h, i :: Joined(t.(files := t.files[k := row]), k', h, i) <==> Joined(t, k', h, i)
  {
  }

  /** Files, chunks and links say nothing about versions and datasets. */
  lemma OtherTables(t: Tables, t': Tables)
    requires Ok(t) && t' == t.(versions := t'.versions, datasets := t'.datasets)
    ensures Ok(t') && Abs(t') == Abs(t).(versions := t'.versions, datasets := t'.datasets)
  {
    SameJoin(t, t');
  }

  lemma SameJoin(t: Tables, t': Tables)
    requires forall k, h, i :: Joined(t', k, h, i) <==> Joined(t, k, h, i)
    ensures Abs(t').links == Abs(t).links
  {
    forall l ensures l in Abs(t').links <==> l in Abs(t).links {
      LinkJoined(t, l);
      LinkJoined(t', l);
    }
  }

  /** Some id is not taken yet. */
  lemma {:induction false} FreshId(ids: set<nat>) returns (id: nat)
    ensures forall i | i in ids :: i < id
  {
    if x :| x in ids {
      var rest := ids - {x};
      id := FreshId(rest);
      assert forall i | i in ids :: i == x || i in rest;
      if id <= x { id := x + 1; }
    } else {
      id := 0;
    }
  }

  // ---- Sequences without repetition

  ghost predicate Distinct<T>(s: seq<T>) {
    forall i, j | 0 <= i < j < |s| :: s[i] != s[j]
  }

  ghost function Elements<T>(s: seq<T>): set<T> {
    set x | x in s
  }

  lemma {:induction false} DistinctSize<T>(s: seq<T>)
    ensures |Elements(s)| <= |s|
    ensures |Elements(s)| == |s| <==> Distinct(s)
  {
    if s != [] {
      var init, last := s[..|s| - 1], s[|s| - 1];
      DistinctSize(init);
      assert s == init + [last];
      assert Elements(s) == Elements(init) + {last};
      if last in init {
        var i :| 0 <= i < |init| && init[i] == last;
        assert s[i] == s[|s| - 1];
      }
    }
  }

  /** The rows of a result set, in whatever order the database gives them. */
  method InSomeOrder<T(==)>(s: set<T>) returns (q: seq<T>)
    ensures Distinct(q) && Elements(q) == s
  {
    q := [];
    var todo := s;
    while todo != {}
      invariant Distinct(q) && todo <= s && Elements(q) == s - todo
    {
      var x :| x in todo;
      assert Elements(q + [x]) == Elements(q) + {x};
      q := q + [x];
      todo := todo - {x};
    }
  }

  ghost function Keys(rows: seq<(string, nat)>): seq<string> {
    seq(|rows|, i requires 0 <= i < |rows| => rows[i].0)
  }

  /** The hashMap of the re-sorting: each key with its last position. */
  method Places(keys: seq<string>) returns (place: map<string, nat>)
    ensures place.Keys == Elements(keys)
    ensures forall k | k in place :: place[k] < |keys| && keys[place[k]] == k
    ensures forall j | 0 <= j < |keys| :: keys[j] in place && j <= place[keys[j]]
  {
    place := map[];
    for i := 0 to |keys|
      invariant forall k | k in place :: place[k] < i && keys[place[k]] == k
      invariant forall j | 0 <= j < i :: keys[j] in place && j <= place[keys[j]]
    {
      place := place[keys[i] := i];
    }
  }

  /** Whoever asks twice for one key gets fewer rows than keys. */
  lemma FewerRowsIfRepeated(keys: seq<string>, rows: seq<(string, nat)>)
    requires Distinct(Keys(rows)) && Elements(Keys(rows)) == Elements(keys)
    ensures |rows| <= |keys| && (|rows| == |keys| <==> Distinct(keys))
    ensures forall r | r in rows :: r.0 in Elements(keys)
    ensures forall k | k in keys :: exists r :: r in rows && r.0 == k
  {
    DistinctSize(Keys(rows));
    DistinctSize(keys);
    forall r | r in rows ensures r.0 in Elements(keys) {
      var i :| 0 <= i < |rows| && rows[i] == r;
      assert Keys(rows)[i] in Elements(Keys(rows));
    }
    forall k | k in keys ensures exists r :: r in rows && r.0 == k {
      assert k in Elements(Keys(rows));
      var i :| 0 <= i < |Keys(rows)| && Keys(rows)[i] == k;
      assert rows[i] in rows;
    }
  }

  /** ListFilesByPath and ListChunksByHash: put the rows found into the order of the keys
      asked for, in a slice as long as the rows found. None is an index out of range, and it
      happens exactly if a key was asked for twice. */
  method Resort(keys: seq<string>, rows: seq<(string, nat)>) returns (sorted: Option<seq<Option<nat>>>)
    requires Distinct(Keys(rows)) && Elements(Keys(rows)) == Elements(keys)
    ensures sorted.Some? <==> Distinct(keys)
    ensures sorted.Some? ==> |sorted.value| == |keys|
    ensures sorted.Some? ==>
              forall i | 0 <= i < |keys| :: sorted.value[i].Some? && (keys[i], sorted.value[i].value) in rows
  {
    FewerRowsIfRepeated(keys, rows);
    var place := Places(keys);
    var newRows: seq<Option<nat>> := seq(|rows|, _ => None);
    for i := 0 to |rows|
      invariant |newRows| == |rows|
      invariant forall j | 0 <= j < i :: place[rows[j].0] < |rows| && newRows[place[rows[j].0]] == Some(rows[j].1)
    {
      var p := place[rows[i].0];
      if p >= |newRows| {
        return None;
      }
      forall j | 0 <= j < i ensures place[rows[j].0] != p {
        assert Keys(rows)[j] != Keys(rows)[i];
      }
      newRows := newRows[p := Some(rows[i].1)];
    }
    if keys != [] {
      ghost var last :| last in rows && last.0 == keys[|keys| - 1];
    }
    forall i | 0 <= i < |keys| ensures newRows[i].Some? && (keys[i], newRows[i].value) in rows {
      var r :| r in rows && r.0 == keys[i];
      var j :| 0 <= j < |rows| && rows[j] == r;
      assert place[keys[i]] == i;
    }
    return Some(newRows);
  }

  function Paths(batch: seq<File>): seq<string> {
    seq(|batch|, i requires 0 <= i < |batch| => batch[i].key.path)
  }

  // ---- Entries that a list of raw rows stands for

  /** Row `r` asks for chunk `r.hash` at `r.index` of the file `k` that has its id. */
  ghost predicate Asks(files: map<FileKey, FileRow>, r: RawFile, e: Entry) {
    && e.link.file in files && files[e.link.file].id == r.fileId
    && e.link.hash == r.hash && e.link.index == r.index
    && e.info == ChunkInfo(r.chunkSize, r.layout)
  }

  ghost predicate AskAll(files: map<FileKey, FileRow>, raws: seq<RawFile>, es: seq<Entry>) {
    |raws| == |es| && forall i | 0 <= i < |raws| :: Asks(files, raws[i], es[i])
  }

  function InfoOf(r: RawFile): ChunkInfo {
    ChunkInfo(r.chunkSize, r.layout)
  }

  /** Upsert of the chunk rows that `raws` need, in order. */
  ghost function PutRaws(chunks: map<string, ChunkInfo>, raws: seq<RawFile>): map<string, ChunkInfo> {
    if raws == [] then chunks
    else PutRaws(chunks, raws[..|raws| - 1])[raws[|raws| - 1].hash := InfoOf(raws[|raws| - 1])]
  }

  lemma {:induction false} PutRawsIsPutInfos(files: map<FileKey, FileRow>, chunks: map<string, ChunkInfo>,
                                             raws: seq<RawFile>, es: seq<Entry>)
    requires AskAll(files, raws, es)
    ensures PutInfos(chunks, es) == PutRaws(chunks, raws)
  {
    if raws != [] {
      PutRawsIsPutInfos(files, chunks, raws[..|raws| - 1], es[..|es| - 1]);
    }
  }

  /** Give every raw row the id of the chunk with its hash. */
  method WriteBack(raws: seq<RawFile>, hashes: seq<string>, ids: seq<nat>, chunkMap: map<string, seq<nat>>)
    returns (filled: seq<RawFile>)
    requires Distinct(hashes) && |ids| == |hashes|
    requires forall h | h in hashes :: h in chunkMap
    requires forall i | 0 <= i < |raws| :: raws[i].hash in hashes && i in chunkMap[raws[i].hash]
    requires forall h | h in chunkMap :: forall i | i in chunkMap[h] :: i < |raws| && raws[i].hash == h
    ensures |filled| == |raws|
    ensures forall i, c | 0 <= i < |raws| && 0 <= c < |hashes| && hashes[c] == raws[i].hash ::
              filled[i] == raws[i].(chunkId := ids[c])
  {
    filled := raws;
    for c := 0 to |hashes|
      invariant |filled| == |raws|
      invariant forall i, d | 0 <= i < |raws| && 0 <= d < c && hashes[d] == raws[i].hash ::
                  filled[i] == raws[i].(chunkId := ids[d])
      invariant forall i, d | 0 <= i < |raws| && c <= d < |hashes| && hashes[d] == raws[i].hash :: filled[i] == raws[i]
    {
      assert hashes[c] in hashes;
      filled := Distribute(raws, filled, hashes[c], chunkMap[hashes[c]], ids[c]);
    }
  }

  function FileChunkOf(r: RawFile): FileChunk {
    FileChunk(r.fileId, r.chunkId, r.index)
  }

  lemma AddedLinks(t: Tables, raws: seq<RawFile>, filled: seq<RawFile>, added: seq<FileChunk>, es: seq<Entry>)
    requires Ok(t) && AskAll(t.files, raws, es) && |filled| == |raws| == |added|
    requires forall i | 0 <= i < |raws| ::
               raws[i].hash in t.chunks && filled[i] == raws[i].(chunkId := t.chunks[raws[i].hash].id)
    requires forall i | 0 <= i < |raws| :: added[i] == FileChunkOf(filled[i])
    ensures forall l | l in added :: HasFile(t, l.fileId) && HasChunk(t, l.chunkId)
    ensures JoinLinks(t.(links := t.links + Elements(added))) == JoinLinks(t) + LinkSet(es)
  {
    forall l | l in added ensures HasFile(t, l.fileId) && HasChunk(t, l.chunkId) {
      var i :| 0 <= i < |added| && added[i] == l;
      assert Asks(t.files, raws[i], es[i]);
    }
    var t' := t.(links := t.links + Elements(added));
    forall k, h, i ensures Joined(t', k, h, i) <==> Joined(t, k, h, i) || Link(k, h, i) in LinkSet(es) {
      if Joined(t', k, h, i) && !Joined(t, k, h, i) {
        var j :| 0 <= j < |added| && added[j] == FileChunk(t.files[k].id, t.chunks[h].id, i);
        assert Asks(t.files, raws[j], es[j]) && es[j] in es;
        assert es[j].link == Link(k, h, i);
      }
      if Link(k, h, i) in LinkSet(es) {
        var e :| e in es && e.link == Link(k, h, i);
        var j :| 0 <= j < |es| && es[j] == e;
        assert Asks(t.files, raws[j], es[j]) && added[j] in added;
      }
    }
    forall l ensures l in JoinLinks(t') <==> l in JoinLinks(t) + LinkSet(es) {
      LinkJoined(t, l);
      LinkJoined(t', l);
      assert l == Link(l.file, l.hash, l.index);
    }
  }

  lemma JoinRows(t: Tables, s: Scope, left: set<RawFile>)
    requires left == set k, h, l | k in t.files && h in t.chunks && l in t.links && Selects(s, k) &&
                         l == FileChunk(t.files[k].id, t.chunks[h].id, l.index) :: Row(t.files, t.chunks, k, h, l.index)
    ensures forall r: RawFile :: r in left <==>
            exists k :: Selects(s, k) && Joined(t, k, r.hash, r.index) && r == RowOf(t, k, r.hash, r.index)
  {
    forall r: RawFile, k: FileKey | Selects(s, k) && Joined(t, k, r.hash, r.index) && r == RowOf(t, k, r.hash, r.index)
      ensures r in left
    {
      var l := FileChunk(t.files[k].id, t.chunks[r.hash].id, r.index);
      assert l in t.links;
    }
  }

  /** Least index first. */
  method InIndexOrder(rows: set<RawFile>) returns (q: seq<RawFile>)
    ensures Elements(q) == rows
    ensures forall i, j | 0 <= i < j < |q| :: q[i] != q[j] && q[i].index <= q[j].index
  {
    q := [];
    var left := rows;
    while left != {}
      invariant left <= rows && Elements(q) == rows - left
      invariant forall i, j | 0 <= i < j < |q| :: q[i] != q[j] && q[i].index <= q[j].index
      invariant forall r, i | r in left && 0 <= i < |q| :: q[i].index <= r.index
    {
      LeastIndex(left);
      var r :| r in left && forall r' | r' in left :: r.index <= r'.index;
      assert Elements(q + [r]) == Elements(q) + {r};
      assert forall i | 0 <= i < |q| :: q[i] in Elements(q);
      q := q + [r];
      left := left - {r};
    }
  }

  lemma {:induction false} LeastIndex(rows: set<RawFile>)
    requires rows != {}
    ensures exists r :: r in rows && forall r' | r' in rows :: r.index <= r'.index
  {
    var x :| x in rows;
    var rest := rows - {x};
    assert forall r | r in rows :: r == x || r in rest;
    if rest != {} {
      LeastIndex(rest);
      var y :| y in rest && forall r' | r' in rest :: y.index <= r'.index;
      assert x in rows && y in rows;
      var least := if x.index <= y.index then x else y;
      assert least in rows && forall r' | r' in rows :: least.index <= r'.index;
    }
  }

  /** exclusivesMap and chunkMap: the last raw row of each hash, and the places of all. */
  method Exclusives(raws: seq<RawFile>) returns (exclusives: map<string, RawFile>, chunkMap: map<string, seq<nat>>)
    ensures forall h :: h in exclusives <==> h in chunkMap
    ensures forall i | 0 <= i < |raws| :: raws[i].hash in exclusives && i in chunkMap[raws[i].hash]
    ensures forall h | h in chunkMap :: forall i | i in chunkMap[h] :: i < |raws| && raws[i].hash == h
    ensures exclusives == LastOf(raws)
  {
    exclusives, chunkMap := map[], map[];
    for i := 0 to |raws|
      invariant forall h :: h in exclusives <==> h in chunkMap
      invariant forall j | 0 <= j < i :: raws[j].hash in exclusives && j in chunkMap[raws[j].hash]
      invariant forall h | h in chunkMap :: forall j | j in chunkMap[h] :: j < i && raws[j].hash == h
      invariant exclusives == LastOf(raws[..i])
    {
      assert raws[..i + 1][..i] == raws[..i];
      var h := raws[i].hash;
      exclusives := exclusives[h := raws[i]];
      if h in chunkMap {
        chunkMap := chunkMap[h := chunkMap[h] + [i]];
      } else {
        chunkMap := chunkMap[h := [i]];
      }
      assert LastOf(raws[..i + 1]) == LastOf(raws[..i])[h := raws[i]];
    }
    assert raws[..|raws|] == raws;
  }

  ghost function LastOf(raws: seq<RawFile>): map<string, RawFile> {
    if raws == [] then map[] else LastOf(raws[..|raws| - 1])[raws[|raws| - 1].hash := raws[|raws| - 1]]
  }

  ghost function Infos(exclusives: map<string, RawFile>): map<string, ChunkInfo> {
    map h | h in exclusives :: InfoOf(exclusives[h])
  }

  /** Writing the last row of each hash is writing all rows in order. */
  lemma {:induction false} ExclusivesArePutRaws(chunks: map<string, ChunkInfo>, raws: seq<RawFile>,
                                                exclusives: map<string, RawFile>)
    requires exclusives == LastOf(raws)
    ensures PutRaws(chunks, raws) == chunks + Infos(exclusives)
  {
    if raws != [] {
      ExclusivesArePutRaws(chunks, raws[..|raws| - 1], LastOf(raws[..|raws| - 1]));
    }
  }

  /** INSERT INTO chunks ... ON CONFLICT (hash) DO UPDATE SET size, version */
  method UpsertChunks(chunks: map<string, ChunkRow>, exclusives: map<string, RawFile>)
    returns (tab: map<string, ChunkRow>)
    requires UniqueIds(chunks)
    ensures UniqueIds(tab) && tab.Keys == chunks.Keys + exclusives.Keys
    ensures forall h | h in chunks :: tab[h].id == chunks[h].id
    ensures forall h | h in tab :: tab[h].info == if h in exclusives then InfoOf(exclusives[h]) else chunks[h].info
  {
    tab := chunks;
    var done: set<string> := {};
    while done != exclusives.Keys
      invariant done <= exclusives.Keys
      invariant UniqueIds(tab) && tab.Keys == chunks.Keys + done
      invariant forall h | h in chunks :: tab[h].id == chunks[h].id
      invariant forall h | h in tab :: tab[h].info == if h in done then InfoOf(exclusives[h]) else chunks[h].info
      decreases exclusives.Keys - done
    {
      SomeLeft(exclusives.Keys, done);
      var h :| h in exclusives.Keys && h !in done;
      tab := UpsertChunk(tab, h, InfoOf(exclusives[h]));
      done := done + {h};
    }
  }

  ghost predicate UniqueIds(tab: map<string, ChunkRow>) {
    forall h, h' | h in tab && h' in tab && tab[h].id == tab[h'].id :: h == h'
  }

  method UpsertChunk(tab: map<string, ChunkRow>, h: string, info: ChunkInfo) returns (tab': map<string, ChunkRow>)
    requires UniqueIds(tab)
    ensures UniqueIds(tab') && tab'.Keys == tab.Keys + {h} && tab'[h].info == info
    ensures forall h' | h' in tab :: tab'[h'].id == tab[h'].id
    ensures forall h' | h' in tab && h' != h :: tab'[h'] == tab[h']
  {
    if h in tab {
      return tab[h := ChunkRow(tab[h].id, info)];
    }
    var taken := set h' | h' in tab :: tab[h'].id;
    ghost var unused := FreshId(taken);
    assert unused !in taken;
    var id: nat :| id !in taken;
    return tab[h := ChunkRow(id, info)];
  }

  /** Upserting chunk rows leaves the join alone: a new row has an id no link has. */
  lemma ReplaceChunkRows(t: Tables, tab: map<string, ChunkRow>)
    requires Ok(t) && UniqueIds(tab)
    requires forall h | h in t.chunks :: h in tab && tab[h].id == t.chunks[h].id
    ensures Ok(t.(chunks := tab))
    ensures Abs(t.(chunks := tab)) == Abs(t).(chunks := RowInfos(tab))
  {
    var t' := t.(chunks := tab);
    forall l | l in t.links ensures HasFile(t', l.fileId) && HasChunk(t', l.chunkId) {
      var k :| k in t.files && t.files[k].id == l.fileId;
      assert t'.files[k].id == l.fileId;
      var h :| h in t.chunks && t.chunks[h].id == l.chunkId;
      assert t'.chunks[h].id == l.chunkId;
    }
    forall k, h, i ensures Joined(t', k, h, i) <==> Joined(t, k, h, i) {
      if Joined(t', k, h, i) {
        var l := FileChunk(t'.files[k].id, t'.chunks[h].id, i);
        assert l in t.links;
        var h0 :| h0 in t.chunks && t.chunks[h0].id == l.chunkId;
        assert h0 == h;
      }
    }
    SameJoin(t, t');
  }

  lemma UpsertedInfos(chunks: map<string, ChunkRow>, tab: map<string, ChunkRow>, exclusives: map<string, RawFile>)
    requires tab.Keys == chunks.Keys + exclusives.Keys
    requires forall h | h in tab :: tab[h].info == if h in exclusives then InfoOf(exclusives[h]) else chunks[h].info
    ensures RowInfos(tab) == RowInfos(chunks) + Infos(exclusives)
  {
  }

  lemma SomeLeft<T>(all: set<T>, done: set<T>)
    requires done <= all && done != all
    ensures exists x :: x in all && x !in done
  {
    assert !(all <= done);
  }

  /** The rows of the given hashes, re-sorted. Asked for distinct hashes, it never indexes
      out of range. */
  method ListChunksByHash(chunks: map<string, ChunkRow>, hashes: seq<string>) returns (ids: seq<nat>)
    requires Distinct(hashes) && forall h | h in hashes :: h in chunks
    ensures |ids| == |hashes| && forall i | 0 <= i < |hashes| :: ids[i] == chunks[hashes[i]].id
  {
    var found := InSomeOrder(set h | h in chunks && h in hashes);
    assert forall i | 0 <= i < |found| :: found[i] in Elements(found);
    var rows := seq(|found|, i requires 0 <= i < |found| => (found[i], chunks[found[i]].id));
    assert Keys(rows) == found;
    assert Elements(found) == Elements(hashes);
    var sorted := Resort(hashes, rows);
    ids := [];
    for i := 0 to |hashes|
      invariant |ids| == i
      invariant forall j | 0 <= j < i :: ids[j] == chunks[hashes[j]].id
    {
      assert (hashes[i], sorted.value[i].value) in rows;
      ids := ids + [sorted.value[i].value];
    }
  }

  method Distribute(raws: seq<RawFile>, filled: seq<RawFile>, h: string, places: seq<nat>, id: nat)
    returns (out: seq<RawFile>)
    requires |filled| == |raws|
    requires forall i | i in places :: i < |raws| && raws[i].hash == h
    requires forall i | 0 <= i < |raws| && raws[i].hash == h :: i in places && filled[i] == raws[i]
    ensures |out| == |raws|
    ensures forall i | 0 <= i < |raws| :: out[i] == if raws[i].hash == h then raws[i].(chunkId := id) else filled[i]
  {
    out := filled;
    for p := 0 to |places|
      invariant |out| == |raws|
      invariant forall i | 0 <= i < |raws| :: out[i] == if i in places[..p] then raws[i].(chunkId := id) else filled[i]
    {
      assert places[p] in places && places[..p + 1] == places[..p] + [places[p]];
      out := out[places[p] := out[places[p]].(chunkId := id)];
    }
    assert places[..|places|] == places;
  }

  ghost predicate IdsOf(files: map<FileKey, FileRow>, batch: seq<File>, ids: seq<nat>) {
    |ids| == |batch| && forall i | 0 <= i < |batch| :: batch[i].key in files && files[batch[i].key].id == ids[i]
  }

  /** INSERT INTO files ... ON CONFLICT DO UPDATE SET size=excluded.size */
  method UpsertFiles(ghost t: Tables, files: map<FileKey, FileRow>, batch: seq<File>)
    returns (tab: map<FileKey, FileRow>)
    requires Ok(t) && t.files == files
    ensures Ok(t.(files := tab)) && Abs(t.(files := tab)) == Abs(t).(files := PutRows(Abs(t).files, batch))
    ensures forall k | k in files :: k in tab && tab[k].id == files[k].id
    ensures forall f | f in batch :: f.key in tab
  {
    tab := files;
    for i := 0 to |batch|
      invariant Ok(t.(files := tab))
      invariant Abs(t.(files := tab)) == Abs(t).(files := PutRows(Abs(t).files, batch[..i]))
      invariant forall k | k in files :: k in tab && tab[k].id == files[k].id
      invariant forall f | f in batch[..i] :: f.key in tab
    {
      assert batch[..i + 1][..i] == batch[..i];
      var f := batch[i];
      var row := FileRow(0, f.size);
      if f.key in tab {
        row := FileRow(tab[f.key].id, f.size);
      } else {
        var taken := set k | k in tab :: tab[k].id;
        ghost var unused := FreshId(taken);
        assert unused !in taken;
        var id: nat :| id !in taken;
        row := FileRow(id, f.size);
      }
      PutFileRow(t.(files := tab), f.key, row);
      tab := tab[f.key := row];
    }
    assert batch[..|batch|] == batch;
  }

  /** The rows of the given paths, re-sorted, and their ids written back to the batch. */
  method ListFilesByPath(files: map<FileKey, FileRow>, batch: seq<File>) returns (ids: Option<seq<nat>>)
    requires batch != [] && forall f | f in batch :: f.key.version == batch[0].key.version && f.key in files
    ensures ids.Some? <==> Distinct(Paths(batch))
    ensures ids.Some? ==> IdsOf(files, batch, ids.value)
  {
    var paths := Paths(batch);
    var found := InSomeOrder(set k | k in files && k.version == batch[0].key.version && k.path in paths);
    forall i | 0 <= i < |found| ensures found[i] in files && found[i].version == batch[0].key.version {
      assert found[i] in Elements(found);
    }
    var rows := seq(|found|, i requires 0 <= i < |found| => (found[i].path, files[found[i]].id));
    ListedByPath(files, batch, found, rows);
    var sorted := Resort(paths, rows);
    if sorted.None? {
      return None;
    }
    var newIds: seq<nat> := [];
    for i := 0 to |batch|
      invariant |newIds| == i
      invariant forall j | 0 <= j < i :: batch[j].key in files && files[batch[j].key].id == newIds[j]
    {
      ghost var r :| 0 <= r < |rows| && rows[r] == (paths[i], sorted.value[i].value);
      assert batch[i] in batch && found[r] == batch[i].key;
      newIds := newIds + [sorted.value[i].value];
    }
    return Some(newIds);
  }

  lemma ListedByPath(tab: map<FileKey, FileRow>, batch: seq<File>, found: seq<FileKey>, rows: seq<(string, nat)>)
    requires batch != [] && forall f | f in batch :: f.key.version == batch[0].key.version && f.key in tab
    requires Distinct(found)
    requires Elements(found) == set k | k in tab && k.version == batch[0].key.version && k.path in Paths(batch)
    requires |rows| == |found| && forall i | 0 <= i < |found| :: rows[i].0 == found[i].path
    ensures Distinct(Keys(rows)) && Elements(Keys(rows)) == Elements(Paths(batch))
  {
    forall i | 0 <= i < |found| ensures found[i].version == batch[0].key.version && found[i].path in Paths(batch) {
      assert found[i] in Elements(found);
    }
    forall p ensures p in Elements(Keys(rows)) <==> p in Elements(Paths(batch)) {
      if p in Paths(batch) {
        var i :| 0 <= i < |batch| && Paths(batch)[i] == p;
        assert batch[i] in batch;
        assert batch[i].key in Elements(found);
        var j :| 0 <= j < |found| && found[j] == batch[i].key;
        assert Keys(rows)[j] == p;
      }
    }
  }

  // ---- Deleting

  ghost predicate Unlinked(links: set<FileChunk>, id: nat) {
    forall l | l in links :: l.chunkId != id
  }

  ghost predicate Dies(links: set<FileChunk>, doomed: seq<Doomed>, id: nat) {
    Unlinked(links, id) && exists p :: p in doomed && p.id == id
  }

  ghost function Survivors(chunks: map<string, ChunkRow>, links: set<FileChunk>,
                           doomed: seq<Doomed>): map<string, ChunkRow> {
    map h | h in chunks && !Dies(links, doomed, chunks[h].id) :: chunks[h]
  }

  /** Deleting batch after batch deletes what one batch would. */
  lemma SurvivorsAppend(chunks: map<string, ChunkRow>, links: set<FileChunk>, ps: seq<Doomed>, qs: seq<Doomed>)
    ensures Survivors(Survivors(chunks, links, ps), links, qs) == Survivors(chunks, links, ps + qs)
  {
    forall id ensures Dies(links, ps + qs, id) <==> Dies(links, ps, id) || Dies(links, qs, id) {
      if p :| p in ps && p.id == id { assert p in ps + qs; }
      if p :| p in qs && p.id == id { assert p in ps + qs; }
    }
  }

  lemma LinkedHashes(t: Tables, h: string)
    requires Ok(t)
    ensures h in Hashes(JoinLinks(t)) <==> h in t.chunks && !Unlinked(t.links, t.chunks[h].id)
  {
    if h in Hashes(JoinLinks(t)) {
      var l :| l in JoinLinks(t) && l.hash == h;
      LinkJoined(t, l);
    }
    if h in t.chunks && !Unlinked(t.links, t.chunks[h].id) {
      var l :| l in t.links && l.chunkId == t.chunks[h].id;
      var k :| k in t.files && t.files[k].id == l.fileId;
      LinkJoined(t, Link(k, h, l.index));
    }
  }

  ghost function FlushTables(t: Tables): Tables {
    t.(chunks := Survivors(t.chunks, t.links, t.pending), pending := [])
  }

  lemma FlushKeepsOk(t: Tables)
    requires Ok(t)
    ensures Ok(FlushTables(t)) && JoinLinks(FlushTables(t)) == JoinLinks(t)
  {
    var t' := FlushTables(t);
    forall l | l in t'.links ensures HasFile(t', l.fileId) && HasChunk(t', l.chunkId) {
      var k :| k in t.files && t.files[k].id == l.fileId;
      assert t'.files[k].id == l.fileId;
      var h :| h in t.chunks && t.chunks[h].id == l.chunkId;
      assert h in t'.chunks;
    }
    forall k, h, i ensures Joined(t', k, h, i) <==> Joined(t, k, h, i) {
      if Joined(t, k, h, i) { assert !Unlinked(t.links, t.chunks[h].id); }
    }
    SameJoin(t, t');
  }

  lemma FlushedRow(t: Tables, h: string)
    requires Ok(t)
    ensures h in FlushTables(t).chunks <==> h in Flushed(Abs(t)).chunks
  {
    LinkedHashes(t, h);
    if h in t.chunks && h in DoomedHashes(t.pending) {
      var p :| p in t.pending && p.hash == h;
    }
  }

  lemma FlushedRows(t: Tables)
    requires Ok(t)
    ensures Ok(FlushTables(t)) && Abs(FlushTables(t)) == Flushed(Abs(t))
  {
    var t' := FlushTables(t);
    FlushKeepsOk(t);
    forall h ensures h in t'.chunks <==> h in Flushed(Abs(t)).chunks {
      FlushedRow(t, h);
    }
    assert RowInfos(t'.chunks) == Flushed(Abs(t)).chunks;
    assert DoomedHashes(t'.pending) == {};
  }

  ghost function DropLinks(links: set<Link>, k: FileKey, hs: set<string>): set<Link> {
    set l | l in links && !(l.file == k && l.hash in hs)
  }

  ghost function ScopeIds(t: Tables, s: Scope): set<nat> {
    set k | k in t.files && Selects(s, k) :: t.files[k].id
  }

  ghost function DropFiles(t: Tables, s: Scope): Tables {
    var links := set l | l in t.links && l.fileId !in ScopeIds(t, s);
    var files := map k | k in t.files && !Selects(s, k) :: t.files[k];
    t.(links := links, files := files)
  }

  lemma DropKeepsOk(t: Tables, s: Scope)
    requires Ok(t)
    ensures Ok(DropFiles(t, s))
  {
    var t' := DropFiles(t, s);
    forall l | l in t'.links ensures HasFile(t', l.fileId) && HasChunk(t', l.chunkId) {
      var k :| k in t.files && t.files[k].id == l.fileId;
      assert k in t'.files;
      var h :| h in t.chunks && t.chunks[h].id == l.chunkId;
      assert h in t'.chunks;
    }
  }

  lemma DropJoined(t: Tables, s: Scope, k: FileKey, h: string, i: nat)
    requires Ok(t)
    ensures Joined(DropFiles(t, s), k, h, i) <==> Joined(t, k, h, i) && !Selects(s, k)
  {
    if Joined(t, k, h, i) && !Selects(s, k) {
      assert t.files[k].id !in ScopeIds(t, s);
    }
  }

  lemma DropJoinLinks(t: Tables, s: Scope)
    requires Ok(t)
    ensures JoinLinks(DropFiles(t, s)) == JoinLinks(t) - InScope(JoinLinks(t), s)
  {
    forall l ensures l in JoinLinks(DropFiles(t, s)) <==> l in JoinLinks(t) && !Selects(s, l.file) {
      LinkJoined(t, l);
      LinkJoined(DropFiles(t, s), l);
      DropJoined(t, s, l.file, l.hash, l.index);
    }
  }

  /** Both DELETE statements of DeleteFiles. */
  lemma DropScope(t: Tables, s: Scope)
    requires Ok(t)
    ensures Ok(DropFiles(t, s)) && Abs(DropFiles(t, s)) == Dropped(Abs(t), s)
  {
    DropKeepsOk(t, s);
    DropJoinLinks(t, s);
    assert Sizes(DropFiles(t, s).files) == Dropped(Abs(t), s).files;
  }

  lemma ReadRow(t: Tables, s: Scope, rows: seq<RawFile>, r: RawFile)
    requires Ok(t) && IsJoin(t, s, rows) && r in rows
    ensures r.hash in Hashes(InScope(JoinLinks(t), s)) && r.hash in t.chunks && t.chunks[r.hash].id == r.chunkId
  {
    var k :| Selects(s, k) && Joined(t, k, r.hash, r.index) && r == RowOf(t, k, r.hash, r.index);
    LinkJoined(t, Link(k, r.hash, r.index));
    assert Link(k, r.hash, r.index) in InScope(JoinLinks(t), s);
  }

  lemma LinkRead(t: Tables, s: Scope, rows: seq<RawFile>, l: Link)
    requires Ok(t) && IsJoin(t, s, rows) && l in InScope(JoinLinks(t), s)
    ensures Joined(t, l.file, l.hash, l.index) && RowOf(t, l.file, l.hash, l.index) in rows
  {
    LinkJoined(t, l);
    var r := RowOf(t, l.file, l.hash, l.index);
    assert Joined(t, l.file, r.hash, r.index);
  }

  ghost function RowHashes(rows: seq<RawFile>): set<string> {
    set r | r in rows :: r.hash
  }

  /** The rows read before a deletion name the chunks of the links deleted. */
  lemma ReadHashes(t: Tables, s: Scope, rows: seq<RawFile>)
    requires Ok(t) && IsJoin(t, s, rows)
    ensures RowHashes(rows) == Hashes(InScope(JoinLinks(t), s))
    ensures rows == [] <==> InScope(JoinLinks(t), s) == {}
    ensures forall r | r in rows :: r.hash in t.chunks && t.chunks[r.hash].id == r.chunkId
  {
    var links := InScope(JoinLinks(t), s);
    forall r | r in rows ensures r.hash in Hashes(links) && r.hash in t.chunks && t.chunks[r.hash].id == r.chunkId {
      ReadRow(t, s, rows, r);
    }
    forall h | h in Hashes(links) ensures h in RowHashes(rows) {
      var l :| l in links && l.hash == h;
      LinkRead(t, s, rows, l);
    }
    if rows != [] {
      ReadRow(t, s, rows, rows[0]);
    } else if l :| l in links {
      LinkRead(t, s, rows, l);
      assert false;
    }
  }
}
