/** SaveFSToDB: a sender that checks files one by one and a receiver that batches them, with
    the database in between. The guarded loop takes any step that is enabled, in any order,
    so what it ensures holds for every interleaving of the two goroutines. */
module SavePipeline {
  import opened Snapshots
  import opened TableRows
  import opened SaveTheory
  import opened Stores
  import Totals

  /** Batch sizes of files and of chunk links. */
  const LIMIT := 100
  const CHUNK_LIMIT := 250

  /** Where the receiver is: waiting on its channels, about to write a batch of files, handing
      their chunks over one by one, about to force the last flush, or through. */
  datatype Phase = Receiving | Creating | Linking | Closing | Done {
    ghost function Rank(): nat {
      match this
      case Linking => 3
      case Receiving => 2
      case Closing => 2
      case Creating => 1
      case Done => 0
    }
  }

  /** The chunk rows queued when a file is received; ids are not known yet. */
  function RawsOf(f: HashedFile): seq<RawFile> {
    seq(|f.hashes|, i requires 0 <= i < |f.hashes| =>
      RawFile(0, 0, f.path, 0, i, f.hashes[i].size, f.hashes[i].hash, f.hashes[i].layout))
  }

  function Lookup(fileMap: map<string, seq<RawFile>>, path: string): seq<RawFile> {
    if path in fileMap then fileMap[path] else []
  }

  /** The loop over f.Hashes that fills fileMap. */
  method Receive(fileMap: map<string, seq<RawFile>>, f: HashedFile) returns (fileMap': map<string, seq<RawFile>>)
    requires f.path !in fileMap
    ensures Lookup(fileMap', f.path) == RawsOf(f)
    ensures fileMap'.Keys <= fileMap.Keys + {f.path}
    ensures forall p | p != f.path :: Lookup(fileMap', p) == Lookup(fileMap, p)
  {
    fileMap' := fileMap;
    for i := 0 to |f.hashes|
      invariant Lookup(fileMap', f.path) == RawsOf(f)[..i]
      invariant fileMap'.Keys <= fileMap.Keys + {f.path}
      invariant forall p | p != f.path :: Lookup(fileMap', p) == Lookup(fileMap, p)
    {
      var chunk := RawFile(0, 0, f.path, 0, i, f.hashes[i].size, f.hashes[i].hash, f.hashes[i].layout);
      assert RawsOf(f)[..i + 1] == RawsOf(f)[..i] + [chunk];
      if f.path !in fileMap' {
        fileMap' := fileMap'[f.path := [chunk]];
      } else {
        fileMap' := fileMap'[f.path := fileMap'[f.path] + [chunk]];
      }
    }
    assert RawsOf(f)[..|f.hashes|] == RawsOf(f);
  }

  /** The loop over bufFiles that gives every queued row the id of its file. */
  method WithIds(files: map<FileKey, FileRow>, v: Version, ghost fs: seq<HashedFile>, bufFiles: seq<File>,
                 ids: seq<nat>, fileMap: map<string, seq<RawFile>>)
    returns (raws: seq<RawFile>)
    requires bufFiles == RowsFor(v, fs) && IdsOf(files, bufFiles, ids)
    requires forall f | f in fs :: Lookup(fileMap, f.path) == RawsOf(f)
    ensures AskAll(files, raws, AllEntries(v, fs))
  {
    raws := [];
    for i := 0 to |bufFiles|
      invariant AskAll(files, raws, AllEntries(v, fs[..i]))
    {
      assert fs[..i + 1][..i] == fs[..i] && fs[i] in fs;
      raws := raws + WithFile(Lookup(fileMap, bufFiles[i].key.path), ids[i]);
    }
    assert fs[..|fs|] == fs;
  }

  function WithFile(raws: seq<RawFile>, id: nat): seq<RawFile> {
    seq(|raws|, i requires 0 <= i < |raws| => raws[i].(fileId := id))
  }

  // ---- The state of both goroutines between two steps

  /** How many files the sender has checked and sent; where the receiver is, the file rows
      and chunk rows it has batched, the rows it still has to hand over, and those handed over
      since the last flush. */
  datatype Pipe = Pipe(checked: nat, sent: nat, phase: Phase, ended: bool, bufFiles: seq<File>,
                       fileMap: map<string, seq<RawFile>>, todo: seq<RawFile>, buffer: seq<RawFile>)

  ghost predicate Shape(fs: seq<HashedFile>, p: Pipe) {
    && p.sent <= p.checked <= |fs| && p.checked <= p.sent + 1
    && (!p.phase.Linking? ==> p.todo == [])
    && (p.phase.Receiving? ==> !p.ended)
    && (p.phase.Creating? ==> p.bufFiles != [])
    && (p.phase.Linking? || p.phase.Closing? || p.phase.Done? ==> p.bufFiles == [])
    && (p.phase.Closing? || p.phase.Done? ==> p.ended)
    && (p.ended ==> p.sent == |fs|)
  }

  ghost predicate Batched(v: Version, fs: seq<HashedFile>, bufFiles: seq<File>, fileMap: map<string, seq<RawFile>>) {
    && bufFiles == RowsFor(v, fs)
    && (forall f | f in fs :: Lookup(fileMap, f.path) == RawsOf(f))
    && (forall p | p in fileMap :: exists f :: f in fs && f.path == p)
  }

  ghost predicate Holds(files: map<FileKey, FileRow>, v: Version, fs: seq<HashedFile>, p: Pipe, filed: nat,
                        linked: nat) {
    && filed <= p.sent <= |fs| && linked <= |AllEntries(v, fs[..filed])|
    && Batched(v, fs[filed..p.sent], p.bufFiles, p.fileMap)
    && AskAll(files, p.buffer + p.todo, AllEntries(v, fs[..filed])[linked..])
  }

  ghost predicate Tracks(a: Snapshot, t: Tables, v: Version, fs: seq<HashedFile>, r: Run) {
    Legal(v, fs, r) && Ok(t) && Abs(t) == Exec(a, v, fs, r)
  }

  /** The database holds what the run so far has made of it, and the buffers hold the rest. */
  ghost predicate Inv(a: Snapshot, store: Store, v: Version, fs: seq<HashedFile>, p: Pipe, run: Run)
    reads store
  {
    && Shape(fs, p)
    && Tracks(a, store.T(), v, fs, run)
    && Checked(run) == p.checked
    && Holds(store.files, v, fs, p, Filed(run), Linked(run))
    && (p.phase.Done? ==> Complete(v, fs, run))
  }

  // ---- The steps

  /** CheckAndQueueFile up to its unlock. */
  method CheckNextFile(store: Store, ghost a: Snapshot, v: Version, fs: seq<HashedFile>, ghost run: Run, p: Pipe)
    returns (p': Pipe, ghost run': Run)
    requires Inv(a, store, v, fs, p, run) && p.checked == p.sent < |fs|
    modifies store`links, store`pending
    ensures p' == p.(checked := p.checked + 1) && Inv(a, store, v, fs, p', run')
  {
    run' := Then(run, CheckNext);
    p' := p.(checked := p.checked + 1);
    store.CheckFile(v, fs[p.checked]);
  }

  /** fileChannel <- f */
  method ReceiveFile(store: Store, ghost a: Snapshot, v: Version, fs: seq<HashedFile>, ghost run: Run, p: Pipe)
    returns (p': Pipe)
    requires DistinctPaths(fs) && Inv(a, store, v, fs, p, run) && p.phase.Receiving? && p.sent < p.checked
    ensures p'.checked == p.checked && p'.sent == p.sent + 1 && Inv(a, store, v, fs, p', run)
    ensures |p'.bufFiles| == |p.bufFiles| + 1 && p'.phase == if |p'.bufFiles| >= 100 then Creating else Receiving
  {
    var bufFiles, fileMap := Batch(v, fs, Filed(run), p);
    p' := p.(bufFiles := bufFiles, fileMap := fileMap, sent := p.sent + 1,
             phase := if |bufFiles| >= LIMIT then Creating else Receiving);
    Received(store.files, v, fs, Filed(run), Linked(run), p, p');
  }

  lemma Received(files: map<FileKey, FileRow>, v: Version, fs: seq<HashedFile>, filed: nat, linked: nat, p: Pipe,
                 p': Pipe)
    requires Shape(fs, p) && p.phase.Receiving? && p.sent < p.checked && Holds(files, v, fs, p, filed, linked)
    requires Batched(v, fs[filed..p.sent + 1], p'.bufFiles, p'.fileMap) && p'.bufFiles != []
    requires p' == p.(bufFiles := p'.bufFiles, fileMap := p'.fileMap, sent := p.sent + 1, phase := p'.phase)
    requires p'.phase == if |p'.bufFiles| >= LIMIT then Creating else Receiving
    ensures Shape(fs, p') && Holds(files, v, fs, p', filed, linked)
  {
  }

  method Batch(v: Version, fs: seq<HashedFile>, ghost filed: nat, p: Pipe)
    returns (bufFiles: seq<File>, fileMap: map<string, seq<RawFile>>)
    requires DistinctPaths(fs) && filed <= p.sent < |fs| && Batched(v, fs[filed..p.sent], p.bufFiles, p.fileMap)
    ensures Batched(v, fs[filed..p.sent + 1], bufFiles, fileMap) && |bufFiles| == |p.bufFiles| + 1
  {
    var f := fs[p.sent];
    NewPath(fs, filed, p.sent);
    bufFiles := p.bufFiles + [File(FileKey(v, f.path), f.size)];
    fileMap := Receive(p.fileMap, f);
    OneMoreBatched(v, fs[filed..p.sent], f, p.bufFiles, p.fileMap, fileMap);
  }

  lemma NewPath(fs: seq<HashedFile>, m: nat, n: nat)
    requires DistinctPaths(fs) && m <= n < |fs|
    ensures fs[m..n + 1] == fs[m..n] + [fs[n]] && forall g | g in fs[m..n] :: g.path != fs[n].path
  {
  }

  lemma OneMoreBatched(v: Version, fs: seq<HashedFile>, f: HashedFile, bufFiles: seq<File>,
                       fileMap: map<string, seq<RawFile>>, fileMap': map<string, seq<RawFile>>)
    requires Batched(v, fs, bufFiles, fileMap) && forall g | g in fs :: g.path != f.path
    requires Lookup(fileMap', f.path) == RawsOf(f) && fileMap'.Keys <= fileMap.Keys + {f.path}
    requires forall p | p != f.path :: Lookup(fileMap', p) == Lookup(fileMap, p)
    ensures Batched(v, fs + [f], bufFiles + [File(FileKey(v, f.path), f.size)], fileMap')
  {
    forall p | p in fileMap' ensures exists g :: g in fs + [f] && g.path == p {
      if p == f.path {
        assert f in fs + [f];
      } else {
        var g :| g in fs && g.path == p;
        assert g in fs + [f];
      }
    }
  }

  /** flushFileBuffer: the batch of file rows, and the rows to hand over. */
  method WriteBatch(store: Store, v: Version, ghost fs: seq<HashedFile>, bufFiles: seq<File>,
                    fileMap: map<string, seq<RawFile>>) returns (todo: seq<RawFile>)
    requires Ok(store.T()) && DistinctPaths(fs) && Batched(v, fs, bufFiles, fileMap) && bufFiles != []
    modifies store`files
    ensures Ok(store.T())
    ensures Abs(store.T()) == old(Abs(store.T())).(files := PutFiles(old(Abs(store.T())).files, v, fs))
    ensures AskAll(store.files, todo, AllEntries(v, fs))
    ensures forall k | k in old(store.files) :: k in store.files && store.files[k].id == old(store.files)[k].id
  {
    PutRowsIsPutFiles(Abs(store.T()).files, v, fs);
    PathsDistinct(v, fs, bufFiles);
    var ids := store.CreateFiles(bufFiles);
    todo := WithIds(store.files, v, fs, bufFiles, ids.value, fileMap);
  }

  lemma PathsDistinct(v: Version, fs: seq<HashedFile>, rows: seq<File>)
    requires DistinctPaths(fs) && rows == RowsFor(v, fs)
    ensures Distinct(Paths(rows)) && forall r | r in rows :: r.key.version == v
  {
  }

  method WriteFileBatch(store: Store, ghost a: Snapshot, v: Version, fs: seq<HashedFile>, ghost run: Run, p: Pipe)
    returns (p': Pipe, ghost run': Run)
    requires DistinctPaths(fs) && Inv(a, store, v, fs, p, run) && p.phase.Creating?
    modifies store`files
    ensures p' == p.(bufFiles := [], fileMap := map[], phase := Linking, todo := p'.todo) &&
            Inv(a, store, v, fs, p', run')
  {
    ghost var files := store.files;
    BatchDistinct(fs, Filed(run), p.sent);
    var todo := WriteBatch(store, v, fs[Filed(run)..p.sent], p.bufFiles, p.fileMap);
    run' := Then(run, WriteFiles(p.sent));
    p' := p.(bufFiles := [], fileMap := map[], phase := Linking, todo := todo);
    assert p.buffer + p.todo == p.buffer;
    MoreHeld(files, store.files, v, fs, Filed(run), p.sent, Linked(run), p.buffer, todo);
  }

  lemma BatchDistinct(fs: seq<HashedFile>, m: nat, n: nat)
    requires DistinctPaths(fs) && m <= n <= |fs|
    ensures DistinctPaths(fs[m..n])
  {
  }

  /** File rows keep their ids, so rows queued earlier keep their meaning. */
  lemma MoreHeld(files: map<FileKey, FileRow>, files': map<FileKey, FileRow>, v: Version, fs: seq<HashedFile>,
                 filed: nat, filed': nat, linked: nat, buffer: seq<RawFile>, todo: seq<RawFile>)
    requires filed <= filed' <= |fs| && linked <= |AllEntries(v, fs[..filed])|
    requires forall k | k in files :: k in files' && files'[k].id == files[k].id
    requires AskAll(files, buffer, AllEntries(v, fs[..filed])[linked..])
    requires AskAll(files', todo, AllEntries(v, fs[filed..filed']))
    ensures linked <= |AllEntries(v, fs[..filed'])|
    ensures AskAll(files', buffer + todo, AllEntries(v, fs[..filed'])[linked..])
  {
    EntriesAppend(v, fs[..filed], fs[filed..filed']);
    assert fs[..filed] + fs[filed..filed'] == fs[..filed'];
    AskStays(files, files', buffer, AllEntries(v, fs[..filed])[linked..]);
    AskBoth(files', buffer, todo, AllEntries(v, fs[..filed])[linked..], AllEntries(v, fs[filed..filed']));
    DropFront(AllEntries(v, fs[..filed]), AllEntries(v, fs[filed..filed']), linked);
  }

  lemma AskStays(files: map<FileKey, FileRow>, files': map<FileKey, FileRow>, rs: seq<RawFile>, es: seq<Entry>)
    requires forall k | k in files :: k in files' && files'[k].id == files[k].id
    requires AskAll(files, rs, es)
    ensures AskAll(files', rs, es)
  {
    forall i | 0 <= i < |rs| ensures Asks(files', rs[i], es[i]) {
      assert Asks(files, rs[i], es[i]);
    }
  }

  lemma AskBoth(files: map<FileKey, FileRow>, rs: seq<RawFile>, rs': seq<RawFile>, es: seq<Entry>, es': seq<Entry>)
    requires AskAll(files, rs, es) && AskAll(files, rs', es')
    ensures AskAll(files, rs + rs', es + es')
  {
  }

  lemma DropFront<T>(s: seq<T>, t: seq<T>, n: nat)
    requires n <= |s|
    ensures (s + t)[n..] == s[n..] + t
  {
  }

  /** tryFlushBuffer, the part under the lock. */
  method Flush(store: Store, buffer: seq<RawFile>, ghost batch: seq<Entry>)
    requires Ok(store.T()) && AskAll(store.files, buffer, batch)
    modifies store`chunks, store`links, store`pending
    ensures Ok(store.T()) && Abs(store.T()) == Connect(Flushed(old(Abs(store.T()))), batch)
  {
    store.TriggerDeleteChunks();
    store.CreateConnections(buffer, batch);
  }

  method FlushBuffer(store: Store, ghost a: Snapshot, v: Version, fs: seq<HashedFile>, ghost run: Run,
                     buffer: seq<RawFile>, ghost todo: seq<RawFile>) returns (ghost run': Run)
    requires Tracks(a, store.T(), v, fs, run) && Filed(run) <= |fs| && Linked(run) <= |AllEntries(v, fs[..Filed(run)])|
    requires AskAll(store.files, buffer + todo, AllEntries(v, fs[..Filed(run)])[Linked(run)..])
    modifies store`chunks, store`links, store`pending
    ensures run' == Then(run, FlushAndLink(Linked(run) + |buffer|)) && Tracks(a, store.T(), v, fs, run')
    ensures Linked(run') <= |AllEntries(v, fs[..Filed(run)])|
    ensures AskAll(store.files, todo, AllEntries(v, fs[..Filed(run)])[Linked(run')..])
  {
    ghost var n := Linked(run) + |buffer|;
    HeldSplit(store.files, v, fs, Filed(run), Linked(run), buffer, todo);
    run' := Then(run, FlushAndLink(n));
    ghost var t := store.T();
    Flush(store, buffer, AllEntries(v, fs)[Linked(run)..n]);
    TracksFlush(a, t, store.T(), v, fs, run, n);
  }

  lemma TracksFlush(a: Snapshot, t: Tables, t': Tables, v: Version, fs: seq<HashedFile>, run: Run, n: nat)
    requires Tracks(a, t, v, fs, run) && Ok(t') && Filed(run) <= |fs|
    requires Linked(run) <= n <= |AllEntries(v, fs[..Filed(run)])| <= |AllEntries(v, fs)|
    requires Abs(t') == Connect(Flushed(Abs(t)), AllEntries(v, fs)[Linked(run)..n])
    ensures Tracks(a, t', v, fs, Then(run, FlushAndLink(n)))
  {
  }

  lemma HeldSplit(files: map<FileKey, FileRow>, v: Version, fs: seq<HashedFile>, filed: nat, linked: nat,
                  buffer: seq<RawFile>, todo: seq<RawFile>)
    requires filed <= |fs| && linked <= |AllEntries(v, fs[..filed])|
    requires AskAll(files, buffer + todo, AllEntries(v, fs[..filed])[linked..])
    ensures linked + |buffer| <= |AllEntries(v, fs[..filed])| <= |AllEntries(v, fs)|
    ensures AskAll(files, buffer, AllEntries(v, fs)[linked..linked + |buffer|])
    ensures AskAll(files, todo, AllEntries(v, fs[..filed])[linked + |buffer|..])
  {
    EntriesPrefix(v, fs, filed);
    AskSplit(files, buffer, todo, AllEntries(v, fs[..filed])[linked..]);
    assert AllEntries(v, fs[..filed])[linked..][..|buffer|] == AllEntries(v, fs)[linked..linked + |buffer|];
    assert AllEntries(v, fs[..filed])[linked..][|buffer|..] == AllEntries(v, fs[..filed])[linked + |buffer|..];
  }

  lemma AskSplit(files: map<FileKey, FileRow>, rs: seq<RawFile>, rs': seq<RawFile>, es: seq<Entry>)
    requires AskAll(files, rs + rs', es)
    ensures AskAll(files, rs, es[..|rs|]) && AskAll(files, rs', es[|rs|..])
  {
    forall i | 0 <= i < |rs| ensures Asks(files, rs[i], es[i]) {
      assert (rs + rs')[i] == rs[i];
    }
    forall i | 0 <= i < |rs'| ensures Asks(files, rs'[i], es[|rs|..][i]) {
      assert (rs + rs')[|rs| + i] == rs'[i];
    }
  }

  /** tryFlushBuffer(raw, false) */
  method HandOver(store: Store, ghost a: Snapshot, v: Version, fs: seq<HashedFile>, ghost run: Run, p: Pipe)
    returns (p': Pipe, ghost run': Run)
    requires Inv(a, store, v, fs, p, run) && p.phase.Linking? && p.todo != []
    modifies store`chunks, store`links, store`pending
    ensures p' == p.(buffer := p'.buffer, todo := p.todo[1..]) && Inv(a, store, v, fs, p', run')
    ensures p'.buffer == if |p.buffer| + 1 >= 250 then [] else p.buffer + [p.todo[0]]
  {
    assert p.buffer + p.todo == p.buffer + [p.todo[0]] + p.todo[1..];
    p', run' := p.(buffer := p.buffer + [p.todo[0]], todo := p.todo[1..]), run;
    if |p'.buffer| >= CHUNK_LIMIT {
      run' := FlushBuffer(store, a, v, fs, run, p'.buffer, p'.todo);
      assert [] + p'.todo == p'.todo;
      p' := p'.(buffer := []);
    }
  }

  /** tryFlushBuffer(nil, true) */
  method ForceFlush(store: Store, ghost a: Snapshot, v: Version, fs: seq<HashedFile>, ghost run: Run, p: Pipe)
    returns (p': Pipe, ghost run': Run)
    requires Inv(a, store, v, fs, p, run) && p.phase.Closing?
    modifies store`chunks, store`links, store`pending
    ensures p' == p.(buffer := [], phase := Done) && Inv(a, store, v, fs, p', run')
  {
    run' := FlushBuffer(store, a, v, fs, run, p.buffer, p.todo);
    p' := p.(buffer := [], phase := Done);
    Finished(store.files, v, fs, p, p', run, run');
  }

  lemma Finished(files: map<FileKey, FileRow>, v: Version, fs: seq<HashedFile>, p: Pipe, p': Pipe, run: Run, run': Run)
    requires Shape(fs, p) && p.phase.Closing? && Checked(run) == p.checked
    requires Holds(files, v, fs, p, Filed(run), Linked(run)) && p' == p.(buffer := [], phase := Done)
    requires run' == Then(run, FlushAndLink(Linked(run) + |p.buffer|))
    requires Linked(run') <= |AllEntries(v, fs[..Filed(run)])|
    requires AskAll(files, p.todo, AllEntries(v, fs[..Filed(run)])[Linked(run')..])
    ensures Shape(fs, p') && Checked(run') == p'.checked
    ensures Holds(files, v, fs, p', Filed(run'), Linked(run')) && Complete(v, fs, run')
  {
    EverythingHeld(files, v, fs, p, Filed(run), Linked(run));
    NothingHeld(files, v, fs, p, Filed(run), Linked(run), Linked(run'));
    RunIsComplete(v, fs, run, Linked(run) + |p.buffer|);
  }

  lemma RunIsComplete(v: Version, fs: seq<HashedFile>, run: Run, n: nat)
    requires n == |AllEntries(v, fs)| && Checked(run) == |fs| && Filed(run) == |fs|
    ensures Complete(v, fs, Then(run, FlushAndLink(n)))
    ensures Filed(Then(run, FlushAndLink(n))) == Filed(run) && Checked(Then(run, FlushAndLink(n))) == Checked(run)
    ensures Linked(Then(run, FlushAndLink(n))) == n
  {
  }

  /** Holding nothing more, the receiver is through. */
  lemma NothingHeld(files: map<FileKey, FileRow>, v: Version, fs: seq<HashedFile>, p: Pipe, filed: nat, linked: nat,
                    linked': nat)
    requires Shape(fs, p) && p.phase.Closing? && Holds(files, v, fs, p, filed, linked)
    requires linked' <= |AllEntries(v, fs[..filed])|
    requires AskAll(files, p.todo, AllEntries(v, fs[..filed])[linked'..])
    ensures Shape(fs, p.(buffer := [], phase := Done)) &&
            Holds(files, v, fs, p.(buffer := [], phase := Done), filed, linked')
  {
    assert [] + p.todo == p.todo;
  }

  /** At the end the buffer holds all that is not linked yet. */
  lemma EverythingHeld(files: map<FileKey, FileRow>, v: Version, fs: seq<HashedFile>, p: Pipe, filed: nat, linked: nat)
    requires Shape(fs, p) && p.phase.Closing? && Holds(files, v, fs, p, filed, linked)
    ensures filed == |fs| && fs[..filed] == fs && p.buffer + p.todo == p.buffer
    ensures linked + |p.buffer| == |AllEntries(v, fs)|
  {
    assert |RowsFor(v, fs[filed..p.sent])| == 0;
    assert fs[..filed] == fs;
    assert p.buffer + p.todo == p.buffer;
  }

  /** The whole pipeline: any enabled step, in any order, until none is. */
  method SaveFiles(store: Store, v: Version, fs: seq<HashedFile>) returns (ghost run: Run)
    requires Ok(store.T()) && DistinctPaths(fs)
    modifies store`files, store`chunks, store`links, store`pending
    ensures Legal(v, fs, run) && Complete(v, fs, run)
    ensures Ok(store.T()) && Abs(store.T()) == Exec(old(Abs(store.T())), v, fs, run)
  {
    ghost var a := Abs(store.T());
    var p := Pipe(0, 0, Receiving, false, [], map[], [], []);
    run := Start;
    while
      invariant Inv(a, store, v, fs, p, run)
      decreases |fs| - p.checked, |fs| - p.sent, |p.bufFiles|, |p.todo|, !p.ended, p.phase.Rank()
    {
      case p.checked == p.sent && p.checked < |fs| =>
        p, run := CheckNextFile(store, a, v, fs, run, p);
      case p.phase.Receiving? && p.sent < p.checked =>
        p := ReceiveFile(store, a, v, fs, run, p);
      case p.phase.Creating? =>
        p, run := WriteFileBatch(store, a, v, fs, run, p);
      case p.phase.Linking? && p.todo != [] =>
        p, run := HandOver(store, a, v, fs, run, p);
      case p.phase.Linking? && p.todo == [] =>
        p := p.(phase := if p.ended then Closing else Receiving);
      case p.phase.Receiving? && p.sent == |fs| && !p.ended =>
        // <-endCh
        p := p.(ended := true, phase := if p.bufFiles == [] then Closing else Creating);
      case p.phase.Closing? =>
        p, run := ForceFlush(store, a, v, fs, run, p);
    }
  }

  /** SaveFSToDB: totals and version row first, then the files. */
  method SaveFSToDB(store: Store, v: Version, fs: seq<HashedFile>)
    requires Ok(store.T()) && Consistent(Abs(store.T())) && DistinctPaths(fs)
    modifies store
    ensures Ok(store.T()) && Abs(store.T()) == Totals.SavedWithRow(old(Abs(store.T())), v, fs)
  {
    ghost var a := Abs(store.T());
    var stored, _ := store.ListFiles(v);
    var totalSize, fileCount := Totals.ComputeTotals(a.files, v, fs, stored);
    store.SaveDatasetVersion(v, VersionRow(totalSize, fileCount, false, false, ""));
    ghost var b := Abs(store.T());
    ghost var run := SaveFiles(store, v, fs);
    EveryRunSaves(b, v, fs, run);
  }
}
