/** What a save ends in, and why neither batching nor the interleaving of its two goroutines
    matters: every schedule keeps `Progress`, and `Progress` at the end is `Saved`. */
module SaveTheory {
  import opened Snapshots

  /** The outcome of saving `fs` into version `v`, without mention of order or batches. */
  ghost function Saved(a: Snapshot, v: Version, fs: seq<HashedFile>): Snapshot {
    var links := Kept(a.links, v, fs) + LinkSet(AllEntries(v, fs));
    var infos := PutInfos(a.chunks, AllEntries(v, fs));
    a.(files := PutFiles(a.files, v, fs),
       links := links,
       pending := {},
       chunks := map h | h in Hashes(links) && h in infos :: infos[h])
  }

  /** A save of `fs` that began in `a` and stands at `b`: `checked` files have lost their stale
      links, `filed` files have their row, and the first `linked` entries are linked. */
  ghost predicate Progress(a: Snapshot, b: Snapshot, v: Version, fs: seq<HashedFile>,
                           checked: nat, filed: nat, linked: nat)
    requires filed <= checked <= |fs| && linked <= |AllEntries(v, fs)|
  {
    var done := AllEntries(v, fs)[..linked];
    && Consistent(b)
    && b.files == PutFiles(a.files, v, fs[..filed])
    && b.links == Kept(a.links, v, fs[..checked]) + LinkSet(done)
    && (forall h | h in Hashes(b.links) :: h in PutInfos(a.chunks, done) && b.chunks[h] == PutInfos(a.chunks, done)[h])
    && b.versions == a.versions
    && b.datasets == a.datasets
  }

  lemma Begin(a: Snapshot, v: Version, fs: seq<HashedFile>)
    requires Consistent(a)
    ensures Progress(a, a, v, fs, 0, 0, 0)
  {
    assert Kept(a.links, v, fs[..0]) == a.links;
    assert LinkSet(AllEntries(v, fs)[..0]) == {};
    forall h | h in Hashes(a.links) ensures h in a.chunks {
      var l :| l in a.links && l.hash == h;
    }
  }

  /** The sender checks the next file. */
  lemma CheckStep(a: Snapshot, b: Snapshot, v: Version, fs: seq<HashedFile>, checked: nat, filed: nat, linked: nat)
    requires DistinctPaths(fs) && filed <= checked < |fs| && linked <= |AllEntries(v, fs[..filed])|
    requires linked <= |AllEntries(v, fs)| && Progress(a, b, v, fs, checked, filed, linked)
    ensures Progress(a, ClearExtra(b, v, fs[checked]), v, fs, checked + 1, filed, linked)
    ensures ClearExtra(b, v, fs[checked]).pending >= b.pending
  {
    var f, done := fs[checked], AllEntries(v, fs)[..linked];
    forall e | e in done ensures !Stale(e.link, v, f) {
      LinkedAreFiled(v, fs, filed, linked, e);
    }
    KeptOnceMore(a.links, v, fs[..checked], f, done);
    OneMoreFile(fs, checked);
    ClearKeepsConsistent(b, v, f);
  }

  lemma OneMoreFile(fs: seq<HashedFile>, n: nat)
    requires n < |fs|
    ensures fs[..n + 1] == fs[..n] + [fs[n]]
  {
  }

  /** The hashes of the links that go are queued. */
  lemma ClearKeepsConsistent(b: Snapshot, v: Version, f: HashedFile)
    requires Consistent(b)
    ensures Consistent(ClearExtra(b, v, f))
    ensures Hashes(ClearExtra(b, v, f).links) <= Hashes(b.links)
  {
    var c := ClearExtra(b, v, f);
    assert forall h | h in Hashes(b.links) :: h in Hashes(c.links) || h in c.pending;
    forall h | h in Hashes(b.links - c.links) ensures h in b.chunks {
      var l :| l in b.links && l.hash == h;
    }
  }

  lemma KeptOnceMore(links: set<Link>, v: Version, fs: seq<HashedFile>, f: HashedFile, done: seq<Entry>)
    requires forall e | e in done :: !Stale(e.link, v, f)
    ensures var now := Kept(links, v, fs) + LinkSet(done);
            now - (set l | l in now && Stale(l, v, f)) == Kept(links, v, fs + [f]) + LinkSet(done)
  {
    forall l ensures l in Kept(links, v, fs + [f]) <==> l in Kept(links, v, fs) && !Stale(l, v, f) {
      assert forall g :: g in fs + [f] <==> g in fs || g == f;
    }
  }

  lemma LinkedAreFiled(v: Version, fs: seq<HashedFile>, filed: nat, linked: nat, e: Entry)
    requires filed <= |fs| && linked <= |AllEntries(v, fs[..filed])| && linked <= |AllEntries(v, fs)|
    requires e in AllEntries(v, fs)[..linked]
    ensures exists j :: 0 <= j < filed && e.link.file == FileKey(v, fs[j].path)
  {
    EntriesPrefix(v, fs, filed);
    assert AllEntries(v, fs)[..linked] == AllEntries(v, fs[..filed])[..linked];
    EntriesBelong(v, fs[..filed], e);
  }

  /** The receiver writes a batch of file rows. */
  lemma FileStep(a: Snapshot, b: Snapshot, v: Version, fs: seq<HashedFile>, checked: nat, filed: nat, filed': nat,
                 linked: nat)
    requires filed <= filed' <= checked <= |fs| && linked <= |AllEntries(v, fs)|
    requires Progress(a, b, v, fs, checked, filed, linked)
    ensures Progress(a, b.(files := PutFiles(b.files, v, fs[filed..filed'])), v, fs, checked, filed', linked)
  {
    PutFilesAppend(a.files, v, fs[..filed], fs[filed..filed']);
    assert fs[..filed] + fs[filed..filed'] == fs[..filed'];
    forall l | l in b.links ensures l.file in PutFiles(b.files, v, fs[filed..filed']) {
      PutFilesKeys(b.files, v, fs[filed..filed'], l.file);
    }
  }

  /** The receiver flushes pending deletes and then connects a batch of entries. */
  lemma ConnectStep(a: Snapshot, b: Snapshot, v: Version, fs: seq<HashedFile>, checked: nat, filed: nat, linked: nat,
                    linked': nat)
    requires filed <= checked <= |fs| && linked <= linked' <= |AllEntries(v, fs[..filed])|
    requires linked' <= |AllEntries(v, fs)| && Progress(a, b, v, fs, checked, filed, linked)
    ensures Progress(a, Connect(Flushed(b), AllEntries(v, fs)[linked..linked']), v, fs, checked, filed, linked')
    ensures Connect(Flushed(b), AllEntries(v, fs)[linked..linked']).pending == {}
  {
    var all := AllEntries(v, fs);
    var done, batch := all[..linked], all[linked..linked'];
    assert done + batch == all[..linked'];
    var mid := Flushed(b);
    FlushedConsistent(b);
    var c := Connect(mid, batch);
    assert LinkSet(all[..linked']) == LinkSet(done) + LinkSet(batch);
    PutInfosAppend(a.chunks, done, batch);
    forall l | l in c.links ensures l.file in c.files && l.hash in c.chunks {
      PutInfosLocal(mid.chunks, mid.chunks, batch, l.hash);
      if l in LinkSet(batch) {
        LinkHasFile(a.files, v, fs, filed, linked, linked', l);
      }
    }
    forall h | h in c.chunks ensures h in Hashes(c.links) {
      PutInfosLocal(mid.chunks, mid.chunks, batch, h);
    }
    forall h | h in Hashes(c.links)
      ensures h in PutInfos(a.chunks, all[..linked']) && c.chunks[h] == PutInfos(a.chunks, all[..linked'])[h]
    {
      ConnectedInfo(PutInfos(a.chunks, done), mid.chunks, batch, h);
    }
  }

  lemma LinkHasFile(files: map<FileKey, int>, v: Version, fs: seq<HashedFile>, filed: nat, linked: nat, linked': nat,
                    l: Link)
    requires filed <= |fs| && linked <= linked' <= |AllEntries(v, fs[..filed])| && linked' <= |AllEntries(v, fs)|
    requires l in LinkSet(AllEntries(v, fs)[linked..linked'])
    ensures l.file in PutFiles(files, v, fs[..filed])
  {
    var e :| e in AllEntries(v, fs)[linked..linked'] && e.link == l;
    LinkedAreFiled(v, fs, filed, linked', e);
    PutFilesKeys(files, v, fs[..filed], l.file);
  }

  lemma ConnectedInfo(before: map<string, ChunkInfo>, kept: map<string, ChunkInfo>, batch: seq<Entry>, h: string)
    requires h in Hashes(LinkSet(batch)) || (h in before && h in kept && before[h] == kept[h])
    ensures h in PutInfos(before, batch) && h in PutInfos(kept, batch)
    ensures PutInfos(before, batch)[h] == PutInfos(kept, batch)[h]
  {
    if h in Hashes(LinkSet(batch)) {
      PutInfosOverrides(before, kept, batch, h);
    } else {
      PutInfosLocal(before, kept, batch, h);
    }
  }

  /** Nothing left to do: only one snapshot is possible. */
  lemma Finish(a: Snapshot, b: Snapshot, v: Version, fs: seq<HashedFile>)
    requires Progress(a, b, v, fs, |fs|, |fs|, |AllEntries(v, fs)|) && b.pending == {}
    ensures b == Saved(a, v, fs)
  {
    var all := AllEntries(v, fs);
    assert all[..|all|] == all && fs[..|fs|] == fs;
    CleanMeansExactlyLinked(b);
  }

  // ---- Runs of the two goroutines

  /** The steps that touch the database, each under the lock: the sender checks the next
      file, the receiver writes file rows up to `upTo`, or flushes the pending deletes and
      links the entries up to `upTo`. */
  datatype Step = CheckNext | WriteFiles(upTo: nat) | FlushAndLink(upTo: nat)
  datatype Run = Start | Then(run: Run, step: Step)

  ghost function Checked(r: Run): nat {
    if r.Start? then 0 else if r.step.CheckNext? then Checked(r.run) + 1 else Checked(r.run)
  }

  ghost function Filed(r: Run): nat {
    if r.Start? then 0 else if r.step.WriteFiles? then r.step.upTo else Filed(r.run)
  }

  ghost function Linked(r: Run): nat {
    if r.Start? then 0 else if r.step.FlushAndLink? then r.step.upTo else Linked(r.run)
  }

  /** A file is checked before its row is written, and its row is written before its entries
      are linked. Nothing else is demanded: neither batch sizes nor an order of the steps. */
  ghost predicate Legal(v: Version, fs: seq<HashedFile>, r: Run) {
    r.Then? ==>
      && Legal(v, fs, r.run)
      && match r.step
         case CheckNext => Checked(r.run) < |fs|
         case WriteFiles(n) => Filed(r.run) <= n <= Checked(r.run)
         case FlushAndLink(n) => Filed(r.run) <= |fs| && Linked(r.run) <= n <= |AllEntries(v, fs[..Filed(r.run)])|
  }

  ghost function Exec(a: Snapshot, v: Version, fs: seq<HashedFile>, r: Run): Snapshot
    requires Legal(v, fs, r)
  {
    if r.Start? then a
    else
      var b := Exec(a, v, fs, r.run);
      match r.step
      case CheckNext => ClearExtra(b, v, fs[Checked(r.run)])
      case WriteFiles(n) =>
        RunCounts(v, fs, r.run);
        b.(files := PutFiles(b.files, v, fs[Filed(r.run)..n]))
      case FlushAndLink(n) =>
        EntriesPrefix(v, fs, Filed(r.run));
        Connect(Flushed(b), AllEntries(v, fs)[Linked(r.run)..n])
  }

  lemma {:induction false} RunCounts(v: Version, fs: seq<HashedFile>, r: Run)
    requires Legal(v, fs, r)
    ensures Filed(r) <= Checked(r) <= |fs|
    ensures Linked(r) <= |AllEntries(v, fs[..Filed(r)])| <= |AllEntries(v, fs)|
  {
    EntriesPrefix(v, fs, 0);
    if r.Then? {
      RunCounts(v, fs, r.run);
      if r.step.WriteFiles? {
        EntriesPrefix(v, fs[..r.step.upTo], Filed(r.run));
        assert fs[..r.step.upTo][..Filed(r.run)] == fs[..Filed(r.run)];
        EntriesPrefix(v, fs, r.step.upTo);
      }
    }
  }

  lemma {:induction false} RunProgress(a: Snapshot, v: Version, fs: seq<HashedFile>, r: Run)
    requires Consistent(a) && DistinctPaths(fs) && Legal(v, fs, r)
    ensures Filed(r) <= Checked(r) <= |fs| && Linked(r) <= |AllEntries(v, fs)|
    ensures Progress(a, Exec(a, v, fs, r), v, fs, Checked(r), Filed(r), Linked(r))
  {
    RunCounts(v, fs, r);
    if r.Start? {
      Begin(a, v, fs);
    } else {
      var p := r.run;
      RunCounts(v, fs, p);
      RunProgress(a, v, fs, p);
      var b := Exec(a, v, fs, p);
      match r.step
      case CheckNext => CheckStep(a, b, v, fs, Checked(p), Filed(p), Linked(p));
      case WriteFiles(n) => FileStep(a, b, v, fs, Checked(p), Filed(p), n, Linked(p));
      case FlushAndLink(n) => ConnectStep(a, b, v, fs, Checked(p), Filed(p), Linked(p), n);
    }
  }

  /** All files checked and written, and the forced last flush has linked every entry. */
  ghost predicate Complete(v: Version, fs: seq<HashedFile>, r: Run) {
    r.Then? && r.step == FlushAndLink(|AllEntries(v, fs)|) && Checked(r.run) == |fs| && Filed(r.run) == |fs|
  }

  /** Every complete run, with any interleaving and any batches, ends in the same snapshot. */
  lemma {:induction false} EveryRunSaves(a: Snapshot, v: Version, fs: seq<HashedFile>, r: Run)
    requires Consistent(a) && DistinctPaths(fs) && Legal(v, fs, r) && Complete(v, fs, r)
    ensures Exec(a, v, fs, r) == Saved(a, v, fs)
  {
    RunProgress(a, v, fs, r);
    Finish(a, Exec(a, v, fs, r), v, fs);
  }

  /** Saving the files one at a time ends where every interleaved, batched save ends. */
  lemma {:induction false} OneByOneIsSaved(a: Snapshot, v: Version, fs: seq<HashedFile>)
    requires Consistent(a) && DistinctPaths(fs)
    ensures SaveOneByOne(a, v, fs) == Saved(a, v, fs)
  {
    OneByOneProgress(a, v, fs, |fs|);
    assert fs[..|fs|] == fs;
    Finish(a, SaveOneByOne(a, v, fs), v, fs);
  }

  lemma {:induction false} OneByOneProgress(a: Snapshot, v: Version, fs: seq<HashedFile>, n: nat)
    requires Consistent(a) && DistinctPaths(fs) && n <= |fs|
    ensures |AllEntries(v, fs[..n])| <= |AllEntries(v, fs)|
    ensures Progress(a, SaveOneByOne(a, v, fs[..n]), v, fs, n, n, |AllEntries(v, fs[..n])|)
    ensures SaveOneByOne(a, v, fs[..n]).pending == {}
  {
    EntriesPrefix(v, fs, n);
    if n == 0 {
      FlushFirst(a, v, fs);
    } else {
      assert fs[..n][..n - 1] == fs[..n - 1];
      OneByOneProgress(a, v, fs, n - 1);
      OneMore(a, SaveOneByOne(a, v, fs[..n - 1]), v, fs, n - 1);
    }
  }

  lemma FlushFirst(a: Snapshot, v: Version, fs: seq<HashedFile>)
    requires Consistent(a)
    ensures Progress(a, Flushed(a), v, fs, 0, 0, 0) && Flushed(a).pending == {}
  {
    Begin(a, v, fs);
    assert |AllEntries(v, fs[..0])| == 0;
    ConnectStep(a, a, v, fs, 0, 0, 0, 0);
    assert LinkSet(AllEntries(v, fs)[0..0]) == {};
    assert Connect(Flushed(a), AllEntries(v, fs)[0..0]) == Flushed(a);
  }

  /** Check, file row, flush and links of one file. */
  lemma OneMore(a: Snapshot, b: Snapshot, v: Version, fs: seq<HashedFile>, n: nat)
    requires DistinctPaths(fs) && n < |fs|
    requires |AllEntries(v, fs[..n])| <= |AllEntries(v, fs)|
    requires Progress(a, b, v, fs, n, n, |AllEntries(v, fs[..n])|)
    ensures |AllEntries(v, fs[..n + 1])| <= |AllEntries(v, fs)|
    ensures Progress(a, SaveOne(b, v, fs[n]), v, fs, n + 1, n + 1, |AllEntries(v, fs[..n + 1])|)
    ensures SaveOne(b, v, fs[n]).pending == {}
  {
    var from, to, f := |AllEntries(v, fs[..n])|, |AllEntries(v, fs[..n + 1])|, fs[n];
    EntriesOfOne(v, fs, n);
    CheckStep(a, b, v, fs, n, n, from);
    OneFiled(a, ClearExtra(b, v, f), v, fs, n, from);
    var c := ClearExtra(b, v, f);
    ConnectStep(a, c.(files := c.files[FileKey(v, f.path) := f.size]), v, fs, n + 1, n + 1, from, to);
  }

  lemma EntriesOfOne(v: Version, fs: seq<HashedFile>, n: nat)
    requires n < |fs|
    ensures var from, to := |AllEntries(v, fs[..n])|, |AllEntries(v, fs[..n + 1])|;
            from <= to <= |AllEntries(v, fs)| && AllEntries(v, fs)[from..to] == Entries(v, fs[n])
  {
    EntriesPrefix(v, fs, n + 1);
    assert fs[..n + 1][..n] == fs[..n];
    assert AllEntries(v, fs[..n + 1])[|AllEntries(v, fs[..n])|..] == Entries(v, fs[n]);
  }

  /** The row of one file. */
  lemma OneFiled(a: Snapshot, c: Snapshot, v: Version, fs: seq<HashedFile>, n: nat, linked: nat)
    requires n < |fs| && linked <= |AllEntries(v, fs)| && Progress(a, c, v, fs, n + 1, n, linked)
    ensures Progress(a, c.(files := c.files[FileKey(v, fs[n].path) := fs[n].size]), v, fs, n + 1, n + 1, linked)
  {
    FileStep(a, c, v, fs, n + 1, n, n + 1, linked);
    PutOne(c.files, v, fs[n]);
    assert fs[n..n + 1] == [fs[n]];
  }

  lemma PutOne(files: map<FileKey, int>, v: Version, f: HashedFile)
    ensures PutFiles(files, v, [f]) == files[FileKey(v, f.path) := f.size]
  {
    assert [f][..0] == [];
  }

  lemma {:induction false} SavedIsClean(a: Snapshot, v: Version, fs: seq<HashedFile>)
    requires Consistent(a) && DistinctPaths(fs)
    ensures Clean(Saved(a, v, fs))
  {
    OneByOneProgress(a, v, fs, |fs|);
    assert fs[..|fs|] == fs;
    OneByOneIsSaved(a, v, fs);
  }

  /** Two saves in a row are one save of both lists, when no path comes twice. */
  lemma {:induction false} SavesCompose(a: Snapshot, v: Version, fs: seq<HashedFile>, gs: seq<HashedFile>)
    requires Consistent(a) && DistinctPaths(fs + gs)
    ensures Saved(Saved(a, v, fs), v, gs) == Saved(a, v, fs + gs)
  {
    assert DistinctPaths(fs) && DistinctPaths(gs) by {
      assert fs == (fs + gs)[..|fs|] && gs == (fs + gs)[|fs|..];
    }
    SavedIsClean(a, v, fs);
    OneByOneIsSaved(a, v, fs);
    OneByOneIsSaved(a, v, fs + gs);
    OneByOneIsSaved(Saved(a, v, fs), v, gs);
    OneByOneAppend(a, v, fs, gs);
  }

  lemma {:induction false} OneByOneAppend(a: Snapshot, v: Version, fs: seq<HashedFile>, gs: seq<HashedFile>)
    requires SaveOneByOne(a, v, fs).pending == {}
    ensures SaveOneByOne(SaveOneByOne(a, v, fs), v, gs) == SaveOneByOne(a, v, fs + gs)
  {
    if gs == [] {
      assert fs + gs == fs;
      var b := SaveOneByOne(a, v, fs);
      assert Flushed(b).chunks == b.chunks;
    } else {
      assert (fs + gs)[..|fs + gs| - 1] == fs + gs[..|gs| - 1];
      OneByOneAppend(a, v, fs, gs[..|gs| - 1]);
    }
  }

  // ---- Reading back

  /** Every old link that stays is one the new list makes again: a hash the new list keeps
      stands where it stood. */
  ghost predicate PositionsKept(a: Snapshot, v: Version, f: HashedFile) {
    forall l | l in LinksOf(a, FileKey(v, f.path)) && !Stale(l, v, f) ::
      l.index < |f.hashes| && f.hashes[l.index].hash == l.hash
  }

  /** The join ordered by chunk_index: each link once, ties in any order. */
  ghost predicate OrderedRead(rows: seq<Link>, links: set<Link>) {
    && (forall l :: l in rows <==> l in links)
    && (forall i, j | 0 <= i < j < |rows| :: rows[i] != rows[j] && rows[i].index <= rows[j].index)
  }

  ghost function HashList(rows: seq<Link>): seq<string> {
    seq(|rows|, i requires 0 <= i < |rows| => rows[i].hash)
  }

  ghost function Submitted(f: HashedFile): seq<string> {
    seq(|f.hashes|, i requires 0 <= i < |f.hashes| => f.hashes[i].hash)
  }

  lemma SavedLinksOf(a: Snapshot, v: Version, fs: seq<HashedFile>, j: nat)
    requires DistinctPaths(fs) && j < |fs|
    ensures LinksOf(Saved(a, v, fs), FileKey(v, fs[j].path)) ==
            (set l | l in LinksOf(a, FileKey(v, fs[j].path)) && !Stale(l, v, fs[j])) + LinkSet(Entries(v, fs[j]))
  {
    var f, k := fs[j], FileKey(v, fs[j].path);
    forall l: Link | l.file == k ensures l in LinkSet(AllEntries(v, fs)) <==> l in LinkSet(Entries(v, f)) {
      if e :| e in AllEntries(v, fs) && e.link == l {
        EntriesBelong(v, fs, e);
      }
      if e :| e in Entries(v, f) && e.link == l {
        EntriesBelong(v, fs, e);
      }
    }
    assert forall l: Link | l.file == k :: l in Kept(a.links, v, fs) <==> l in a.links && !Stale(l, v, f);
  }

  /** A file reads back as it was submitted, whatever order the database gives equal
      indexes, exactly if its kept hashes kept their positions. */
  lemma ReadsBackIffPositionsKept(a: Snapshot, v: Version, fs: seq<HashedFile>, j: nat, rows: seq<Link>)
    requires DistinctPaths(fs) && j < |fs|
    requires OrderedRead(rows, LinksOf(Saved(a, v, fs), FileKey(v, fs[j].path)))
    ensures HashList(rows) == Submitted(fs[j]) <==> PositionsKept(a, v, fs[j])
  {
    var f, k := fs[j], FileKey(v, fs[j].path);
    SavedLinksOf(a, v, fs, j);
    MadeLinks(v, f);
    if PositionsKept(a, v, f) {
      forall l | l in LinksOf(a, k) && !Stale(l, v, f) ensures l in ExactSet(k, Submitted(f)) {
        assert l == Link(k, Submitted(f)[l.index], l.index);
      }
      ReadOfExactLinks(rows, k, Submitted(f));
    } else {
      var l :| l in LinksOf(a, k) && !Stale(l, v, f) && !(l.index < |f.hashes| && f.hashes[l.index].hash == l.hash);
      assert l in rows && l !in ExactSet(k, Submitted(f));
      MoreLinksThanHashes(rows, k, Submitted(f), l);
    }
  }

  ghost function ExactSet(k: FileKey, hs: seq<string>): set<Link> {
    set i | 0 <= i < |hs| :: Link(k, hs[i], i)
  }

  lemma MadeLinks(v: Version, f: HashedFile)
    ensures LinkSet(Entries(v, f)) == ExactSet(FileKey(v, f.path), Submitted(f))
  {
    var k, made := FileKey(v, f.path), LinkSet(Entries(v, f));
    forall l | l in made ensures l in ExactSet(k, Submitted(f)) {
      var e :| e in Entries(v, f) && e.link == l;
      assert l == Link(k, Submitted(f)[l.index], l.index);
    }
    forall i | 0 <= i < |f.hashes| ensures Link(k, Submitted(f)[i], i) in made {
      assert Entries(v, f)[i] in Entries(v, f);
    }
  }

  /** A read of the links (h0, 0), (h1, 1), ... has them in this order. */
  lemma {:induction false} ReadOfExactLinks(rows: seq<Link>, k: FileKey, hs: seq<string>)
    requires OrderedRead(rows, ExactSet(k, hs))
    ensures HashList(rows) == hs
    decreases |hs|
  {
    assert rows == [] || (rows[0] in rows && rows[0] in ExactSet(k, hs));
    if hs != [] {
      LastOfExactLinks(rows, k, hs);
      var m, n := |rows| - 1, |hs| - 1;
      ReadOfExactLinks(rows[..m], k, hs[..n]);
      assert HashList(rows) == HashList(rows[..m]) + [rows[m].hash];
      assert hs == hs[..n] + [hs[n]];
    }
  }

  /** The last row is the last link, and the rows before it read the links before it. */
  lemma LastOfExactLinks(rows: seq<Link>, k: FileKey, hs: seq<string>)
    requires OrderedRead(rows, ExactSet(k, hs)) && hs != []
    ensures rows != [] && rows[|rows| - 1] == Link(k, hs[|hs| - 1], |hs| - 1)
    ensures OrderedRead(rows[..|rows| - 1], ExactSet(k, hs[..|hs| - 1]))
  {
    var last := Link(k, hs[|hs| - 1], |hs| - 1);
    LastRow(rows, k, hs);
    var init := rows[..|rows| - 1];
    assert rows == init + [last];
    forall l ensures l in init <==> l in ExactSet(k, hs[..|hs| - 1]) {
      OneLinkFewer(k, hs, l);
    }
  }

  lemma LastRow(rows: seq<Link>, k: FileKey, hs: seq<string>)
    requires OrderedRead(rows, ExactSet(k, hs)) && hs != []
    ensures rows != [] && rows[|rows| - 1] == Link(k, hs[|hs| - 1], |hs| - 1)
  {
    var last := Link(k, hs[|hs| - 1], |hs| - 1);
    assert last in ExactSet(k, hs);
    var p :| 0 <= p < |rows| && rows[p] == last;
    var z := rows[|rows| - 1];
    assert z in rows && z in ExactSet(k, hs);
  }

  lemma OneLinkFewer(k: FileKey, hs: seq<string>, l: Link)
    requires hs != []
    ensures l in ExactSet(k, hs[..|hs| - 1]) <==> l in ExactSet(k, hs) && l != Link(k, hs[|hs| - 1], |hs| - 1)
  {
  }

  /** One link too many makes every read too long. */
  lemma MoreLinksThanHashes(rows: seq<Link>, k: FileKey, hs: seq<string>, extra: Link)
    requires forall l | l in ExactSet(k, hs) :: l in rows
    requires extra in rows && extra !in ExactSet(k, hs)
    ensures |rows| > |hs|
  {
    var images := Images(k, hs, |hs|);
    assert images == ExactSet(k, hs);
    ImageSize(k, hs, |hs|);
    assert images + {extra} <= set l | l in rows;
    SubsetSize(images + {extra}, set l | l in rows);
    SeqSetSize(rows);
  }

  ghost function Images(k: FileKey, hs: seq<string>, n: nat): set<Link>
    requires n <= |hs|
  {
    set i | 0 <= i < n :: Link(k, hs[i], i)
  }

  lemma {:induction false} ImageSize(k: FileKey, hs: seq<string>, n: nat)
    requires n <= |hs|
    ensures |Images(k, hs, n)| == n
  {
    if n == 0 {
      assert Images(k, hs, 0) == {};
    } else {
      ImageSize(k, hs, n - 1);
      assert Images(k, hs, n) == Images(k, hs, n - 1) + {Link(k, hs[n - 1], n - 1)};
    }
  }

  lemma {:induction false} SubsetSize<T>(a: set<T>, b: set<T>)
    requires a <= b
    ensures |a| <= |b|
  {
    if x :| x in a {
      SubsetSize(a - {x}, b - {x});
    }
  }

  lemma {:induction false} SeqSetSize<T>(s: seq<T>)
    ensures |set x | x in s| <= |s|
  {
    if s != [] {
      SeqSetSize(s[1..]);
      assert (set x | x in s) == (set x | x in s[1..]) + {s[0]};
    } else {
      assert (set x | x in s) == {};
    }
  }

  /** Nothing outside the saved paths moves, in this version or another; and a chunk row that a
      file there shares with the save keeps size and layout exactly if the save does not say
      otherwise. */
  lemma SaveLeavesOthers(a: Snapshot, v: Version, fs: seq<HashedFile>, k: FileKey)
    requires Consistent(a)
    requires forall f | f in fs :: k != FileKey(v, f.path)
    ensures k in Saved(a, v, fs).files <==> k in a.files
    ensures k in a.files ==> Saved(a, v, fs).files[k] == a.files[k]
    ensures LinksOf(Saved(a, v, fs), k) == LinksOf(a, k)
    ensures forall l | l in LinksOf(a, k) :: l.hash in Saved(a, v, fs).chunks
    ensures forall l | l in LinksOf(a, k) :: l.hash in a.chunks &&
              (Saved(a, v, fs).chunks[l.hash] == a.chunks[l.hash] <==> NotContradicted(a.chunks, v, fs, l.hash))
  {
    var all, s := AllEntries(v, fs), Saved(a, v, fs);
    PutFilesKeys(a.files, v, fs, k);
    forall e | e in all ensures e.link.file != k {
      EntriesBelong(v, fs, e);
    }
    forall l | l in LinksOf(a, k)
      ensures l in s.links && l.hash in s.chunks && l.hash in a.chunks
      ensures s.chunks[l.hash] == a.chunks[l.hash] <==> NotContradicted(a.chunks, v, fs, l.hash)
    {
      SharedChunk(a, v, fs, l.hash);
    }
  }

  /** The save does not mention the hash, or its last word on it is what the row says. */
  ghost predicate NotContradicted(chunks: map<string, ChunkInfo>, v: Version, fs: seq<HashedFile>, h: string)
    requires h in chunks
  {
    var said := PutInfos(map[], AllEntries(v, fs));
    h in said ==> said[h] == chunks[h]
  }

  lemma SharedChunk(a: Snapshot, v: Version, fs: seq<HashedFile>, h: string)
    requires h in a.chunks
    ensures h in PutInfos(a.chunks, AllEntries(v, fs))
    ensures PutInfos(a.chunks, AllEntries(v, fs))[h] == a.chunks[h] <==> NotContradicted(a.chunks, v, fs, h)
  {
    var all := AllEntries(v, fs);
    PutInfosLocal(a.chunks, a.chunks, all, h);
    PutInfosLocal(map[], map[], all, h);
    if h in Hashes(LinkSet(all)) {
      PutInfosOverrides(map[], a.chunks, all, h);
    }
  }

  /** Moving a kept hash breaks the file: replacing [a, b] by [b] reads back as [b, b]. */
  lemma MovedHashCounterexample(v: Version, info: ChunkInfo)
    ensures var k := FileKey(v, "f");
            var before := Snapshot(map[k := 2], map["a" := info, "b" := info],
                                   {Link(k, "a", 0), Link(k, "b", 1)}, {}, map[], map[]);
            var f := HashedFile("f", 1, [HashRef("b", info.size, info.layout)]);
            && Clean(before)
            && !PositionsKept(before, v, f)
            && OrderedRead([Link(k, "b", 0), Link(k, "b", 1)], LinksOf(Saved(before, v, [f]), k))
  {
    var k := FileKey(v, "f");
    var before := Snapshot(map[k := 2], map["a" := info, "b" := info],
                           {Link(k, "a", 0), Link(k, "b", 1)}, {}, map[], map[]);
    var f := HashedFile("f", 1, [HashRef("b", info.size, info.layout)]);
    assert Link(k, "a", 0) in before.links && Link(k, "b", 1) in before.links;
    assert Hashes(before.links) == {"a", "b"};
    assert f.hashes[0].hash == "b" && "a"[0] != "b"[0];
    assert Stale(Link(k, "a", 0), v, f) && !Stale(Link(k, "b", 1), v, f);
    SavedLinksOf(before, v, [f], 0);
    assert LinkSet(Entries(v, f)) == {Link(k, "b", 0)} by {
      assert Entries(v, f) == [Entry(Link(k, "b", 0), info)];
    }
    assert LinksOf(Saved(before, v, [f]), k) == {Link(k, "b", 1), Link(k, "b", 0)};
  }
}
