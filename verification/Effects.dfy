/** What every operation leaves, said row by row: which files, links, chunk rows and version rows
    there are afterwards, and with what in them. */
module Effects {
  import opened Snapshots
  import opened Totals
  import opened Runs
  import Clones
  import Collector
  import Push

  // ---- A save

  /** The last of the upserts of a hash decides its chunk row. */
  lemma {:induction false} LastUpsert(chunks: map<string, ChunkInfo>, es: seq<Entry>, n: nat)
    requires n < |es| && forall m | n < m < |es| :: es[m].link.hash != es[n].link.hash
    ensures es[n].link.hash in PutInfos(chunks, es) && PutInfos(chunks, es)[es[n].link.hash] == es[n].info
  {
    if n < |es| - 1 {
      LastUpsert(chunks, es[..|es| - 1], n);
    }
  }

  /** No hash behind chunk `i` of file `j` is `h`. */
  ghost predicate LastMention(fs: seq<HashedFile>, j: nat, i: nat, h: string) {
    && j < |fs| && i < |fs[j].hashes| && fs[j].hashes[i].hash == h
    && (forall n | i < n < |fs[j].hashes| :: fs[j].hashes[n].hash != h)
    && (forall m, n | j < m < |fs| && 0 <= n < |fs[m].hashes| :: fs[m].hashes[n].hash != h)
  }

  lemma MentionedBy(v: Version, f: HashedFile, h: string)
    ensures h in Hashes(LinkSet(Entries(v, f))) <==> exists n :: 0 <= n < |f.hashes| && f.hashes[n].hash == h
  {
    var es := Entries(v, f);
    if n :| 0 <= n < |f.hashes| && f.hashes[n].hash == h {
      assert es[n] in es && es[n].link in LinkSet(es);
    }
    if h in Hashes(LinkSet(es)) {
      var e :| e in es && e.link.hash == h;
    }
  }

  lemma {:induction false} LastMentionWins(chunks: map<string, ChunkInfo>, v: Version, fs: seq<HashedFile>, j: nat,
                                           i: nat)
    requires j < |fs| && i < |fs[j].hashes| && LastMention(fs, j, i, fs[j].hashes[i].hash)
    ensures var r, infos := fs[j].hashes[i], PutInfos(chunks, AllEntries(v, fs));
            r.hash in infos && infos[r.hash] == ChunkInfo(r.size, r.layout)
  {
    var init, last := fs[..|fs| - 1], fs[|fs| - 1];
    var h, before := fs[j].hashes[i].hash, PutInfos(chunks, AllEntries(v, init));
    PutInfosAppend(chunks, AllEntries(v, init), Entries(v, last));
    if j == |fs| - 1 {
      LastUpsert(before, Entries(v, last), i);
    } else {
      assert init[j] == fs[j] && forall m | 0 <= m < |init| :: init[m] == fs[m];
      LastMentionWins(chunks, v, init, j, i);
      MentionedBy(v, last, h);
      PutInfosLocal(before, before, Entries(v, last), h);
    }
  }

  /** The submitted files are there with their sizes, and all others as they were. */
  lemma SavedFiles(a: Snapshot, v: Version, fs: seq<HashedFile>, k: FileKey)
    requires DistinctPaths(fs)
    ensures var b := SavedWithRow(a, v, fs);
            && (k in b.files <==> k in a.files || exists j :: 0 <= j < |fs| && k == FileKey(v, fs[j].path))
            && (forall j | 0 <= j < |fs| && k == FileKey(v, fs[j].path) :: b.files[k] == fs[j].size)
            && ((forall j | 0 <= j < |fs| :: k != FileKey(v, fs[j].path)) && k in a.files ==> b.files[k] == a.files[k])
  {
    PutFilesKeys(a.files, v, fs, k);
    forall j | 0 <= j < |fs| && k == FileKey(v, fs[j].path)
      ensures k in PutFiles(a.files, v, fs) && PutFiles(a.files, v, fs)[k] == fs[j].size
    {
      PutFilesAt(a.files, v, fs, j);
    }
  }

  /** Chunk `i` of file `j` is `l.hash`, and so it is linked at `i`. */
  ghost predicate Asks(v: Version, fs: seq<HashedFile>, l: Link) {
    exists j :: 0 <= j < |fs| && l.file == FileKey(v, fs[j].path) && l.index < |fs[j].hashes| &&
                fs[j].hashes[l.index].hash == l.hash
  }

  lemma AskedIsEntry(v: Version, fs: seq<HashedFile>, l: Link)
    ensures Asks(v, fs, l) <==> l in LinkSet(AllEntries(v, fs))
  {
    if j :| 0 <= j < |fs| && l.file == FileKey(v, fs[j].path) && l.index < |fs[j].hashes| &&
            fs[j].hashes[l.index].hash == l.hash {
      var e := Entries(v, fs[j])[l.index];
      EntriesBelong(v, fs, e);
      assert e.link == l;
    }
    if l in LinkSet(AllEntries(v, fs)) {
      var e :| e in AllEntries(v, fs) && e.link == l;
      EntriesBelong(v, fs, e);
    }
  }

  /** Exactly the submitted links are there, and of the old ones those whose file is not submitted
      or still lists their hash. */
  lemma SavedLinks(a: Snapshot, v: Version, fs: seq<HashedFile>, l: Link)
    ensures l in SavedWithRow(a, v, fs).links <==>
            || (exists j :: 0 <= j < |fs| && l.file == FileKey(v, fs[j].path) && l.index < |fs[j].hashes| &&
                            fs[j].hashes[l.index].hash == l.hash)
            || (l in a.links && forall j | 0 <= j < |fs| && l.file == FileKey(v, fs[j].path) ::
                                  exists i :: 0 <= i < |fs[j].hashes| && fs[j].hashes[i].hash == l.hash)
  {
    AskedIsEntry(v, fs, l);
    NotStale(v, fs, l);
  }

  lemma NotStale(v: Version, fs: seq<HashedFile>, l: Link)
    ensures (forall f | f in fs :: !Stale(l, v, f)) <==>
            forall j | 0 <= j < |fs| && l.file == FileKey(v, fs[j].path) ::
              exists i :: 0 <= i < |fs[j].hashes| && fs[j].hashes[i].hash == l.hash
  {
    if forall f | f in fs :: !Stale(l, v, f) {
      forall j | 0 <= j < |fs| && l.file == FileKey(v, fs[j].path)
        ensures exists i :: 0 <= i < |fs[j].hashes| && fs[j].hashes[i].hash == l.hash
      {
        assert fs[j] in fs;
      }
    } else {
      var f :| f in fs && Stale(l, v, f);
      var j :| 0 <= j < |fs| && fs[j] == f;
    }
  }

  /** No file of the save lists the hash. */
  ghost predicate Unmentioned(fs: seq<HashedFile>, h: string) {
    forall j, i | 0 <= j < |fs| && 0 <= i < |fs[j].hashes| :: fs[j].hashes[i].hash != h
  }

  lemma UnmentionedIsNoEntry(v: Version, fs: seq<HashedFile>, h: string)
    ensures h in Hashes(LinkSet(AllEntries(v, fs))) <==> !Unmentioned(fs, h)
  {
    if h in Hashes(LinkSet(AllEntries(v, fs))) {
      var l :| l in LinkSet(AllEntries(v, fs)) && l.hash == h;
      AskedIsEntry(v, fs, l);
    }
    if j, i :| 0 <= j < |fs| && 0 <= i < |fs[j].hashes| && fs[j].hashes[i].hash == h {
      var l := Link(FileKey(v, fs[j].path), h, i);
      AskedIsEntry(v, fs, l);
      assert l in LinkSet(AllEntries(v, fs));
    }
  }

  lemma SavedChunk(a: Snapshot, v: Version, fs: seq<HashedFile>, h: string)
    requires Consistent(a)
    ensures var b, infos := SavedWithRow(a, v, fs), PutInfos(a.chunks, AllEntries(v, fs));
            && (h in b.chunks <==> h in Hashes(b.links))
            && (h in b.chunks ==> h in infos && b.chunks[h] == infos[h])
            && (Unmentioned(fs, h) && h in b.chunks ==> h in a.chunks && infos[h] == a.chunks[h])
            && (!Unmentioned(fs, h) ==> h in b.chunks)
  {
    var b, all := SavedWithRow(a, v, fs), AllEntries(v, fs);
    UnmentionedIsNoEntry(v, fs, h);
    PutInfosLocal(a.chunks, a.chunks, all, h);
    if h in Hashes(b.links) {
      var l :| l in b.links && l.hash == h;
      assert l in a.links || l in LinkSet(all);
    }
    if h in Hashes(LinkSet(all)) {
      var l :| l in LinkSet(all) && l.hash == h;
      assert l in b.links;
    }
  }

  /** The chunk rows are those of the linked hashes; the last mention in the save decides what a
      row says, and a row that the save does not mention is as it was. */
  lemma SavedChunks(a: Snapshot, v: Version, fs: seq<HashedFile>, h: string)
    requires Consistent(a)
    ensures var b := SavedWithRow(a, v, fs);
            && (h in b.chunks <==> exists l :: l in b.links && l.hash == h)
            && (forall j, i | 0 <= j < |fs| && 0 <= i < |fs[j].hashes| && LastMention(fs, j, i, h) ::
                  h in b.chunks && b.chunks[h] == ChunkInfo(fs[j].hashes[i].size, fs[j].hashes[i].layout))
            && (h in b.chunks && (forall j, i | 0 <= j < |fs| && 0 <= i < |fs[j].hashes| :: fs[j].hashes[i].hash != h)
                ==> h in a.chunks && b.chunks[h] == a.chunks[h])
  {
    SavedChunk(a, v, fs, h);
    forall j, i | 0 <= j < |fs| && 0 <= i < |fs[j].hashes| && LastMention(fs, j, i, h)
      ensures var b := SavedWithRow(a, v, fs);
              h in b.chunks && b.chunks[h] == ChunkInfo(fs[j].hashes[i].size, fs[j].hashes[i].layout)
    {
      LastMentionWins(a.chunks, v, fs, j, i);
    }
  }

  /** A save leaves a version as open as it was, a new one committed, and keeps the message. Its
      totals are written unless the version was soft-deleted. */
  lemma SavedVersionRow(a: Snapshot, v: Version, fs: seq<HashedFile>)
    ensures var b := SavedWithRow(a, v, fs);
            && v in b.versions && !b.versions[v].deleted
            && (b.versions[v].editing <==> v in a.versions && a.versions[v].editing)
            && b.versions[v].message == (if v in a.versions then a.versions[v].message else "")
            && (v in a.versions && a.versions[v].deleted ==>
                  b.versions[v].size == a.versions[v].size && b.versions[v].fileCount == a.versions[v].fileCount)
            && (!(v in a.versions && a.versions[v].deleted) ==>
                  b.versions[v].size == Sum(PathSizes(b.files, v)) &&
                  b.versions[v].fileCount == |PathSizes(b.files, v)|)
            && SameVersionsBut(a, b, v) && b.pending == {}
  {
    TotalsAfterSave(a, v, fs);
  }

  /** All other version rows, and the datasets, are as they were. */
  ghost predicate SameVersionsBut(a: Snapshot, b: Snapshot, v: Version) {
    && (forall u | u != v :: u in b.versions <==> u in a.versions)
    && (forall u | u != v && u in a.versions :: b.versions[u] == a.versions[u])
    && b.datasets == a.datasets
  }

  // ---- A clone, and versions

  /** The row comes back from a soft deletion with all it had. */
  ghost predicate Recovers(a: Snapshot, b: Snapshot, v: Version) {
    v in a.versions && a.versions[v].deleted && v in b.versions && b.versions[v] == a.versions[v].(deleted := false)
  }

  /** The row of a new or live version is open, with these totals, and with the message unless it is
      empty. */
  ghost predicate Opens(a: Snapshot, b: Snapshot, v: Version, size: int, fileCount: int, message: string) {
    && (v in a.versions ==> !a.versions[v].deleted)
    && v in b.versions
    && b.versions[v] == VersionRow(size, fileCount, false, true,
                                   if v in a.versions && message == "" then a.versions[v].message else message)
  }

  /** A clone opens the target with the source's totals, unless the target was soft-deleted: then it
      comes back with the row it had, committed if it was. */
  lemma ClonedVersionRow(a: Snapshot, src: Version, dst: Version, message: string)
    requires src in a.versions
    ensures var b, row := Clones.Cloned(a, src, dst, message), a.versions[src];
            (if dst in a.versions && a.versions[dst].deleted then Recovers(a, b, dst)
             else Opens(a, b, dst, row.size, row.fileCount, message))
            && SameVersionsBut(a, b, dst)
  {
  }

  /** Creating a version opens it with no totals, unless it was soft-deleted: then it comes back with
      the row it had, committed if it was. No file is touched. */
  lemma CreatedVersion(a: Snapshot, v: Version, message: string)
    ensures var b := Apply(a, CreateVersion(v, message));
            (if v in a.versions && a.versions[v].deleted then Recovers(a, b, v) else Opens(a, b, v, 0, 0, message))
            && SameVersionsBut(a, b, v) && SameFiles(a, b)
  {
  }

  ghost predicate SameFiles(a: Snapshot, b: Snapshot) {
    b.files == a.files && b.links == a.links && b.chunks == a.chunks && b.pending == a.pending
  }

  /** Committing closes a live version, and sets the message unless it is empty. Any other version is
      refused. */
  lemma CommittedVersion(a: Snapshot, v: Version, message: string)
    ensures var b := Apply(a, CommitVersion(v, message));
            && (!(v in a.versions && !a.versions[v].deleted) ==> b == a)
            && (v in a.versions && !a.versions[v].deleted ==>
                  && v in b.versions && !b.versions[v].deleted && !b.versions[v].editing
                  && b.versions[v].message == (if message == "" then a.versions[v].message else message)
                  && b.versions[v].size == a.versions[v].size && b.versions[v].fileCount == a.versions[v].fileCount)
            && SameVersionsBut(a, b, v) && SameFiles(a, b)
  {
  }

  /** After a commit neither an upload nor a deletion of files changes anything. */
  lemma CommitCloses(a: Snapshot, v: Version, message: string, f: HashedFile, like: string -> bool)
    ensures var b := Apply(a, CommitVersion(v, message));
            Apply(b, Upload(v, f)) == b && Apply(b, DeleteFile(v, like)) == b
  {
    CommittedVersion(a, v, message);
    Refused(Apply(a, CommitVersion(v, message)), v, f, like);
  }

  lemma Refused(a: Snapshot, v: Version, f: HashedFile, like: string -> bool)
    requires !Editable(a.versions, v)
    ensures Apply(a, Upload(v, f)) == a && Apply(a, DeleteFile(v, like)) == a
  {
  }

  // ---- A push

  /** saveFS from the save on: the files are saved, and the version is committed unless the request
      is to leave it open. */
  ghost function Served(a: Snapshot, v: Version, r: Push.Request, comment: string): Snapshot {
    var b := Apply(a, Save(v, r.files));
    if r.editing then b else Apply(b, CommitVersion(v, comment))
  }

  ghost function Serve(v: Version, comment: string): (Snapshot, Push.Request) -> Snapshot {
    (b: Snapshot, r: Push.Request) => Served(b, v, r, comment)
  }

  /** A request that leaves the version open is answered so, but it is so exactly if the version was
      there and open: a save creates a version closed. */
  lemma OpenOnlyIfItWas(a: Snapshot, v: Version, r: Push.Request, comment: string)
    ensures var b := Served(a, v, r, comment);
            && v in b.versions && !b.versions[v].deleted
            && (b.versions[v].editing <==> r.editing && v in a.versions && a.versions[v].editing)
            && b.versions[v].message == (if !r.editing && comment != "" then comment
                                         else if v in a.versions then a.versions[v].message else "")
            && SameVersionsBut(a, b, v)
  {
    SavedVersionRow(a, v, r.files);
    CommittedVersion(SavedWithRow(a, v, r.files), v, comment);
  }

  lemma {:induction false} OpenRequestsOnlySave(a: Snapshot, v: Version, requests: seq<Push.Request>, comment: string)
    requires forall r | r in requests :: r.editing
    ensures Push.Fold(a, requests, Serve(v, comment)) == Push.SaveRequests(a, v, requests)
  {
    if requests != [] {
      OpenRequestsOnlySave(a, v, requests[..|requests| - 1], comment);
    }
  }

  /** Requests leave a version as open as it was, and its message. */
  lemma {:induction false} RequestsKeepRow(a: Snapshot, v: Version, requests: seq<Push.Request>)
    requires requests != []
    ensures var b := Push.SaveRequests(a, v, requests);
            && v in b.versions && !b.versions[v].deleted
            && (b.versions[v].editing <==> v in a.versions && a.versions[v].editing)
            && b.versions[v].message == (if v in a.versions then a.versions[v].message else "")
  {
    var n := |requests| - 1;
    Push.LastRequest(a, v, requests);
    SavedVersionRow(Push.SaveRequests(a, v, requests[..n]), v, requests[n].files);
    if n > 0 {
      RequestsKeepRow(a, v, requests[..n]);
    }
  }

  /** What the requests of a push are: see PushFiles. */
  ghost predicate IsPush(requests: seq<Push.Request>) {
    && requests != [] && !requests[|requests| - 1].editing
    && forall i | 0 <= i < |requests| - 1 :: requests[i].editing
  }

  lemma PushCommits(a: Snapshot, v: Version, requests: seq<Push.Request>, comment: string)
    requires IsPush(requests)
    ensures Push.Fold(a, requests, Serve(v, comment)) ==
            Apply(Push.SaveRequests(a, v, requests), CommitVersion(v, comment))
  {
    var init := requests[..|requests| - 1];
    forall r | r in init ensures r.editing {
      var i :| 0 <= i < |init| && init[i] == r;
    }
    OpenRequestsOnlySave(a, v, init, comment);
    Push.LastRequest(a, v, requests);
  }

  /** Committing two stores that are alike in all but totals makes them alike exactly if they were. */
  lemma CommitTellsApart(b: Snapshot, c: Snapshot, v: Version, comment: string)
    requires v in b.versions && !b.versions[v].deleted && v in c.versions && !c.versions[v].deleted
    requires b.versions[v].editing == c.versions[v].editing && b.versions[v].message == c.versions[v].message
    ensures Apply(b, CommitVersion(v, comment)) == Apply(c, CommitVersion(v, comment)) <==> b == c
  {
    var b', c' := Apply(b, CommitVersion(v, comment)), Apply(c, CommitVersion(v, comment));
    if b' == c' {
      assert b'.versions[v] == c'.versions[v];
      assert b.versions == b'.versions[v := b.versions[v]] && c.versions == c'.versions[v := c.versions[v]];
    }
  }

  /** A push commits the version, with the comment; and it leaves the store as one save and a commit
      would, exactly if it is one request, or the version was not soft-deleted, or it had the totals
      of the whole list. */
  lemma PushIsOneSaveAndCommit(a: Snapshot, v: Version, requests: seq<Push.Request>, comment: string)
    requires Consistent(a) && DistinctPaths(Push.Sent(requests)) && IsPush(requests)
    ensures var b := Push.Fold(a, requests, Serve(v, comment));
            && v in b.versions && !b.versions[v].deleted && !b.versions[v].editing
            && (comment != "" ==> b.versions[v].message == comment)
            && (b == Apply(Apply(a, Save(v, Push.Sent(requests))), CommitVersion(v, comment)) <==>
                |requests| == 1 || Push.TotalsFit(a.versions, v, SavedRow(a, v, Push.Sent(requests))))
  {
    PushCommits(a, v, requests, comment);
    RequestsKeepRow(a, v, requests);
    SavedVersionRow(a, v, Push.Sent(requests));
    CommittedVersion(Push.SaveRequests(a, v, requests), v, comment);
    CommitTellsApart(Push.SaveRequests(a, v, requests), SavedWithRow(a, v, Push.Sent(requests)), v, comment);
    Push.BatchesAreOneSave(a, v, requests);
  }

  // ---- Single files

  /** Before its save, an upload takes the old file with its links. */
  lemma UploadStart(a: Snapshot, v: Version, path: string) returns (b: Snapshot)
    requires Clean(a)
    ensures b == if FileKey(v, path) in a.files then Purged(a, ExactPath(v, path)) else a
    ensures Clean(b) && b.versions == a.versions && b.datasets == a.datasets
    ensures forall k :: k in b.files <==> k in a.files && k != FileKey(v, path)
    ensures forall k | k in b.files :: b.files[k] == a.files[k]
    ensures forall l :: l in b.links <==> l in a.links && l.file != FileKey(v, path)
    ensures forall h | h in b.chunks :: h in a.chunks && b.chunks[h] == a.chunks[h]
  {
    Clones.PurgeKeeps(a, ExactPath(v, path));
    b := if FileKey(v, path) in a.files then Purged(a, ExactPath(v, path)) else a;
  }

  /** An upload into a version that is live and open replaces the file of its path, whatever it was,
      and leaves all other files; any other upload changes nothing. */
  lemma UploadedFile(a: Snapshot, v: Version, f: HashedFile)
    requires Clean(a)
    ensures var b, k, open := Apply(a, Upload(v, f)), FileKey(v, f.path),
                              v in a.versions && !a.versions[v].deleted && a.versions[v].editing;
            && (!open ==> b == a)
            && (open ==>
                  && k in b.files && b.files[k] == f.size
                  && (forall k' | k' != k :: k' in b.files <==> k' in a.files)
                  && (forall k' | k' != k && k' in a.files :: b.files[k'] == a.files[k'])
                  && (forall l: Link | l.file == k ::
                        l in b.links <==> l.index < |f.hashes| && f.hashes[l.index].hash == l.hash)
                  && (forall l: Link | l.file != k :: l in b.links <==> l in a.links))
  {
    var k := FileKey(v, f.path);
    if v in a.versions && !a.versions[v].deleted && a.versions[v].editing {
      var s := UploadStart(a, v, f.path);
      forall k' {
        OneFile(s, v, f, k');
      }
      forall l {
        OneFileLink(s, v, f, l);
      }
    }
  }

  lemma OneFile(a: Snapshot, v: Version, f: HashedFile, k: FileKey)
    ensures var b := SavedWithRow(a, v, [f]);
            if k == FileKey(v, f.path) then k in b.files && b.files[k] == f.size
            else (k in b.files <==> k in a.files) && (k in a.files ==> b.files[k] == a.files[k])
  {
    SavedFiles(a, v, [f], k);
    assert [f][0] == f;
  }

  lemma OneFileLink(a: Snapshot, v: Version, f: HashedFile, l: Link)
    requires forall l | l in a.links :: l.file != FileKey(v, f.path)
    ensures l in SavedWithRow(a, v, [f]).links <==>
            (l.file == FileKey(v, f.path) && l.index < |f.hashes| && f.hashes[l.index].hash == l.hash) || l in a.links
  {
    SavedLinks(a, v, [f], l);
    assert [f][0] == f;
  }

  /** The chunk rows after an upload are those of the linked hashes; the upload's last mention of a
      hash decides what a row says, and a row that it does not mention is as it was. The version
      stays open, keeps its message and has its totals written. */
  lemma UploadedRows(a: Snapshot, v: Version, f: HashedFile, h: string)
    requires Clean(a) && v in a.versions && !a.versions[v].deleted && a.versions[v].editing
    ensures var b := Apply(a, Upload(v, f));
            && (h in b.chunks <==> exists l :: l in b.links && l.hash == h)
            && (forall i | 0 <= i < |f.hashes| && f.hashes[i].hash == h &&
                           (forall n | i < n < |f.hashes| :: f.hashes[n].hash != h) ::
                  h in b.chunks && b.chunks[h] == ChunkInfo(f.hashes[i].size, f.hashes[i].layout))
            && (h in b.chunks && (forall i | 0 <= i < |f.hashes| :: f.hashes[i].hash != h)
                ==> h in a.chunks && b.chunks[h] == a.chunks[h])
            && v in b.versions && b.versions[v].editing && !b.versions[v].deleted
            && b.versions[v].message == a.versions[v].message
            && b.versions[v].size == Sum(PathSizes(b.files, v)) && b.versions[v].fileCount == |PathSizes(b.files, v)|
            && SameVersionsBut(a, b, v) && b.pending == {}
  {
    var s := UploadStart(a, v, f.path);
    SavedChunks(s, v, [f], h);
    SavedVersionRow(s, v, [f]);
    forall i | 0 <= i < |f.hashes| && f.hashes[i].hash == h && (forall n | i < n < |f.hashes| :: f.hashes[n].hash != h)
      ensures LastMention([f], 0, i, h)
    {
    }
  }

  /** The matched files are gone with all their links, all other files keep size and links, the
      linked chunk rows are as they were, and the others are gone. */
  ghost predicate TakesMatched(a: Snapshot, b: Snapshot, v: Version, like: string -> bool) {
    && (forall k :: k in b.files <==> k in a.files && !(k.version == v && like(k.path)))
    && (forall k | k in b.files :: b.files[k] == a.files[k])
    && (forall l :: l in b.links <==> l in a.links && !(l.file.version == v && like(l.file.path)))
    && (forall h :: h in b.chunks <==> exists l :: l in b.links && l.hash == h)
    && (forall h | h in b.chunks :: h in a.chunks && b.chunks[h] == a.chunks[h])
    && b.pending == {}
  }

  lemma MatchesPurged(a: Snapshot, v: Version, like: string -> bool)
    requires Clean(a)
    ensures TakesMatched(a, Purged(a, Matching(v, like)), v, like)
  {
    Clones.PurgeKeeps(a, Matching(v, like));
    CleanMeansExactlyLinked(Purged(a, Matching(v, like)));
  }

  lemma RecountedRow(a: Snapshot, v: Version)
    requires v in a.versions
    ensures var b := Recounted(a, v);
            && SameFiles(a, b) && SameVersionsBut(a, b, v) && v in b.versions
            && b.versions[v] == a.versions[v].(size := Sum(PathSizes(b.files, v)), fileCount := |PathSizes(b.files, v)|)
  {
  }

  lemma SameMatched(a: Snapshot, b: Snapshot, b': Snapshot, v: Version, like: string -> bool)
    requires TakesMatched(a, b, v, like) && SameFiles(b, b')
    ensures TakesMatched(a, b', v, like)
  {
  }

  /** A deletion in a version that is live and open takes exactly the matched files, if one of them
      has a chunk, and writes the totals; else it changes nothing. */
  lemma DeletedFiles(a: Snapshot, v: Version, like: string -> bool)
    requires Clean(a)
    ensures var b := Apply(a, DeleteFile(v, like));
            var found := v in a.versions && !a.versions[v].deleted && a.versions[v].editing &&
                         exists l :: l in a.links && l.file.version == v && like(l.file.path);
            if !found then b == a
            else
              && TakesMatched(a, b, v, like) && SameVersionsBut(a, b, v) && v in b.versions
              && b.versions[v] ==
                 a.versions[v].(size := Sum(PathSizes(b.files, v)), fileCount := |PathSizes(b.files, v)|)
  {
    SomeMatch(a.links, v, like);
    if Editable(a.versions, v) && InScope(a.links, Matching(v, like)) != {} {
      var p := Purged(a, Matching(v, like));
      MatchesPurged(a, v, like);
      RecountedRow(p, v);
      SameMatched(a, p, Recounted(p, v), v, like);
    }
  }

  lemma SomeMatch(links: set<Link>, v: Version, like: string -> bool)
    ensures InScope(links, Matching(v, like)) != {} <==>
            exists l :: l in links && l.file.version == v && like(l.file.path)
  {
    var gone := InScope(links, Matching(v, like));
    if l :| l in links && l.file.version == v && like(l.file.path) {
      assert l in gone;
    }
    if gone != {} {
      var l :| l in gone;
    }
  }

  // ---- Deleting and collecting

  /** Deleting a version or a dataset only marks its rows. */
  lemma DeletingMarks(a: Snapshot, v: Version, d: Dataset)
    ensures var b := Apply(a, DeleteVersion(v));
            && SameFiles(a, b) && SameVersionsBut(a, b, v) && (v in b.versions <==> v in a.versions)
            && (v in a.versions ==> b.versions[v] == a.versions[v].(deleted := true))
    ensures d in a.datasets ==>
              var b := Apply(a, DeleteDataset(d));
              && SameFiles(a, b) && b.datasets == a.datasets[d := true]
              && (forall u :: u in b.versions <==> u in a.versions)
              && (forall u | u in a.versions && u.dataset == d :: b.versions[u] == a.versions[u].(deleted := true))
              && (forall u | u in a.versions && u.dataset != d :: b.versions[u] == a.versions[u])
    ensures d !in a.datasets ==> Apply(a, DeleteDataset(d)) == a
  {
  }

  /** A deleted and collected version leaves nothing, and every other version that was not marked
      itself keeps all it had. */
  lemma VersionDeletedAndCollected(a: Snapshot, v: Version, k: FileKey)
    requires Clean(a) && v in a.versions
    ensures var b := Apply(Apply(a, DeleteVersion(v)), Collect);
            && (k.version == v ==> k !in b.files && k.version !in b.versions && forall l | l in b.links :: l.file != k)
            && (k.version != v && !Marked(a, k.version) ==> Spared(a, b, k))
            && (forall h :: h in b.chunks <==> exists l :: l in b.links && l.hash == h)
  {
    var marked := Apply(a, DeleteVersion(v));
    CollectedAt(marked, k);
  }

  lemma DatasetDeletedAndCollected(a: Snapshot, d: Dataset, k: FileKey)
    requires Clean(a) && d in a.datasets
    ensures var b := Apply(Apply(a, DeleteDataset(d)), Collect);
            && d !in b.datasets
            && (k.version.dataset == d ==>
                  k !in b.files && k.version !in b.versions && forall l | l in b.links :: l.file != k)
            && (k.version.dataset != d && !Marked(a, k.version) ==> Spared(a, b, k))
            && (forall h :: h in b.chunks <==> exists l :: l in b.links && l.hash == h)
  {
    var marked := Apply(a, DeleteDataset(d));
    CollectedAt(marked, k);
  }

  /** The version or its dataset is marked as deleted. */
  ghost predicate Marked(a: Snapshot, v: Version) {
    (v in a.versions && a.versions[v].deleted) || (v.dataset in a.datasets && a.datasets[v.dataset])
  }

  /** File and version row are as they were, with all links and their chunk rows. */
  ghost predicate Spared(a: Snapshot, b: Snapshot, k: FileKey) {
    && (k in b.files <==> k in a.files) && (k in a.files ==> b.files[k] == a.files[k])
    && (forall l: Link | l.file == k :: l in b.links <==> l in a.links)
    && (forall l: Link | l.file == k && l in a.links ::
          l.hash in a.chunks && l.hash in b.chunks && b.chunks[l.hash] == a.chunks[l.hash])
    && (k.version in b.versions <==> k.version in a.versions)
    && (k.version in a.versions ==> b.versions[k.version] == a.versions[k.version])
    && (k.version.dataset in b.datasets <==> k.version.dataset in a.datasets)
  }

  /** A collection takes what is marked, and spares all else. */
  lemma CollectedAt(a: Snapshot, k: FileKey)
    requires Clean(a)
    ensures var b := Apply(a, Collect);
            && (Marked(a, k.version) ==>
                  k !in b.files && k.version !in b.versions && forall l | l in b.links :: l.file != k)
            && (!Marked(a, k.version) ==> Spared(a, b, k))
            && (forall d | d in a.datasets :: d in b.datasets <==> !a.datasets[d])
            && (forall h :: h in b.chunks <==> exists l :: l in b.links && l.hash == h)
            && b.pending == {}
  {
    var b := Apply(a, Collect);
    Collector.CollectionIsSafeAndComplete(a, k);
    forall l: Link | l.file == k ensures l in b.links <==> l in LinksOf(b, k) {
    }
  }

  /** Registering a dataset makes it live, and touches nothing else. */
  lemma RegisteredDataset(a: Snapshot, d: Dataset)
    ensures var b := Apply(a, NewDataset(d));
            && d in b.datasets && !b.datasets[d]
            && (forall e | e != d :: (e in b.datasets <==> e in a.datasets) &&
                                     (e in a.datasets ==> b.datasets[e] == a.datasets[e]))
            && b.versions == a.versions && SameFiles(a, b)
  {
  }
}
