/** kdataset push: file structures are sent in batches, and the last batch commits. */
module Push {
  import opened Snapshots
  import opened SaveTheory
  import opened Totals

  const BUF_LIMIT := 5000

  /** One SaveFileStructure request. */
  datatype Request = Request(files: seq<HashedFile>, editing: bool)

  ghost function Sent(requests: seq<Request>): seq<HashedFile> {
    if requests == [] then [] else Sent(requests[..|requests| - 1]) + requests[|requests| - 1].files
  }

  /** uploadFS and the final flush: the requests carry the walked files in order, all but the
      last are full and leave the version open, and the last commits it. */
  method PushFiles(fileChan: seq<HashedFile>) returns (requests: seq<Request>)
    ensures Sent(requests) == fileChan
    ensures |requests| > 0 && !requests[|requests| - 1].editing && |requests[|requests| - 1].files| <= 5000
    ensures forall i | 0 <= i < |requests| - 1 :: requests[i].editing && |requests[i].files| == 5000
  {
    var fileBuf: seq<HashedFile> := [];
    requests := [];
    for i := 0 to |fileChan|
      invariant Sent(requests) + fileBuf == fileChan[..i] && |fileBuf| <= BUF_LIMIT
      invariant forall j | 0 <= j < |requests| :: requests[j].editing && |requests[j].files| == BUF_LIMIT
    {
      if |fileBuf| >= BUF_LIMIT {
        assert (requests + [Request(fileBuf, true)])[..|requests|] == requests;
        requests := requests + [Request(fileBuf, true)];
        fileBuf := [];
      }
      fileBuf := fileBuf + [fileChan[i]];
    }
    assert (requests + [Request(fileBuf, false)])[..|requests|] == requests;
    requests := requests + [Request(fileBuf, false)];
  }

  ghost function Fold<S, T>(a: S, xs: seq<T>, step: (S, T) -> S): S {
    if xs == [] then a else step(Fold(a, xs[..|xs| - 1], step), xs[|xs| - 1])
  }

  lemma {:induction false} FoldFirst<S, T>(a: S, x: T, rest: seq<T>, step: (S, T) -> S)
    ensures Fold(a, [x] + rest, step) == Fold(step(a, x), rest, step)
  {
    if rest == [] {
      assert [x] + rest == [x] && [x][..0] == [];
    } else {
      assert ([x] + rest)[..|rest|] == [x] + rest[..|rest| - 1];
      FoldFirst(a, x, rest[..|rest| - 1], step);
    }
  }

  ghost function OneSave(v: Version): (Snapshot, Request) -> Snapshot {
    (b: Snapshot, r: Request) => SavedWithRow(b, v, r.files)
  }

  /** The requests, served one after the other. */
  ghost function SaveRequests(a: Snapshot, v: Version, requests: seq<Request>): Snapshot {
    Fold(a, requests, OneSave(v))
  }

  lemma SavedIgnoresRows(a: Snapshot, v: Version, fs: seq<HashedFile>, versions: map<Version, VersionRow>)
    ensures Saved(a.(versions := versions), v, fs) == Saved(a, v, fs).(versions := versions)
  {
  }

  lemma WithRow(a: Snapshot, v: Version, fs: seq<HashedFile>)
    ensures SavedWithRow(a, v, fs) == Saved(a, v, fs).(versions := PutVersion(a.versions, v, SavedRow(a, v, fs)))
    ensures Saved(a, v, fs).files == PutFiles(a.files, v, fs)
  {
    SavedIgnoresRows(a, v, fs, PutVersion(a.versions, v, SavedRow(a, v, fs)));
  }

  lemma RowFrom(a: Snapshot, b: Snapshot, v: Version, fs: seq<HashedFile>, gs: seq<HashedFile>)
    requires b.files == PutFiles(a.files, v, fs)
    ensures SavedRow(b, v, gs) == SavedRow(a, v, fs + gs)
  {
    PutFilesAppend(a.files, v, fs, gs);
  }

  /** The version is not soft-deleted, or had the very totals that `row` sends. */
  ghost predicate TotalsFit(versions: map<Version, VersionRow>, v: Version, row: VersionRow) {
    v in versions && versions[v].deleted ==> versions[v].size == row.size && versions[v].fileCount == row.fileCount
  }

  lemma PutVersionTwice(versions: map<Version, VersionRow>, v: Version, r: VersionRow, r': VersionRow)
    requires r.message == r'.message == "" && !r.editing && !r.deleted && !r'.editing && !r'.deleted
    ensures PutVersion(PutVersion(versions, v, r), v, r') == PutVersion(versions, v, r') <==> TotalsFit(versions, v, r')
  {
    var twice, once := PutVersion(PutVersion(versions, v, r), v, r'), PutVersion(versions, v, r');
    assert twice == once <==> twice[v] == once[v];
  }

  /** Two requests in a row are one with both lists, totals included, exactly if the version is
      not soft-deleted or had the totals of both lists together. */
  lemma RequestsCompose(a: Snapshot, v: Version, fs: seq<HashedFile>, gs: seq<HashedFile>)
    requires Consistent(a) && DistinctPaths(fs + gs)
    ensures SavedWithRow(SavedWithRow(a, v, fs), v, gs) == SavedWithRow(a, v, fs + gs) <==>
            TotalsFit(a.versions, v, SavedRow(a, v, fs + gs))
  {
    var b, r := SavedWithRow(a, v, fs), SavedRow(a, v, fs + gs);
    WithRow(a, v, fs);
    RowFrom(a, b, v, fs, gs);
    WithRow(b, v, gs);
    SavedIgnoresRows(Saved(a, v, fs), v, gs, b.versions);
    SavesCompose(a, v, fs, gs);
    PutVersionTwice(a.versions, v, SavedRow(a, v, fs), r);
    WithRow(a, v, fs + gs);
    RowsReplaced(Saved(a, v, fs + gs), b.versions, PutVersion(b.versions, v, r), PutVersion(a.versions, v, r));
  }

  lemma RowsReplaced(a: Snapshot, vs: map<Version, VersionRow>, vs': map<Version, VersionRow>,
                     vs'': map<Version, VersionRow>)
    ensures a.(versions := vs).(versions := vs') == a.(versions := vs'') <==> vs' == vs''
  {
  }

  ghost predicate Live(a: Snapshot, v: Version) {
    v in a.versions && !a.versions[v].deleted
  }

  lemma SavedIsLive(a: Snapshot, v: Version, fs: seq<HashedFile>)
    requires Consistent(a) && DistinctPaths(fs)
    ensures Live(SavedWithRow(a, v, fs), v) && Consistent(SavedWithRow(a, v, fs))
  {
    WithRow(a, v, fs);
    SavedIsClean(a, v, fs);
  }

  lemma LastRequest(a: Snapshot, v: Version, requests: seq<Request>)
    requires requests != []
    ensures var n := |requests| - 1;
            SaveRequests(a, v, requests) == SavedWithRow(SaveRequests(a, v, requests[..n]), v, requests[n].files)
  {
  }

  /** On a live version any number of requests are one. */
  lemma {:induction false} LiveBatches(a: Snapshot, v: Version, requests: seq<Request>)
    requires Consistent(a) && DistinctPaths(Sent(requests)) && requests != [] && Live(a, v)
    ensures SaveRequests(a, v, requests) == SavedWithRow(a, v, Sent(requests))
  {
    var init, last := requests[..|requests| - 1], requests[|requests| - 1].files;
    LastRequest(a, v, requests);
    if init == [] {
      assert Sent(requests) == [] + last == last;
      assert SaveRequests(a, v, init) == a;
    } else {
      DistinctParts(Sent(init), last);
      LiveBatches(a, v, init);
      LiveTwo(a, v, Sent(init), last);
    }
  }

  lemma LiveTwo(a: Snapshot, v: Version, fs: seq<HashedFile>, gs: seq<HashedFile>)
    requires Consistent(a) && DistinctPaths(fs + gs) && Live(a, v)
    ensures SavedWithRow(SavedWithRow(a, v, fs), v, gs) == SavedWithRow(a, v, fs + gs)
  {
    RequestsCompose(a, v, fs, gs);
  }

  lemma {:induction false} SentFirst(r: Request, rest: seq<Request>)
    ensures Sent([r] + rest) == r.files + Sent(rest)
  {
    if rest == [] {
      assert [r] + rest == [r] && [r][..0] == [];
    } else {
      assert ([r] + rest)[..|rest|] == [r] + rest[..|rest| - 1];
      SentFirst(r, rest[..|rest| - 1]);
    }
  }

  lemma FirstRequest(a: Snapshot, v: Version, r: Request, rest: seq<Request>)
    ensures SaveRequests(a, v, [r] + rest) == SaveRequests(SavedWithRow(a, v, r.files), v, rest)
  {
    FoldFirst(a, r, rest, OneSave(v));
  }

  /** Pushing in batches is pushing once, in files, links, chunk rows, Size and FileCount, exactly
      if there is one batch, or the version is not soft-deleted, or it had the totals of all
      batches together. */
  lemma {:induction false} BatchesAreOneSave(a: Snapshot, v: Version, requests: seq<Request>)
    requires Consistent(a) && DistinctPaths(Sent(requests)) && requests != []
    ensures SaveRequests(a, v, requests) == SavedWithRow(a, v, Sent(requests)) <==>
            |requests| == 1 || TotalsFit(a.versions, v, SavedRow(a, v, Sent(requests)))
  {
    var r, rest := requests[0], requests[1..];
    assert requests == [r] + rest;
    FirstRequest(a, v, r, rest);
    SentFirst(r, rest);
    if rest != [] {
      assert DistinctPaths(r.files) && DistinctPaths(Sent(rest)) by {
        DistinctParts(r.files, Sent(rest));
      }
      SavedIsLive(a, v, r.files);
      LiveBatches(SavedWithRow(a, v, r.files), v, rest);
      RequestsCompose(a, v, r.files, Sent(rest));
    } else {
      assert Sent(rest) == [] && r.files + [] == r.files;
    }
  }

  lemma DistinctParts(fs: seq<HashedFile>, gs: seq<HashedFile>)
    requires DistinctPaths(fs + gs)
    ensures DistinctPaths(fs) && DistinctPaths(gs)
  {
    assert fs == (fs + gs)[..|fs|] && gs == (fs + gs)[|fs|..];
  }

  /** A soft-deleted version gets no totals from a push of one request, but does from a push
      of more: its first request brings it back, and the next one writes. */
  lemma SecondRequestWritesTotals(a: Snapshot, v: Version, fs: seq<HashedFile>, gs: seq<HashedFile>)
    requires v in a.versions && a.versions[v].deleted
    ensures SavedWithRow(a, v, fs + gs).versions[v].size == a.versions[v].size
    ensures TotalsRight(SavedWithRow(SavedWithRow(a, v, fs), v, gs), v)
  {
    TotalsAfterSave(SavedWithRow(a, v, fs), v, gs);
  }

  /** Two requests of one file each into a version soft-deleted when it was empty are not the one
      request of both files, which leaves it reporting none. */
  lemma TwoRequestsCounterexample(v: Version, info: HashRef)
    ensures var a := Snapshot(map[], map[], {}, {}, map[v := VersionRow(0, 0, true, true, "")], map[]);
            var requests := [Request([HashedFile("f", 1, [info])], true), Request([HashedFile("g", 1, [info])], false)];
            Clean(a) && DistinctPaths(Sent(requests)) &&
            SaveRequests(a, v, requests) != SavedWithRow(a, v, Sent(requests))
  {
    var a := Snapshot(map[], map[], {}, {}, map[v := VersionRow(0, 0, true, true, "")], map[]);
    var f, g := HashedFile("f", 1, [info]), HashedFile("g", 1, [info]);
    var requests := [Request([f], true), Request([g], false)];
    assert requests == [requests[0]] + [requests[1]];
    SentFirst(requests[0], [requests[1]]);
    assert Sent([requests[1]]) == [g] && [f] + [g] == [f, g];
    assert "f"[0] != "g"[0];
    PutFilesAt(a.files, v, [f, g], 0);
    InPathSizes(PutFiles(a.files, v, [f, g]), v, "f");
    assert "f" in PathSizes(PutFiles(a.files, v, [f, g]), v).Keys;
    BatchesAreOneSave(a, v, requests);
  }
}
