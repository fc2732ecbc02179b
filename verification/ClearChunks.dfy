/** The sweep over the data directory: chunk files without a matching chunk row are scheduled
    for removal, in batches. */
module ClearChunks {
  import opened PathCodec

  const BATCH := 500

  /** A regular file that the walk of the data directory meets. */
  datatype DiskFile = DiskFile(path: string, size: int)

  /** What the walk makes of it: the hash is read off the path. */
  datatype Raw = Raw(hash: string, size: int, path: string)

  function RawOf(dataDir: string, f: DiskFile): Raw {
    Raw(GetHashFromPath(dataDir, f.path).0, f.size, f.path)
  }

  function RawsOf(dataDir: string, files: seq<DiskFile>): seq<Raw> {
    seq(|files|, i requires 0 <= i < |files| => RawOf(dataDir, files[i]))
  }

  /** There is a chunk row of the file's hash and size. */
  predicate Matches(rows: map<string, int>, f: Raw) {
    f.hash in rows && rows[f.hash] == f.size
  }

  /** The hash map that the walk fills: a later file replaces an earlier one of its hash. */
  ghost function MapOf(files: seq<Raw>, s: nat, e: nat): map<string, Raw>
    requires s <= e <= |files|
    decreases e
  {
    if s == e then map[] else MapOf(files, s, e - 1)[files[e - 1].hash := files[e - 1]]
  }

  ghost predicate Remains(rows: map<string, int>, m: map<string, Raw>, p: string) {
    exists h :: h in m && !Matches(rows, m[h]) && p == m[h].path
  }

  ghost predicate IsLeftOf(rows: map<string, int>, m: map<string, Raw>, paths: seq<string>) {
    forall p :: p in paths <==> Remains(rows, m, p)
  }

  /** The look-up and what follows it, for a map that is not empty: the query is not valid for
      an empty one. */
  method CheckAndDelete(rows: map<string, int>, batch: map<string, Raw>) returns (paths: seq<string>)
    requires batch != map[] && forall h | h in batch :: batch[h].hash == h
    ensures IsLeftOf(rows, batch, paths)
  {
    var hashMap := batch;
    var chunks := set h | h in batch && h in rows;
    while chunks != {}
      invariant chunks <= rows.Keys * batch.Keys
      invariant hashMap == map h | h in batch && !(h !in chunks && Matches(rows, batch[h])) :: batch[h]
    {
      var h :| h in chunks;
      if h in hashMap && hashMap[h].size == rows[h] {
        hashMap := hashMap - {h};
      }
      chunks := chunks - {h};
    }
    paths := [];
    var left := hashMap.Keys;
    while left != {}
      invariant left <= hashMap.Keys
      invariant forall p :: p in paths <==> exists h :: h in hashMap && h !in left && p == hashMap[h].path
    {
      var h :| h in left;
      paths := paths + [hashMap[h].path];
      left := left - {h};
    }
  }

  // ---- Which files go

  /** Where the batch begins that is open after the first `n` files. */
  ghost function Start(files: seq<Raw>, n: nat): (s: nat)
    requires n <= |files|
    ensures s <= n
  {
    if n == 0 then 0
    else
      var s := Start(files, n - 1);
      if |MapOf(files, s, n)| >= BATCH then n else s
  }

  ghost function HashesIn(files: seq<Raw>, s: nat, e: nat): set<string>
    requires s <= e <= |files|
  {
    set k | s <= k < e :: files[k].hash
  }

  lemma {:induction false} MapHasHashes(files: seq<Raw>, s: nat, e: nat)
    requires s <= e <= |files|
    ensures MapOf(files, s, e).Keys == HashesIn(files, s, e)
    decreases e
  {
    if s < e {
      MapHasHashes(files, s, e - 1);
      assert HashesIn(files, s, e) == HashesIn(files, s, e - 1) + {files[e - 1].hash};
    }
  }

  /** A batch goes on to the file that brings its 500th hash. */
  lemma BatchesOf500(files: seq<Raw>, n: nat)
    requires 0 < n <= |files|
    ensures Start(files, 0) == 0
    ensures var s := Start(files, n - 1);
            Start(files, n) == if |set k | s <= k < n :: files[k].hash| >= 500 then n else s
  {
    var s := Start(files, n - 1);
    MapHasHashes(files, s, n);
    assert HashesIn(files, s, n) == set k | s <= k < n :: files[k].hash;
  }

  /** A later file with the same hash falls into the same batch. */
  ghost predicate Spared(files: seq<Raw>, i: nat)
    requires i < |files|
  {
    exists j :: i < j < |files| && Replaces(files, i, j)
  }

  ghost predicate Replaces(files: seq<Raw>, i: nat, j: nat)
    requires i < j < |files|
  {
    files[j].hash == files[i].hash && Start(files, j) <= i
  }

  ghost predicate Goes(rows: map<string, int>, files: seq<Raw>, i: nat)
    requires i < |files|
  {
    !Matches(rows, files[i]) && !Spared(files, i)
  }

  ghost predicate GoneAt(rows: map<string, int>, files: seq<Raw>, n: nat, p: string)
    requires n <= |files|
  {
    exists i :: 0 <= i < n && Goes(rows, files, i) && files[i].path == p
  }

  /** Of the first `n` files exactly those that go are scheduled. */
  ghost predicate Exact(rows: map<string, int>, files: seq<Raw>, n: nat, paths: seq<string>)
    requires n <= |files|
  {
    forall p :: p in paths <==> GoneAt(rows, files, n, p)
  }

  // ---- Batches

  lemma {:induction false} SameBatch(files: seq<Raw>, n: nat, j: nat)
    requires n <= |files| && Start(files, n) <= j <= n
    ensures Start(files, j) == Start(files, n)
    decreases n
  {
    if j < n {
      SameBatch(files, n - 1, j);
    }
  }

  lemma {:induction false} LaterBatch(files: seq<Raw>, e: nat, j: nat)
    requires e <= j <= |files| && Start(files, e) == e
    ensures Start(files, j) >= e
    decreases j
  {
    if e < j {
      LaterBatch(files, e, j - 1);
    }
  }

  /** No later file of the batch has the hash of file `i`. */
  ghost predicate LastIn(files: seq<Raw>, e: nat, i: nat)
    requires i < e <= |files|
  {
    forall j | i < j < e :: files[j].hash != files[i].hash
  }

  /** In a finished batch the spared files are those that another replaced in the map. */
  lemma SparedInBatch(files: seq<Raw>, s: nat, e: nat, i: nat)
    requires s <= i < e <= |files| && Start(files, e - 1) == s && (e == |files| || Start(files, e) == e)
    ensures Spared(files, i) <==> !LastIn(files, e, i)
  {
    forall j | i < j < |files| ensures Replaces(files, i, j) <==> j < e && files[j].hash == files[i].hash {
      if j < e {
        SameBatch(files, e - 1, j);
      } else {
        LaterBatch(files, e, j);
      }
    }
  }

  lemma {:induction false} InMapAt(files: seq<Raw>, s: nat, e: nat, h: string) returns (i: nat)
    requires s <= e <= |files| && h in MapOf(files, s, e)
    ensures s <= i < e && LastIn(files, e, i) && files[i].hash == h && MapOf(files, s, e)[h] == files[i]
    decreases e
  {
    if files[e - 1].hash == h {
      i := e - 1;
    } else {
      i := InMapAt(files, s, e - 1, h);
    }
  }

  lemma {:induction false} LastIsInMap(files: seq<Raw>, s: nat, e: nat, i: nat)
    requires s <= i < e <= |files| && LastIn(files, e, i)
    ensures files[i].hash in MapOf(files, s, e) && MapOf(files, s, e)[files[i].hash] == files[i]
    decreases e
  {
    if i < e - 1 {
      LastIsInMap(files, s, e - 1, i);
    }
  }

  lemma RemainsIffGoes(rows: map<string, int>, files: seq<Raw>, s: nat, e: nat, p: string)
    requires s < e <= |files| && Start(files, e - 1) == s && (e == |files| || Start(files, e) == e)
    ensures Remains(rows, MapOf(files, s, e), p) <==>
            exists i :: s <= i < e && Goes(rows, files, i) && files[i].path == p
  {
    var m := MapOf(files, s, e);
    if Remains(rows, m, p) {
      var h :| h in m && !Matches(rows, m[h]) && p == m[h].path;
      var i := InMapAt(files, s, e, h);
      SparedInBatch(files, s, e, i);
      assert Goes(rows, files, i);
    }
    if i :| s <= i < e && Goes(rows, files, i) && files[i].path == p {
      SparedInBatch(files, s, e, i);
      LastIsInMap(files, s, e, i);
    }
  }

  lemma BatchIsExact(rows: map<string, int>, files: seq<Raw>, s: nat, e: nat, paths: seq<string>, more: seq<string>)
    requires s < e <= |files| && Start(files, e - 1) == s && (e == |files| || Start(files, e) == e)
    requires Exact(rows, files, s, paths) && IsLeftOf(rows, MapOf(files, s, e), more)
    ensures Exact(rows, files, e, paths + more)
  {
    forall p ensures p in paths + more <==> GoneAt(rows, files, e, p) {
      RemainsIffGoes(rows, files, s, e, p);
      if GoneAt(rows, files, e, p) {
        var i :| 0 <= i < e && Goes(rows, files, i) && files[i].path == p;
        assert i < s ==> GoneAt(rows, files, s, p);
      }
    }
  }

  /** The walk has met `i` files; the batch in progress is in the hash map. */
  ghost predicate Walking(rows: map<string, int>, files: seq<Raw>, i: nat, hashMap: map<string, Raw>,
                          deleted: seq<string>) {
    && i <= |files|
    && hashMap == MapOf(files, Start(files, i), i)
    && Exact(rows, files, Start(files, i), deleted)
  }

  lemma BeginWalk(rows: map<string, int>, files: seq<Raw>)
    ensures Walking(rows, files, 0, map[], [])
  {
  }

  lemma OneFileMore(files: seq<Raw>, i: nat, hashMap: map<string, Raw>)
    requires i < |files| && hashMap == MapOf(files, Start(files, i), i)
    ensures var s, m := Start(files, i), hashMap[files[i].hash := files[i]];
            && m == MapOf(files, s, i + 1) && m != map[]
            && (forall h | h in m :: m[h].hash == h)
            && Start(files, i + 1) == if |m| >= BATCH then i + 1 else s
  {
    FiledUnderHash(files, Start(files, i), i + 1);
  }

  /** The walk function for one file. */
  method WalkOne(rows: map<string, int>, files: seq<Raw>, i: nat, before: map<string, Raw>, scheduled: seq<string>)
    returns (hashMap: map<string, Raw>, deleted: seq<string>)
    requires i < |files| && Walking(rows, files, i, before, scheduled)
    ensures Walking(rows, files, i + 1, hashMap, deleted)
  {
    hashMap := before[files[i].hash := files[i]];
    OneFileMore(files, i, before);
    if |hashMap| < BATCH {
      return hashMap, scheduled;
    }
    var more := CheckAndDelete(rows, hashMap);
    BatchIsExact(rows, files, Start(files, i), i + 1, scheduled, more);
    return map[], scheduled + more;
  }

  lemma FiledUnderHash(files: seq<Raw>, s: nat, e: nat)
    requires s <= e <= |files|
    ensures forall h | h in MapOf(files, s, e) :: MapOf(files, s, e)[h].hash == h
    ensures MapOf(files, s, e) == map[] <==> s == e
  {
    forall h | h in MapOf(files, s, e) ensures MapOf(files, s, e)[h].hash == h {
      var i := InMapAt(files, s, e, h);
    }
    if s < e {
      assert files[e - 1].hash in MapOf(files, s, e);
    }
  }

  /** The call after the walk. */
  method LastBatch(rows: map<string, int>, files: seq<Raw>, hashMap: map<string, Raw>, before: seq<string>)
    returns (deleted: seq<string>, panicked: bool)
    requires Walking(rows, files, |files|, hashMap, before)
    ensures Exact(rows, files, |files|, deleted)
    ensures panicked <==> Start(files, |files|) == |files|
  {
    ghost var n, s := |files|, Start(files, |files|);
    panicked := hashMap == map[];
    deleted := before;
    FiledUnderHash(files, s, n);
    if !panicked {
      SameBatch(files, n, n - 1);
      var more := CheckAndDelete(rows, hashMap);
      BatchIsExact(rows, files, s, n, before, more);
      deleted := before + more;
    }
  }

  /** ClearChunks. Exactly those files are scheduled that match no chunk row and that no later
      file of their hash replaced within their batch. The sweep ends in a panic exactly if the
      last batch is empty. */
  method Sweep(rows: map<string, int>, files: seq<Raw>) returns (deleted: seq<string>, panicked: bool)
    ensures Exact(rows, files, |files|, deleted)
    ensures panicked <==> Start(files, |files|) == |files|
  {
    deleted := [];
    var hashMap: map<string, Raw> := map[];
    BeginWalk(rows, files);
    for i := 0 to |files|
      invariant Walking(rows, files, i, hashMap, deleted)
    {
      hashMap, deleted := WalkOne(rows, files, i, hashMap, deleted);
    }
    deleted, panicked := LastBatch(rows, files, hashMap, deleted);
  }

  // ---- What follows

  ghost predicate DistinctRaws(files: seq<Raw>) {
    forall i, j | 0 <= i < j < |files| :: files[i].path != files[j].path
  }

  ghost predicate DistinctHashes(files: seq<Raw>) {
    forall i, j | 0 <= i < j < |files| :: files[i].hash != files[j].hash
  }

  /** Every file without a matching row is scheduled. */
  ghost predicate Thorough(rows: map<string, int>, files: seq<Raw>, paths: seq<string>) {
    forall i | 0 <= i < |files| && !Matches(rows, files[i]) :: files[i].path in paths
  }

  /** No file that matches its row goes; and all others do exactly if none of them is spared. */
  lemma SweptIsSafe(rows: map<string, int>, files: seq<Raw>, deleted: seq<string>)
    requires DistinctRaws(files) && Exact(rows, files, |files|, deleted)
    ensures forall i | 0 <= i < |files| && Matches(rows, files[i]) :: files[i].path !in deleted
    ensures Thorough(rows, files, deleted) <==>
            forall i | 0 <= i < |files| && !Matches(rows, files[i]) :: !Spared(files, i)
  {
    forall i | 0 <= i < |files| ensures files[i].path in deleted <==> Goes(rows, files, i) {
      if GoneAt(rows, files, |files|, files[i].path) {
        var k :| 0 <= k < |files| && Goes(rows, files, k) && files[k].path == files[i].path;
        assert k == i;
      }
    }
  }

  /** A file goes exactly if there is no chunk row of its hash, or one of another size, and every
      later file of its hash is in a later batch. */
  lemma GoesIffUnusedOrWrong(rows: map<string, int>, files: seq<Raw>, deleted: seq<string>, i: nat)
    requires forall j, k | 0 <= j < k < |files| :: files[j].path != files[k].path
    requires Exact(rows, files, |files|, deleted) && i < |files|
    ensures files[i].path in deleted <==>
            && (files[i].hash !in rows || rows[files[i].hash] != files[i].size)
            && forall j | i < j < |files| && files[j].hash == files[i].hash :: Start(files, j) > i
  {
    if files[i].path in deleted {
      var k :| 0 <= k < |files| && Goes(rows, files, k) && files[k].path == files[i].path;
      assert k == i;
      forall j | i < j < |files| && files[j].hash == files[i].hash ensures Start(files, j) > i {
        assert !Replaces(files, i, j);
      }
    } else {
      assert !Goes(rows, files, i);
    }
  }

  /** With distinct hashes a batch is full after as many files. */
  lemma {:induction false} StartOfDistinct(files: seq<Raw>, n: nat)
    requires DistinctHashes(files) && n <= |files|
    ensures Start(files, n) == n - n % BATCH
  {
    if n > 0 {
      StartOfDistinct(files, n - 1);
      var s := Start(files, n - 1);
      SizeOfDistinct(files, s, n);
      NextMultiple(n);
      assert Start(files, n) == if n - s >= BATCH then n else s;
    }
  }

  lemma NewHash(files: seq<Raw>, s: nat, e: nat)
    requires DistinctHashes(files) && s < e <= |files|
    ensures files[e - 1].hash !in MapOf(files, s, e - 1)
  {
    if files[e - 1].hash in MapOf(files, s, e - 1) {
      var i := InMapAt(files, s, e - 1, files[e - 1].hash);
      assert false;
    }
  }

  lemma NextMultiple(n: nat)
    requires n > 0
    ensures var s := n - 1 - (n - 1) % BATCH; n - n % BATCH == if n - s >= BATCH then n else s
  {
  }

  lemma {:induction false} SizeOfDistinct(files: seq<Raw>, s: nat, e: nat)
    requires DistinctHashes(files) && s <= e <= |files|
    ensures |MapOf(files, s, e)| == e - s
    decreases e
  {
    if s < e {
        SizeOfDistinct(files, s, e - 1);
      NewHash(files, s, e);
      var m, last := MapOf(files, s, e - 1), files[e - 1];
      assert m[last.hash := last].Keys == m.Keys + {last.hash};
    }
  }

  /** With distinct hashes all files without a matching row go, and the panic comes exactly if the
      number of files divides by the batch size. */
  lemma DistinctHashesSuffice(rows: map<string, int>, files: seq<Raw>, deleted: seq<string>)
    requires DistinctHashes(files) && DistinctRaws(files) && Exact(rows, files, |files|, deleted)
    ensures Thorough(rows, files, deleted)
    ensures Start(files, |files|) == |files| <==> |files| % 500 == 0
  {
    SweptIsSafe(rows, files, deleted);
    StartOfDistinct(files, |files|);
  }

  // ---- On the disk

  predicate DistinctFiles(files: seq<DiskFile>) {
    forall i, j | 0 <= i < j < |files| :: files[i].path != files[j].path
  }

  /** A chunk row keeps its file: where the layout puts it, with the size of the row, it is not
      scheduled. */
  method SweepDataDir(rows: map<string, int>, dataDir: string, files: seq<DiskFile>)
    returns (deleted: seq<string>, panicked: bool)
    requires DistinctFiles(files)
    ensures Exact(rows, RawsOf(dataDir, files), |files|, deleted)
    ensures panicked <==> Start(RawsOf(dataDir, files), |files|) == |files|
    ensures forall h, layout: nat | IsAt(rows, dataDir, files, h, layout) ::
              GetHashedFilename(dataDir, h, layout) !in deleted
  {
    var raws := RawsOf(dataDir, files);
    deleted, panicked := Sweep(rows, raws);
    forall h, layout: nat | IsAt(rows, dataDir, files, h, layout)
      ensures GetHashedFilename(dataDir, h, layout) !in deleted
    {
      KeptFile(rows, dataDir, files, deleted, h, layout);
    }
  }

  /** On the disk, where `h` is the hash that a path is made of: without a row of `h`, or with one of
      another size, the file goes, unless a later one reads as the same hash. */
  lemma WrongSizeGoes(rows: map<string, int>, dataDir: string, files: seq<DiskFile>, deleted: seq<string>, i: nat,
                      h: string, layout: nat)
    requires forall j, k | 0 <= j < k < |files| :: files[j].path != files[k].path
    requires Exact(rows, RawsOf(dataDir, files), |files|, deleted)
    requires layout <= 2 && |h| >= MinLength(layout) && '/' !in h
    requires i < |files| && files[i].path == GetHashedFilename(dataDir, h, layout)
    requires h !in rows || rows[h] != files[i].size
    requires forall j | i < j < |files| :: GetHashFromPath(dataDir, files[j].path).0 != h
    ensures files[i].path in deleted
  {
    PathRoundTrip(dataDir, h, layout);
    GoesIffUnusedOrWrong(rows, RawsOf(dataDir, files), deleted, i);
  }

  /** The file of a chunk row is at its path and has the row's size. */
  predicate IsAt(rows: map<string, int>, dataDir: string, files: seq<DiskFile>, h: string, layout: nat) {
    && h in rows && layout <= 2 && |h| >= MinLength(layout) && '/' !in h
    && DiskFile(GetHashedFilename(dataDir, h, layout), rows[h]) in files
  }

  lemma KeptFile(rows: map<string, int>, dataDir: string, files: seq<DiskFile>, deleted: seq<string>, h: string,
                 layout: nat)
    requires DistinctFiles(files) && IsAt(rows, dataDir, files, h, layout)
    requires Exact(rows, RawsOf(dataDir, files), |files|, deleted)
    ensures GetHashedFilename(dataDir, h, layout) !in deleted
  {
    PathRoundTrip(dataDir, h, layout);
    var path := GetHashedFilename(dataDir, h, layout);
    var j :| 0 <= j < |files| && files[j] == DiskFile(path, rows[h]);
    var raws := RawsOf(dataDir, files);
    assert raws[j] == Raw(h, rows[h], path);
    SweptIsSafe(rows, raws, deleted);
  }

  /** One chunk at its layout-1 and its layout-2 path, without a row: only the second goes. */
  lemma TwinIsSpared(dataDir: string, h: string, size: int, deleted: seq<string>)
    requires |h| >= MinLength(1) && '/' !in h
    requires var files := [DiskFile(GetHashedFilename(dataDir, h, 1), size),
                           DiskFile(GetHashedFilename(dataDir, h, 2), size)];
             Exact(map[], RawsOf(dataDir, files), 2, deleted)
    ensures GetHashedFilename(dataDir, h, 1) !in deleted && GetHashedFilename(dataDir, h, 2) in deleted
  {
    var p, q := GetHashedFilename(dataDir, h, 1), GetHashedFilename(dataDir, h, 2);
    PathRoundTrip(dataDir, h, 1);
    PathRoundTrip(dataDir, h, 2);
    var raws := RawsOf(dataDir, [DiskFile(p, size), DiskFile(q, size)]);
    assert raws == [Raw(h, size, p), Raw(h, size, q)];
    TwoTwins(raws, deleted);
  }

  lemma TwoTwins(raws: seq<Raw>, deleted: seq<string>)
    requires |raws| == 2 && raws[0].hash == raws[1].hash && raws[0].path != raws[1].path
    requires Exact(map[], raws, 2, deleted)
    ensures raws[0].path !in deleted && raws[1].path in deleted
  {
    assert MapOf(raws, 0, 1) == map[raws[0].hash := raws[0]];
    assert |map[raws[0].hash := raws[0]]| == 1;
    assert Start(raws, 0) == 0 && Start(raws, 1) == 0;
    assert Replaces(raws, 0, 1);
    assert Goes(map[], raws, 1) && !Goes(map[], raws, 0);
  }
}
