/** The cached Size and FileCount of a version, and what they should be. */
module Totals {
  import opened Snapshots
  import opened TableRows
  import SaveTheory

  ghost function Sum(m: map<string, int>): int {
    if m == map[] then 0
    else
      var p :| p in m;
      m[p] + Sum(m - {p})
  }

  lemma {:induction false} SumWithout(m: map<string, int>, p: string)
    requires p in m
    ensures Sum(m) == m[p] + Sum(m - {p})
    decreases |m|
  {
    var q :| q in m && Sum(m) == m[q] + Sum(m - {q});
    if q != p {
      SumWithout(m - {q}, p);
      SumWithout(m - {p}, q);
      assert m - {q} - {p} == m - {p} - {q};
    }
  }

  lemma SumPut(m: map<string, int>, p: string, size: int)
    requires p !in m
    ensures Sum(m[p := size]) == Sum(m) + size && |m[p := size]| == |m| + 1
  {
    SumWithout(m[p := size], p);
    assert m[p := size] - {p} == m;
    OneKeyMore(m, p, size);
  }

  lemma OneKeyMore<V>(m: map<string, V>, p: string, x: V)
    requires p !in m
    ensures |m[p := x]| == |m| + 1
  {
    assert m[p := x].Keys == m.Keys + {p};
  }

  lemma SumOfOne(p: string, size: int)
    ensures Sum(map[p := size]) == size && |map[p := size]| == 1
  {
    var none: map<string, int> := map[];
    SumPut(none, p, size);
    assert none[p := size] == map[p := size];
  }

  ghost function PathSizes(files: map<FileKey, int>, v: Version): map<string, int> {
    var paths := set k | k in files && k.version == v :: k.path;
    map p | p in paths :: files[FileKey(v, p)]
  }

  lemma InPathSizes(files: map<FileKey, int>, v: Version, p: string)
    ensures p in PathSizes(files, v) <==> FileKey(v, p) in files
    ensures p in PathSizes(files, v) ==> PathSizes(files, v)[p] == files[FileKey(v, p)]
  {
    if FileKey(v, p) in files {
      assert FileKey(v, p).path in PathSizes(files, v);
    }
  }

  /** What UpdateDatasetVersionSize would write, an empty sum taken as 0. */
  ghost predicate TotalsRight(a: Snapshot, v: Version)
    requires v in a.versions
  {
    && a.versions[v].size == Sum(PathSizes(a.files, v))
    && a.versions[v].fileCount == |PathSizes(a.files, v)|
  }

  /** The version row that a save of `fs` sends. */
  ghost function SavedRow(a: Snapshot, v: Version, fs: seq<HashedFile>): VersionRow {
    var sizes := PathSizes(PutFiles(a.files, v, fs), v);
    VersionRow(Sum(sizes), |sizes|, false, false, "")
  }

  ghost predicate Lists(stored: seq<File>, files: map<FileKey, int>, v: Version) {
    forall f :: f in stored <==> f.key in files && f.key.version == v && f.size == files[f.key]
  }

  /** The map has the first `n` submitted files with their sizes. */
  ghost predicate Collects(fs: seq<HashedFile>, n: nat, m: map<string, int>)
    requires n <= |fs|
  {
    && (forall p :: p in m <==> exists j :: 0 <= j < n && fs[j].path == p)
    && (forall j | 0 <= j < n :: m[fs[j].path] == fs[j].size)
  }

  lemma OneMoreCollected(fs: seq<HashedFile>, n: nat, m: map<string, int>)
    requires DistinctPaths(fs) && n < |fs| && Collects(fs, n, m)
    ensures fs[n].path !in m && Collects(fs, n + 1, m[fs[n].path := fs[n].size])
  {
    var m' := m[fs[n].path := fs[n].size];
    forall p ensures p in m' <==> exists j :: 0 <= j < n + 1 && fs[j].path == p {
      if p in m && p != fs[n].path {
        var j :| 0 <= j < n && fs[j].path == p;
      }
    }
  }

  /** fileSizeMap and totalSize over the submitted files. */
  method SumSubmitted(fs: seq<HashedFile>) returns (totalSize: int, fileSizeMap: map<string, int>)
    requires DistinctPaths(fs)
    ensures totalSize == Sum(fileSizeMap)
    ensures forall p :: p in fileSizeMap <==> exists j :: 0 <= j < |fs| && fs[j].path == p
    ensures forall j | 0 <= j < |fs| :: fileSizeMap[fs[j].path] == fs[j].size
  {
    totalSize, fileSizeMap := 0, map[];
    for i := 0 to |fs|
      invariant totalSize == Sum(fileSizeMap) && Collects(fs, i, fileSizeMap)
    {
      OneMoreCollected(fs, i, fileSizeMap);
      SumPut(fileSizeMap, fs[i].path, fs[i].size);
      totalSize := totalSize + fs[i].size;
      fileSizeMap := fileSizeMap[fs[i].path := fs[i].size];
    }
  }

  /** The stored files that are not submitted count with their old size. */
  method AddStored(ghost files: map<FileKey, int>, v: Version, stored: seq<File>, submitted: map<string, int>,
                   subtotal: int)
    returns (totalSize: int, fileSizeMap: map<string, int>)
    requires Lists(stored, files, v) && subtotal == Sum(submitted)
    ensures totalSize == Sum(fileSizeMap)
    ensures forall p :: p in fileSizeMap <==> p in submitted || exists j :: 0 <= j < |stored| && stored[j].key.path == p
    ensures forall p | p in submitted :: fileSizeMap[p] == submitted[p]
    ensures forall p | p in fileSizeMap && p !in submitted ::
              FileKey(v, p) in files && fileSizeMap[p] == files[FileKey(v, p)]
  {
    totalSize, fileSizeMap := subtotal, submitted;
    for i := 0 to |stored|
      invariant totalSize == Sum(fileSizeMap)
      invariant forall p :: p in fileSizeMap <==> p in submitted || exists j :: 0 <= j < i && stored[j].key.path == p
      invariant forall p | p in submitted :: fileSizeMap[p] == submitted[p]
      invariant forall p | p in fileSizeMap && p !in submitted ::
                  FileKey(v, p) in files && fileSizeMap[p] == files[FileKey(v, p)]
    {
      var path := stored[i].key.path;
      assert stored[i] in stored && stored[i].key == FileKey(v, path);
      if path !in fileSizeMap {
        SumPut(fileSizeMap, path, stored[i].size);
        totalSize := totalSize + stored[i].size;
        fileSizeMap := fileSizeMap[path := stored[i].size];
      }
    }
  }

  /** Computed before the save, these are the totals that hold after it. */
  method ComputeTotals(ghost files: map<FileKey, int>, v: Version, fs: seq<HashedFile>, stored: seq<File>)
    returns (totalSize: int, fileCount: int)
    requires DistinctPaths(fs) && Lists(stored, files, v)
    ensures var sizes := PathSizes(PutFiles(files, v, fs), v); totalSize == Sum(sizes) && fileCount == |sizes|
  {
    var subtotal, submitted := SumSubmitted(fs);
    var total, fileSizeMap := AddStored(files, v, stored, submitted, subtotal);
    assert forall p :: p in submitted <==> Submits(fs, p);
    OverlaidSizes(files, v, fs, stored, fileSizeMap);
    totalSize, fileCount := total, |fileSizeMap|;
  }

  ghost predicate Submits(fs: seq<HashedFile>, p: string) {
    exists j :: 0 <= j < |fs| && fs[j].path == p
  }

  /** The size of every path after the save: the submitted one, else the stored one. */
  lemma SizeAfterSave(files: map<FileKey, int>, v: Version, fs: seq<HashedFile>, p: string)
    requires DistinctPaths(fs)
    ensures FileKey(v, p) in PutFiles(files, v, fs) <==> Submits(fs, p) || FileKey(v, p) in files
    ensures forall j | 0 <= j < |fs| && fs[j].path == p :: PutFiles(files, v, fs)[FileKey(v, p)] == fs[j].size
    ensures FileKey(v, p) in files && !Submits(fs, p) ==> PutFiles(files, v, fs)[FileKey(v, p)] == files[FileKey(v, p)]
  {
    PutFilesKeys(files, v, fs, FileKey(v, p));
    if f :| f in fs && FileKey(v, p) == FileKey(v, f.path) {
      var j :| 0 <= j < |fs| && fs[j] == f;
      assert Submits(fs, p);
    }
    if Submits(fs, p) {
      var j :| 0 <= j < |fs| && fs[j].path == p;
      assert fs[j] in fs;
      PutFilesAt(files, v, fs, j);
    }
  }

  lemma OverlaidSizes(files: map<FileKey, int>, v: Version, fs: seq<HashedFile>, stored: seq<File>, m: map<string, int>)
    requires DistinctPaths(fs) && Lists(stored, files, v)
    requires forall p :: p in m <==> Submits(fs, p) || exists j :: 0 <= j < |stored| && stored[j].key.path == p
    requires forall j | 0 <= j < |fs| :: fs[j].path in m && m[fs[j].path] == fs[j].size
    requires forall p | p in m && !Submits(fs, p) :: FileKey(v, p) in files && m[p] == files[FileKey(v, p)]
    ensures m == PathSizes(PutFiles(files, v, fs), v)
  {
    var sizes := PathSizes(PutFiles(files, v, fs), v);
    forall p ensures p in m <==> p in sizes
             ensures p in m ==> m[p] == sizes[p]
    {
      InPathSizes(PutFiles(files, v, fs), v, p);
      SizeAfterSave(files, v, fs, p);
      if FileKey(v, p) in files {
        assert File(FileKey(v, p), files[FileKey(v, p)]) in stored;
      }
      if Submits(fs, p) {
        var j :| 0 <= j < |fs| && fs[j].path == p;
      }
    }
    assert m == sizes;
  }

  /** SaveFSToDB as a whole. */
  ghost function SavedWithRow(a: Snapshot, v: Version, fs: seq<HashedFile>): Snapshot {
    SaveTheory.Saved(a.(versions := PutVersion(a.versions, v, SavedRow(a, v, fs))), v, fs)
  }

  /** After a save the cached totals are right, except that a soft-deleted version keeps the
      totals it had, right or not. */
  lemma TotalsAfterSave(a: Snapshot, v: Version, fs: seq<HashedFile>)
    ensures var b := SavedWithRow(a, v, fs);
            var stale := v in a.versions && a.versions[v].deleted;
            v in b.versions &&
            (TotalsRight(b, v) <==>
              !stale ||
              (a.versions[v].size == SavedRow(a, v, fs).size &&
               a.versions[v].fileCount == SavedRow(a, v, fs).fileCount))
  {
  }

  /** Saving one file into a soft-deleted empty version leaves it reporting no files. */
  lemma RecoveredTotalsCounterexample(v: Version)
    ensures var row := VersionRow(0, 0, true, true, "");
            var before := Snapshot(map[], map[], {}, {}, map[v := row], map[]);
            var after := SavedWithRow(before, v, [HashedFile("f", 1, [HashRef("h", 1, 2)])]);
            Clean(before) && TotalsRight(before, v) && !TotalsRight(after, v)
  {
    var before := Snapshot(map[], map[], {}, {}, map[v := VersionRow(0, 0, true, true, "")], map[]);
    var fs := [HashedFile("f", 1, [HashRef("h", 1, 2)])];
    assert PathSizes(before.files, v) == map[];
    var after := PutFiles(before.files, v, fs);
    PutFilesAt(before.files, v, fs, 0);
    InPathSizes(after, v, "f");
    assert "f" in PathSizes(after, v).Keys;
  }
}
