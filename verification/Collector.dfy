/** GoGC: delete what belongs to deleted datasets, then what belongs to deleted versions. */
module Collector {
  import opened Snapshots
  import opened TableRows
  import Stores
  import Clones

  ghost predicate DeletedDataset(a: Snapshot, d: Dataset) {
    d in a.datasets && a.datasets[d]
  }

  ghost predicate DeletedVersion(a: Snapshot, v: Version) {
    v in a.versions && a.versions[v].deleted
  }

  /** Without the datasets `ds` and the versions `vs`, and without chunk rows that only they
      linked. */
  ghost function Without(a: Snapshot, ds: set<Dataset>, vs: set<Version>): Snapshot {
    var files := map k | k in a.files && k.version.dataset !in ds && k.version !in vs :: a.files[k];
    var links := set l | l in a.links && l.file.version.dataset !in ds && l.file.version !in vs;
    var chunks := map h | h in a.chunks && h in Hashes(links) :: a.chunks[h];
    var versions := map v | v in a.versions && v.dataset !in ds && v !in vs :: a.versions[v];
    var datasets := map d | d in a.datasets && d !in ds :: a.datasets[d];
    Snapshot(files, chunks, links, a.pending, versions, datasets)
  }

  /** What a collection leaves. */
  ghost function Collected(a: Snapshot): Snapshot {
    Without(a, set d | d in a.datasets && a.datasets[d], set v | v in a.versions && a.versions[v].deleted)
  }

  /** Live versions read as before, with the chunk rows they had, even if a collected version
      shared them; nothing of the dead is left; and the chunk rows are exactly the linked
      ones. */
  lemma CollectionIsSafeAndComplete(a: Snapshot, k: FileKey)
    requires Clean(a)
    ensures var b, dead := Collected(a), DeletedDataset(a, k.version.dataset) || DeletedVersion(a, k.version);
            && Clean(b)
            && (!dead ==> (k in b.files <==> k in a.files) && (k in a.files ==> b.files[k] == a.files[k])
                          && LinksOf(b, k) == LinksOf(a, k)
                          && forall l | l in LinksOf(a, k) ::
                               l.hash in b.chunks && b.chunks[l.hash] == a.chunks[l.hash])
            && (dead ==> k !in b.files && LinksOf(b, k) == {} && k.version !in b.versions)
            && b.chunks.Keys == Hashes(b.links)
  {
    var b := Collected(a);
    assert Clean(b) by {
      forall l | l in b.links ensures l.file in b.files && l.hash in b.chunks {
        assert l in a.links;
      }
    }
    CleanMeansExactlyLinked(b);
    if !(DeletedDataset(a, k.version.dataset) || DeletedVersion(a, k.version)) {
      assert LinksOf(b, k) == LinksOf(a, k);
      forall l | l in LinksOf(a, k) ensures l.hash in b.chunks && b.chunks[l.hash] == a.chunks[l.hash] {
        assert l in b.links;
      }
    }
  }

  ghost function Minus(a: Snapshot, s: Scope): Snapshot
    requires !s.Matching?
  {
    match s
    case WholeDataset(d) => Without(a, {d}, {})
    case WholeVersion(v) => Without(a, {}, {v})
  }

  /** deleteDatasetVersion: purge the files, then delete the version row, or all version rows
      and the dataset row. */
  lemma PurgeIsMinus(a: Snapshot, s: Scope)
    requires Clean(a) && !s.Matching?
    ensures Clean(Minus(a, s))
    ensures Purged(a, s).(versions := Minus(a, s).versions, datasets := Minus(a, s).datasets) == Minus(a, s)
  {
    Clones.PurgeKeeps(a, s);
    var b, c := Purged(a, s), Minus(a, s);
    assert b.files == c.files;
    assert b.links == c.links;
    SameChunks(a, b, c);
  }

  lemma SameChunks(a: Snapshot, b: Snapshot, c: Snapshot)
    requires Clean(a) && Clean(b) && c.links == b.links && c.links <= a.links
    requires c.chunks == map h | h in a.chunks && h in Hashes(c.links) :: a.chunks[h]
    requires forall h | h in b.chunks :: h in a.chunks && b.chunks[h] == a.chunks[h]
    ensures b.chunks == c.chunks
  {
    CleanMeansExactlyLinked(b);
    CleanMeansExactlyLinked(a);
    assert forall h | h in Hashes(c.links) :: h in Hashes(a.links);
  }

  lemma MinusDataset(a: Snapshot, ds: set<Dataset>, vs: set<Version>, d: Dataset)
    ensures Minus(Without(a, ds, vs), WholeDataset(d)) == Without(a, ds + {d}, vs)
  {
    var b, c := Without(Without(a, ds, vs), {d}, {}), Without(a, ds + {d}, vs);
    assert b.links == c.links && b.files == c.files && b.versions == c.versions && b.datasets == c.datasets;
    assert forall h | h in Hashes(c.links) :: h in Hashes(Without(a, ds, vs).links);
    assert b.chunks == c.chunks;
  }

  lemma MinusVersion(a: Snapshot, ds: set<Dataset>, vs: set<Version>, v: Version)
    ensures Minus(Without(a, ds, vs), WholeVersion(v)) == Without(a, ds, vs + {v})
  {
    var b, c := Without(Without(a, ds, vs), {}, {v}), Without(a, ds, vs + {v});
    assert b.links == c.links && b.files == c.files && b.versions == c.versions && b.datasets == c.datasets;
    assert forall h | h in Hashes(c.links) :: h in Hashes(Without(a, ds, vs).links);
    assert b.chunks == c.chunks;
  }

  lemma WithoutNothing(a: Snapshot)
    requires Clean(a)
    ensures Without(a, {}, {}) == a
  {
    var b := Without(a, {}, {});
    assert b.links == a.links;
    CleanMeansExactlyLinked(a);
    assert b.chunks == a.chunks;
  }

  method DeleteDatasetVersion(store: Stores.Store, s: Scope)
    requires Ok(store.T()) && Clean(Abs(store.T())) && !s.Matching?
    modifies store
    ensures Ok(store.T()) && Clean(Abs(store.T())) && Abs(store.T()) == Minus(old(Abs(store.T())), s)
  {
    ghost var a := Abs(store.T());
    PurgeIsMinus(a, s);
    var _ := store.DeleteFiles(s, false);
    assert Abs(store.T()) == Purged(a, s);
    store.DeleteVersionRows(s);
    RowsOfMinus(a, s, store.versions, store.datasets);
  }

  lemma RowsOfMinus(a: Snapshot, s: Scope, versions: map<Version, VersionRow>, datasets: map<Dataset, bool>)
    requires !s.Matching?
    requires s.WholeVersion? ==> versions == a.versions - {s.version} && datasets == a.datasets
    requires s.WholeDataset? ==> datasets == a.datasets - {s.dataset}
    requires s.WholeDataset? ==> versions == map v | v in a.versions && v.dataset != s.dataset :: a.versions[v]
    ensures versions == Minus(a, s).versions && datasets == Minus(a, s).datasets
  {
  }

  lemma OneMoreElement<T>(s: seq<T>, i: nat)
    requires i < |s|
    ensures Elements(s[..i + 1]) == Elements(s[..i]) + {s[i]}
  {
    assert s[..i + 1] == s[..i] + [s[i]];
  }

  method GoGC(store: Stores.Store)
    requires Ok(store.T()) && Clean(Abs(store.T()))
    modifies store
    ensures Ok(store.T()) && Abs(store.T()) == Collected(old(Abs(store.T())))
  {
    ghost var a := Abs(store.T());
    WithoutNothing(a);
    var vDatasets := store.ListDeletedDatasets();
    assert Elements(vDatasets[..0]) == {};
    for i := 0 to |vDatasets|
      invariant Ok(store.T()) && Clean(Abs(store.T())) && Abs(store.T()) == Without(a, Elements(vDatasets[..i]), {})
    {
      MinusDataset(a, Elements(vDatasets[..i]), {}, vDatasets[i]);
      OneMoreElement(vDatasets, i);
      DeleteDatasetVersion(store, WholeDataset(vDatasets[i]));
    }
    assert vDatasets[..|vDatasets|] == vDatasets;
    ghost var ds := Elements(vDatasets);
    var deletedVersions := store.ListDeletedVersions();
    assert Elements(deletedVersions[..0]) == {};
    for i := 0 to |deletedVersions|
      invariant Ok(store.T()) && Clean(Abs(store.T())) &&
                Abs(store.T()) == Without(a, ds, Elements(deletedVersions[..i]))
    {
      MinusVersion(a, ds, Elements(deletedVersions[..i]), deletedVersions[i]);
      OneMoreElement(deletedVersions, i);
      DeleteDatasetVersion(store, WholeVersion(deletedVersions[i]));
    }
    assert deletedVersions[..|deletedVersions|] == deletedVersions;
    CollectedInTwoPasses(a, ds, Elements(deletedVersions));
  }

  /** Versions of deleted datasets are gone when the second pass lists the deleted versions. */
  lemma CollectedInTwoPasses(a: Snapshot, ds: set<Dataset>, vs: set<Version>)
    requires ds == set d | d in a.datasets && a.datasets[d]
    requires vs == set v | v in a.versions && v.dataset !in ds && a.versions[v].deleted
    ensures Without(a, ds, vs) == Collected(a)
  {
    var b, c := Without(a, ds, vs), Collected(a);
    assert b.links == c.links && b.files == c.files;
    assert b.chunks == c.chunks && b.versions == c.versions && b.datasets == c.datasets;
  }
}
