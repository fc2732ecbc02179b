/** The store: the tables in place, and the calls on them. Every call is proved against its
    effect on the snapshot of the tables. */
module Stores {
  import Options
  import opened Snapshots
  import opened TableRows

  class Store {
    var files: map<FileKey, FileRow>
    var chunks: map<string, ChunkRow>
    var links: set<FileChunk>
    var pending: seq<Doomed>
    var versions: map<Version, VersionRow>
    var datasets: map<Dataset, bool>

    ghost function T(): Tables
      reads this
    {
      Tables(files, chunks, links, pending, versions, datasets)
    }

    /** Upsert by path, then read the ids back into the order of the batch. None is the index
        out of range that a path given twice causes. */
    method CreateFiles(batch: seq<File>) returns (ids: Options.Option<seq<nat>>)
      requires Ok(T()) && batch != []
      requires forall f | f in batch :: f.key.version == batch[0].key.version
      modifies this`files
      ensures Ok(T()) && Abs(T()) == old(Abs(T())).(files := PutRows(old(Abs(T())).files, batch))
      ensures forall k | k in old(files) :: k in files && files[k].id == old(files)[k].id
      ensures ids.Some? <==> Distinct(Paths(batch))
      ensures ids.Some? ==> IdsOf(files, batch, ids.value)
    {
      files := UpsertFiles(T(), files, batch);
      ids := ListFilesByPath(files, batch);
    }

    /** One row for each hash, whatever order the database inserts them in, and every raw row
        receives the id of its own hash. */
    method CreateChunks(raws: seq<RawFile>) returns (filled: seq<RawFile>)
      requires Ok(T())
      modifies this`chunks
      ensures Ok(T()) && Abs(T()) == old(Abs(T())).(chunks := PutRaws(old(Abs(T())).chunks, raws))
      ensures forall h | h in old(chunks) :: h in chunks && chunks[h].id == old(chunks)[h].id
      ensures |filled| == |raws|
      ensures forall i | 0 <= i < |raws| ::
                raws[i].hash in chunks && filled[i] == raws[i].(chunkId := chunks[raws[i].hash].id)
    {
      ghost var t := T();
      var exclusives, chunkMap := Exclusives(raws);
      var tab := UpsertChunks(chunks, exclusives);
      ReplaceChunkRows(t, tab);
      UpsertedInfos(chunks, tab, exclusives);
      ExclusivesArePutRaws(RowInfos(chunks), raws, exclusives);
      chunks := tab;
      assert T() == t.(chunks := tab);
      var hashes := InSomeOrder(exclusives.Keys);
      var ids := ListChunksByHash(chunks, hashes);
      filled := WriteBack(raws, hashes, ids, chunkMap);
      assert forall i | 0 <= i < |raws| :: raws[i].hash in Elements(hashes);
    }

    /** INSERT INTO file_chunks ... ON CONFLICT DO NOTHING */
    method CreateFileChunks(added: seq<FileChunk>)
      requires Ok(T()) && forall l | l in added :: HasFile(T(), l.fileId) && HasChunk(T(), l.chunkId)
      modifies this`links
      ensures Ok(T()) && links == old(links) + Elements(added)
    {
      links := links + set l | l in added;
    }

    /** createConnections: chunk rows first, then the links that need their ids. */
    method CreateConnections(raws: seq<RawFile>, ghost es: seq<Entry>)
      requires Ok(T()) && AskAll(files, raws, es)
      modifies this`chunks, this`links
      ensures Ok(T()) && Abs(T()) == Connect(old(Abs(T())), es)
    {
      ghost var t0 := T();
      var filled := CreateChunks(raws);
      ghost var t1 := T();
      PutRawsIsPutInfos(files, Abs(t0).chunks, raws, es);
      var added := seq(|filled|, i requires 0 <= i < |filled| => FileChunkOf(filled[i]));
      AddedLinks(t1, raws, filled, added, es);
      CreateFileChunks(added);
    }

    /** DELETE FROM file_chunks WHERE file_id=? AND chunk_id=? */
    method DeleteFileChunk(fileId: nat, chunkId: nat)
      requires Ok(T())
      modifies this`links
      ensures Ok(T()) && links == old(links) - set l | l in old(links) && l.fileId == fileId && l.chunkId == chunkId
    {
      links := links - set l | l in links && l.fileId == fileId && l.chunkId == chunkId;
    }

    /** The join of a scope in index order; rows with the same index come in any order. */
    method GetRawFiles(s: Scope) returns (rows: seq<RawFile>)
      ensures IsJoin(T(), s, rows)
    {
      var left := set k, h, l | k in files && h in chunks && l in links && Selects(s, k) &&
                      l == FileChunk(files[k].id, chunks[h].id, l.index) :: Row(files, chunks, k, h, l.index);
      JoinRows(T(), s, left);
      rows := InIndexOrder(left);
    }

    /** CheckAndDeleteChunk: the chunk joins the delete buffer. */
    method QueueChunk(id: nat, hash: string)
      requires Ok(T()) && hash in chunks && chunks[hash].id == id
      modifies this`pending
      ensures Ok(T()) && pending == old(pending) + [Doomed(id, hash)]
    {
      pending := pending + [Doomed(id, hash)];
    }

    /** One batch: chunks that still have a link are taken off the list, the rest go. */
    method DeleteChunks(batch: seq<Doomed>)
      modifies this`chunks
      ensures chunks == Survivors(old(chunks), links, batch)
    {
      var chunkMap: map<nat, Doomed> := map[];
      for i := 0 to |batch|
        invariant forall id :: id in chunkMap <==> exists p :: p in batch[..i] && p.id == id
      {
        assert batch[..i + 1] == batch[..i] + [batch[i]];
        chunkMap := chunkMap[batch[i].id := batch[i]];
      }
      assert batch[..|batch|] == batch;
      var fileChunks := set l | l in links && l.chunkId in chunkMap;
      var doomed := chunkMap.Keys - set l | l in fileChunks :: l.chunkId;
      assert forall id :: id in doomed <==> Dies(links, batch, id) by {
        forall id ensures id in doomed <==> Dies(links, batch, id) {
          if id in chunkMap && !Unlinked(links, id) {
            var l :| l in links && l.chunkId == id;
            assert l in fileChunks;
          }
        }
      }
      chunks := map h | h in chunks && chunks[h].id !in doomed :: chunks[h];
    }

    /** TriggerDeleteChunks: work through the buffer in batches of deleteBatch. */
    method TriggerDeleteChunks()
      requires Ok(T())
      modifies this`chunks, this`pending
      ensures Ok(T()) && Abs(T()) == Flushed(old(Abs(T())))
      ensures files == old(files) && links == old(links)
    {
      ghost var t0 := T();
      var i := 0;
      while i < |pending|
        invariant 0 <= i <= |pending|
        invariant T() == t0.(chunks := chunks)
        invariant chunks == Survivors(t0.chunks, links, pending[..i])
      {
        var end := if i + DELETE_BATCH > |pending| then |pending| else i + DELETE_BATCH;
        SurvivorsAppend(t0.chunks, links, pending[..i], pending[i..end]);
        assert pending[..i] + pending[i..end] == pending[..end];
        DeleteChunks(pending[i..end]);
        i := end;
      }
      assert pending[..i] == pending;
      FlushedRows(t0);
      pending := [];
    }

    /** Each candidate loses its links, every position of them, and is queued. */
    method ClearCandidates(ghost k: FileKey, candidates: map<string, RawFile>)
      requires Ok(T()) && forall h | h in candidates :: CandidateOf(files, chunks, k, h, candidates[h])
      modifies this`links, this`pending
      ensures Ok(T()) && Abs(T()) == ClearedHashes(old(Abs(T())), k, candidates.Keys)
    {
      ghost var t := T();
      ghost var queued: seq<Doomed>, done: set<string> := [], {};
      var left := candidates.Keys;
      while left != {}
        invariant left <= candidates.Keys && done == candidates.Keys - left
        invariant Ok(T()) && Cleared(t, links, pending, candidates, done, queued)
      {
        var h :| h in left;
        ClearedMore(t, links, pending, candidates, done, queued, h);
        DeleteFileChunk(candidates[h].fileId, candidates[h].chunkId);
        QueueChunk(candidates[h].chunkId, h);
        queued := queued + [Doomed(candidates[h].chunkId, h)];
        left, done := left - {h}, done + {h};
      }
      assert done == candidates.Keys;
      DropPairs(t, k, candidates, queued);
    }

    /** ClearExtraChunks: the hashes of the old file that its replacement does not list lose
        their links and are queued. */
    method ClearExtraChunks(v: Version, f: HashedFile)
      requires Ok(T())
      modifies this`links, this`pending
      ensures Ok(T()) && Abs(T()) == ClearExtra(old(Abs(T())), v, f)
    {
      var exChunks := GetRawFiles(ExactPath(v, f.path));
      var candidates := Candidates(exChunks, f);
      CandidateRows(T(), v, f, exChunks, candidates);
      ClearedAll(Abs(T()), v, f);
      ClearCandidates(FileKey(v, f.path), candidates);
    }

    /** The locked part of CheckAndQueueFile. */
    method CheckFile(v: Version, f: HashedFile)
      requires Ok(T())
      modifies this`links, this`pending
      ensures Ok(T()) && Abs(T()) == ClearExtra(old(Abs(T())), v, f)
    {
      if FileKey(v, f.path) in files {
        ClearExtraChunks(v, f);
      } else {
        NothingStale(T(), v, f);
      }
    }

    /** Both DELETE statements: links first, then files. */
    method DropRows(s: Scope)
      requires Ok(T())
      modifies this`files, this`links
      ensures Ok(T()) && Abs(T()) == Dropped(old(Abs(T())), s)
    {
      ghost var t := T();
      DropScope(t, s);
      var ids := set k | k in files && Selects(s, k) :: files[k].id;
      links := set l | l in links && l.fileId !in ids;
      files := map k | k in files && !Selects(s, k) :: files[k];
      assert T() == DropFiles(t, s);
    }

    /** DeleteFiles. With `strict`, a scope without chunks is an error, and the caller rolls
        the transaction back; so it leaves the tables as they were. */
    method DeleteFiles(s: Scope, strict: bool) returns (found: bool)
      requires Ok(T())
      modifies this`files, this`chunks, this`links, this`pending
      ensures found <==> !strict || InScope(old(Abs(T())).links, s) != {}
      ensures Ok(T()) && Abs(T()) == if found then Purged(old(Abs(T())), s) else old(Abs(T()))
    {
      var rawFiles := GetRawFiles(s);
      ReadHashes(T(), s, rawFiles);
      if strict && rawFiles == [] {
        return false;
      }
      DropRows(s);
      QueueRows(rawFiles);
      TriggerDeleteChunks();
      return true;
    }

    method QueueRows(rows: seq<RawFile>)
      requires Ok(T()) && forall r | r in rows :: r.hash in chunks && chunks[r.hash].id == r.chunkId
      modifies this`pending
      ensures Ok(T()) && Abs(T()) == old(Abs(T())).(pending := old(Abs(T())).pending + RowHashes(rows))
    {
      for i := 0 to |rows|
        invariant Ok(T())
        invariant DoomedHashes(pending) == DoomedHashes(old(pending)) + RowHashes(rows[..i])
      {
        OneRowMore(rows, i);
        OneDoomedMore(pending, Doomed(rows[i].chunkId, rows[i].hash));
        QueueChunk(rows[i].chunkId, rows[i].hash);
      }
      assert rows[..|rows|] == rows;
    }

    /** ListFiles of one version, in any order, with the row ids. */
    method ListFiles(v: Version) returns (listed: seq<File>, ids: seq<nat>)
      ensures Distinct(listed) && IdsOf(files, listed, ids)
      ensures forall f :: f in listed <==> f.key in files && f.key.version == v && f.size == files[f.key].size
    {
      var tab := files;
      listed := InSomeOrder(set k | k in tab && k.version == v :: File(k, tab[k].size));
      assert forall f :: f in listed <==> f in Elements(listed);
      assert forall i | 0 <= i < |listed| :: listed[i] in listed;
      ids := seq(|listed|, i requires 0 <= i < |listed| => tab[listed[i].key].id);
    }

    /** ListRelatedChunks: the links of all files of one version, in any order. */
    method ListRelatedChunks(v: Version) returns (listed: seq<FileChunk>)
      ensures forall l :: l in listed <==>
              l in links && exists k: FileKey :: k in files && k.version == v && files[k].id == l.fileId
    {
      var ids := set k | k in files && k.version == v :: files[k].id;
      listed := InSomeOrder(set l | l in links && l.fileId in ids);
      assert forall l :: l in listed <==> l in Elements(listed);
    }

    /** UPDATE dataset_versions SET size, file_count */
    method SetTotals(v: Version, size: int, fileCount: int)
      requires Ok(T())
      modifies this`versions
      ensures Ok(T()) && Abs(T()) == old(Abs(T())).(versions :=
        if v !in old(versions) then old(versions)
        else old(versions)[v := old(versions)[v].(size := size, fileCount := fileCount)])
    {
      if v in versions {
        versions := versions[v := versions[v].(size := size, fileCount := fileCount)];
      }
    }

    method ListDeletedDatasets() returns (listed: seq<Dataset>)
      ensures Distinct(listed) && Elements(listed) == set d | d in datasets && datasets[d]
    {
      listed := InSomeOrder(set d | d in datasets && datasets[d]);
    }

    method ListDeletedVersions() returns (listed: seq<Version>)
      ensures Distinct(listed) && Elements(listed) == set v | v in versions && versions[v].deleted
    {
      listed := InSomeOrder(set v | v in versions && versions[v].deleted);
    }

    /** The row of one version; or all version rows of a dataset, and its own. */
    method DeleteVersionRows(s: Scope)
      requires Ok(T()) && !s.Matching?
      modifies this`versions, this`datasets
      ensures Ok(T()) && Abs(T()) == old(Abs(T())).(versions := versions, datasets := datasets)
      ensures s.WholeVersion? ==> versions == old(versions) - {s.version} && datasets == old(datasets)
      ensures s.WholeDataset? ==> datasets == old(datasets) - {s.dataset}
      ensures s.WholeDataset? ==> versions == map v | v in old(versions) && v.dataset != s.dataset :: old(versions)[v]
    {
      ghost var t := T();
      if s.WholeVersion? {
        versions := versions - {s.version};
      } else {
        versions := map v | v in versions && v.dataset != s.dataset :: versions[v];
        datasets := datasets - {s.dataset};
      }
      OtherTables(t, T());
    }

    /** SaveDatasetVersion: a new row, or a soft-deleted one brought back as it was, or new
        totals for a live one. */
    method SaveDatasetVersion(v: Version, row: VersionRow)
      requires Ok(T())
      modifies this`versions
      ensures Ok(T()) && Abs(T()) == old(Abs(T())).(versions := PutVersion(old(versions), v, row))
    {
      ghost var t := T();
      if v !in versions {
        versions := versions[v := row];
      } else if versions[v].deleted {
        versions := versions[v := versions[v].(deleted := false)];
      } else {
        var message := if row.message != "" then row.message else versions[v].message;
        var editing := row.editing || versions[v].editing;
        versions := versions[v := VersionRow(row.size, row.fileCount, false, editing, message)];
      }
      OtherTables(t, T());
    }
  }

  const DELETE_BATCH := 250

  ghost predicate IsCandidates(candidates: map<string, RawFile>, exChunks: seq<RawFile>, f: HashedFile) {
    && (forall h :: h in candidates <==>
        h in RowHashes(exChunks) && forall i | 0 <= i < |f.hashes| :: f.hashes[i].hash != h)
    && (forall h | h in candidates :: candidates[h] in exChunks && candidates[h].hash == h)
  }

  /** The rows of the old file by hash, without the hashes of the replacement. */
  method Candidates(exChunks: seq<RawFile>, f: HashedFile) returns (candidates: map<string, RawFile>)
    ensures IsCandidates(candidates, exChunks, f)
  {
    candidates := map[];
    for i := 0 to |exChunks|
      invariant forall h :: h in candidates <==> exists r :: r in exChunks[..i] && r.hash == h
      invariant forall h | h in candidates :: candidates[h] in exChunks && candidates[h].hash == h
    {
      assert exChunks[..i + 1] == exChunks[..i] + [exChunks[i]];
      candidates := candidates[exChunks[i].hash := exChunks[i]];
    }
    assert exChunks[..|exChunks|] == exChunks;
    for i := 0 to |f.hashes|
      invariant forall h :: h in candidates <==>
                h in RowHashes(exChunks) && forall j | 0 <= j < i :: f.hashes[j].hash != h
      invariant forall h | h in candidates :: candidates[h] in exChunks && candidates[h].hash == h
    {
      candidates := candidates - {f.hashes[i].hash};
    }
  }

  ghost function ClearedHashes(a: Snapshot, k: FileKey, hs: set<string>): Snapshot {
    a.(links := DropLinks(a.links, k, hs), pending := a.pending + hs)
  }

  ghost predicate PairedWith(l: FileChunk, r: RawFile) {
    l.fileId == r.fileId && l.chunkId == r.chunkId
  }

  ghost function Pairs(links: set<FileChunk>, candidates: map<string, RawFile>, hs: set<string>): set<FileChunk> {
    set l | l in links && exists h :: h in hs && h in candidates && PairedWith(l, candidates[h])
  }

  /** The candidates `hs` are unlinked and queued. */
  ghost predicate Cleared(t: Tables, links: set<FileChunk>, pending: seq<Doomed>, candidates: map<string, RawFile>,
                          hs: set<string>, queued: seq<Doomed>) {
    && links == t.links - Pairs(t.links, candidates, hs)
    && pending == t.pending + queued
    && IsQueue(queued, candidates, hs)
  }

  lemma ClearedMore(t: Tables, links: set<FileChunk>, pending: seq<Doomed>, candidates: map<string, RawFile>,
                    hs: set<string>, queued: seq<Doomed>, h: string)
    requires Cleared(t, links, pending, candidates, hs, queued) && h in candidates
    ensures var r := candidates[h];
            Cleared(t, links - (set l | l in links && l.fileId == r.fileId && l.chunkId == r.chunkId),
                    pending + [Doomed(r.chunkId, h)], candidates, hs + {h}, queued + [Doomed(r.chunkId, h)])
  {
    PairsMore(t.links, candidates, hs, h);
    QueueMore(queued, candidates, hs, h);
  }

  lemma PairsMore(links: set<FileChunk>, candidates: map<string, RawFile>, hs: set<string>, h: string)
    requires h in candidates
    ensures var left := links - Pairs(links, candidates, hs);
            left - (set l | l in left && l.fileId == candidates[h].fileId && l.chunkId == candidates[h].chunkId) ==
            links - Pairs(links, candidates, hs + {h})
  {
  }

  ghost predicate IsQueue(queued: seq<Doomed>, candidates: map<string, RawFile>, hs: set<string>) {
    DoomedHashes(queued) == hs && forall p | p in queued :: p.hash in candidates && p.id == candidates[p.hash].chunkId
  }

  lemma QueueMore(queued: seq<Doomed>, candidates: map<string, RawFile>, hs: set<string>, h: string)
    requires IsQueue(queued, candidates, hs) && h in candidates
    ensures IsQueue(queued + [Doomed(candidates[h].chunkId, h)], candidates, hs + {h})
  {
    assert DoomedHashes(queued + [Doomed(candidates[h].chunkId, h)]) == DoomedHashes(queued) + {h};
  }

  /** All links of one file to the candidates go, and the candidates are queued. */
  lemma DropPairs(t: Tables, k: FileKey, candidates: map<string, RawFile>, queued: seq<Doomed>)
    requires Ok(t) && forall h | h in candidates :: CandidateOf(t.files, t.chunks, k, h, candidates[h])
    requires IsQueue(queued, candidates, candidates.Keys)
    ensures var t' := t.(links := t.links - Pairs(t.links, candidates, candidates.Keys), pending := t.pending + queued);
            Ok(t') && Abs(t') == ClearedHashes(Abs(t), k, candidates.Keys)
  {
    var gone := Pairs(t.links, candidates, candidates.Keys);
    var t' := t.(links := t.links - gone, pending := t.pending + queued);
    assert forall l | l in t'.links :: HasFile(t, l.fileId) ==> HasFile(t', l.fileId);
    assert forall l | l in t'.links :: HasChunk(t, l.chunkId) ==> HasChunk(t', l.chunkId);
    forall l ensures l in JoinLinks(t') <==> l in DropLinks(JoinLinks(t), k, candidates.Keys) {
      LinkJoined(t, l);
      LinkJoined(t', l);
      if Joined(t, l.file, l.hash, l.index) {
        PairOf(t, k, candidates, l);
      }
    }
    assert DoomedHashes(t'.pending) == DoomedHashes(t.pending) + candidates.Keys;
  }

  lemma PairOf(t: Tables, k: FileKey, candidates: map<string, RawFile>, l: Link)
    requires Ok(t) && forall h | h in candidates :: CandidateOf(t.files, t.chunks, k, h, candidates[h])
    requires Joined(t, l.file, l.hash, l.index)
    ensures FileChunk(t.files[l.file].id, t.chunks[l.hash].id, l.index)
              in Pairs(t.links, candidates, candidates.Keys) <==>
            l.file == k && l.hash in candidates.Keys
  {
  }

  lemma OneRowMore(rows: seq<RawFile>, i: nat)
    requires i < |rows|
    ensures RowHashes(rows[..i + 1]) == RowHashes(rows[..i]) + {rows[i].hash}
  {
    assert rows[..i + 1] == rows[..i] + [rows[i]];
  }

  lemma OneDoomedMore(pending: seq<Doomed>, d: Doomed)
    ensures DoomedHashes(pending + [d]) == DoomedHashes(pending) + {d.hash}
  {
  }

  /** What DeleteFileChunk does to the snapshot: the file loses the hash at every index, and no
      other link of any file goes. */
  lemma OnePairDropped(t: Tables, k: FileKey, h: string)
    requires Ok(t) && k in t.files && h in t.chunks
    ensures var gone := set l | l in t.links && l.fileId == t.files[k].id && l.chunkId == t.chunks[h].id;
            var t' := t.(links := t.links - gone);
            Ok(t') && Abs(t') == Abs(t).(links := DropLinks(Abs(t).links, k, {h}))
  {
    var gone := set l | l in t.links && l.fileId == t.files[k].id && l.chunkId == t.chunks[h].id;
    FewerLinksOk(t, gone);
    var t' := t.(links := t.links - gone);
    forall l ensures l in JoinLinks(t') <==> l in DropLinks(JoinLinks(t), k, {h}) {
      LinkDropped(t, k, h, gone, l);
    }
  }

  lemma FewerLinksOk(t: Tables, gone: set<FileChunk>)
    requires Ok(t)
    ensures Ok(t.(links := t.links - gone))
  {
    var t' := t.(links := t.links - gone);
    assert forall l | l in t'.links :: HasFile(t, l.fileId) ==> HasFile(t', l.fileId);
    assert forall l | l in t'.links :: HasChunk(t, l.chunkId) ==> HasChunk(t', l.chunkId);
  }

  lemma LinkDropped(t: Tables, k: FileKey, h: string, gone: set<FileChunk>, l: Link)
    requires Ok(t) && k in t.files && h in t.chunks
    requires gone == set l | l in t.links && l.fileId == t.files[k].id && l.chunkId == t.chunks[h].id
    ensures l in JoinLinks(t.(links := t.links - gone)) <==> l in DropLinks(JoinLinks(t), k, {h})
  {
    LinkJoined(t, l);
    LinkJoined(t.(links := t.links - gone), l);
  }

  ghost function StaleHashes(a: Snapshot, v: Version, f: HashedFile): set<string> {
    Hashes(set l | l in a.links && Stale(l, v, f))
  }

  lemma ClearedAll(a: Snapshot, v: Version, f: HashedFile)
    ensures ClearedHashes(a, FileKey(v, f.path), StaleHashes(a, v, f)) == ClearExtra(a, v, f)
  {
    var k, stale := FileKey(v, f.path), set l | l in a.links && Stale(l, v, f);
    forall l | l in a.links ensures l in stale <==> l.file == k && l.hash in Hashes(stale) {
      if l.hash in Hashes(stale) {
        var l' :| l' in stale && l'.hash == l.hash;
      }
    }
    assert DropLinks(a.links, k, Hashes(stale)) == a.links - stale;
  }

  ghost predicate CandidateOf(files: map<FileKey, FileRow>, chunks: map<string, ChunkRow>, k: FileKey, h: string,
                              r: RawFile) {
    k in files && h in chunks && r.hash == h && r.fileId == files[k].id && r.chunkId == chunks[h].id
  }

  lemma CandidateRow(t: Tables, v: Version, path: string, exChunks: seq<RawFile>, r: RawFile)
    requires Ok(t) && IsJoin(t, ExactPath(v, path), exChunks) && r in exChunks
    ensures CandidateOf(t.files, t.chunks, FileKey(v, path), r.hash, r)
  {
    var k :| Selects(ExactPath(v, path), k) && Joined(t, k, r.hash, r.index) && r == RowOf(t, k, r.hash, r.index);
    assert k == FileKey(v, path);
  }

  /** The candidates are the hashes with stale links, with the right ids. */
  lemma CandidateRows(t: Tables, v: Version, f: HashedFile, exChunks: seq<RawFile>, candidates: map<string, RawFile>)
    requires Ok(t) && IsJoin(t, ExactPath(v, f.path), exChunks)
    requires IsCandidates(candidates, exChunks, f)
    ensures forall h | h in candidates :: CandidateOf(t.files, t.chunks, FileKey(v, f.path), h, candidates[h])
    ensures candidates.Keys == StaleHashes(Abs(t), v, f)
  {
    forall h | h in candidates ensures CandidateOf(t.files, t.chunks, FileKey(v, f.path), h, candidates[h]) {
      CandidateRow(t, v, f.path, exChunks, candidates[h]);
    }
    assert RowHashes(exChunks) == Hashes(InScope(JoinLinks(t), ExactPath(v, f.path))) by {
      ReadHashes(t, ExactPath(v, f.path), exChunks);
    }
    StaleInScope(t, v, f);
  }

  lemma StaleInScope(t: Tables, v: Version, f: HashedFile)
    ensures forall h :: h in StaleHashes(Abs(t), v, f) <==>
              h in Hashes(InScope(JoinLinks(t), ExactPath(v, f.path))) &&
              forall i | 0 <= i < |f.hashes| :: f.hashes[i].hash != h
  {
    var links, stale := InScope(JoinLinks(t), ExactPath(v, f.path)), set l | l in JoinLinks(t) && Stale(l, v, f);
    assert forall l | l in JoinLinks(t) :: l in links <==> l.file == FileKey(v, f.path);
    forall h
      ensures h in Hashes(stale) <==> h in Hashes(links) && forall i | 0 <= i < |f.hashes| :: f.hashes[i].hash != h {
      if l :| l in links && l.hash == h { assert l in JoinLinks(t); }
      if l :| l in stale && l.hash == h { assert l in links; }
    }
  }

  lemma NothingStale(t: Tables, v: Version, f: HashedFile)
    requires FileKey(v, f.path) !in t.files
    ensures ClearExtra(Abs(t), v, f) == Abs(t)
  {
    var stale := set l | l in JoinLinks(t) && Stale(l, v, f);
    if l :| l in stale {
      LinkJoined(t, l);
      assert false;
    }
    assert stale == {};
    assert JoinLinks(t) - stale == JoinLinks(t) && Abs(t).pending + Hashes(stale) == Abs(t).pending;
  }
}
