/** CloneVersionTo: copy the files and links of one version to another, which is emptied
    first. */
module Clones {
  import opened Snapshots
  import opened TableRows
  import opened Stores
  import opened SavePipeline

  // ---- What a clone does

  ghost function CopiedFiles(files: map<FileKey, int>, src: Version, dst: Version): map<FileKey, int> {
    var keys := set k | k in files && k.version == src :: FileKey(dst, k.path);
    files + map k | k in keys :: files[FileKey(src, k.path)]
  }

  ghost function CopiedLinks(links: set<Link>, src: Version, dst: Version): set<Link> {
    links + set l | l in links && l.file.version == src :: Link(FileKey(dst, l.file.path), l.hash, l.index)
  }

  ghost function Copied(a: Snapshot, src: Version, dst: Version): Snapshot {
    a.(files := CopiedFiles(a.files, src, dst), links := CopiedLinks(a.links, src, dst))
  }

  ghost function Cloned(a: Snapshot, src: Version, dst: Version, message: string): Snapshot
    requires src in a.versions
  {
    var row := VersionRow(a.versions[src].size, a.versions[src].fileCount, false, true, message);
    Copied(Purged(a, WholeVersion(dst)), src, dst).(versions := PutVersion(a.versions, dst, row))
  }

  /** The clone has the source's paths, sizes and links, chunk rows included; no other version
      changes, and no chunk row that is still linked goes. */
  lemma CloneIsFaithful(a: Snapshot, src: Version, dst: Version, message: string, path: string)
    requires Clean(a) && src in a.versions && src != dst
    ensures var b := Cloned(a, src, dst, message);
            && (FileKey(dst, path) in b.files <==> FileKey(src, path) in a.files)
            && (FileKey(src, path) in a.files ==> b.files[FileKey(dst, path)] == a.files[FileKey(src, path)])
            && (forall h, i :: Link(FileKey(dst, path), h, i) in b.links <==> Link(FileKey(src, path), h, i) in a.links)
            && (forall l | l in b.links ::
                  l.hash in b.chunks && l.hash in a.chunks && b.chunks[l.hash] == a.chunks[l.hash])
            && Clean(b)
  {
    PurgeKeeps(a, WholeVersion(dst));
    CloneIsClean(a, src, dst, message);
    forall h, i
      ensures Link(FileKey(dst, path), h, i) in Cloned(a, src, dst, message).links <==>
              Link(FileKey(src, path), h, i) in a.links {
      ClonedLink(a, src, dst, message, path, h, i);
    }
  }

  lemma ClonedLink(a: Snapshot, src: Version, dst: Version, message: string, path: string, h: string, i: nat)
    requires Clean(a) && src in a.versions && src != dst
    ensures Link(FileKey(dst, path), h, i) in Cloned(a, src, dst, message).links <==>
            Link(FileKey(src, path), h, i) in a.links
  {
    PurgeKeeps(a, WholeVersion(dst));
    if Link(FileKey(src, path), h, i) in a.links {
      assert Link(FileKey(src, path), h, i) in Purged(a, WholeVersion(dst)).links;
    }
  }

  lemma CopyHasRows(a: Snapshot, src: Version, dst: Version, l: Link)
    requires Consistent(a) && l in CopiedLinks(a.links, src, dst)
    ensures l.file in CopiedFiles(a.files, src, dst) && l.hash in a.chunks
  {
    if l !in a.links {
      var l' :| l' in a.links && l'.file.version == src && l == Link(FileKey(dst, l'.file.path), l'.hash, l'.index);
      assert l'.file in a.files;
    }
  }

  lemma CloneIsClean(a: Snapshot, src: Version, dst: Version, message: string)
    requires Clean(a) && src in a.versions && src != dst
    ensures var b := Cloned(a, src, dst, message);
            && Clean(b)
            && (forall l | l in b.links ::
                  l.hash in b.chunks && l.hash in a.chunks && b.chunks[l.hash] == a.chunks[l.hash])
  {
    var b, purged := Cloned(a, src, dst, message), Purged(a, WholeVersion(dst));
    PurgeKeeps(a, WholeVersion(dst));
    forall l | l in b.links ensures l.file in b.files && l.hash in purged.chunks {
      CopyHasRows(purged, src, dst, l);
    }
    assert forall h | h in Hashes(purged.links) :: h in Hashes(b.links);
  }

  /** The target has the source's files, sizes and links. */
  ghost predicate IsCopy(a: Snapshot, src: Version, b: Snapshot, dst: Version) {
    && (forall p :: FileKey(dst, p) in b.files <==> FileKey(src, p) in a.files)
    && (forall p | FileKey(src, p) in a.files :: b.files[FileKey(dst, p)] == a.files[FileKey(src, p)])
    && (forall p, h, i :: Link(FileKey(dst, p), h, i) in b.links <==> Link(FileKey(src, p), h, i) in a.links)
  }

  /** A clone is a copy exactly if it is of another version, or there is nothing to copy. */
  lemma CopyIffOther(a: Snapshot, src: Version, dst: Version, message: string)
    requires Clean(a) && src in a.versions
    ensures IsCopy(a, src, Cloned(a, src, dst, message), dst) <==>
            src != dst || forall k | k in a.files :: k.version != src
  {
    var b := Cloned(a, src, dst, message);
    if src != dst {
      forall p
        ensures FileKey(dst, p) in b.files <==> FileKey(src, p) in a.files
        ensures FileKey(src, p) in a.files ==> b.files[FileKey(dst, p)] == a.files[FileKey(src, p)]
        ensures forall h, i :: Link(FileKey(dst, p), h, i) in b.links <==> Link(FileKey(src, p), h, i) in a.links
      {
        CloneIsFaithful(a, src, dst, message, p);
      }
    } else {
      CloneOntoItselfEmpties(a, src, message);
      if k :| k in a.files && k.version == src {
        assert k == FileKey(src, k.path);
      } else {
        assert forall l | l in a.links :: l.file in a.files;
      }
    }
  }

  lemma CloneLeavesOthers(a: Snapshot, src: Version, dst: Version, message: string, k: FileKey)
    requires Clean(a) && src in a.versions && k.version != dst
    ensures var b := Cloned(a, src, dst, message);
            && (k in b.files <==> k in a.files) && (k in a.files ==> b.files[k] == a.files[k])
            && LinksOf(b, k) == LinksOf(a, k)
  {
    PurgeKeeps(a, WholeVersion(dst));
  }

  /** What stays linked through a purge keeps its chunk row. */
  lemma PurgeKeeps(a: Snapshot, s: Scope)
    requires Clean(a)
    ensures var b := Purged(a, s);
            && Clean(b)
            && (forall k :: k in b.files <==> k in a.files && !Selects(s, k))
            && (forall k | k in b.files :: b.files[k] == a.files[k])
            && (forall l :: l in b.links <==> l in a.links && !Selects(s, l.file))
            && (forall h | h in b.chunks :: h in a.chunks && b.chunks[h] == a.chunks[h])
  {
    var gone := InScope(a.links, s);
    var queued := Dropped(a, s).(pending := a.pending + Hashes(gone));
    assert Consistent(queued) by {
      forall h | h in a.chunks ensures h in Hashes(queued.links) || h in queued.pending {
        var l :| l in a.links && l.hash == h;
        assert l in gone || l in queued.links;
      }
      forall h | h in Hashes(gone) ensures h in a.chunks {
        var l :| l in gone && l.hash == h;
      }
    }
    FlushedConsistent(queued);
  }

  /** A version cloned onto itself is emptied first, and then there is nothing to copy; its
      row keeps the totals it had. */
  lemma CloneOntoItselfEmpties(a: Snapshot, v: Version, message: string)
    requires Clean(a) && v in a.versions
    ensures var b := Cloned(a, v, v, message);
            && (forall k | k in b.files :: k.version != v)
            && (forall l | l in b.links :: l.file.version != v)
            && b.versions[v].size == a.versions[v].size && b.versions[v].fileCount == a.versions[v].fileCount
  {
    PurgeKeeps(a, WholeVersion(v));
    var purged := Purged(a, WholeVersion(v));
    assert CopiedLinks(purged.links, v, v) == purged.links;
    assert CopiedFiles(purged.files, v, v) == purged.files;
  }

  // ---- How it is done

  function Rows(dst: Version, listed: seq<File>): seq<File> {
    seq(|listed|, i requires 0 <= i < |listed| => File(FileKey(dst, listed[i].key.path), listed[i].size))
  }

  /** fileChunksMap: the links of each source file by its id. */
  method GroupByFile(fileChunks: seq<FileChunk>) returns (m: map<nat, seq<FileChunk>>)
    ensures forall l :: l in fileChunks <==> l.fileId in m && l in m[l.fileId]
    ensures forall id, l | id in m && l in m[id] :: l.fileId == id
  {
    m := map[];
    for i := 0 to |fileChunks|
      invariant forall l :: l in fileChunks[..i] <==> l.fileId in m && l in m[l.fileId]
      invariant forall id | id in m :: forall l | l in m[id] :: l.fileId == id
    {
      var fc := fileChunks[i];
      assert fileChunks[..i + 1] == fileChunks[..i] + [fc];
      if fc.fileId in m {
        m := m[fc.fileId := m[fc.fileId] + [fc]];
      } else {
        m := m[fc.fileId := [fc]];
      }
    }
    assert fileChunks[..|fileChunks|] == fileChunks;
  }

  ghost function PathSet(listed: seq<File>): set<string> {
    set f | f in listed :: f.key.path
  }

  /** The links that cloning the files at `paths` makes, in terms of row ids. */
  ghost function CloneLinks(t: Tables, files: map<FileKey, FileRow>, src: Version, dst: Version,
                            paths: set<string>): set<FileChunk> {
    set l, p | l in t.links && p in paths && FileKey(dst, p) in files && OfFile(t, l, FileKey(src, p)) ::
      FileChunk(files[FileKey(dst, p)].id, l.chunkId, l.index)
  }

  ghost predicate OfFile(t: Tables, l: FileChunk, k: FileKey) {
    k in t.files && t.files[k].id == l.fileId
  }

  /** ClonedFile and the loop over its old links: one new link for each. */
  method NewLinks(ghost t: Tables, files: map<FileKey, FileRow>, ghost src: Version, dst: Version, batch: seq<File>,
                  oldIds: seq<nat>, newIds: seq<nat>, m: map<nat, seq<FileChunk>>) returns (out: seq<FileChunk>)
    requires IdsOf(t.files, batch, oldIds) && IdsOf(files, Rows(dst, batch), newIds)
    requires forall f | f in batch :: f.key.version == src
    requires forall id, l | id in m && l in m[id] :: l.fileId == id && l in t.links
    requires forall l, f | l in t.links && f in batch && OfFile(t, l, f.key) :: l.fileId in m && l in m[l.fileId]
    ensures Elements(out) == CloneLinks(t, files, src, dst, PathSet(batch))
  {
    out := [];
    for i := 0 to |batch|
      invariant Elements(out) == CloneLinks(t, files, src, dst, PathSet(batch[..i]))
    {
      var key := FileKey(dst, batch[i].key.path);
      assert batch[i] in batch && batch[i].key == FileKey(src, batch[i].key.path);
      assert Rows(dst, batch)[i].key == key;
      assert batch[..i + 1] == batch[..i] + [batch[i]];
      assert PathSet(batch[..i + 1]) == PathSet(batch[..i]) + {batch[i].key.path};
      var olds := if oldIds[i] in m then m[oldIds[i]] else [];
      var news := seq(|olds|, j requires 0 <= j < |olds| => FileChunk(newIds[i], olds[j].chunkId, olds[j].index));
      assert Elements(news) == CloneLinks(t, files, src, dst, {batch[i].key.path}) by {
        OneFilesLinks(t, files, src, dst, batch[i].key.path, olds, news);
      }
      assert Elements(out + news) == Elements(out) + Elements(news);
      out := out + news;
    }
    assert batch[..|batch|] == batch;
  }

  lemma OneFilesLinks(t: Tables, files: map<FileKey, FileRow>, src: Version, dst: Version, path: string,
                      olds: seq<FileChunk>, news: seq<FileChunk>)
    requires FileKey(src, path) in t.files && FileKey(dst, path) in files
    requires forall l :: l in olds <==> l in t.links && OfFile(t, l, FileKey(src, path))
    requires |news| == |olds|
    requires forall j | 0 <= j < |olds| ::
               news[j] == FileChunk(files[FileKey(dst, path)].id, olds[j].chunkId, olds[j].index)
    ensures Elements(news) == CloneLinks(t, files, src, dst, {path})
  {
    forall n ensures n in news <==> n in CloneLinks(t, files, src, dst, {path}) {
      if n in news {
        var j :| 0 <= j < |news| && news[j] == n;
        assert olds[j] in olds;
      }
      if l :| l in t.links && OfFile(t, l, FileKey(src, path)) &&
              n == FileChunk(files[FileKey(dst, path)].id, l.chunkId, l.index) {
        assert l in olds;
        var j :| 0 <= j < |olds| && olds[j] == l;
        assert news[j] == n;
      }
    }
  }

  lemma {:induction false} PutRowsAt(files: map<FileKey, int>, batch: seq<File>, k: FileKey)
    ensures k in PutRows(files, batch) <==> k in files || exists f :: f in batch && f.key == k
    ensures (forall f | f in batch :: f.key != k) && k in files ==> PutRows(files, batch)[k] == files[k]
    ensures (exists f :: f in batch && f.key == k) ==>
              exists f :: f in batch && f.key == k && PutRows(files, batch)[k] == f.size
  {
    if batch != [] {
      PutRowsAt(files, batch[..|batch| - 1], k);
      assert batch == batch[..|batch| - 1] + [batch[|batch| - 1]];
    }
  }

  ghost predicate ListsVersion(listed: seq<File>, files: map<FileKey, FileRow>, v: Version) {
    forall f :: f in listed <==> f.key in files && f.key.version == v && f.size == files[f.key].size
  }

  lemma CopiedSizes(files: map<FileKey, FileRow>, src: Version, dst: Version, listed: seq<File>)
    requires ListsVersion(listed, files, src)
    ensures PutRows(Sizes(files), Rows(dst, listed)) == CopiedFiles(Sizes(files), src, dst)
  {
    var rows := Rows(dst, listed);
    forall k ensures k in PutRows(Sizes(files), rows) <==> k in CopiedFiles(Sizes(files), src, dst)
             ensures k in PutRows(Sizes(files), rows) ==>
                       PutRows(Sizes(files), rows)[k] == CopiedFiles(Sizes(files), src, dst)[k]
    {
      PutRowsAt(Sizes(files), rows, k);
      forall r | r in rows
        ensures r.key.version == dst && FileKey(src, r.key.path) in files &&
                r.size == files[FileKey(src, r.key.path)].size {
        var j :| 0 <= j < |rows| && rows[j] == r;
        assert listed[j] in listed && listed[j].key == FileKey(src, r.key.path);
      }
      if k.version == dst && FileKey(src, k.path) in files {
        var f := File(FileKey(src, k.path), files[FileKey(src, k.path)].size);
        assert f in listed;
        var j :| 0 <= j < |listed| && listed[j] == f;
        assert rows[j] in rows && rows[j].key == k;
        assert FileKey(src, k.path) in Sizes(files);
      }
    }
  }

  lemma CopiedJoin(t: Tables, t': Tables, src: Version, dst: Version, listed: seq<File>, l: Link)
    requires Ok(t) && Ok(t') && t'.chunks == t.chunks && ListsVersion(listed, t.files, src)
    requires forall k | k in t.files :: k in t'.files && t'.files[k].id == t.files[k].id
    requires forall f | f in listed :: FileKey(dst, f.key.path) in t'.files
    requires t'.links == t.links + CloneLinks(t, t'.files, src, dst, PathSet(listed))
    ensures l in JoinLinks(t') <==>
            l in JoinLinks(t) ||
            (l.file.version == dst && Link(FileKey(src, l.file.path), l.hash, l.index) in JoinLinks(t))
  {
    var k, h, i, k' := l.file, l.hash, l.index, FileKey(src, l.file.path);
    LinkJoined(t', l);
    LinkJoined(t, l);
    LinkJoined(t, Link(k', h, i));
    if Joined(t', k, h, i) && FileChunk(t'.files[k].id, t.chunks[h].id, i) !in t.links {
      var row := FileChunk(t'.files[k].id, t.chunks[h].id, i);
      var o, p :| o in t.links && p in PathSet(listed) && FileKey(dst, p) in t'.files &&
                  OfFile(t, o, FileKey(src, p)) &&
                  row == FileChunk(t'.files[FileKey(dst, p)].id, o.chunkId, o.index);
      assert k == FileKey(dst, p);
    } else if Joined(t', k, h, i) {
      OldRow(t, t', k, h, i);
    }
    if k.version == dst && Joined(t, k', h, i) {
      var o := FileChunk(t.files[k'].id, t.chunks[h].id, i);
      assert File(k', t.files[k'].size) in listed;
      assert k.path in PathSet(listed);
      assert o in t.links && OfFile(t, o, k');
    }
  }

  /** A link that was there is a link of a file that was there. */
  lemma OldRow(t: Tables, t': Tables, k: FileKey, h: string, i: nat)
    requires Ok(t) && Ok(t') && t'.chunks == t.chunks && Joined(t', k, h, i)
    requires forall k | k in t.files :: k in t'.files && t'.files[k].id == t.files[k].id
    requires FileChunk(t'.files[k].id, t.chunks[h].id, i) in t.links
    ensures Joined(t, k, h, i)
  {
    var k0 :| k0 in t.files && t.files[k0].id == t'.files[k].id;
    assert k0 == k;
  }

  lemma InCopied(links: set<Link>, src: Version, dst: Version, l: Link)
    ensures l in CopiedLinks(links, src, dst) <==>
            l in links || (l.file.version == dst && Link(FileKey(src, l.file.path), l.hash, l.index) in links)
  {
    var o := Link(FileKey(src, l.file.path), l.hash, l.index);
    if l.file.version == dst && o in links {
      assert l == Link(FileKey(dst, o.file.path), o.hash, o.index);
    }
  }

  lemma CopyTargets(t: Tables, files: map<FileKey, FileRow>, src: Version, dst: Version, listed: seq<File>)
    requires ListsVersion(listed, t.files, src) && Sizes(files) == CopiedFiles(Sizes(t.files), src, dst)
    ensures forall f | f in listed :: FileKey(dst, f.key.path) in files
  {
    forall f | f in listed ensures FileKey(dst, f.key.path) in files {
      assert f.key in Sizes(t.files);
      assert FileKey(dst, f.key.path) in Sizes(files);
    }
  }

  /** The rows of all clones and the links of all clones make the copy. */
  lemma CopyDone(t: Tables, t': Tables, src: Version, dst: Version, listed: seq<File>)
    requires Ok(t) && Ok(t') && t' == t.(files := t'.files, links := t'.links) && ListsVersion(listed, t.files, src)
    requires Sizes(t'.files) == PutRows(Sizes(t.files), Rows(dst, listed))
    requires forall k | k in t.files :: k in t'.files && t'.files[k].id == t.files[k].id
    requires t'.links == t.links + CloneLinks(t, t'.files, src, dst, PathSet(listed))
    ensures Abs(t') == Copied(Abs(t), src, dst)
  {
    CopiedSizes(t.files, src, dst, listed);
    CopyTargets(t, t'.files, src, dst, listed);
    SameLinks(t, t', src, dst, listed);
  }

  lemma SameLinks(t: Tables, t': Tables, src: Version, dst: Version, listed: seq<File>)
    requires Ok(t) && Ok(t') && t' == t.(files := t'.files, links := t'.links) && ListsVersion(listed, t.files, src)
    requires Sizes(t'.files) == CopiedFiles(Sizes(t.files), src, dst)
    requires forall k | k in t.files :: k in t'.files && t'.files[k].id == t.files[k].id
    requires forall f | f in listed :: FileKey(dst, f.key.path) in t'.files
    requires t'.links == t.links + CloneLinks(t, t'.files, src, dst, PathSet(listed))
    ensures JoinLinks(t') == CopiedLinks(JoinLinks(t), src, dst)
  {
    forall l ensures l in JoinLinks(t') <==> l in CopiedLinks(JoinLinks(t), src, dst) {
      CopiedJoin(t, t', src, dst, listed, l);
      InCopied(JoinLinks(t), src, dst, l);
    }
  }

  // ---- The two goroutines

  /** The producer has cloned the first `next` files and still has to send `todo`; the receiver
      has buffered `fcBuf`. */
  datatype Copy = Copy(next: nat, todo: seq<FileChunk>, fcBuf: seq<FileChunk>)

  ghost predicate Copying(t: Tables, t': Tables, src: Version, dst: Version, listed: seq<File>, c: Copy) {
    && Ok(t') && t' == t.(files := t'.files, links := t'.links)
    && c.next <= |listed|
    && Sizes(t'.files) == PutRows(Sizes(t.files), Rows(dst, listed[..c.next]))
    && (forall k | k in t.files :: k in t'.files && t'.files[k].id == t.files[k].id)
    && (forall p | p in PathSet(listed[..c.next]) :: FileKey(dst, p) in t'.files)
    && t'.links + Elements(c.fcBuf) + Elements(c.todo) ==
         t.links + CloneLinks(t, t'.files, src, dst, PathSet(listed[..c.next]))
  }

  lemma MoreCloneLinks(t: Tables, files: map<FileKey, FileRow>, files': map<FileKey, FileRow>, src: Version,
                       dst: Version, paths: set<string>, more: set<string>)
    requires forall k | k in files :: k in files' && files'[k].id == files[k].id
    requires forall p | p in paths :: FileKey(dst, p) in files
    ensures CloneLinks(t, files', src, dst, paths + more) ==
              CloneLinks(t, files, src, dst, paths) + CloneLinks(t, files', src, dst, more)
  {
  }

  /** What waits to be linked refers to rows that exist. */
  lemma WaitingRefs(t: Tables, files: map<FileKey, FileRow>, src: Version, dst: Version, paths: set<string>,
                    l: FileChunk)
    requires Ok(t) && l in t.links + CloneLinks(t, files, src, dst, paths)
    requires forall k | k in t.files :: k in files && files[k].id == t.files[k].id
    ensures HasFile(t.(files := files), l.fileId) && HasChunk(t, l.chunkId)
  {
    if l in t.links {
      var k :| k in t.files && t.files[k].id == l.fileId;
      assert files[k].id == l.fileId;
    }
  }

  /** flushFileBuffer: rows for a batch of files, and their links to be sent. */
  method CloneRows(store: Store, ghost t: Tables, ghost src: Version, dst: Version, batch: seq<File>, oldIds: seq<nat>,
                   m: map<nat, seq<FileChunk>>) returns (todo: seq<FileChunk>)
    requires Ok(store.T()) && batch != [] && IdsOf(t.files, batch, oldIds) && Grouped(t, src, m)
    requires forall f | f in batch :: f.key.version == src
    requires Distinct(Paths(Rows(dst, batch))) && forall r | r in Rows(dst, batch) :: r.key.version == dst
    modifies store`files
    ensures Ok(store.T()) && Sizes(store.files) == PutRows(old(Sizes(store.files)), Rows(dst, batch))
    ensures forall k | k in old(store.files) :: k in store.files && store.files[k].id == old(store.files)[k].id
    ensures forall p | p in PathSet(batch) :: FileKey(dst, p) in store.files
    ensures Elements(todo) == CloneLinks(t, store.files, src, dst, PathSet(batch))
  {
    var newIds := store.CreateFiles(Rows(dst, batch));
    todo := NewLinks(t, store.files, src, dst, batch, oldIds, newIds.value, m);
    BatchTargets(store.files, dst, batch, newIds.value);
  }

  method CloneBatch(store: Store, ghost t: Tables, src: Version, dst: Version, listed: seq<File>, oldIds: seq<nat>,
                    m: map<nat, seq<FileChunk>>, c: Copy) returns (c': Copy)
    requires Copying(t, store.T(), src, dst, listed, c) && c.todo == [] && c.next < |listed|
    requires Distinct(listed) && ListsVersion(listed, t.files, src) && IdsOf(t.files, listed, oldIds)
    requires Grouped(t, src, m)
    modifies store`files
    ensures Copying(t, store.T(), src, dst, listed, c') && c'.next > c.next && c'.fcBuf == c.fcBuf
  {
    var upTo := if c.next + LIMIT > |listed| then |listed| else c.next + LIMIT;
    BatchRows(t, src, dst, listed, oldIds, c.next, upTo);
    ghost var before := store.T();
    var todo := CloneRows(store, t, src, dst, listed[c.next..upTo], oldIds[c.next..upTo], m);
    assert store.T() == before.(files := store.files);
    BatchDone(t, before, store.T(), src, dst, listed, c, upTo, todo);
    c' := Copy(upTo, todo, c.fcBuf);
  }

  lemma BatchDone(t: Tables, t': Tables, t'': Tables, src: Version, dst: Version, listed: seq<File>, c: Copy, upTo: nat,
                  todo: seq<FileChunk>)
    requires Copying(t, t', src, dst, listed, c) && c.todo == [] && c.next <= upTo <= |listed|
    requires Ok(t'') && t'' == t'.(files := t''.files)
    requires Sizes(t''.files) == PutRows(Sizes(t'.files), Rows(dst, listed[c.next..upTo]))
    requires forall k | k in t'.files :: k in t''.files && t''.files[k].id == t'.files[k].id
    requires forall p | p in PathSet(listed[c.next..upTo]) :: FileKey(dst, p) in t''.files
    requires Elements(todo) == CloneLinks(t, t''.files, src, dst, PathSet(listed[c.next..upTo]))
    ensures Copying(t, t'', src, dst, listed, Copy(upTo, todo, c.fcBuf))
  {
    var batch := listed[c.next..upTo];
    TakeMore(listed, c.next, upTo);
    PutRowsRows(Sizes(t.files), dst, listed[..c.next], batch);
    PathsJoin(listed, c.next, upTo);
    BatchLinks(t, t'.files, t''.files, src, dst, PathSet(listed[..c.next]), PathSet(batch), t'.links, c, todo);
  }

  lemma BatchLinks(t: Tables, files: map<FileKey, FileRow>, files': map<FileKey, FileRow>, src: Version, dst: Version,
                   paths: set<string>, more: set<string>, links: set<FileChunk>, c: Copy, todo: seq<FileChunk>)
    requires c.todo == []
    requires forall k | k in files :: k in files' && files'[k].id == files[k].id
    requires forall p | p in paths :: FileKey(dst, p) in files
    requires links + Elements(c.fcBuf) + Elements(c.todo) == t.links + CloneLinks(t, files, src, dst, paths)
    requires Elements(todo) == CloneLinks(t, files', src, dst, more)
    ensures links + Elements(c.fcBuf) + Elements(todo) == t.links + CloneLinks(t, files', src, dst, paths + more)
  {
    MoreCloneLinks(t, files, files', src, dst, paths, more);
    SameUnion(links + Elements(c.fcBuf), t.links, CloneLinks(t, files, src, dst, paths), Elements(todo));
  }

  lemma SameUnion<T>(a: set<T>, b: set<T>, c: set<T>, d: set<T>)
    requires a == b + c
    ensures a + d == b + (c + d)
  {
  }

  lemma TakeMore<T>(s: seq<T>, m: nat, n: nat)
    requires m <= n <= |s|
    ensures s[..n] == s[..m] + s[m..n]
  {
  }

  lemma PathsJoin(listed: seq<File>, m: nat, n: nat)
    requires m <= n <= |listed|
    ensures PathSet(listed[..n]) == PathSet(listed[..m]) + PathSet(listed[m..n])
  {
    assert listed[..n] == listed[..m] + listed[m..n];
  }

  ghost predicate Grouped(t: Tables, src: Version, m: map<nat, seq<FileChunk>>) {
    && (forall id, l | id in m && l in m[id] :: l.fileId == id && l in t.links)
    && (forall l, k: FileKey | l in t.links && k.version == src && OfFile(t, l, k) :: l.fileId in m && l in m[l.fileId])
  }

  lemma {:induction false} PutRowsRows(files: map<FileKey, int>, dst: Version, listed: seq<File>, batch: seq<File>)
    ensures PutRows(files, Rows(dst, listed + batch)) == PutRows(PutRows(files, Rows(dst, listed)), Rows(dst, batch))
  {
    if batch == [] {
      assert listed + batch == listed;
    } else {
      var n := |batch| - 1;
      PutRowsRows(files, dst, listed, batch[..n]);
      assert Rows(dst, listed + batch)[..|listed| + n] == Rows(dst, listed + batch[..n]);
      assert Rows(dst, batch)[..n] == Rows(dst, batch[..n]);
    }
  }

  lemma BatchRows(t: Tables, src: Version, dst: Version, listed: seq<File>, ids: seq<nat>, m: nat, n: nat)
    requires m <= n <= |listed| && Distinct(listed) && ListsVersion(listed, t.files, src) && IdsOf(t.files, listed, ids)
    ensures IdsOf(t.files, listed[m..n], ids[m..n])
    ensures Distinct(Paths(Rows(dst, listed[m..n])))
    ensures forall r | r in Rows(dst, listed[m..n]) :: r.key.version == dst
    ensures forall f | f in listed[m..n] :: f.key.version == src && f.key in t.files
  {
    var rows := Rows(dst, listed[m..n]);
    forall f | f in listed[m..n] ensures f in listed {
    }
    forall i, j | 0 <= i < j < |rows| ensures Paths(rows)[i] != Paths(rows)[j] {
      assert listed[m + i] != listed[m + j];
      assert listed[m + i] in listed && listed[m + j] in listed;
    }
  }

  lemma BatchTargets(files: map<FileKey, FileRow>, dst: Version, batch: seq<File>, ids: seq<nat>)
    requires IdsOf(files, Rows(dst, batch), ids)
    ensures forall p | p in PathSet(batch) :: FileKey(dst, p) in files
  {
    forall p | p in PathSet(batch) ensures FileKey(dst, p) in files {
      var f :| f in batch && f.key.path == p;
      var i :| 0 <= i < |batch| && batch[i] == f;
      assert Rows(dst, batch)[i].key == FileKey(dst, p);
    }
  }

  /** flushChunksBuffer */
  method FlushLinks(store: Store, ghost t: Tables, ghost src: Version, ghost dst: Version, ghost listed: seq<File>,
                    c: Copy)
    returns (c': Copy)
    requires Ok(t) && Copying(t, store.T(), src, dst, listed, c)
    modifies store`links
    ensures Copying(t, store.T(), src, dst, listed, c') && c' == c.(fcBuf := [])
  {
    forall l | l in c.fcBuf ensures HasFile(store.T(), l.fileId) && HasChunk(store.T(), l.chunkId) {
      assert l in Elements(c.fcBuf);
      WaitingRefs(t, store.files, src, dst, PathSet(listed[..c.next]), l);
      SameRefs(t, store.T(), l);
    }
    store.CreateFileChunks(c.fcBuf);
    c' := c.(fcBuf := []);
  }

  lemma SameRefs(t: Tables, t': Tables, l: FileChunk)
    requires t'.chunks == t.chunks && HasFile(t.(files := t'.files), l.fileId) && HasChunk(t, l.chunkId)
    ensures HasFile(t', l.fileId) && HasChunk(t', l.chunkId)
  {
    var k :| k in t'.files && t'.files[k].id == l.fileId;
    var h :| h in t.chunks && t.chunks[h].id == l.chunkId;
  }

  lemma CopyBegins(t: Tables, src: Version, dst: Version, listed: seq<File>)
    requires Ok(t)
    ensures Copying(t, t, src, dst, listed, Copy(0, [], []))
  {
    assert listed[..0] == [];
    assert Rows(dst, []) == [];
    assert CloneLinks(t, t.files, src, dst, PathSet([])) == {};
  }

  lemma GroupsAll(t: Tables, src: Version, fileChunks: seq<FileChunk>, m: map<nat, seq<FileChunk>>)
    requires forall l :: l in fileChunks <==>
             l in t.links && exists k: FileKey :: k in t.files && k.version == src && t.files[k].id == l.fileId
    requires forall l :: l in fileChunks <==> l.fileId in m && l in m[l.fileId]
    requires forall id, l | id in m && l in m[id] :: l.fileId == id
    ensures Grouped(t, src, m)
  {
    forall id, l | id in m && l in m[id] ensures l.fileId == id && l in t.links {
      assert l in fileChunks;
    }
    forall l, k: FileKey | l in t.links && k.version == src && OfFile(t, l, k)
      ensures l.fileId in m && l in m[l.fileId] {
      assert l in fileChunks;
    }
  }

  method CopyVersion(store: Store, src: Version, dst: Version)
    requires Ok(store.T())
    modifies store`files, store`links
    ensures Ok(store.T()) && Abs(store.T()) == Copied(old(Abs(store.T())), src, dst)
  {
    ghost var t := store.T();
    var listed, oldIds := store.ListFiles(src);
    var fileChunks := store.ListRelatedChunks(src);
    var m := GroupByFile(fileChunks);
    GroupsAll(t, src, fileChunks, m);
    CopyBegins(t, src, dst, listed);
    CopyInBatches(store, t, src, dst, listed, oldIds, m);
    assert listed[..|listed|] == listed;
    CopyDone(t, store.T(), src, dst, listed);
  }

  /** The producer and the receiver, in any interleaving. */
  method CopyInBatches(store: Store, ghost t: Tables, src: Version, dst: Version, listed: seq<File>, oldIds: seq<nat>,
                       m: map<nat, seq<FileChunk>>)
    requires Ok(t) && Copying(t, store.T(), src, dst, listed, Copy(0, [], []))
    requires Distinct(listed) && ListsVersion(listed, t.files, src) && IdsOf(t.files, listed, oldIds)
    requires Grouped(t, src, m)
    modifies store`files, store`links
    ensures Copying(t, store.T(), src, dst, listed, Copy(|listed|, [], []))
  {
    var c := Copy(0, [], []);
    while
      invariant Copying(t, store.T(), src, dst, listed, c)
      decreases |listed| - c.next, |c.todo|, |c.fcBuf|
    {
      case c.todo == [] && c.next < |listed| =>
        c := CloneBatch(store, t, src, dst, listed, oldIds, m, c);
      case c.todo != [] && |c.fcBuf| < CHUNK_LIMIT =>
        c := SendLink(t, store.T(), src, dst, listed, c);
      case |c.fcBuf| >= CHUNK_LIMIT =>
        c := FlushLinks(store, t, src, dst, listed, c);
    }
    c := FlushLinks(store, t, src, dst, listed, c);
  }

  /** fcChan <- newFC */
  method SendLink(ghost t: Tables, ghost t': Tables, ghost src: Version, ghost dst: Version, ghost listed: seq<File>,
                  c: Copy) returns (c': Copy)
    requires Copying(t, t', src, dst, listed, c) && c.todo != []
    ensures Copying(t, t', src, dst, listed, c')
    ensures c'.next == c.next && |c'.todo| < |c.todo|
  {
    c' := c.(fcBuf := c.fcBuf + [c.todo[0]], todo := c.todo[1..]);
    assert c.todo == [c.todo[0]] + c.todo[1..];
    assert Elements(c.fcBuf + [c.todo[0]]) + Elements(c.todo[1..]) == Elements(c.fcBuf) + Elements(c.todo);
  }

  /** CloneVersionTo. Without a source row it fails, and the transaction is rolled back. */
  method CloneVersionTo(store: Store, src: Version, dst: Version, message: string) returns (ok: bool)
    requires Ok(store.T())
    modifies store
    ensures ok <==> src in old(store.versions)
    ensures Ok(store.T())
    ensures Abs(store.T()) == if ok then Cloned(old(Abs(store.T())), src, dst, message) else old(Abs(store.T()))
  {
    if src !in store.versions {
      return false;
    }
    ghost var a := Abs(store.T());
    var _ := store.DeleteFiles(WholeVersion(dst), false);
    CopyVersion(store, src, dst);
    var row := store.versions[src];
    store.SaveDatasetVersion(dst, VersionRow(row.size, row.fileCount, false, true, message));
    return true;
  }
}
