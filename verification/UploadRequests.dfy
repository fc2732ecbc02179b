/** uploadDatasetFile as a whole: the old file is deleted, the body is read and cut, and the new
    file is saved, unless the body fails to read. */
module UploadRequests {
  import Clones
  import opened Runs
  import SavePipeline
  import opened Snapshots
  import Stores
  import opened TableRows
  import opened Uploads

  /** How a request ends. Without a file and without an error the handler goes on to save a nil
      file and panics before it has written anything. */
  datatype Reply = Created(file: HashedFile) | NotEditable | ReadFailed | NilFile

  /** What is left of the store when the body fails to read. */
  ghost function FailedUpload(a: Snapshot, v: Version, path: string): Snapshot {
    if FileKey(v, path) in a.files then Purged(a, ExactPath(v, path)) else a
  }

  method UploadBody(store: Stores.Store, v: Version, path: string, body: Source, chunks: ChunkStore, chunkSize: nat)
    returns (reply: Reply, ghost n: nat)
    requires Ok(store.T()) && Clean(Abs(store.T()))
    requires chunkSize > 0 && IsHash(chunks.calcHash) && Sound(chunks.disk, chunks.dataDir, chunks.calcHash, chunkSize)
    modifies store, body`left, chunks`disk
    ensures Ok(store.T()) && Sound(chunks.disk, chunks.dataDir, chunks.calcHash, chunkSize)
    ensures reply.NotEditable? <==> !Editable(old(store.versions), v)
    ensures reply.NotEditable? ==> Abs(store.T()) == old(Abs(store.T()))
    ensures reply.Created? ==>
              reply.file ==
                HashedFile(path, |old(body.left)|, Recorded(chunks.calcHash, Cut(old(body.left), chunkSize), chunkSize))
    ensures n <= |Cut(old(body.left), chunkSize)| && (reply.Created? ==> n == |Cut(old(body.left), chunkSize)|)
    ensures chunks.disk ==
            PutAll(old(chunks.disk), chunks.dataDir, chunks.calcHash, Cut(old(body.left), chunkSize)[..n], chunkSize)
    ensures reply.NotEditable? ==> n == 0
    ensures reply.Created? ==> Abs(store.T()) == Uploaded(old(Abs(store.T())), v, reply.file)
    ensures reply.ReadFailed? || reply.NilFile? ==> Abs(store.T()) == FailedUpload(old(Abs(store.T())), v, path)
    ensures reply.ReadFailed? || reply.NilFile? ==>
              (reply.ReadFailed? <==> FileKey(v, path) !in old(store.files) && n == 0)
  {
    n := 0;
    if !Editable(store.versions, v) {
      return NotEditable, n;
    }
    ghost var a := Abs(store.T());
    var found := FileKey(v, path) in store.files;
    if found {
      Clones.PurgeKeeps(a, ExactPath(v, path));
      var _ := store.DeleteFiles(ExactPath(v, path), false);
    }
    var f, err;
    f, err, n := ReadAndSaveFile(path, body, chunks, chunkSize, !found);
    if f.None? {
      return if err then ReadFailed else NilFile, n;
    }
    SavePipeline.SaveFSToDB(store, v, [f.value]);
    reply := Created(f.value);
  }

  /** A failed upload leaves the store as it was exactly if there was no file to replace: with
      one, its deletion is committed, because the failed read returns no error. */
  lemma FailedUploadKeepsStore(a: Snapshot, v: Version, path: string)
    requires Clean(a)
    ensures FailedUpload(a, v, path) == a <==> FileKey(v, path) !in a.files
    ensures FileKey(v, path) !in FailedUpload(a, v, path).files &&
            LinksOf(FailedUpload(a, v, path), FileKey(v, path)) == {}
    ensures Clean(FailedUpload(a, v, path))
  {
    Clones.PurgeKeeps(a, ExactPath(v, path));
    if FileKey(v, path) !in a.files {
      assert forall l | l in a.links :: l.file in a.files;
    }
  }
}
