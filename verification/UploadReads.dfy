/** What an upload leaves to be read: of itself, and of the files that were there before. */
module UploadReads {
  import opened ChunkedFiles
  import Options
  import PathCodec
  import opened Snapshots
  import opened Uploads

  // ---- The uploaded file

  ghost function KeptAs(dataDir: string, calcHash: seq<Byte> -> string, cs: seq<seq<Byte>>, size: nat): seq<Chunk>
    requires IsHash(calcHash)
  {
    seq(|cs|, i requires 0 <= i < |cs| => Chunk(PathOf(dataDir, calcHash, Pad(cs[i], size)), |cs[i]|))
  }

  ghost function KeysOf(dataDir: string, calcHash: seq<Byte> -> string, cs: seq<seq<Byte>>, size: nat): seq<string>
    requires IsHash(calcHash)
  {
    seq(|cs|, i requires 0 <= i < |cs| => PathOf(dataDir, calcHash, Pad(cs[i], size)))
  }

  ghost function PutEach(disk: Disk, keys: seq<string>, cs: seq<seq<Byte>>): Disk
    requires |keys| == |cs|
  {
    if cs == [] then disk else PutEach(disk, keys[..|cs| - 1], cs[..|cs| - 1])[keys[|cs| - 1] := cs[|cs| - 1]]
  }

  lemma {:induction false} PutAllPutsEach(disk: Disk, dataDir: string, calcHash: seq<Byte> -> string,
                                          cs: seq<seq<Byte>>, size: nat, keys: seq<string>)
    requires IsHash(calcHash) && |keys| == |cs|
    requires forall i | 0 <= i < |cs| :: keys[i] == PathOf(dataDir, calcHash, Pad(cs[i], size))
    ensures PutAll(disk, dataDir, calcHash, cs, size) == PutEach(disk, keys, cs)
  {
    if cs != [] {
      PutAllPutsEach(disk, dataDir, calcHash, cs[..|cs| - 1], size, keys[..|cs| - 1]);
    }
  }

  /** Under a key lies the last chunk that was put there. */
  lemma {:induction false} LastOneStays(disk: Disk, keys: seq<string>, cs: seq<seq<Byte>>, i: nat) returns (j: nat)
    requires |keys| == |cs| && i < |cs|
    ensures i <= j < |cs| && keys[j] == keys[i] && forall k | j < k < |cs| :: keys[k] != keys[i]
    ensures keys[i] in PutEach(disk, keys, cs) && PutEach(disk, keys, cs)[keys[i]] == cs[j]
    decreases |cs|
  {
    var n := |cs| - 1;
    if keys[n] == keys[i] {
      j := n;
    } else {
      j := LastOneStays(disk, keys[..n], cs[..n], i);
    }
  }

  /** The last chunk of the body, padded, is none of its full chunks. */
  ghost predicate TailTellsApart(body: seq<Byte>, size: nat)
    requires size > 0
  {
    var cs := Cut(body, size);
    forall i | 0 <= i < |cs| - 1 :: cs[i] != Pad(cs[|cs| - 1], size)
  }

  /** The last chunk of all that were read into buffers like this one lies, without the zeros behind
      it, under the hash of the buffer, cut after two and after four characters; and what is not
      the path of a chunk is as it was. */
  lemma PutAllHas(disk: Disk, dataDir: string, calcHash: seq<Byte> -> string, cs: seq<seq<Byte>>, size: nat, i: nat,
                  buf: seq<Byte>)
    requires IsHash(calcHash) && i < |cs| && |cs[i]| <= size == |buf| && buf[..|cs[i]|] == cs[i]
    requires forall n | |cs[i]| <= n < size :: buf[n] == 0
    requires forall j | i < j < |cs| :: Pad(cs[j], size) != buf
    ensures var disk', h := PutAll(disk, dataDir, calcHash, cs, size), calcHash(buf);
            |h| >= 4 &&
            var path := dataDir + "/" + h[..2] + "/" + h[2..4] + "/" + h[4..];
            path in disk' && disk'[path] == cs[i]
  {
    PadIsZeroFilled(cs[i], size);
    assert buf == Pad(cs[i], size);
    var keys := KeysOf(dataDir, calcHash, cs, size);
    PutAllPutsEach(disk, dataDir, calcHash, cs, size, keys);
    var j := LastOneStays(disk, keys, cs, i);
    PathOfInjective(dataDir, calcHash, Pad(cs[j], size), buf);
  }

  lemma PutAllKeeps(disk: Disk, dataDir: string, calcHash: seq<Byte> -> string, cs: seq<seq<Byte>>, size: nat,
                    path: string)
    requires IsHash(calcHash)
    requires forall i | 0 <= i < |cs| :: PathOf(dataDir, calcHash, Pad(cs[i], size)) != path
    ensures var disk' := PutAll(disk, dataDir, calcHash, cs, size);
            (path in disk' <==> path in disk) && (path in disk ==> disk'[path] == disk[path])
    decreases |cs|
  {
    if cs != [] {
      PutAllKeeps(disk, dataDir, calcHash, cs[..|cs| - 1], size, path);
    }
  }

  /** All chunks but the last are full. */
  ghost predicate FullButLast(cs: seq<seq<Byte>>, size: nat) {
    |cs| > 0 && |cs[|cs| - 1]| < size && forall i | 0 <= i < |cs| - 1 :: |cs[i]| == size
  }

  /** What the path of chunk `i` holds in the end. */
  ghost function Left(cs: seq<seq<Byte>>, size: nat, i: nat): seq<Byte>
    requires i < |cs|
  {
    if i < |cs| - 1 && cs[i] == Pad(cs[|cs| - 1], size) then cs[|cs| - 1] else cs[i]
  }

  lemma KeptChunk(disk: Disk, dataDir: string, calcHash: seq<Byte> -> string, cs: seq<seq<Byte>>, size: nat, i: nat)
    requires IsHash(calcHash) && FullButLast(cs, size) && i < |cs|
    ensures var disk' := PutAll(disk, dataDir, calcHash, cs, size);
            var path := PathOf(dataDir, calcHash, Pad(cs[i], size));
            path in disk' && disk'[path] == Left(cs, size, i)
  {
    var keys := KeysOf(dataDir, calcHash, cs, size);
    PutAllPutsEach(disk, dataDir, calcHash, cs, size, keys);
    var j := LastOneStays(disk, keys, cs, i);
    PathOfInjective(dataDir, calcHash, Pad(cs[j], size), Pad(cs[i], size));
    WhichOneStays(cs[i], cs[j], cs[|cs| - 1], size, i == |cs| - 1, j == |cs| - 1);
  }

  /** Of chunks with one padding the last one put stays: chunk `c` of the body if `c` is full and
      the tail is not its padding, else the tail. */
  lemma WhichOneStays(c: seq<Byte>, stays: seq<Byte>, tail: seq<Byte>, size: nat, isTail: bool, tailStays: bool)
    requires if isTail then c == tail && tailStays else |c| == size
    requires if tailStays then stays == tail else |stays| == size
    requires Pad(stays, size) == Pad(c, size) && (Pad(tail, size) == Pad(c, size) ==> tailStays)
    ensures stays == if !isTail && c == Pad(tail, size) then tail else c
  {
    if !isTail {
      PadFull(c, size);
    }
    if !tailStays {
      PadFull(stays, size);
    }
  }

  lemma PadFull(c: seq<Byte>, size: nat)
    requires |c| == size
    ensures Pad(c, size) == c
  {
    assert c + Zeros(0) == c;
  }

  lemma {:induction false} ShorterIsOther(xs: seq<seq<Byte>>, ys: seq<seq<Byte>>)
    requires |xs| == |ys| && forall i | 0 <= i < |xs| :: |xs[i]| <= |ys[i]|
    ensures |Concat(xs)| <= |Concat(ys)|
    ensures (exists i :: 0 <= i < |xs| && |xs[i]| < |ys[i]|) ==> |Concat(xs)| < |Concat(ys)|
  {
    if xs != [] {
      ShorterIsOther(xs[1..], ys[1..]);
      if i :| 0 <= i < |xs| && |xs[i]| < |ys[i]| {
        if i > 0 {
          assert |xs[1..][i - 1]| < |ys[1..][i - 1]|;
        }
      }
    }
  }

  lemma KeptContents(disk: Disk, dataDir: string, calcHash: seq<Byte> -> string, cs: seq<seq<Byte>>, size: nat)
    returns (contents: seq<seq<Byte>>)
    requires IsHash(calcHash) && FullButLast(cs, size)
    ensures |contents| == |cs| && forall i | 0 <= i < |cs| :: contents[i] == Left(cs, size, i)
    ensures Rest(PutAll(disk, dataDir, calcHash, cs, size), KeptAs(dataDir, calcHash, cs, size), 0, 0) ==
              Concat(contents)
  {
    var disk', chunks := PutAll(disk, dataDir, calcHash, cs, size), KeptAs(dataDir, calcHash, cs, size);
    forall i | 0 <= i < |chunks| ensures chunks[i].path in disk' && disk'[chunks[i].path] == Left(cs, size, i) {
      KeptChunk(disk, dataDir, calcHash, cs, size, i);
    }
    RestIsConcat(disk', chunks);
    contents := Contents(disk', chunks);
  }

  /** An upload reads back as it was sent exactly if no full chunk of it is its last chunk with
      zeros behind it; what was stored before does not matter. */
  lemma UploadReadsBack(disk: Disk, dataDir: string, calcHash: seq<Byte> -> string, body: seq<Byte>, size: nat)
    requires IsHash(calcHash) && size > 0
    ensures var cs := Cut(body, size);
            Rest(PutAll(disk, dataDir, calcHash, cs, size), KeptAs(dataDir, calcHash, cs, size), 0, 0) == body <==>
            TailTellsApart(body, size)
  {
    var cs := Cut(body, size);
    CutIsWhole(body, size);
    var contents := KeptContents(disk, dataDir, calcHash, cs, size);
    SameOrShorter(contents, cs, size);
  }

  lemma SameOrShorter(contents: seq<seq<Byte>>, cs: seq<seq<Byte>>, size: nat)
    requires FullButLast(cs, size)
    requires |contents| == |cs| && forall i | 0 <= i < |cs| :: contents[i] == Left(cs, size, i)
    ensures Concat(contents) == Concat(cs) <==> forall i | 0 <= i < |cs| - 1 :: cs[i] != Pad(cs[|cs| - 1], size)
  {
    if i :| 0 <= i < |cs| - 1 && cs[i] == Pad(cs[|cs| - 1], size) {
      assert |contents[i]| < |cs[i]|;
      ShorterIsOther(contents, cs);
    } else {
      assert contents == cs;
    }
  }

  /** The chunk list that GetFS makes of recorded hashes. */
  method ChunksOfHashes(dataDir: string, calcHash: seq<Byte> -> string, hashes: seq<HashRef>,
                        ghost cs: seq<seq<Byte>>, ghost size: nat)
    returns (chunks: seq<Chunk>)
    requires IsHash(calcHash) && hashes == Recorded(calcHash, cs, size)
    ensures chunks == KeptAs(dataDir, calcHash, cs, size)
  {
    chunks := [];
    for i := 0 to |hashes|
      invariant chunks == KeptAs(dataDir, calcHash, cs, size)[..i]
    {
      var path := PathCodec.GetHashedFilename(dataDir, hashes[i].hash, hashes[i].layout);
      chunks := chunks + [Chunk(path, hashes[i].size)];
    }
  }

  /** Bytes in, bytes out: upload a body and read the recorded file to its end. */
  method UploadAndReadBack(path: string, body: Source, store: ChunkStore, chunkSize: nat, bufSize: nat)
    returns (f: Options.Option<HashedFile>, out: seq<Byte>)
    requires chunkSize > 0 && bufSize > 0
    requires IsHash(store.calcHash) && Sound(store.disk, store.dataDir, store.calcHash, chunkSize)
    modifies body`left, store`disk
    ensures f.Some? ==> (out == old(body.left) <==> TailTellsApart(old(body.left), chunkSize))
  {
    ghost var cs, disk := Cut(body.left, chunkSize), store.disk;
    var err;
    ghost var n;
    f, err, n := ReadAndSaveFile(path, body, store, chunkSize, false);
    out := [];
    if f.Some? {
      assert cs[..n] == cs;
      UploadReadsBack(disk, store.dataDir, store.calcHash, old(body.left), chunkSize);
      var chunks := ChunksOfHashes(store.dataDir, store.calcHash, f.value.hashes, cs, chunkSize);
      var file := new ChunkedFile(store.disk, chunks, f.value.size);
      out := CopyAll(file, bufSize);
    }
  }

  /** The smallest loss: a body of one chunk of zeros does not come back. */
  lemma ZerosAreLost(disk: Disk, dataDir: string, calcHash: seq<Byte> -> string, size: nat)
    requires IsHash(calcHash) && size > 0
    ensures var cs := Cut(Zeros(size), size);
            cs == [Zeros(size), []] &&
            Rest(PutAll(disk, dataDir, calcHash, cs, size), KeptAs(dataDir, calcHash, cs, size), 0, 0) != Zeros(size)
  {
    var body := Zeros(size);
    assert body[..size] == body && body[size..] == [];
    var cs := Cut(body, size);
    assert Cut([], size) == [[]] && Pad([], size) == body;
    assert cs == [body, []];
    assert cs[0] == Pad(cs[1], size);
    UploadReadsBack(disk, dataDir, calcHash, body, size);
  }

  // ---- Files that were there before

  /** The last uploaded chunk under `path` has another length than what lies there. */
  ghost predicate Clashes(disk: Disk, keys: seq<string>, cs: seq<seq<Byte>>, path: string)
    requires |keys| == |cs| && path in disk
  {
    exists j :: 0 <= j < |cs| && LastUnder(keys, path, j) && |cs[j]| != |disk[path]|
  }

  ghost predicate LastUnder(keys: seq<string>, path: string, j: nat)
    requires j < |keys|
  {
    keys[j] == path && forall k | j < k < |keys| :: keys[k] != path
  }

  lemma ClashesAt(disk: Disk, keys: seq<string>, cs: seq<seq<Byte>>, path: string, j: nat)
    requires |keys| == |cs| && path in disk && j < |cs| && LastUnder(keys, path, j)
    ensures Clashes(disk, keys, cs, path) <==> |cs[j]| != |disk[path]|
  {
    if Clashes(disk, keys, cs, path) {
      var i :| 0 <= i < |cs| && LastUnder(keys, path, i) && |cs[i]| != |disk[path]|;
      assert i == j;
    }
  }

  lemma {:induction false} NothingUnder(disk: Disk, keys: seq<string>, cs: seq<seq<Byte>>, path: string)
    requires |keys| == |cs| && path in disk && path !in keys
    ensures path in PutEach(disk, keys, cs) && PutEach(disk, keys, cs)[path] == disk[path]
  {
    if cs != [] {
      NothingUnder(disk, keys[..|cs| - 1], cs[..|cs| - 1], path);
    }
  }

  /** A stored chunk keeps its bytes exactly if no upload clashes with it: what is kept under one
      hash differs in trailing zeros at most. */
  lemma ChunkStays(disk: Disk, dataDir: string, calcHash: seq<Byte> -> string,
                   cs: seq<seq<Byte>>, size: nat, path: string)
    requires IsHash(calcHash) && Sound(disk, dataDir, calcHash, size) && path in disk
    requires forall c | c in cs :: |c| <= size
    ensures var disk', keys := PutAll(disk, dataDir, calcHash, cs, size), KeysOf(dataDir, calcHash, cs, size);
            path in disk' && (disk'[path] == disk[path] <==> !Clashes(disk, keys, cs, path)) &&
            (disk'[path] == disk[path] <==> |disk'[path]| == |disk[path]|)
  {
    var keys := KeysOf(dataDir, calcHash, cs, size);
    PutAllPutsEach(disk, dataDir, calcHash, cs, size, keys);
    if path in keys {
      var i :| 0 <= i < |keys| && keys[i] == path;
      var j := LastOneStays(disk, keys, cs, i);
      ClashesAt(disk, keys, cs, path, j);
      assert cs[j] in cs && path == PathOf(dataDir, calcHash, Pad(cs[j], size));
      SameKeySameLength(disk[path], cs[j], size);
    } else {
      NothingUnder(disk, keys, cs, path);
    }
  }

  lemma SameKeySameLength(kept: seq<Byte>, c: seq<Byte>, size: nat)
    requires |c| <= size && (Pad(kept, size) == Pad(c, size) || kept == Pad(c, size))
    ensures kept == c <==> |kept| == |c|
  {
  }

  /** A stored file keeps its chunks at their recorded sizes exactly if an upload clashes with
      none of them; and then it reads as before. */
  lemma FileStays(disk: Disk, dataDir: string, calcHash: seq<Byte> -> string,
                  cs: seq<seq<Byte>>, size: nat, chunks: seq<Chunk>)
    requires IsHash(calcHash) && Sound(disk, dataDir, calcHash, size) && AllSized(disk, chunks)
    requires forall c | c in cs :: |c| <= size
    ensures var disk', keys := PutAll(disk, dataDir, calcHash, cs, size), KeysOf(dataDir, calcHash, cs, size);
            && (AllSized(disk', chunks) <==> forall c | c in chunks :: !Clashes(disk, keys, cs, c.path))
            && (AllSized(disk', chunks) ==> Rest(disk', chunks, 0, 0) == Rest(disk, chunks, 0, 0))
  {
    var disk' := PutAll(disk, dataDir, calcHash, cs, size);
    forall c | c in chunks
      ensures c.path in disk'
      ensures |disk'[c.path]| == c.size <==> !Clashes(disk, KeysOf(dataDir, calcHash, cs, size), cs, c.path)
      ensures |disk'[c.path]| == c.size ==> disk'[c.path] == disk[c.path]
    {
      ChunkStays(disk, dataDir, calcHash, cs, size, c.path);
    }
    if AllSized(disk', chunks) {
      RestIsConcat(disk, chunks);
      RestIsConcat(disk', chunks);
      assert Contents(disk', chunks) == Contents(disk, chunks);
    }
  }

  /** Uploading an empty file empties every stored file that is one chunk of zeros. */
  lemma EmptyUploadErasesZeros(dataDir: string, calcHash: seq<Byte> -> string, size: nat)
    requires IsHash(calcHash) && size > 0
    ensures var path := PathOf(dataDir, calcHash, Zeros(size));
            var disk: Disk := map[path := Zeros(size)];
            && Sound(disk, dataDir, calcHash, size)
            && Rest(disk, [Chunk(path, size)], 0, 0) == Zeros(size)
            && Rest(PutAll(disk, dataDir, calcHash, Cut([], size), size), [Chunk(path, size)], 0, 0) == []
  {
    var path := PathOf(dataDir, calcHash, Zeros(size));
    var disk: Disk := map[path := Zeros(size)];
    forall b | PathOf(dataDir, calcHash, b) in disk ensures disk[PathOf(dataDir, calcHash, b)] == b {
      PathOfInjective(dataDir, calcHash, b, Zeros(size));
    }
    var nothing: seq<Byte> := [];
    assert Pad(nothing, size) == Zeros(size) && Cut(nothing, size) == [nothing];
    OneRecorded(disk, dataDir, calcHash, [], nothing, size);
    assert [] + [nothing] == [nothing];
    var disk' := PutAll(disk, dataDir, calcHash, [nothing], size);
    assert disk' == disk[path := nothing];
    OneChunk(disk, path, size);
    OneChunk(disk', path, size);
  }

  lemma OneChunk(disk: Disk, path: string, size: nat)
    requires path in disk
    ensures Rest(disk, [Chunk(path, size)], 0, 0) == disk[path]
  {
    assert Rest(disk, [Chunk(path, size)], 1, 0) == [];
  }
}
