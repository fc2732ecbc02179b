/** Cutting an upload into chunks: full reads over a source that reads short, hashing of
    zero-padded buffers, and what reads back in the end. */
module Uploads {
  import opened ChunkedFiles
  import opened Options
  import opened PathCodec
  import opened Snapshots

  const CHUNK_VERSION := 2

  // ---- Sources

  datatype Error = NoError | EOF | Failed

  /** A reader as Go knows it: it may read short, report the end with the last bytes or after
      them, or fail. With room in the buffer it reads something unless it is at the end. */
  class Source {
    var left: seq<Byte>

    constructor (data: seq<Byte>)
      ensures left == data
    {
      left := data;
    }

    method Read(p: array<Byte>, start: nat) returns (n: nat, err: Error)
      requires start < p.Length
      modifies this`left, p
      ensures n <= |old(left)| && left == old(left)[n..] && start + n <= p.Length
      ensures p[..] == old(p[..start]) + old(left)[..n] + old(p[start + n..])
      ensures err == EOF ==> left == []
      ensures err == NoError ==> n > 0
    {
      if left == [] {
        n := 0;
        err := EOF;
      } else {
        n :| 0 < n <= |left| && start + n <= p.Length;
        forall i | start <= i < start + n {
          p[i] := left[i - start];
        }
        left := left[n..];
        err := NoError;
        if * {
          err := if left == [] then EOF else NoError;
        }
      }
      if * {
        err := Failed;
      }
    }
  }

  class PreciseReader {
    const rd: Source

    constructor (rd: Source)
      ensures this.rd == rd
    {
      this.rd := rd;
    }

    /** Fills the whole buffer, or reads all there is and reports the end. */
    method Read(p: array<Byte>) returns (n: nat, err: Error)
      requires p.Length > 0
      modifies rd`left, p
      ensures err == Failed ==> n == 0
      ensures err != Failed ==>
                && n == Min(p.Length, |old(rd.left)|) && rd.left == old(rd.left)[n..]
                && p[..] == old(rd.left)[..n] + old(p[n..])
                && (err == EOF <==> n < p.Length)
    {
      var pos, remain := 0, p.Length;
      while true
        invariant pos + remain == p.Length && remain > 0
        invariant pos <= |old(rd.left)| && rd.left == old(rd.left)[pos..]
        invariant p[..] == old(rd.left)[..pos] + old(p[pos..])
        decreases remain
      {
        ghost var before := p[..];
        var read;
        read, err := rd.Read(p, pos);
        if err == Failed {
          return 0, err;
        }
        MoreRead(old(rd.left), old(p[..]), pos, read, before, p[..]);
        pos := pos + read;
        remain := remain - read;
        if remain == 0 {
          return pos, NoError;
        }
        if err == EOF {
          return pos, err;
        }
      }
    }
  }

  lemma MoreRead(all: seq<Byte>, buf: seq<Byte>, pos: nat, read: nat, before: seq<Byte>, after: seq<Byte>)
    requires pos + read <= |all| && pos + read <= |buf| && before == all[..pos] + buf[pos..]
    requires after == before[..pos] + all[pos..][..read] + before[pos + read..]
    ensures after == all[..pos + read] + buf[pos + read..]
    ensures all[pos..][read..] == all[pos + read..]
  {
  }

  // ---- Hashes and where chunks are kept

  ghost predicate Collide(calcHash: seq<Byte> -> string, b: seq<Byte>, c: seq<Byte>) {
    calcHash(b) == calcHash(c)
  }

  /** What the code takes CalcHash to be: injective, with hashes long enough and slash-free. */
  ghost predicate IsHash(calcHash: seq<Byte> -> string) {
    && (forall b :: |calcHash(b)| >= MinLength(CHUNK_VERSION) && '/' !in calcHash(b))
    && (forall b, c :: Collide(calcHash, b, c) ==> b == c)
  }

  ghost function PathOf(dataDir: string, calcHash: seq<Byte> -> string, b: seq<Byte>): string
    requires IsHash(calcHash)
  {
    GetHashedFilename(dataDir, calcHash(b), CHUNK_VERSION)
  }

  lemma PathOfInjective(dataDir: string, calcHash: seq<Byte> -> string, b: seq<Byte>, c: seq<Byte>)
    requires IsHash(calcHash) && PathOf(dataDir, calcHash, b) == PathOf(dataDir, calcHash, c)
    ensures b == c
  {
    PathsAreDistinct(dataDir, calcHash(b), CHUNK_VERSION, calcHash(c), CHUNK_VERSION);
    assert Collide(calcHash, b, c);
  }

  function Zeros(n: nat): seq<Byte> {
    seq(n, _ => 0)
  }

  /** The buffer of size `size` that `b` was read into. */
  function Pad(b: seq<Byte>, size: nat): seq<Byte> {
    if |b| <= size then b + Zeros(size - |b|) else b
  }

  /** A chunk that does not fill the buffer has zeros behind it. */
  lemma PadIsZeroFilled(c: seq<Byte>, size: nat)
    requires |c| <= size
    ensures |Pad(c, size)| == size && Pad(c, size)[..|c|] == c
    ensures forall i | |c| <= i < size :: Pad(c, size)[i] == 0
  {
  }

  /** What is kept under the hash of `b` is `b`, or `b` without some trailing zeros. */
  ghost predicate Sound(disk: Disk, dataDir: string, calcHash: seq<Byte> -> string, size: nat)
    requires IsHash(calcHash)
  {
    forall b :: PathOf(dataDir, calcHash, b) in disk ==>
      Pad(disk[PathOf(dataDir, calcHash, b)], size) == b || disk[PathOf(dataDir, calcHash, b)] == b
  }

  class ChunkStore {
    var disk: Disk
    const dataDir: string
    const calcHash: seq<Byte> -> string

    constructor (disk: Disk, dataDir: string, calcHash: seq<Byte> -> string)
      ensures this.disk == disk && this.dataDir == dataDir && this.calcHash == calcHash
    {
      this.disk, this.dataDir, this.calcHash := disk, dataDir, calcHash;
    }

    /** CheckChunk without masters. */
    method CheckChunk(hash: string) returns (size: nat, found: bool)
      requires |hash| >= MinLength(CHUNK_VERSION)
      ensures found <==> GetHashedFilename(dataDir, hash, CHUNK_VERSION) in disk
      ensures size == if found then |disk[GetHashedFilename(dataDir, hash, CHUNK_VERSION)]| else 0
    {
      var path := GetHashedFilename(dataDir, hash, CHUNK_VERSION);
      if path in disk {
        return |disk[path]|, true;
      }
      return 0, false;
    }

    method SaveChunk(hash: string, data: seq<Byte>)
      requires |hash| >= MinLength(CHUNK_VERSION)
      modifies this`disk
      ensures disk == old(disk)[GetHashedFilename(dataDir, hash, CHUNK_VERSION) := data]
    {
      disk := disk[GetHashedFilename(dataDir, hash, CHUNK_VERSION) := data];
    }

    /** Both sides of an upload: a chunk that is there with the right size is not sent again.
        `data` is the buffer that was hashed, its first `read` bytes are the chunk. */
    method CheckAndSave(data: seq<Byte>, read: nat, ghost size: nat) returns (hash: string)
      requires IsHash(calcHash) && Sound(disk, dataDir, calcHash, size)
      requires read <= |data| && (read == |data| || data == Pad(data[..read], size))
      modifies this`disk
      ensures hash == calcHash(data)
      ensures disk == old(disk)[PathOf(dataDir, calcHash, data) := data[..read]]
      ensures Sound(disk, dataDir, calcHash, size)
    {
      hash := calcHash(data);
      var stored, found := CheckChunk(hash);
      if found && stored == read {
        SameSizeIsSame(disk[PathOf(dataDir, calcHash, data)], data, read, size);
        assert disk == disk[PathOf(dataDir, calcHash, data) := data[..read]];
      } else {
        SaveChunk(hash, data[..read]);
      }
      PutKeepsSound(old(disk), dataDir, calcHash, size, data, read);
    }
  }

  lemma SameSizeIsSame(kept: seq<Byte>, data: seq<Byte>, read: nat, size: nat)
    requires Pad(kept, size) == data || kept == data
    requires read <= |data| && |kept| == read
    ensures kept == data[..read]
  {
  }

  lemma PutKeepsSound(disk: Disk, dataDir: string, calcHash: seq<Byte> -> string, size: nat, data: seq<Byte>, read: nat)
    requires IsHash(calcHash) && Sound(disk, dataDir, calcHash, size)
    requires read <= |data| && (read == |data| || data == Pad(data[..read], size))
    ensures Sound(disk[PathOf(dataDir, calcHash, data) := data[..read]], dataDir, calcHash, size)
  {
    var path := PathOf(dataDir, calcHash, data);
    var disk' := disk[path := data[..read]];
    forall b | PathOf(dataDir, calcHash, b) in disk'
      ensures Pad(disk'[PathOf(dataDir, calcHash, b)], size) == b || disk'[PathOf(dataDir, calcHash, b)] == b
    {
      if PathOf(dataDir, calcHash, b) == path {
        PathOfInjective(dataDir, calcHash, b, data);
      }
    }
  }

  // ---- The chunks of an upload

  /** Full chunks, then a last one that is never full and may be empty. */
  ghost function Cut(body: seq<Byte>, size: nat): seq<seq<Byte>>
    requires size > 0
  {
    if |body| < size then [body] else [body[..size]] + Cut(body[size..], size)
  }

  /** The chunks behind the first one. */
  ghost function CutRest(body: seq<Byte>, size: nat): seq<seq<Byte>>
    requires size > 0
  {
    if |body| < size then [] else Cut(body[size..], size)
  }

  ghost function Concat(cs: seq<seq<Byte>>): seq<Byte> {
    if cs == [] then [] else cs[0] + Concat(cs[1..])
  }

  /** One chunk more than full ones fit, all full but the last, and nothing lost. */
  lemma {:induction false} CutIsWhole(body: seq<Byte>, size: nat)
    requires size > 0
    ensures var cs := Cut(body, size); var n := |cs| - 1;
            && n == |body| / size && Concat(cs) == body
            && (forall i | 0 <= i < n :: |cs[i]| == size)
            && |cs[n]| == |body| % size
    decreases |body|
  {
    if |body| >= size {
      CutIsWhole(body[size..], size);
      OneDivisionMore(|body|, size);
      assert ([body[..size]] + Cut(body[size..], size))[1..] == Cut(body[size..], size);
    } else {
      assert [body][1..] == [];
    }
  }

  lemma OneDivisionMore(n: nat, size: nat)
    requires 0 < size <= n
    ensures n / size == (n - size) / size + 1 && n % size == (n - size) % size
  {
    var d := n / size - (n - size) / size - 1;
    assert size * d == (n - size) % size - n % size by {
      assert size * d == size * (n / size) - size * ((n - size) / size) - size;
    }
    if d > 0 {
      Multiple(size, d);
    } else if d < 0 {
      assert size * d == -(size * -d);
      Multiple(size, -d);
    }
  }

  lemma {:induction false} Multiple(size: nat, d: nat)
    requires d > 0
    ensures size * d >= size
  {
    if d > 1 {
      Multiple(size, d - 1);
      assert size * d == size * (d - 1) + size;
    }
  }

  ghost function Recorded(calcHash: seq<Byte> -> string, cs: seq<seq<Byte>>, size: nat): seq<HashRef> {
    seq(|cs|, i requires 0 <= i < |cs| => HashRef(calcHash(Pad(cs[i], size)), |cs[i]|, CHUNK_VERSION))
  }

  /** Of each chunk the hash of its whole buffer is recorded, zeros included, with the number of bytes
      that were read into it, at layout 2. */
  lemma RecordedIs(calcHash: seq<Byte> -> string, cs: seq<seq<Byte>>, size: nat, i: nat, buf: seq<Byte>)
    requires i < |cs| && |cs[i]| <= size == |buf| && buf[..|cs[i]|] == cs[i]
    requires forall n | |cs[i]| <= n < size :: buf[n] == 0
    ensures |Recorded(calcHash, cs, size)| == |cs|
    ensures Recorded(calcHash, cs, size)[i] == HashRef(calcHash(buf), |cs[i]|, 2)
  {
    PadIsZeroFilled(cs[i], size);
    assert buf == Pad(cs[i], size);
  }

  /** Each chunk under the path of its padded buffer, in turn. */
  ghost function PutAll(disk: Disk, dataDir: string, calcHash: seq<Byte> -> string, cs: seq<seq<Byte>>, size: nat): Disk
    requires IsHash(calcHash)
  {
    if cs == [] then disk
    else
      var n := |cs| - 1;
      PutAll(disk, dataDir, calcHash, cs[..n], size)[PathOf(dataDir, calcHash, Pad(cs[n], size)) := cs[n]]
  }

  /** The chunks `done` are recorded in `hashes` and kept; `rest` are to come. */
  ghost predicate Reached(disk: Disk, disk': Disk, dataDir: string, calcHash: seq<Byte> -> string, size: nat,
                          cs: seq<seq<Byte>>, done: seq<seq<Byte>>, rest: seq<seq<Byte>>, hashes: seq<HashRef>)
    requires IsHash(calcHash)
  {
    && cs == done + rest
    && hashes == Recorded(calcHash, done, size)
    && disk' == PutAll(disk, dataDir, calcHash, done, size)
  }

  lemma ReachOne(disk: Disk, disk0: Disk, disk': Disk, dataDir: string, calcHash: seq<Byte> -> string, size: nat,
                 cs: seq<seq<Byte>>, done: seq<seq<Byte>>, c: seq<Byte>, rest: seq<seq<Byte>>, hashes: seq<HashRef>)
    requires IsHash(calcHash) && Reached(disk, disk0, dataDir, calcHash, size, cs, done, [c] + rest, hashes)
    requires disk' == disk0[PathOf(dataDir, calcHash, Pad(c, size)) := c]
    ensures Reached(disk, disk', dataDir, calcHash, size, cs, done + [c], rest,
                    hashes + [HashRef(calcHash(Pad(c, size)), |c|, CHUNK_VERSION)])
  {
    OneRecorded(disk, dataDir, calcHash, done, c, size);
    assert done + ([c] + rest) == (done + [c]) + rest;
  }

  lemma ReachedAll(disk: Disk, disk': Disk, dataDir: string, calcHash: seq<Byte> -> string, size: nat,
                   cs: seq<seq<Byte>>, done: seq<seq<Byte>>, rest: seq<seq<Byte>>, hashes: seq<HashRef>)
    requires IsHash(calcHash) && Reached(disk, disk', dataDir, calcHash, size, cs, done, rest, hashes)
    ensures |done| <= |cs| && done == cs[..|done|] && (rest == [] ==> done == cs)
  {
  }

  /** The body of the loop of readAndSaveFile. */
  method SaveNextChunk(reader: PreciseReader, store: ChunkStore, chunkSize: nat, hashes: seq<HashRef>,
                       ghost disk: Disk, ghost cs: seq<seq<Byte>>, ghost done: seq<seq<Byte>>)
    returns (read: nat, hashes': seq<HashRef>, err: Error, ghost done': seq<seq<Byte>>)
    requires chunkSize > 0 && IsHash(store.calcHash) && Sound(store.disk, store.dataDir, store.calcHash, chunkSize)
    requires Reached(disk, store.disk, store.dataDir, store.calcHash, chunkSize, cs, done,
                     Cut(reader.rd.left, chunkSize), hashes)
    modifies reader.rd`left, store`disk
    ensures Sound(store.disk, store.dataDir, store.calcHash, chunkSize)
    ensures err == Failed ==> store.disk == old(store.disk) && hashes' == hashes && done' == done
    ensures err != Failed ==> |old(reader.rd.left)| == read + |reader.rd.left| && |done'| > 0
    ensures err == NoError ==> read > 0
    ensures err == NoError ==>
              Reached(disk, store.disk, store.dataDir, store.calcHash, chunkSize, cs, done',
                      Cut(reader.rd.left, chunkSize), hashes')
    ensures err == EOF ==> |reader.rd.left| == 0
    ensures err == EOF ==> Reached(disk, store.disk, store.dataDir, store.calcHash, chunkSize, cs, done', [], hashes')
  {
    var buf := new Byte[chunkSize](_ => 0);
    assert buf[..] == Zeros(chunkSize);
    ghost var left, disk0 := reader.rd.left, store.disk;
    read, err := reader.Read(buf);
    hashes', done' := hashes, done;
    if err != Failed {
      NextOfCut(left, chunkSize, read, buf[..]);
      var hash := store.CheckAndSave(buf[..], read, chunkSize);
      ReachOne(disk, disk0, store.disk, store.dataDir, store.calcHash, chunkSize, cs, done, buf[..read],
               CutRest(left, chunkSize), hashes);
      hashes', done' := hashes + [HashRef(hash, read, CHUNK_VERSION)], done + [buf[..read]];
    }
  }

  /** The loop of readAndSaveFile, up to the end of the body or a failing read. */
  method SaveChunks(reader: PreciseReader, store: ChunkStore, chunkSize: nat, lookup: bool)
    returns (hashes: seq<HashRef>, total: nat, err: bool, errRead: Error, ghost done: seq<seq<Byte>>)
    requires chunkSize > 0 && IsHash(store.calcHash) && Sound(store.disk, store.dataDir, store.calcHash, chunkSize)
    modifies reader.rd`left, store`disk
    ensures Sound(store.disk, store.dataDir, store.calcHash, chunkSize)
    ensures errRead != NoError && (errRead == EOF ==> |done| > 0 && total == |old(reader.rd.left)|)
    ensures err <==> lookup && |done| == 0
    ensures exists rest :: (errRead == EOF ==> rest == []) &&
              Reached(old(store.disk), store.disk, store.dataDir, store.calcHash, chunkSize,
                      Cut(old(reader.rd.left), chunkSize), done, rest, hashes)
  {
    hashes, total, err, done := [], 0, lookup, [];
    ghost var disk, cs := store.disk, Cut(reader.rd.left, chunkSize);
    ghost var rest := cs;
    while true
      invariant Sound(store.disk, store.dataDir, store.calcHash, chunkSize)
      invariant rest == Cut(reader.rd.left, chunkSize)
      invariant Reached(disk, store.disk, store.dataDir, store.calcHash, chunkSize, cs, done, rest, hashes)
      invariant total + |reader.rd.left| == |old(reader.rd.left)|
      invariant err <==> lookup && |done| == 0
      decreases |reader.rd.left|
    {
      var read;
      read, hashes, errRead, done := SaveNextChunk(reader, store, chunkSize, hashes, disk, cs, done);
      if errRead == Failed {
        return;
      }
      total := total + read;
      err := false;
      rest := if errRead == EOF then [] else Cut(reader.rd.left, chunkSize);
      if errRead == EOF {
        return;
      }
    }
  }

  /** readAndSaveFile from the chunking on: the whole body is cut, recorded and kept, unless the
      body fails to read; then the first `n` chunks have been kept. The error of the caller's
      look-up, `lookup`, is what a failing read returns until a chunk has been checked; after
      that a failing read returns no file and no error. */
  method ReadAndSaveFile(path: string, body: Source, store: ChunkStore, chunkSize: nat, lookup: bool)
    returns (f: Option<HashedFile>, err: bool, ghost n: nat)
    requires chunkSize > 0 && IsHash(store.calcHash) && Sound(store.disk, store.dataDir, store.calcHash, chunkSize)
    modifies body`left, store`disk
    ensures Sound(store.disk, store.dataDir, store.calcHash, chunkSize)
    ensures n <= |Cut(old(body.left), chunkSize)|
    ensures store.disk ==
              PutAll(old(store.disk), store.dataDir, store.calcHash, Cut(old(body.left), chunkSize)[..n], chunkSize)
    ensures f.Some? ==> !err && n == |Cut(old(body.left), chunkSize)|
    ensures f.Some? ==>
              f.value ==
                HashedFile(path, |old(body.left)|, Recorded(store.calcHash, Cut(old(body.left), chunkSize), chunkSize))
    ensures f.None? ==> (err <==> lookup && n == 0)
  {
    ghost var disk, cs := store.disk, Cut(body.left, chunkSize);
    var reader := new PreciseReader(body);
    ghost var done;
    var hashes, total, errRead;
    hashes, total, err, errRead, done := SaveChunks(reader, store, chunkSize, lookup);
    ghost var rest :| (errRead == EOF ==> rest == []) &&
      Reached(disk, store.disk, store.dataDir, store.calcHash, chunkSize, cs, done, rest, hashes);
    ReachedAll(disk, store.disk, store.dataDir, store.calcHash, chunkSize, cs, done, rest, hashes);
    n := |done|;
    if errRead == EOF {
      return Some(HashedFile(path, total, hashes)), false, n;
    }
    return None, err, n;
  }

  lemma NextOfCut(left: seq<Byte>, size: nat, read: nat, buf: seq<Byte>)
    requires size > 0 && read == Min(size, |left|) && buf == left[..read] + Zeros(size)[read..]
    ensures |buf| == size && buf[..read] == left[..read] && buf == Pad(left[..read], size)
    ensures Cut(left, size) == [left[..read]] + CutRest(left, size)
    ensures CutRest(left, size) == if read < size then [] else Cut(left[read..], size)
  {
    assert Zeros(size)[read..] == Zeros(size - read);
    if read < size {
      assert left[..read] == left;
    }
  }

  lemma OneRecorded(disk: Disk, dataDir: string, calcHash: seq<Byte> -> string,
                    done: seq<seq<Byte>>, c: seq<Byte>, size: nat)
    requires IsHash(calcHash)
    ensures Recorded(calcHash, done + [c], size) ==
            Recorded(calcHash, done, size) + [HashRef(calcHash(Pad(c, size)), |c|, CHUNK_VERSION)]
    ensures PutAll(disk, dataDir, calcHash, done + [c], size) ==
            PutAll(disk, dataDir, calcHash, done, size)[PathOf(dataDir, calcHash, Pad(c, size)) := c]
  {
    assert (done + [c])[..|done|] == done;
  }

  // ---- What reads back

  /** What a reader finds under the paths of the chunks. */
  ghost function Contents(disk: Disk, chunks: seq<Chunk>): seq<seq<Byte>>
    requires forall c | c in chunks :: c.path in disk
  {
    seq(|chunks|, i requires 0 <= i < |chunks| => assert chunks[i] in chunks; disk[chunks[i].path])
  }

  lemma {:induction false} RestIsConcat(disk: Disk, chunks: seq<Chunk>)
    requires forall c | c in chunks :: c.path in disk
    ensures Rest(disk, chunks, 0, 0) == Concat(Contents(disk, chunks))
  {
    if chunks != [] {
      assert chunks[0] in chunks;
      RestShift(disk, chunks, 0, 0);
      RestIsConcat(disk, chunks[1..]);
      assert Contents(disk, chunks)[1..] == Contents(disk, chunks[1..]);
    }
  }

  // ---- Pushing

  /** ChunkedReader.NextChunk: whatever one read gives, unpadded. */
  method NextChunk(file: Source, chunkSize: nat) returns (data: seq<Byte>, err: Error)
    requires chunkSize > 0
    modifies file`left
    ensures |data| <= |old(file.left)| && data == old(file.left)[..|data|] && file.left == old(file.left)[|data|..]
    ensures err == NoError <==> data != []
    ensures err == EOF ==> old(file.left) == []
  {
    var buf := new Byte[chunkSize](_ => 0);
    var n, e := file.Read(buf, 0);
    assert buf[..n] == old(file.left)[..n];
    if n > 0 {
      return buf[..n], NoError;
    }
    return [], if e == NoError then EOF else e;
  }

  /** The walked file of a push, its chunks uploaded one by one. Whatever short reads the file
      makes, the recorded chunks are the file, and each is kept as it was hashed. */
  method PushFile(path: string, file: Source, store: ChunkStore, chunkSize: nat, ghost size: nat)
    returns (f: Option<HashedFile>, ghost cs: seq<seq<Byte>>)
    requires chunkSize > 0 && IsHash(store.calcHash) && Sound(store.disk, store.dataDir, store.calcHash, size)
    modifies file`left, store`disk
    ensures Sound(store.disk, store.dataDir, store.calcHash, size)
    ensures f.Some? ==>
              Concat(cs) == old(file.left) &&
              f.value == HashedFile(path, |old(file.left)|, RecordedExactly(store.calcHash, cs))
    ensures f.Some? ==> forall c | c in cs :: Has(store.disk, store.dataDir, store.calcHash, c)
  {
    var hashes: seq<HashRef> := [];
    var total := 0;
    cs := [];
    while true
      invariant Sound(store.disk, store.dataDir, store.calcHash, size)
      invariant Concat(cs) + file.left == old(file.left) && total == |Concat(cs)|
      invariant hashes == RecordedExactly(store.calcHash, cs)
      invariant forall c | c in cs :: Has(store.disk, store.dataDir, store.calcHash, c)
      decreases |file.left|
    {
      var data, err := NextChunk(file, chunkSize);
      if err == Failed {
        return None, cs;
      }
      if data == [] {
        return Some(HashedFile(path, total, hashes)), cs;
      }
      ghost var disk := store.disk;
      assert data[..|data|] == data;
      var hash := store.CheckAndSave(data, |data|, size);
      KeepsTheRest(disk, store.dataDir, store.calcHash, cs, data);
      ConcatAppend(cs, data);
      total := total + |data|;
      OneMoreExactly(store.calcHash, cs, data);
      hashes := hashes + [HashRef(hash, |data|, CHUNK_VERSION)];
      cs := cs + [data];
    }
  }

  lemma OneMoreExactly(calcHash: seq<Byte> -> string, cs: seq<seq<Byte>>, c: seq<Byte>)
    ensures RecordedExactly(calcHash, cs + [c]) ==
            RecordedExactly(calcHash, cs) + [HashRef(calcHash(c), |c|, CHUNK_VERSION)]
  {
  }

  ghost function RecordedExactly(calcHash: seq<Byte> -> string, cs: seq<seq<Byte>>): seq<HashRef> {
    seq(|cs|, i requires 0 <= i < |cs| => HashRef(calcHash(cs[i]), |cs[i]|, CHUNK_VERSION))
  }

  /** A pushed chunk is hashed as it is. */
  lemma RecordedExactlyIs(calcHash: seq<Byte> -> string, cs: seq<seq<Byte>>, i: nat)
    requires i < |cs|
    ensures |RecordedExactly(calcHash, cs)| == |cs|
    ensures RecordedExactly(calcHash, cs)[i] == HashRef(calcHash(cs[i]), |cs[i]|, 2)
  {
  }

  ghost predicate Has(disk: Disk, dataDir: string, calcHash: seq<Byte> -> string, c: seq<Byte>)
    requires IsHash(calcHash)
  {
    PathOf(dataDir, calcHash, c) in disk && disk[PathOf(dataDir, calcHash, c)] == c
  }

  lemma KeepsTheRest(disk: Disk, dataDir: string, calcHash: seq<Byte> -> string, cs: seq<seq<Byte>>, data: seq<Byte>)
    requires IsHash(calcHash) && forall c | c in cs :: Has(disk, dataDir, calcHash, c)
    ensures forall c | c in cs + [data] :: Has(disk[PathOf(dataDir, calcHash, data) := data], dataDir, calcHash, c)
  {
    forall c | c in cs + [data] ensures Has(disk[PathOf(dataDir, calcHash, data) := data], dataDir, calcHash, c) {
      if PathOf(dataDir, calcHash, c) == PathOf(dataDir, calcHash, data) {
        PathOfInjective(dataDir, calcHash, c, data);
      }
    }
  }

  lemma {:induction false} ConcatAppend(cs: seq<seq<Byte>>, c: seq<Byte>)
    ensures Concat(cs + [c]) == Concat(cs) + c
  {
    if cs == [] {
      assert [c][1..] == [];
    } else {
      ConcatAppend(cs[1..], c);
      assert (cs + [c])[1..] == cs[1..] + [c];
    }
  }

  /** So a pushed file always reads back as it was. */
  lemma PushReadsBack(disk: Disk, dataDir: string, calcHash: seq<Byte> -> string,
                      cs: seq<seq<Byte>>, chunks: seq<Chunk>)
    requires IsHash(calcHash) && forall c | c in cs :: Has(disk, dataDir, calcHash, c)
    requires |chunks| == |cs| && forall i | 0 <= i < |cs| ::
               chunks[i] == Chunk(PathOf(dataDir, calcHash, cs[i]), |cs[i]|)
    ensures Rest(disk, chunks, 0, 0) == Concat(cs)
  {
    forall i | 0 <= i < |cs| ensures chunks[i].path in disk && disk[chunks[i].path] == cs[i] {
      assert cs[i] in cs;
    }
    RestIsConcat(disk, chunks);
    assert Contents(disk, chunks) == cs;
  }
}
