/** Random access to a file that is stored as a list of chunks. */
module ChunkedFiles {

  type Byte = bv8

  datatype Chunk = Chunk(path: string, size: nat)

  /** Where chunks are read from; a path that is not there is an error of getChunkReader. */
  type Disk = map<string, seq<Byte>>

  ghost function Min(a: int, b: int): int {
    if a < b then a else b
  }

  ghost function Drop<T>(s: seq<T>, n: nat): seq<T> {
    if n <= |s| then s[n..] else []
  }

  /** The bytes a plain reader gets from chunk `i`, byte `off`, up to the end or to the first
      chunk that cannot be opened. */
  ghost function Rest(disk: Disk, chunks: seq<Chunk>, i: nat, off: nat): seq<Byte>
    decreases |chunks| - i
  {
    if i >= |chunks| || chunks[i].path !in disk then []
    else Drop(disk[chunks[i].path], off) + Rest(disk, chunks, i + 1, 0)
  }

  /** The first chunk from `i` on that cannot be opened, or the number of chunks. */
  ghost function Broken(disk: Disk, chunks: seq<Chunk>, i: nat): nat
    decreases |chunks| - i
  {
    if i >= |chunks| then |chunks|
    else if chunks[i].path !in disk then i
    else Broken(disk, chunks, i + 1)
  }

  /** The reader over one chunk. */
  class ChunkReader {
    const data: seq<Byte>
    var offset: nat

    constructor (data: seq<Byte>)
      ensures this.data == data && offset == 0
    {
      this.data := data;
      offset := 0;
    }

    method Seek(offset: nat)
      modifies this`offset
      ensures this.offset == offset
    {
      this.offset := offset;
    }

    /** Reads into p[start..]; end of file exactly if nothing could be read. */
    method Read(p: array<Byte>, start: nat) returns (n: nat, eof: bool)
      requires start <= p.Length
      modifies this`offset, p
      ensures n == |Drop(data, old(offset))| || n == p.Length - start
      ensures n <= |Drop(data, old(offset))| && n <= p.Length - start
      ensures eof <==> n == 0
      ensures offset == old(offset) + n
      ensures p[..] == old(p[..start]) + Drop(data, old(offset))[..n] + old(p[start + n..])
    {
      var end := offset + (p.Length - start);
      if end > |data| {
        end := |data|;
      }
      if end - offset <= 0 {
        return 0, true;
      }
      forall i | start <= i < start + (end - offset) {
        p[i] := data[offset + (i - start)];
      }
      n := end - offset;
      offset := end;
      eof := false;
    }
  }

  class ChunkedFile {
    const disk: Disk
    const chunks: seq<Chunk>
    const size: nat
    var currentChunk: nat
    var chunkOffset: nat
    var offset: int
    var reader: ChunkReader?

    /** An open reader belongs to the current chunk. */
    ghost predicate Valid()
      reads this
    {
      && (chunks != [] ==> currentChunk < |chunks|)
      && (chunks == [] ==> currentChunk == 0 && chunkOffset == 0)
      && (reader != null ==>
            chunks != [] && chunks[currentChunk].path in disk && reader.data == disk[chunks[currentChunk].path])
    }

    /** What is still to be read. */
    ghost function Ahead(): seq<Byte>
      reads this
    {
      Rest(disk, chunks, currentChunk, chunkOffset)
    }

    constructor (disk: Disk, chunks: seq<Chunk>, size: nat)
      ensures Valid() && this.disk == disk && this.chunks == chunks && this.size == size
      ensures currentChunk == 0 && chunkOffset == 0 && reader == null
    {
      this.disk, this.chunks, this.size := disk, chunks, size;
      currentChunk, chunkOffset, offset, reader := 0, 0, 0, null;
    }

    method GetChunkReader(i: nat) returns (r: ChunkReader?)
      requires i < |chunks|
      ensures r == null <==> chunks[i].path !in disk
      ensures r != null ==> fresh(r) && r.data == disk[chunks[i].path] && r.offset == 0
    {
      if chunks[i].path in disk {
        r := new ChunkReader(disk[chunks[i].path]);
      } else {
        r := null;
      }
    }

    /** Fills the buffer with what a plain reader would give next, or delivers all there is and
        reports end of file. At the end of the file the cursor goes back to the start; at a
        chunk that cannot be opened it stays there. */
    method Read(p: array<Byte>) returns (n: nat, eof: bool)
      requires Valid() && p.Length > 0
      modifies this, p, reader
      ensures Valid() && offset == old(offset)
      ensures n <= p.Length && (eof <==> n < p.Length)
      ensures !eof ==> old(Ahead()) == p[..] + Ahead()
      ensures eof ==> old(Ahead()) == p[..n] && p[n..] == old(p[n..])
      ensures !eof ==> Broken(disk, chunks, currentChunk) == Broken(disk, chunks, old(currentChunk))
      ensures eof && Broken(disk, chunks, old(currentChunk)) == |chunks| ==> currentChunk == 0 && chunkOffset == 0
      ensures eof && Broken(disk, chunks, old(currentChunk)) < |chunks| ==>
                currentChunk == Broken(disk, chunks, old(currentChunk))
      ensures reader == old(reader) || reader == null || fresh(reader)
    {
      var open := Open();
      if !open {
        return 0, true;
      }
      n, eof := Fill(p);
    }

    /** The loop of Read, over the current chunk's reader and those after it. */
    method Fill(p: array<Byte>) returns (n: nat, eof: bool)
      requires Valid() && p.Length > 0 && reader != null && reader.offset == chunkOffset
      modifies this`currentChunk, this`chunkOffset, this`reader, p, reader
      ensures Valid()
      ensures n <= p.Length && (eof <==> n < p.Length)
      ensures !eof ==> old(Ahead()) == p[..] + Ahead()
      ensures eof ==> old(Ahead()) == p[..n] && p[n..] == old(p[n..])
      ensures !eof ==> Broken(disk, chunks, currentChunk) == Broken(disk, chunks, old(currentChunk))
      ensures eof && Broken(disk, chunks, old(currentChunk)) == |chunks| ==> currentChunk == 0 && chunkOffset == 0
      ensures eof && Broken(disk, chunks, old(currentChunk)) < |chunks| ==>
                currentChunk == Broken(disk, chunks, old(currentChunk))
      ensures reader == old(reader) || reader == null || fresh(reader)
    {
      ghost var ahead, buf, start, got := Ahead(), p[..], currentChunk, [];
      n := 0;
      while true
        invariant Valid() && reader != null && reader.offset == chunkOffset
        invariant reader == old(reader) || fresh(reader)
        invariant n < p.Length && |got| == n && Filled(p[..], got, buf)
        invariant got + Ahead() == ahead
        invariant Broken(disk, chunks, currentChunk) == Broken(disk, chunks, start)
        decreases |chunks| - currentChunk, |Drop(reader.data, chunkOffset)|
      {
        var r, end;
        r, end, got := ReadChunk(p, n, got, buf);
        n := n + r;
        if !end && n < p.Length {
          continue;
        }
        if end && currentChunk < |chunks| - 1 && n < p.Length {
          NextChunk();
          if reader == null {
            Drained(p[..], got, buf, Ahead(), ahead);
            return n, true;
          }
        } else {
          if end && currentChunk >= |chunks| - 1 {
            EndOfFile(p, n, got, buf, ahead);
            return n, true;
          }
          Full(p[..], got, buf, Ahead(), ahead);
          return n, false;
        }
      }
    }

    /** Whole file EOF: what has been read is all there was. */
    method EndOfFile(p: array<Byte>, n: nat, ghost got: seq<Byte>, ghost buf: seq<Byte>, ghost ahead: seq<Byte>)
      requires Valid() && reader != null && currentChunk >= |chunks| - 1 && |Drop(reader.data, chunkOffset)| == 0
      requires n < p.Length && |got| == n && Filled(p[..], got, buf) && got + Ahead() == ahead
      modifies this`currentChunk, this`chunkOffset, this`reader
      ensures Valid() && currentChunk == 0 && chunkOffset == 0 && reader == null
      ensures Broken(disk, chunks, old(currentChunk)) == |chunks|
      ensures ahead == p[..n] && p[n..] == buf[n..]
    {
      ghost var rest := Ahead();
      Rewind();
      Drained(p[..], got, buf, rest, ahead);
    }

    method Rewind()
      requires Valid() && reader != null && currentChunk >= |chunks| - 1 && |Drop(reader.data, chunkOffset)| == 0
      modifies this`currentChunk, this`chunkOffset, this`reader
      ensures Valid() && currentChunk == 0 && chunkOffset == 0 && reader == null
      ensures |old(Ahead())| == 0 && Broken(disk, chunks, old(currentChunk)) == |chunks|
    {
      NothingAhead(disk, chunks, currentChunk, chunkOffset);
      currentChunk := 0;
      chunkOffset := 0;
      reader := null;
    }

    /** Open the current chunk if no reader is, and shift the reader to the cursor. */
    method Open() returns (open: bool)
      requires Valid()
      modifies this`reader, reader
      ensures Valid()
      ensures open ==> reader != null && reader.offset == chunkOffset && (reader == old(reader) || fresh(reader))
      ensures !open ==>
                reader == old(reader) == null && Ahead() == [] && Broken(disk, chunks, currentChunk) == currentChunk
    {
      if reader == null {
        if |chunks| == 0 {
          return false;
        }
        var r := GetChunkReader(currentChunk);
        if r == null {
          return false;
        }
        reader := r;
      }
      reader.Seek(chunkOffset);
      open := true;
    }

    /** One Read of the current chunk's reader into p[n..]. */
    method ReadChunk(p: array<Byte>, n: nat, ghost got: seq<Byte>, ghost buf: seq<Byte>)
      returns (r: nat, end: bool, ghost got': seq<Byte>)
      requires Valid() && reader != null && reader.offset == chunkOffset
      requires n < p.Length && |got| == n && Filled(p[..], got, buf)
      modifies this`chunkOffset, p, reader
      ensures Valid() && reader.offset == chunkOffset == old(chunkOffset) + r
      ensures n + r <= p.Length && |got'| == n + r && Filled(p[..], got', buf)
      ensures got' + Ahead() == got + old(Ahead())
      ensures end <==> r == 0
      ensures end ==> |Drop(reader.data, chunkOffset)| == 0
      ensures !end && n + r < p.Length ==> |Drop(reader.data, chunkOffset)| < |Drop(reader.data, old(chunkOffset))|
    {
      ghost var before, d := p[..], [];
      r, end, d := ReadInto(p, n);
      Filling(got, d, buf, before, p[..], Ahead());
      got' := got + d;
    }

    method ReadInto(p: array<Byte>, n: nat) returns (r: nat, end: bool, ghost d: seq<Byte>)
      requires Valid() && reader != null && reader.offset == chunkOffset && n < p.Length
      modifies this`chunkOffset, p, reader
      ensures Valid() && reader.offset == chunkOffset == old(chunkOffset) + r
      ensures |d| == r && n + r <= p.Length && old(Ahead()) == d + Ahead()
      ensures p[..] == old(p[..n]) + d + old(p[n + r..])
      ensures end <==> r == 0
      ensures end ==> |Drop(reader.data, chunkOffset)| == 0
      ensures !end && n + r < p.Length ==> |Drop(reader.data, chunkOffset)| < |Drop(reader.data, old(chunkOffset))|
    {
      d := Drop(reader.data, chunkOffset);
      r, end := reader.Read(p, n);
      d := d[..r];
      RestFrom(disk, chunks, currentChunk, chunkOffset, r);
      chunkOffset := chunkOffset + r;
    }

    /** The current chunk is over: close it and open the next. */
    method NextChunk()
      requires Valid() && reader != null && currentChunk < |chunks| - 1 && |Drop(reader.data, chunkOffset)| == 0
      modifies this`currentChunk, this`chunkOffset, this`reader
      ensures Valid() && currentChunk == old(currentChunk) + 1 && chunkOffset == 0 && Ahead() == old(Ahead())
      ensures reader != null ==> fresh(reader) && reader.offset == 0
      ensures reader != null ==> Broken(disk, chunks, currentChunk) == Broken(disk, chunks, old(currentChunk))
      ensures reader == null ==> Broken(disk, chunks, old(currentChunk)) == currentChunk && |Ahead()| == 0
    {
      currentChunk := currentChunk + 1;
      chunkOffset := 0;
      var next := GetChunkReader(currentChunk);
      reader := next;
    }

    /** Seek with io.SeekStart: None is an error. A seek to exactly the size succeeds without
        moving the cursor, because no chunk is found for it. */
    method Seek(to: int) returns (ok: bool)
      requires Valid()
      modifies this
      ensures Valid() && ok == (0 <= to <= size)
      ensures !ok ==> currentChunk == old(currentChunk) && chunkOffset == old(chunkOffset) && reader == old(reader)
      ensures offset == if ok then to else old(offset)
      ensures ok && to < Total(chunks) ==> (currentChunk, chunkOffset) == Locate(chunks, to)
      ensures ok && to >= Total(chunks) ==> currentChunk == old(currentChunk) && chunkOffset == old(chunkOffset)
      ensures reader == old(reader) || reader == null
    {
      if to > size || to < 0 {
        return false;
      }
      var prevCurrentChunk := currentChunk;
      var ofs := to;
      for i := 0 to |chunks|
        invariant currentChunk == old(currentChunk) && chunkOffset == old(chunkOffset) && reader == old(reader)
        invariant ofs >= 0 && Total(chunks) - to == Total(chunks[i..]) - ofs
        invariant to < Total(chunks) ==>
                    Locate(chunks, to) == (i + Locate(chunks[i..], ofs).0, Locate(chunks[i..], ofs).1)
      {
        assert chunks[i..][0] == chunks[i] && chunks[i..][1..] == chunks[i + 1..];
        if ofs - chunks[i].size < 0 {
          currentChunk := i;
          chunkOffset := ofs;
          break;
        }
        ofs := ofs - chunks[i].size;
      }
      offset := to;
      if reader != null && prevCurrentChunk != currentChunk {
        reader := null;
      }
      ok := true;
    }

    /** Every chunk can be opened and is as long as recorded, and so is the file. */
    ghost predicate Sized() {
      size == Total(chunks) && AllSized(disk, chunks)
    }

    ghost function Content(): seq<Byte> {
      Rest(disk, chunks, 0, 0)
    }

    /** For an offset inside the file the answer depends on the offset alone, whatever was read
        before. For an offset exactly at the end it does not: it is read from wherever the
        cursor was, and is the empty answer only if nothing was left there. */
    method SeekAndRead(p: array<Byte>, off: int) returns (ok: bool, n: nat, eof: bool)
      requires Valid() && p.Length > 0
      modifies this, p, reader
      ensures Valid() && ok == (0 <= off <= size) && n <= p.Length
      ensures reader == old(reader) || reader == null || fresh(reader)
      ensures Sized() && 0 <= off < size ==>
                |Content()| == size && Positional(Content(), off, old(p[..]), p[..], n, eof)
      ensures Sized() && off == size ==> (n == 0 <==> old(Ahead()) == [])
      ensures !(0 <= off <= size) ==> n == 0 && !eof && p[..] == old(p[..]) && Ahead() == old(Ahead())
    {
      ok := Seek(off);
      if !ok {
        return false, 0, false;
      }
      ghost var ahead, buf := Ahead(), p[..];
      n, eof := Read(p);
      if Sized() && off < size {
        PositionalRead(disk, chunks, off, ahead, buf, p[..], n, eof, Ahead());
      }
    }
  }

  /** The sum of the recorded sizes. */
  ghost function Total(chunks: seq<Chunk>): nat {
    if chunks == [] then 0 else chunks[0].size + Total(chunks[1..])
  }

  /** The chunk that holds byte `to`, and the place in it. */
  ghost function Locate(chunks: seq<Chunk>, to: nat): (nat, nat)
    requires to < Total(chunks)
  {
    if to < chunks[0].size then (0, to)
    else
      var (i, off) := Locate(chunks[1..], to - chunks[0].size);
      (i + 1, off)
  }

  /** The buffer starts with the bytes got so far, the others are untouched. */
  ghost predicate Filled(now: seq<Byte>, got: seq<Byte>, buf: seq<Byte>) {
    |got| <= |buf| == |now| && forall i | 0 <= i < |buf| :: now[i] == if i < |got| then got[i] else buf[i]
  }

  lemma Filling(got: seq<Byte>, d: seq<Byte>, buf: seq<Byte>, before: seq<Byte>, after: seq<Byte>, rest: seq<Byte>)
    requires Filled(before, got, buf) && |got| + |d| <= |buf|
    requires after == before[..|got|] + d + before[|got| + |d|..]
    ensures Filled(after, got + d, buf) && (got + d) + rest == got + (d + rest)
  {
  }

  /** Nothing is left: all there was is in the buffer. */
  lemma Drained(now: seq<Byte>, got: seq<Byte>, buf: seq<Byte>, rest: seq<Byte>, ahead: seq<Byte>)
    requires Filled(now, got, buf) && got + rest == ahead && |rest| == 0
    ensures ahead == now[..|got|] && now[|got|..] == buf[|got|..]
  {
  }

  lemma Full(now: seq<Byte>, got: seq<Byte>, buf: seq<Byte>, rest: seq<Byte>, ahead: seq<Byte>)
    requires Filled(now, got, buf) && got + rest == ahead && |got| == |now|
    ensures ahead == now + rest
  {
    assert now == got;
  }

  lemma NothingAhead(disk: Disk, chunks: seq<Chunk>, i: nat, off: nat)
    requires i == |chunks| - 1 && chunks[i].path in disk && |Drop(disk[chunks[i].path], off)| == 0
    ensures Rest(disk, chunks, i, off) == []
  {
    assert Rest(disk, chunks, i + 1, 0) == [];
  }

  /** Reading `r` bytes of a chunk moves the rest on by `r`. */
  lemma RestFrom(disk: Disk, chunks: seq<Chunk>, i: nat, off: nat, r: nat)
    requires i < |chunks| && chunks[i].path in disk && r <= |Drop(disk[chunks[i].path], off)|
    ensures Rest(disk, chunks, i, off) == Drop(disk[chunks[i].path], off)[..r] + Rest(disk, chunks, i, off + r)
  {
    var d, tail := Drop(disk[chunks[i].path], off), Rest(disk, chunks, i + 1, 0);
    assert Drop(disk[chunks[i].path], off + r) == d[r..];
    assert d + tail == d[..r] + (d[r..] + tail);
  }

  lemma {:induction false} RestShift(disk: Disk, chunks: seq<Chunk>, i: nat, off: nat)
    requires chunks != []
    ensures Rest(disk, chunks, i + 1, off) == Rest(disk, chunks[1..], i, off)
    decreases |chunks| - i
  {
    var tail := chunks[1..];
    if i + 1 < |chunks| {
      assert tail[i] == chunks[i + 1];
      RestShift(disk, chunks, i + 1, 0);
    }
  }

  lemma {:induction false} ContentSize(disk: Disk, chunks: seq<Chunk>)
    requires AllSized(disk, chunks)
    ensures |Rest(disk, chunks, 0, 0)| == Total(chunks)
  {
    if chunks != [] {
      RestShift(disk, chunks, 0, 0);
      assert chunks[0] in chunks;
      ContentSize(disk, chunks[1..]);
    }
  }

  lemma {:induction false} RestAt(disk: Disk, chunks: seq<Chunk>, i: nat, off: nat)
    requires i <= |chunks|
    ensures Rest(disk, chunks, i, off) == Rest(disk, chunks[i..], 0, off)
  {
    if i > 0 {
      RestShift(disk, chunks, i - 1, off);
      RestAt(disk, chunks[1..], i - 1, off);
      assert chunks[1..][i - 1..] == chunks[i..];
    }
  }

  /** Reading is of the chunk under the cursor from the cursor on, and then of all chunks behind it,
      up to one that cannot be opened. */
  lemma RestIs(disk: Disk, chunks: seq<Chunk>, i: nat, off: nat)
    requires i < |chunks|
    ensures chunks[i].path !in disk ==> Rest(disk, chunks, i, off) == []
    ensures chunks[i].path in disk && off <= |disk[chunks[i].path]| ==>
              Rest(disk, chunks, i, off) == disk[chunks[i].path][off..] + Rest(disk, chunks[i + 1..], 0, 0)
    ensures Rest(disk, [], 0, off) == []
  {
    RestAt(disk, chunks, i + 1, 0);
  }

  /** A file is sized if every chunk can be opened and has its size, and the file that of its
      content. */
  lemma SizedIs(f: ChunkedFile)
    requires forall c | c in f.chunks :: c.path in f.disk && |f.disk[c.path]| == c.size
    requires f.size == |Rest(f.disk, f.chunks, 0, 0)|
    ensures f.Sized()
  {
    ContentSize(f.disk, f.chunks);
  }

  lemma Answer(content: seq<Byte>, off: nat, ahead: seq<Byte>, before: seq<Byte>, after: seq<Byte>, n: nat, eof: bool,
               rest: seq<Byte>)
    requires off < |content| && ahead == content[off..] && n <= |after| && |before| == |after| && (eof <==> n < |after|)
    requires !eof ==> ahead == after + rest
    requires eof ==> ahead == after[..n] && after[n..] == before[n..]
    ensures n == Min(|after|, |content| - off) && after[..n] == content[off..off + n] && after[n..] == before[n..]
  {
    assert after[..n] == ahead[..n];
  }

  lemma DropFirst(first: seq<Byte>, tail: seq<Byte>, to: nat)
    requires to <= |first| + |tail|
    ensures (first + tail)[to..] == if to < |first| then first[to..] + tail else tail[to - |first|..]
  {
  }

  ghost predicate AllSized(disk: Disk, chunks: seq<Chunk>) {
    forall c | c in chunks :: c.path in disk && |disk[c.path]| == c.size
  }

  lemma AheadInFirst(disk: Disk, chunks: seq<Chunk>, to: nat)
    requires chunks != [] && chunks[0].path in disk && to < |disk[chunks[0].path]|
    ensures Rest(disk, chunks, 0, to) == Rest(disk, chunks, 0, 0)[to..]
  {
    DropFirst(disk[chunks[0].path], Rest(disk, chunks, 1, 0), to);
  }

  lemma AheadBeyondFirst(disk: Disk, chunks: seq<Chunk>, to: nat)
    requires chunks != [] && chunks[0].path in disk
    requires |disk[chunks[0].path]| <= to <= |disk[chunks[0].path]| + |Rest(disk, chunks[1..], 0, 0)|
    ensures |Rest(disk, chunks, 0, 0)| == |disk[chunks[0].path]| + |Rest(disk, chunks[1..], 0, 0)|
    ensures Rest(disk, chunks, 0, 0)[to..] == Rest(disk, chunks[1..], 0, 0)[to - |disk[chunks[0].path]|..]
  {
    RestShift(disk, chunks, 0, 0);
    DropFirst(disk[chunks[0].path], Rest(disk, chunks, 1, 0), to);
  }

  /** The place that Seek finds has the rest of the content ahead of it. */
  lemma {:induction false} AheadAfterSeek(disk: Disk, chunks: seq<Chunk>, to: nat)
    requires AllSized(disk, chunks) && to < Total(chunks)
    ensures |Rest(disk, chunks, 0, 0)| == Total(chunks)
    ensures Rest(disk, chunks, Locate(chunks, to).0, Locate(chunks, to).1) == Rest(disk, chunks, 0, 0)[to..]
  {
    ContentSize(disk, chunks);
    assert chunks[0] in chunks;
    if to < chunks[0].size {
      AheadInFirst(disk, chunks, to);
    } else {
      AheadAfterSeek(disk, chunks[1..], to - chunks[0].size);
      AheadBeyondFirst(disk, chunks, to);
      RestShift(disk, chunks, Locate(chunks[1..], to - chunks[0].size).0, Locate(chunks[1..], to - chunks[0].size).1);
    }
  }

  /** The buffer starts with the bytes of the content from `off` on, as many as there are and fit;
      end of file is when they do not fill it; the others are untouched. */
  ghost predicate Positional(content: seq<Byte>, off: nat, before: seq<Byte>, after: seq<Byte>, n: nat, eof: bool) {
    && off < |content| && |before| == |after| && n == Min(|after|, |content| - off) && (eof <==> n < |after|)
    && after[..n] == content[off..off + n] && after[n..] == before[n..]
  }

  /** A read from where a seek to `off` leads. */
  lemma PositionalRead(disk: Disk, chunks: seq<Chunk>, off: nat, ahead: seq<Byte>, before: seq<Byte>, after: seq<Byte>,
                       n: nat, eof: bool, rest: seq<Byte>)
    requires AllSized(disk, chunks) && off < Total(chunks)
    requires ahead == Rest(disk, chunks, Locate(chunks, off).0, Locate(chunks, off).1)
    requires n <= |after| && |before| == |after| && (eof <==> n < |after|)
    requires !eof ==> ahead == after + rest
    requires eof ==> ahead == after[..n] && after[n..] == before[n..]
    ensures |Rest(disk, chunks, 0, 0)| == Total(chunks) &&
            Positional(Rest(disk, chunks, 0, 0), off, before, after, n, eof)
  {
    AheadAfterSeek(disk, chunks, off);
    Answer(Rest(disk, chunks, 0, 0), off, ahead, before, after, n, eof, rest);
  }

  lemma Regroup(out: seq<Byte>, now: seq<Byte>, rest: seq<Byte>, ahead: seq<Byte>)
    requires ahead == now + rest
    ensures (out + now) + rest == out + ahead
  {
  }

  /** io.Copy: reading until end of file delivers all that is ahead; from a fresh file whose
      chunks can all be opened, that is the whole content. */
  method CopyAll(f: ChunkedFile, bufSize: nat) returns (out: seq<Byte>)
    requires f.Valid() && bufSize > 0
    modifies f, f.reader
    ensures out == old(f.Ahead()) && f.Valid()
    ensures Broken(f.disk, f.chunks, old(f.currentChunk)) == |f.chunks| ==> f.currentChunk == 0 && f.chunkOffset == 0
  {
    out := [];
    ghost var start := f.currentChunk;
    while true
      invariant f.Valid() && (f.reader == old(f.reader) || f.reader == null || fresh(f.reader))
      invariant out + f.Ahead() == old(f.Ahead())
      invariant Broken(f.disk, f.chunks, f.currentChunk) == Broken(f.disk, f.chunks, start)
      decreases |f.Ahead()|
    {
      var buf := new Byte[bufSize](_ => 0);
      ghost var rest := f.Ahead();
      var n, eof := f.Read(buf);
      if eof {
        return out + buf[..n];
      }
      Regroup(out, buf[..], f.Ahead(), rest);
      out := out + buf[..];
    }
  }

  /** One call of SeekAndRead, with a buffer of its own. */
  method ReadAt(f: ChunkedFile, off: nat, room: nat) returns (bytes: seq<Byte>)
    requires f.Valid() && f.Sized() && off < f.size && room > 0
    modifies f, f.reader
    ensures f.Valid() && (f.reader == old(f.reader) || f.reader == null || fresh(f.reader))
    ensures |f.Content()| == f.size && bytes == f.Content()[off..off + Min(room, f.size - off)]
  {
    ContentSize(f.disk, f.chunks);
    var dest := new Byte[room](_ => 0);
    var _, n, _ := f.SeekAndRead(dest, off);
    bytes := dest[..n];
  }

  /** Parallel calls of SeekAndRead take turns under the file's lock. In whatever order they get
      it, each caller's buffer is filled with the bytes it asked for. */
  method ParallelReads(f: ChunkedFile, requests: seq<(nat, nat)>) returns (answers: seq<seq<Byte>>)
    requires f.Valid() && f.Sized()
    requires forall r | r in requests :: r.0 < f.size && r.1 > 0
    modifies f, f.reader
    ensures |answers| == |requests| && |f.Content()| == f.size
    ensures forall i | 0 <= i < |requests| ::
      answers[i] == f.Content()[requests[i].0..requests[i].0 + Min(requests[i].1, f.size - requests[i].0)]
  {
    ContentSize(f.disk, f.chunks);
    answers := seq(|requests|, _ => []);
    var waiting := set i {:trigger requests[i]} | 0 <= i < |requests|;
    while waiting != {}
      invariant f.Valid() && (f.reader == old(f.reader) || f.reader == null || fresh(f.reader))
      invariant |answers| == |requests|
      invariant forall i | 0 <= i < |requests| && i !in waiting ::
        answers[i] == f.Content()[requests[i].0..requests[i].0 + Min(requests[i].1, f.size - requests[i].0)]
    {
      var i :| i in waiting;
      assert requests[i] in requests;
      var bytes := ReadAt(f, requests[i].0, requests[i].1);
      answers := answers[i := bytes];
      waiting := waiting - {i};
    }
  }
}
