/** Parallel reads through one open handle of the FUSE file system. The chunked file is read
    under its lock, but the answer is put into two fields of the handle, and given from them. */
module PlukFiles {
  import opened ChunkedFiles

  datatype Request = Request(off: nat, len: nat)

  /** What a positional read inside the file gives. */
  ghost function Wanted(content: seq<Byte>, r: Request): seq<Byte>
    requires r.off < |content|
  {
    content[r.off..r.off + Min(r.len, |content| - r.off)]
  }

  ghost predicate Inside(content: seq<Byte>, requests: seq<Request>) {
    forall r | r in requests :: r.off < |content| && r.len > 0
  }

  /** The handle. */
  class PlukFile {
    const chunked: ChunkedFile
    var data: seq<Byte>
    var size: nat

    constructor (chunked: ChunkedFile)
      ensures this.chunked == chunked && data == [] && size == 0
    {
      this.chunked, data, size := chunked, [], 0;
    }

    /** One request alone: the fields hold the bytes it asked for, and nothing if it asks for bytes
        outside the file. */
    method ResultData(buf: array<Byte>, off: int)
      requires chunked.Valid() && chunked.Sized() && buf.Length > 0
      modifies this, chunked, chunked.reader, buf
      ensures chunked.Valid() && |chunked.Content()| == chunked.size && size == |data|
      ensures 0 <= off < chunked.size ==> data == Wanted(chunked.Content(), Request(off, buf.Length))
      ensures 0 <= off < chunked.size ==>
                |data| == (if buf.Length < chunked.size - off then buf.Length else chunked.size - off) &&
                data == chunked.Content()[off..off + |data|]
      ensures off < 0 || off > chunked.size ==> data == []
    {
      ContentSize(chunked.disk, chunked.chunks);
      var _, n, _ := chunked.SeekAndRead(buf, off);
      size := n;
      data := buf[..n];
    }
  }

  // ---- Requests in parallel

  /** The buffers that requests have filled, and the fields of the handle they share. */
  datatype State = State(fetched: map<nat, seq<Byte>>, size: nat, data: seq<Byte>)

  /** Request `i` reads under the lock, writes size and data without it, and is then asked for
      its size and its bytes. */
  datatype Step = Fetch(i: nat) | StoreSize(i: nat) | StoreData(i: nat) | AskSize(i: nat) | AskBytes(i: nat)

  /** A request stores what it has fetched. */
  ghost predicate Legal(n: nat, steps: seq<Step>) {
    steps != [] ==>
      var init, s := steps[..|steps| - 1], steps[|steps| - 1];
      Legal(n, init) && s.i < n && (s.StoreSize? || s.StoreData? ==> Fetch(s.i) in init)
  }

  ghost function Exec(content: seq<Byte>, requests: seq<Request>, steps: seq<Step>): (b: State)
    requires Inside(content, requests) && Legal(|requests|, steps)
    ensures forall i :: i in b.fetched <==> Fetch(i) in steps
    ensures forall i | i in b.fetched ::
              i < |requests| && requests[i] in requests && b.fetched[i] == Wanted(content, requests[i])
  {
    if steps == [] then State(map[], 0, [])
    else
      var init, s := steps[..|steps| - 1], steps[|steps| - 1];
      assert steps == init + [s] && requests[s.i] in requests;
      var b := Exec(content, requests, init);
      match s
      case Fetch(i) => b.(fetched := b.fetched[i := Wanted(content, requests[i])])
      case StoreSize(i) => b.(size := |b.fetched[i]|)
      case StoreData(i) => b.(data := b.fetched[i])
      case AskSize(_) => b
      case AskBytes(_) => b
  }

  /** The request that stored its size last, and the one that stored its data last. */
  ghost function LastSize(steps: seq<Step>): int {
    if steps == [] then -1
    else if steps[|steps| - 1].StoreSize? then steps[|steps| - 1].i
    else LastSize(steps[..|steps| - 1])
  }

  ghost function LastData(steps: seq<Step>): int {
    if steps == [] then -1
    else if steps[|steps| - 1].StoreData? then steps[|steps| - 1].i
    else LastData(steps[..|steps| - 1])
  }

  /** Whoever is asked was the last to store. */
  ghost predicate OwnAt(steps: seq<Step>, k: nat)
    requires k < |steps|
  {
    (steps[k].AskSize? ==> LastSize(steps[..k]) == steps[k].i) &&
    (steps[k].AskBytes? ==> LastData(steps[..k]) == steps[k].i)
  }

  ghost predicate OwnStores(steps: seq<Step>) {
    forall k | 0 <= k < |steps| :: OwnAt(steps, k)
  }

  /** What step `k` is given is what its request asked for. */
  ghost predicate RightAt(content: seq<Byte>, requests: seq<Request>, steps: seq<Step>, k: nat)
    requires Inside(content, requests) && Legal(|requests|, steps) && k < |steps|
  {
    LegalPrefix(|requests|, steps, k);
    var b := Exec(content, requests, steps[..k]);
    assert requests[steps[k].i] in requests;
    var own := Wanted(content, requests[steps[k].i]);
    (steps[k].AskSize? ==> b.size == |own|) && (steps[k].AskBytes? ==> b.data == own)
  }

  ghost predicate Right(content: seq<Byte>, requests: seq<Request>, steps: seq<Step>)
    requires Inside(content, requests) && Legal(|requests|, steps)
  {
    forall k | 0 <= k < |steps| :: RightAt(content, requests, steps, k)
  }

  lemma {:induction false} LegalPrefix(n: nat, steps: seq<Step>, k: nat)
    requires Legal(n, steps) && k <= |steps|
    ensures Legal(n, steps[..k]) && (k < |steps| ==> steps[k].i < n)
  {
    if k < |steps| {
      assert steps[..|steps| - 1][..k] == steps[..k];
      LegalPrefix(n, steps[..|steps| - 1], k);
    } else {
      assert steps[..k] == steps;
    }
  }

  /** The fields hold what the last to store has fetched. */
  lemma {:induction false} FieldsHoldLast(content: seq<Byte>, requests: seq<Request>, steps: seq<Step>)
    requires Inside(content, requests) && Legal(|requests|, steps)
    ensures var b, i, j := Exec(content, requests, steps), LastSize(steps), LastData(steps);
            && -1 <= i < |requests| && -1 <= j < |requests|
            && (if i == -1 then b.size == 0 else requests[i] in requests && b.size == |Wanted(content, requests[i])|)
            && (if j == -1 then b.data == [] else requests[j] in requests && b.data == Wanted(content, requests[j]))
  {
    if steps != [] {
      FieldsHoldLast(content, requests, steps[..|steps| - 1]);
    }
  }

  lemma OwnIsRight(content: seq<Byte>, requests: seq<Request>, steps: seq<Step>)
    requires Inside(content, requests) && Legal(|requests|, steps) && OwnStores(steps)
    ensures Right(content, requests, steps)
  {
    forall k | 0 <= k < |steps| ensures RightAt(content, requests, steps, k) {
      assert OwnAt(steps, k);
      LegalPrefix(|requests|, steps, k);
      FieldsHoldLast(content, requests, steps[..k]);
    }
  }

  /** A file of two bytes, of which request `i` wants the last and all others want both. */
  ghost function Telling(n: nat, i: nat): seq<Request> {
    seq(n, j => if j == i then Request(1, 1) else Request(0, 2))
  }

  lemma ForeignIsWrong(n: nat, steps: seq<Step>, k: nat)
    requires Legal(n, steps) && k < |steps| && !OwnAt(steps, k) && steps[k].i < n
    ensures Inside([0, 1], Telling(n, steps[k].i)) && !Right([0, 1], Telling(n, steps[k].i), steps)
  {
    var i := steps[k].i;
    var content: seq<Byte>, requests := [0, 1], Telling(n, i);
    LegalPrefix(n, steps, k);
    FieldsHoldLast(content, requests, steps[..k]);
    assert Wanted(content, Request(1, 1)) == [1] && Wanted(content, Request(0, 2)) == [0, 1];
    assert !RightAt(content, requests, steps, k);
  }

  /** Parallel requests get their own sizes and bytes, whatever the file and whatever they ask
      for, exactly if each is asked while it was the last to store. */
  lemma SafeIffOwnStores(n: nat, steps: seq<Step>)
    requires Legal(n, steps)
    ensures OwnStores(steps) <==>
            forall content, requests | |requests| == n && Inside(content, requests) :: Right(content, requests, steps)
  {
    if OwnStores(steps) {
      forall content, requests | |requests| == n && Inside(content, requests) ensures Right(content, requests, steps) {
        OwnIsRight(content, requests, steps);
      }
    } else {
      var k :| 0 <= k < |steps| && !OwnAt(steps, k);
      LegalPrefix(n, steps, k);
      ForeignIsWrong(n, steps, k);
    }
  }

  // ---- Two schedules

  /** All of one request before the next. */
  ghost function Serial(order: seq<nat>): seq<Step> {
    if order == [] then [] else Serial(order[..|order| - 1]) + Served(order[|order| - 1])
  }

  /** One more step that reads the fields rightly, or only writes. */
  lemma OneStepMore(n: nat, steps: seq<Step>, s: Step)
    requires Legal(n, steps) && OwnStores(steps) && s.i < n
    requires s.StoreSize? || s.StoreData? ==> Fetch(s.i) in steps
    requires (s.AskSize? ==> LastSize(steps) == s.i) && (s.AskBytes? ==> LastData(steps) == s.i)
    ensures Legal(n, steps + [s]) && OwnStores(steps + [s])
    ensures LastSize(steps + [s]) == (if s.StoreSize? then s.i else LastSize(steps))
    ensures LastData(steps + [s]) == (if s.StoreData? then s.i else LastData(steps))
    ensures Fetch(s.i) in steps || s.Fetch? ==> Fetch(s.i) in steps + [s]
  {
    var more := steps + [s];
    assert more[..|steps|] == steps;
    forall k | 0 <= k < |more| ensures OwnAt(more, k) {
      if k < |steps| {
        assert OwnAt(steps, k) && more[..k] == steps[..k];
      }
    }
  }

  ghost function Served(i: nat): seq<Step> {
    [Fetch(i), StoreSize(i), StoreData(i), AskSize(i), AskBytes(i)]
  }

  lemma OneStoredMore(n: nat, a: seq<Step>, i: nat)
    requires Legal(n, a) && OwnStores(a) && i < n
    ensures var b := a + [Fetch(i), StoreSize(i), StoreData(i)];
            Legal(n, b) && OwnStores(b) && LastSize(b) == i && LastData(b) == i
  {
    OneStepMore(n, a, Fetch(i));
    OneStepMore(n, a + [Fetch(i)], StoreSize(i));
    OneStepMore(n, a + [Fetch(i)] + [StoreSize(i)], StoreData(i));
    assert a + [Fetch(i), StoreSize(i), StoreData(i)] == a + [Fetch(i)] + [StoreSize(i)] + [StoreData(i)];
  }

  lemma OneServedMore(n: nat, a: seq<Step>, i: nat)
    requires Legal(n, a) && OwnStores(a) && i < n
    ensures Legal(n, a + Served(i)) && OwnStores(a + Served(i))
  {
    var b := a + [Fetch(i), StoreSize(i), StoreData(i)];
    OneStoredMore(n, a, i);
    OneStepMore(n, b, AskSize(i));
    OneStepMore(n, b + [AskSize(i)], AskBytes(i));
    assert a + Served(i) == b + [AskSize(i)] + [AskBytes(i)];
  }

  /** Requests that come one after the other are safe. */
  lemma {:induction false} SerialIsOwn(n: nat, order: seq<nat>)
    requires forall j | 0 <= j < |order| :: order[j] < n
    ensures Legal(n, Serial(order)) && OwnStores(Serial(order))
  {
    if order != [] {
      SerialIsOwn(n, order[..|order| - 1]);
      OneServedMore(n, Serial(order[..|order| - 1]), order[|order| - 1]);
    }
  }

  /** Two requests that overlap: the second stores before the first is asked, which is given the
      second one's bytes. */
  lemma OverlapGivesForeignBytes()
    ensures var content: seq<Byte>, requests := [0, 1], [Request(1, 1), Request(0, 2)];
            var steps := [Fetch(0), StoreData(0), Fetch(1), StoreData(1), AskBytes(0)];
            Inside(content, requests) && Legal(2, steps) && !OwnStores(steps) &&
            Exec(content, requests, steps).data == [0, 1] &&
            Wanted(content, requests[0]) == [1]
  {
    var steps := [Fetch(0), StoreData(0), Fetch(1), StoreData(1), AskBytes(0)];
    var content: seq<Byte>, requests := [0, 1], [Request(1, 1), Request(0, 2)];
    var none: seq<Step> := [];
    assert steps[..4] == [Fetch(0), StoreData(0), Fetch(1), StoreData(1)];
    assert steps[..4][..3] == [Fetch(0), StoreData(0), Fetch(1)];
    assert steps[..4][..3][..2] == [Fetch(0), StoreData(0)];
    assert steps[..4][..3][..2][..1] == [Fetch(0)] && [Fetch(0)][..0] == none;
    assert Legal(2, steps[..4][..3][..2]);
    assert LastData(steps[..4]) == 1;
    assert !OwnAt(steps, 4);
    FieldsHoldLast(content, requests, steps[..4]);
  }
}
