/** kdataset push checks and uploads chunks in goroutines that share one variable for the
    answer of the check. */
module PushRaces {
  import opened ChunkedFiles

  /** The answer to "is the chunk there?" */
  datatype Answer = Answer(found: bool, size: nat)

  /** What the goroutine of chunk `i` does: ask, which writes the shared answer, and then act
      on whatever the shared answer is. */
  datatype Step = Check(i: nat) | Act(i: nat)

  datatype State = State(disk: Disk, resp: Answer)

  datatype Upload = Upload(path: string, data: seq<Byte>)

  /** Each goroutine asks once, and then acts once. */
  ghost predicate Legal(n: nat, steps: seq<Step>) {
    steps != [] ==>
      var init, s := steps[..|steps| - 1], steps[|steps| - 1];
      Legal(n, init) && s.i < n && s !in init && (s.Act? ==> Check(s.i) in init)
  }

  ghost function Exec(chunks: seq<Upload>, start: State, steps: seq<Step>): State
    requires Legal(|chunks|, steps)
  {
    if steps == [] then start
    else
      var before, s := Exec(chunks, start, steps[..|steps| - 1]), steps[|steps| - 1];
      var c := chunks[s.i];
      if s.Check? then
        before.(resp := if c.path in before.disk then Answer(true, |before.disk[c.path]|) else Answer(false, 0))
      else if !before.resp.found || before.resp.size != |c.data| then
        before.(disk := before.disk[c.path := c.data])
      else before
  }

  /** The chunk whose check came last. */
  ghost function LastChecked(steps: seq<Step>): int {
    if steps == [] then -1
    else if steps[|steps| - 1].Check? then steps[|steps| - 1].i
    else LastChecked(steps[..|steps| - 1])
  }

  /** Every goroutine acts on the answer to its own check. */
  ghost predicate OwnAnswers(steps: seq<Step>) {
    steps != [] ==>
      var init, s := steps[..|steps| - 1], steps[|steps| - 1];
      OwnAnswers(init) && (s.Act? ==> LastChecked(init) == s.i)
  }

  /** Paths are hashes of the data, and what is kept at the right size is right. */
  ghost predicate Sane(chunks: seq<Upload>, disk: Disk) {
    && (forall c, d | c in chunks && d in chunks :: c.path == d.path <==> c.data == d.data)
    && (forall c | c in chunks && c.path in disk && |disk[c.path]| == |c.data| :: disk[c.path] == c.data)
  }

  ghost predicate Kept(disk: Disk, c: Upload) {
    c.path in disk && disk[c.path] == c.data
  }

  /** Every chunk that was acted on is there. */
  ghost predicate AllSent(chunks: seq<Upload>, start: State, steps: seq<Step>)
    requires Legal(|chunks|, steps)
  {
    forall i: nat | i < |chunks| && Act(i) in steps :: Kept(Exec(chunks, start, steps).disk, chunks[i])
  }

  // ---- Own answers are enough

  lemma {:induction false} StaysSane(chunks: seq<Upload>, start: State, steps: seq<Step>)
    requires Legal(|chunks|, steps) && Sane(chunks, start.disk)
    ensures Sane(chunks, Exec(chunks, start, steps).disk)
  {
    if steps != [] {
      assert chunks[steps[|steps| - 1].i] in chunks;
      StaysSane(chunks, start, steps[..|steps| - 1]);
    }
  }

  /** A positive answer to the last check is still true when it is used. */
  lemma {:induction false} AnswerHolds(chunks: seq<Upload>, start: State, steps: seq<Step>)
    requires Legal(|chunks|, steps) && Sane(chunks, start.disk) && LastChecked(steps) >= 0
    ensures LastChecked(steps) < |chunks|
    ensures var s, c := Exec(chunks, start, steps), chunks[LastChecked(steps)];
            s.resp.found && s.resp.size == |c.data| ==> Kept(s.disk, c)
  {
    var init, last := steps[..|steps| - 1], steps[|steps| - 1];
    assert chunks[last.i] in chunks;
    StaysSane(chunks, start, init);
    if last.Act? {
      AnswerHolds(chunks, start, init);
      assert chunks[LastChecked(init)] in chunks;
    }
  }

  lemma {:induction false} OwnAnswersUploadAll(chunks: seq<Upload>, start: State, steps: seq<Step>, i: nat)
    requires Legal(|chunks|, steps) && Sane(chunks, start.disk) && OwnAnswers(steps)
    requires i < |chunks| && Act(i) in steps
    ensures Kept(Exec(chunks, start, steps).disk, chunks[i])
  {
    var init, last := steps[..|steps| - 1], steps[|steps| - 1];
    assert steps == init + [last];
    assert chunks[last.i] in chunks && chunks[i] in chunks;
    if Act(i) in init {
      OwnAnswersUploadAll(chunks, start, init, i);
    } else {
      AnswerHolds(chunks, start, init);
    }
  }

  // ---- And they are needed

  /** Chunk `i` is not acted on after its own check. */
  ghost predicate NotOnOwn(steps: seq<Step>, i: nat) {
    steps != [] ==>
      var init, s := steps[..|steps| - 1], steps[|steps| - 1];
      NotOnOwn(init, i) && (s == Act(i) ==> LastChecked(init) != i)
  }

  lemma {:induction false} NotYet(steps: seq<Step>, i: nat)
    requires Act(i) !in steps
    ensures NotOnOwn(steps, i)
  {
    if steps != [] {
      NotYet(steps[..|steps| - 1], i);
    }
  }

  lemma {:induction false} SomeForeign(n: nat, steps: seq<Step>) returns (i: nat)
    requires Legal(n, steps) && !OwnAnswers(steps)
    ensures i < n && Act(i) in steps && NotOnOwn(steps, i)
  {
    var init, last := steps[..|steps| - 1], steps[|steps| - 1];
    if OwnAnswers(init) {
      i := last.i;
      NotYet(init, i);
    } else {
      i := SomeForeign(n, init);
    }
  }

  /** A zero for all but one: no two chunks are alike, and all have the same size. */
  ghost function Marked(n: nat, i: nat): seq<Byte> {
    seq(n, k => if k == i then 1 else 0)
  }

  ghost function Named(i: nat): string {
    seq(i, _ => 'a')
  }

  ghost function Alike(n: nat): seq<Upload> {
    seq(n, i requires 0 <= i < n => Upload(Named(i), Marked(n, i)))
  }

  /** A disk with all chunks but chunk `i`. */
  ghost predicate AllBut(disk: Disk, n: nat, i: nat) {
    && Named(i) !in disk
    && forall j: nat | j < n && j != i :: Named(j) in disk && disk[Named(j)] == Marked(n, j)
  }

  ghost function Without(n: nat, i: nat): Disk {
    var others := set j {:trigger Named(j)} | 0 <= j < n && j != i :: Named(j);
    map p | p in others :: Marked(n, |p|)
  }

  lemma NamedApart(j: nat, k: nat)
    ensures Named(j) == Named(k) <==> j == k
  {
    assert |Named(j)| == j && |Named(k)| == k;
  }

  lemma MarkedApart(n: nat, j: nat, k: nat)
    requires j < n && k < n
    ensures Marked(n, j) == Marked(n, k) <==> j == k
  {
    assert Marked(n, j)[j] == 1 && (j != k ==> Marked(n, k)[j] == 0);
  }

  lemma WithoutIsAllBut(n: nat, i: nat)
    requires i < n
    ensures AllBut(Without(n, i), n, i)
  {
    forall j: nat | j < n && j != i ensures Named(j) in Without(n, i) && Without(n, i)[Named(j)] == Marked(n, j) {
      assert |Named(j)| == j;
    }
    forall j: nat | j < n && j != i ensures Named(j) != Named(i) {
      NamedApart(i, j);
    }
  }

  lemma AlikeIsSane(n: nat, i: nat, disk: Disk)
    requires i < n && AllBut(disk, n, i)
    ensures Sane(Alike(n), disk)
  {
    forall c, d | c in Alike(n) && d in Alike(n) ensures c.path == d.path <==> c.data == d.data {
      var j :| 0 <= j < n && Alike(n)[j] == c;
      var k :| 0 <= k < n && Alike(n)[k] == d;
      NamedApart(j, k);
      MarkedApart(n, j, k);
    }
    forall c | c in Alike(n) && c.path in disk ensures disk[c.path] == c.data {
      var j :| 0 <= j < n && Alike(n)[j] == c;
      assert j != i;
    }
  }

  /** If chunk `i` is acted on after the check of another chunk only, it is never sent: the other
      one is there, at the same size. */
  lemma {:induction false} NeverSent(n: nat, start: State, steps: seq<Step>, i: nat)
    requires i < n && Legal(n, steps) && NotOnOwn(steps, i) && AllBut(start.disk, n, i)
    ensures var b, m := Exec(Alike(n), start, steps), LastChecked(steps);
            && AllBut(b.disk, n, i)
            && -1 <= m < n
            && (m >= 0 ==> b.resp == if m == i then Answer(false, 0) else Answer(true, n))
            && (m == -1 ==> forall j: nat :: Check(j) !in steps)
  {
    if steps != [] {
      var init, last := steps[..|steps| - 1], steps[|steps| - 1];
      assert steps == init + [last];
      NeverSent(n, start, init, i);
      var b, c := Exec(Alike(n), start, init), Alike(n)[last.i];
      assert c == Upload(Named(last.i), Marked(n, last.i)) && |c.data| == n;
      if last.Act? {
        assert LastChecked(init) >= 0;
        assert last.i == i ==> b.resp == Answer(true, n);
        PutAgain(b.disk, n, i, last.i);
      }
    }
  }

  lemma PutAgain(disk: Disk, n: nat, i: nat, j: nat)
    requires AllBut(disk, n, i) && j < n
    ensures j != i ==> disk[Named(j) := Marked(n, j)] == disk
  {
  }

  /** A schedule sends every chunk, whatever the chunks and whatever is there, exactly if every
      goroutine acts on the answer to its own check. */
  lemma SafeIffOwnAnswers(n: nat, steps: seq<Step>)
    requires Legal(n, steps)
    ensures OwnAnswers(steps) <==>
            forall chunks, start: State | |chunks| == n && Sane(chunks, start.disk) :: AllSent(chunks, start, steps)
  {
    if OwnAnswers(steps) {
      forall chunks, start: State | |chunks| == n && Sane(chunks, start.disk) ensures AllSent(chunks, start, steps) {
        forall i: nat | i < n && Act(i) in steps ensures Kept(Exec(chunks, start, steps).disk, chunks[i]) {
          OwnAnswersUploadAll(chunks, start, steps, i);
        }
      }
    } else {
      var i := SomeForeign(n, steps);
      var start := State(Without(n, i), Answer(false, 0));
      WithoutIsAllBut(n, i);
      AlikeIsSane(n, i, start.disk);
      NeverSent(n, start, steps, i);
      assert !Kept(Exec(Alike(n), start, steps).disk, Alike(n)[i]);
      assert !AllSent(Alike(n), start, steps);
    }
  }

  // ---- Two schedules

  /** One goroutine at a time. */
  ghost function Serial(n: nat): seq<Step> {
    if n == 0 then [] else Serial(n - 1) + [Check(n - 1), Act(n - 1)]
  }

  lemma {:induction false} SerialIsOwn(n: nat, m: nat)
    requires n <= m
    ensures Legal(m, Serial(n)) && OwnAnswers(Serial(n)) && forall s | s in Serial(n) :: s.i < n
  {
    if n > 0 {
      var a, b := Serial(n - 1), Serial(n - 1) + [Check(n - 1)];
      SerialIsOwn(n - 1, m);
      assert b[..|b| - 1] == a;
      assert Serial(n) == b + [Act(n - 1)];
      assert Serial(n)[..|Serial(n)| - 1] == b;
    }
  }

  /** With two goroutines the answer about one chunk can be taken for the other's: chunk "a"
      is never sent, although it is recorded. */
  lemma SharedAnswerLosesChunk()
    ensures var chunks := [Upload("a", [1]), Upload("b", [2])];
            var start := State(map["b" := [2]], Answer(false, 0));
            var steps := [Check(0), Check(1), Act(0), Act(1)];
            Sane(chunks, start.disk) && Legal(2, steps) && !OwnAnswers(steps) &&
            "a" !in Exec(chunks, start, steps).disk
  {
    var chunks := [Upload("a", [1]), Upload("b", [2])];
    var start := State(map["b" := [2]], Answer(false, 0));
    var steps := [Check(0), Check(1), Act(0), Act(1)];
    assert "a"[0] != "b"[0];
    var three, two, one := [Check(0), Check(1), Act(0)], [Check(0), Check(1)], [Check(0)];
    var none: seq<Step> := [];
    assert steps[..3] == three && three[..2] == two && two[..1] == one && one[..0] == none;
    assert Legal(2, one) && Legal(2, two) && Legal(2, three);
    assert Exec(chunks, start, one).disk == start.disk;
    assert Exec(chunks, start, two) == State(start.disk, Answer(true, 1));
    assert Exec(chunks, start, three) == State(start.disk, Answer(true, 1));
    assert LastChecked(two) == 1 && !OwnAnswers(three);
  }
}
