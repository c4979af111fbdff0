/** The space call of src/shared/usbif_pcm_sink.c. It loads the head and then the
    tail without the lock, so between the two loads other calls may publish and
    the consumer may drain: what its answer then is, exactly, and when it is right. */
module SinkSpace {
  import opened Bytes
  import opened ByteRing
  import opened SinkGate
  import opened SinkGuarantees
  import R = RingSteps

  // ---- the indices count bytes

  lemma StepCounting(s: Sink, a: Action)
    requires Inv(s) && Enabled(s, a) && R.Counting(s.g.ring)
    ensures R.Counting(Apply(s, a).g.ring)
  {
    hide R.Inv, R.Counting;
    match a
    case Push(t) =>
      assert CallOk(s.g, t, s.calls[t]);
      R.StepCounting(s.g.ring, R.PushLoad(s.calls[t].req.data[..s.calls[t].pc.n]));
    case Copy(_, i) => R.StepCounting(s.g.ring, R.PushCopy(i));
    case Store(_) => R.StepCounting(s.g.ring, R.PushStore);
    case Consume(r) => R.StepCounting(s.g.ring, r);
    case SetUp(storage) => FreshCounting(storage);
    case _ =>
  }

  lemma FreshCounting(storage: seq<byte>)
    ensures R.Counting(R.State(storage, 0, 0, R.Resting, R.Waiting, [], []))
  {
  }

  lemma {:induction false} RunCounting(s: Sink, acts: seq<Action>)
    requires Inv(s) && Runs(s, acts) && R.Counting(s.g.ring)
    ensures R.Counting(End(s, acts).g.ring)
    decreases |acts|
  {
    hide R.Counting, Inv;
    if acts != [] {
      StepInv(s, acts[0]);
      StepCounting(s, acts[0]);
      RunCounting(Apply(s, acts[0]), acts[1..]);
    }
  }

  /** After any run of the sink the ring's indices are the bytes published and
      popped, counted over two laps. */
  lemma ReachableCounting(e: Sink)
    requires Reachable(e)
    ensures R.Counting(e.g.ring)
  {
    var s, acts :| Init(s) && Runs(s, acts) && End(s, acts) == e;
    InitInv(s);
    RunCounting(s, acts);
  }

  // ---- between the two loads

  /** What a call sees of the gate while others step: it stays where it is, the
      ring is not replaced, bytes are only added, and the head moves only when
      another call stores it. */
  ghost predicate Meanwhile(s: Sink, f: Sink, t: nat, stored: bool) {
    && t in s.calls && t in f.calls && f.calls[t] == s.calls[t]
    && |f.g.ring.buf| == |s.g.ring.buf| && f.g.frame == s.g.frame
    && |s.g.ring.popped| <= |f.g.ring.popped|
    && (!stored ==> f.g.ring.published == s.g.ring.published)
  }

  lemma StepMeanwhile(s: Sink, a: Action, t: nat)
    requires Inv(s) && Enabled(s, a) && t in s.calls && Past(s.calls[t].pc) && Caller(a) != By(t)
    ensures Meanwhile(s, Apply(s, a), t, a.Store?)
  {
    assert s.g.owner.Open? || s.g.owner.Closing? by { assert CallOk(s.g, t, s.calls[t]); }
    hide Inv, R.Apply, R.Enabled;
    match a
    case Push(u) => R.StepGrows(s.g.ring, R.PushLoad(s.calls[u].req.data[..s.calls[u].pc.n]));
    case Copy(_, i) => R.StepGrows(s.g.ring, R.PushCopy(i));
    case Store(_) => R.StepGrows(s.g.ring, R.PushStore);
    case Consume(r) => R.StepGrows(s.g.ring, r);
    case _ =>
  }

  /** The steps of others, none of them `t`'s own. */
  ghost predicate Others(acts: seq<Action>, t: nat) {
    forall a | a in acts :: Caller(a) != By(t)
  }

  /** Some call published in these steps. */
  ghost predicate Stores(acts: seq<Action>) {
    exists a :: a in acts && a.Store?
  }

  lemma {:induction false} RunMeanwhile(s: Sink, acts: seq<Action>, t: nat)
    requires Inv(s) && Runs(s, acts) && Others(acts, t) && t in s.calls && Past(s.calls[t].pc)
    ensures Meanwhile(s, End(s, acts), t, Stores(acts))
    decreases |acts|
  {
    if acts != [] {
      var a, rest := acts[0], acts[1..];
      assert a in acts && forall b | b in rest :: b in acts;
      StepMeanwhile(s, a, t);
      StepInv(s, a);
      hide Inv, Enabled, Apply;
      RunMeanwhile(Apply(s, a), rest, t);
    }
  }

  // ---- the answer

  /** From the head's load in `e` to the tail's in `f`, the other callers, the
      owner and the consumer taking `acts` between them. */
  ghost predicate SpaceLoads(e: Sink, acts: seq<Action>, f: Sink, t: nat) {
    && Reachable(e) && Enabled(e, LoadHead(t)) && e.calls[t].req.Space?
    && Others(acts, t) && Runs(Apply(e, LoadHead(t)), acts) && End(Apply(e, LoadHead(t)), acts) == f
    && e.g.frame + |e.g.ring.buf| <= TWO32 / 2
  }

  lemma LoadHeadWaits(e: Sink, t: nat)
    requires Inv(e) && Enabled(e, LoadHead(t))
    ensures var s := Apply(e, LoadHead(t));
            && Inv(s) && s.g == e.g && t in e.calls && t in s.calls
            && s.calls[t] == e.calls[t].(pc := HeadSeen(e.g.ring.head))
  {
    LoadHeadInv(e, t);
    hide Inv;
  }

  /** What holds of the counts and of the call at the two loads. */
  lemma BothLoads(e: Sink, acts: seq<Action>, f: Sink, t: nat)
    requires SpaceLoads(e, acts, f, t)
    ensures t in e.calls && t in f.calls && f.calls[t].req.Space?
    ensures f.calls[t] == e.calls[t].(pc := HeadSeen(e.g.ring.head))
    ensures f.g.frame == e.g.frame && |f.g.ring.buf| == |e.g.ring.buf| && e.g.frame + |e.g.ring.buf| <= TWO32 / 2
    ensures |e.g.ring.popped| <= |f.g.ring.popped| && (!Stores(acts) ==> f.g.ring.published == e.g.ring.published)
    ensures Inv(e) && R.Counting(e.g.ring) && Inv(f) && R.Counting(f.g.ring)
  {
    ReachableInv(e);
    ReachableCounting(e);
    hide Reachable, Inv, R.Counting;
    LoadHeadWaits(e, t);
    var s := Apply(e, LoadHead(t));
    hide Apply, Enabled;
    RunInv(s, acts);
    RunCounting(s, acts);
    RunMeanwhile(s, acts, t);
  }

  lemma InvCounts(e: Sink)
    requires Inv(e) && R.Counting(e.g.ring)
    ensures var size, p, c := |e.g.ring.buf|, |e.g.ring.published|, |e.g.ring.popped|;
            && size < TWO32 / 2 && p == c + R.Used(e.g.ring) && c <= p <= c + size
            && (size == 0 ==> e.g.ring.head == e.g.ring.tail == p == c == 0)
            && (size > 0 ==> e.g.ring.head == p % (2 * size) && e.g.ring.tail == c % (2 * size))
  {
  }

  /** The tail's load makes `r` the answer. */
  ghost predicate Returns(f: Sink, t: nat, r: int) {
    Enabled(f, LoadTail(t)) && CallAt(Apply(f, LoadTail(t)), t, Leaving(r))
  }

  lemma LoadTailAnswers(f: Sink, t: nat, head: nat)
    requires t in f.calls && f.calls[t].req.Space? && f.calls[t].pc == HeadSeen(head)
    ensures Returns(f, t, Signed(Whole(Room32(|f.g.ring.buf|, head, f.g.ring.tail), f.g.frame)))
  {
  }

  /** With P bytes published at the head's load and C popped at the tail's, the
      answer is negative exactly when C is past P by some number of bytes that
      is, modulo twice the size, between 0 and the size. Otherwise it is the whole
      frames of a number of bytes up to the size: the size less P - C when C is not
      past P; all of it when C is past P by a multiple of twice the size; and
      what C is past P by, modulo twice the size, less the size when that is not less. */
  lemma SpaceAnswer(e: Sink, acts: seq<Action>, f: Sink, t: nat) returns (r: int)
    requires SpaceLoads(e, acts, f, t)
    ensures Returns(f, t, r)
    ensures SpaceAnswers(|e.g.ring.buf|, e.g.frame, |e.g.ring.published|, |f.g.ring.popped|, r)
  {
    hide *;
    BothLoads(e, acts, f, t);
    LoadTailAnswers(f, t, e.g.ring.head);
    r := Signed(Whole(Room32(|f.g.ring.buf|, e.g.ring.head, f.g.ring.tail), f.g.frame));
    InvCounts(e);
    InvCounts(f);
    SpaceMath(|e.g.ring.buf|, |e.g.ring.published|, |f.g.ring.popped|, e.g.ring.head, f.g.ring.tail, e.g.frame);
  }

  ghost predicate SpaceAnswers(size: nat, frame: nat, p: nat, c: nat, r: int) {
    var past := if size == 0 then c - p else (c - p) % (2 * size);
    && (r < 0 <==> c > p && 0 < past < size)
    && (c <= p ==> p - c <= size && r == Whole(size - (p - c), frame))
    && (c > p && past == 0 ==> r == Whole(size, frame))
    && (c > p && past >= size ==> r == Whole(past - size, frame))
  }

  lemma SpaceMath(size: nat, p: nat, c: nat, head: nat, tail: nat, frame: nat)
    requires size < TWO32 / 2 && frame + size <= TWO32 / 2 && p - c <= size
    requires size > 0 ==> head == p % (2 * size) && tail == c % (2 * size)
    requires size == 0 ==> p == c && head == tail == 0
    ensures SpaceAnswers(size, frame, p, c, Signed(Whole(Room32(size, head, tail), frame)))
  {
    hide Whole, Signed, Room32, Span;
    if size == 0 {
      EmptySpan();
    } else {
      SpanOfCounts(size, p, c);
      SpanWays(size, p, c);
    }
    SignedRoom(size, head, tail, frame);
  }

  /** How far the tail is behind the head, over two laps, when it is and when it
      has passed it. */
  lemma SpanWays(size: nat, p: nat, c: nat)
    requires 0 < size && p - c <= size
    ensures var span, past := (p - c) % (2 * size), (c - p) % (2 * size);
            && 0 <= span < 2 * size
            && (c <= p ==> span == p - c)
            && (c > p ==> span == if past == 0 then 0 else 2 * size - past)
  {
    var lap := 2 * size;
    var past := (c - p) % lap;
    if c <= p {
      DivModOf(p - c, lap, 0, p - c);
    } else if past == 0 {
      DivModOf(p - c, lap, -((c - p) / lap), 0);
    } else {
      DivModOf(p - c, lap, -((c - p) / lap) - 1, lap - past);
    }
  }

  lemma EmptySpan()
    ensures Span(0, 0, 0) == 0
  {
  }

  /** The room in 32 bits, cut to frames and handed back as an int. */
  lemma SignedRoom(size: nat, head: nat, tail: nat, frame: nat)
    requires size < TWO32 / 2 && frame + size <= TWO32 / 2 && 0 <= Span(size, head, tail) <= 2 * size
    ensures var r, span := Signed(Whole(Room32(size, head, tail), frame)), Span(size, head, tail);
            && (span <= size ==> 0 <= r <= size && r == Whole(size - span, frame))
            && (span > size ==> r < 0)
  {
    var span := Span(size, head, tail);
    assert Room32(size, head, tail) == if span <= size then size - span else TWO32 + size - span;
    hide Whole, Span;
  }

  /** What a caller can arrange: if no other call publishes between the two loads,
      as when space() and write() are called by one task, the answer is exactly the
      whole frames of the room there is at the second load. */
  lemma SpaceOfSoleWriter(e: Sink, acts: seq<Action>, f: Sink, t: nat)
    requires SpaceLoads(e, acts, f, t) && !Stores(acts)
    ensures 0 <= R.Used(f.g.ring) <= |f.g.ring.buf|
    ensures Returns(f, t, Whole(|f.g.ring.buf| - R.Used(f.g.ring), f.g.frame))
  {
    hide *;
    BothLoads(e, acts, f, t);
    InvCounts(f);
    var r := SpaceAnswer(e, acts, f, t);
    NotPast(|e.g.ring.buf|, e.g.frame, |e.g.ring.published|, |f.g.ring.popped|, r);
  }

  lemma NotPast(size: nat, frame: nat, p: nat, c: nat, r: int)
    requires SpaceAnswers(size, frame, p, c, r) && c <= p
    ensures p - c <= size && r == Whole(size - (p - c), frame)
  {
  }

  // ---- a run with a negative answer

  /** A space call of the first stream has seen head 0 on a four-byte ring whose
      indices and try-lock are now as given. */
  ghost predicate SpaceMidway(e: Sink, head: nat, tail: nat) {
    && e.g.owner.Open? && e.g.live == 1 && e.g.frame == 1 && !e.g.busy && |e.g.ring.buf| == 4
    && e.g.ring.head == head && e.g.ring.tail == tail && e.g.ring.producer.Resting? && e.g.ring.consumer.Waiting?
    && e.g.ended == map[] && 0 in e.calls && e.calls[0] == Call(1, Space, HeadSeen(0))
  }

  lemma FourBytesOpen(s: Sink) returns (e: Sink)
    requires Init(s)
    ensures Reachable(e) && e.g.owner.Open? && e.g.live == 1 && e.g.frame == 1 && !e.g.busy
    ensures e.g.ring == R.State([0, 0, 0, 0], 0, 0, R.Resting, R.Waiting, [], []) && e.g.ended == map[]
            && e.calls == map[]
  {
    assert Runs(s, []) && End(s, []) == s;
    e := Next(s, SetUp([0, 0, 0, 0]));
    e := Next(e, OpenPrepare(1));
    e := Next(e, OpenPublish);
  }

  lemma SpaceLoadsHead(s: Sink) returns (e: Sink)
    requires Init(s)
    ensures Reachable(e) && SpaceMidway(e, 0, 0) && 1 !in e.calls
  {
    e := FourBytesOpen(s);
    e := Next(e, Enter(0, 1, Space));
    e := Next(e, Check(0));
    e := Next(e, LoadHead(0));
  }

  lemma WriteEnters(e0: Sink) returns (e: Sink)
    requires Reachable(e0) && SpaceMidway(e0, 0, 0) && 1 !in e0.calls
    ensures Reachable(e) && SpaceMidway(e, 0, 0)
    ensures 1 in e.calls && e.calls[1] == Call(1, Write([7]), Inside)
  {
    e := Next(e0, Enter(1, 1, Write([7])));
    e := Next(e, Check(1));
  }

  lemma WriteLocks(e0: Sink) returns (e: Sink)
    requires Reachable(e0) && SpaceMidway(e0, 0, 0) && 1 in e0.calls && e0.calls[1] == Call(1, Write([7]), Inside)
    ensures Reachable(e) && WriteAt(e, Sized(1)) && e.g.ring.producer.Resting?
  {
    e := Next(e0, TryLock(1));
    e := Next(e, LoadHead(1));
    e := Next(e, LoadTail(1));
  }

  /** The indices are as at the start, the lock taken, and call 1 is at `pc`. */
  ghost predicate WriteAt(e: Sink, pc: Pc) {
    && SpaceMidway(e.(g := e.g.(busy := false, ring := e.g.ring.(producer := R.Resting))), 0, 0)
    && 1 in e.calls && e.calls[1] == Call(1, Write([7]), pc)
  }

  lemma WriteCopies(e0: Sink) returns (e: Sink)
    requires Reachable(e0) && WriteAt(e0, Sized(1)) && e0.g.ring.producer.Resting?
    ensures Reachable(e) && WriteAt(e, Pushing(1)) && e.g.ring.producer == R.Copying([7], {0})
  {
    e := Next(e0, Push(1));
    e := Next(e, Copy(1, 0));
  }

  lemma WritePublishes(e0: Sink) returns (e: Sink)
    requires Reachable(e0) && WriteAt(e0, Pushing(1)) && e0.g.ring.producer == R.Copying([7], {0})
    ensures Reachable(e) && SpaceMidway(e, 1, 0)
  {
    e := Next(e0, Store(1));
    e := Next(e, Unlock(1));
  }

  lemma ConsumerDrains(e0: Sink) returns (e: Sink)
    requires Reachable(e0) && SpaceMidway(e0, 1, 0)
    ensures Reachable(e) && SpaceMidway(e, 1, 1)
  {
    assert e0.g.alive by { ReachableInv(e0); }
    e := Next(e0, Consume(R.PopLoad(1)));
    e := Next(e, Consume(R.PopCopy(0)));
    e := Next(e, Consume(R.PopStore));
  }

  lemma SpaceLoadsTail(e0: Sink) returns (e: Sink)
    requires Reachable(e0) && SpaceMidway(e0, 1, 1)
    ensures Reachable(e) && e.g.owner.Open? && CallAt(e, 0, Leaving(-3)) && e.calls[0].req.Space?
  {
    e := Next(e0, LoadTail(0));
  }

  /** Such a run: a one-byte write is published and drained between the two
      loads, and the space call answers -3 while its stream is open. */
  lemma SpaceGoesNegative(s: Sink) returns (e: Sink)
    requires Init(s)
    ensures Reachable(e) && e.g.owner.Open? && CallAt(e, 0, Leaving(-3)) && e.calls[0].req.Space?
  {
    hide *;
    e := SpaceLoadsHead(s);
    e := WriteEnters(e);
    e := WriteLocks(e);
    e := WriteCopies(e);
    e := WritePublishes(e);
    e := ConsumerDrains(e);
    e := SpaceLoadsTail(e);
  }
}
