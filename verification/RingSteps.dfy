/** The byte ring of src/shared/usbif_byte_ring.c as two sides really run it: each
    load of the other side's index, each byte of a copy (in any order) and each
    index store is one step, and the two sides' steps interleave freely. */
module RingSteps {
  import opened Bytes
  import opened ByteRing

  /** A push between its loads and its store, with the bytes it decided to take
      and the ones already copied. */
  datatype Producer = Resting | Copying(data: seq<byte>, done: set<nat>)

  /** A pop between its loads and its store, with the bytes copied out so far. */
  datatype Consumer = Waiting | Reading(n: nat, got: map<nat, byte>)

  /** `published` and `popped` are histories: all bytes any store of `head` made
      visible, and all bytes finished pops returned. */
  datatype State = State(buf: seq<byte>, head: nat, tail: nat, producer: Producer, consumer: Consumer,
                         published: seq<byte>, popped: seq<byte>)

  datatype Action =
    | PushLoad(data: seq<byte>)
    | PushCopy(i: nat)
    | PushStore
    | PopLoad(max: nat)
    | PopCopy(i: nat)
    | PopStore

  ghost predicate Init(s: State) {
    s.head == 0 && s.tail == 0 && s.producer == Resting && s.consumer == Waiting && s.published == s.popped == []
  }

  ghost function Used(s: State): int {
    Span(|s.buf|, s.head, s.tail)
  }

  /** The bytes queued, in order. */
  ghost function Queue(s: State): seq<byte>
    requires Inv(s)
  {
    s.published[|s.popped|..]
  }

  ghost predicate WellFormed(s: State) {
    IndexOk(|s.buf|, s.head) && IndexOk(|s.buf|, s.tail)
  }

  /** The copies are complete: every byte of the push, or of the pop, is across. */
  ghost predicate Copied(data: seq<byte>, done: set<nat>) {
    forall i: nat | i < |data| :: i in done
  }

  ghost predicate Enabled(s: State, a: Action) {
    WellFormed(s) &&
    match a
    case PushLoad(_) => s.producer.Resting?
    case PushCopy(i) => s.producer.Copying? && i < |s.producer.data| <= |s.buf|
    case PushStore => s.producer.Copying? && |s.producer.data| <= |s.buf| && Copied(s.producer.data, s.producer.done)
    case PopLoad(_) => s.consumer.Waiting?
    case PopCopy(i) => s.consumer.Reading? && i < s.consumer.n <= |s.buf|
    case PopStore => s.consumer.Reading? && s.consumer.n <= |s.buf|
                     && forall i: nat | i < s.consumer.n :: i in s.consumer.got
  }

  ghost function Apply(s: State, a: Action): State
    requires Enabled(s, a)
  {
    var size := |s.buf|;
    match a
    case PushLoad(data) =>
      var room := size - Used(s);
      if room <= 0 || data == [] then s else s.(producer := Copying(data[..Min(|data|, room)], {}))
    case PushCopy(i) =>
      s.(buf := s.buf[Cell(size, s.head, i) := s.producer.data[i]],
         producer := s.producer.(done := s.producer.done + {i}))
    case PushStore =>
      s.(head := Advance(size, s.head, |s.producer.data|), producer := Resting,
         published := s.published + s.producer.data)
    case PopLoad(max) =>
      if Used(s) <= 0 || max == 0 then s else s.(consumer := Reading(Min(max, Used(s)), map[]))
    case PopCopy(i) =>
      s.(consumer := s.consumer.(got := s.consumer.got[i := s.buf[Cell(size, s.tail, i)]]))
    case PopStore =>
      s.(tail := Advance(size, s.tail, s.consumer.n), consumer := Waiting, popped := s.popped + Returned(s.consumer))
  }

  /** What a finished pop hands back. */
  ghost function Returned(c: Consumer): (out: seq<byte>)
    requires c.Reading? && forall i: nat | i < c.n :: i in c.got
    ensures |out| == c.n && forall i | 0 <= i < c.n :: out[i] == c.got[i]
  {
    seq(c.n, i requires 0 <= i < c.n => c.got[i])
  }

  ghost predicate Inv(s: State) {
    && WellFormed(s)
    && 0 <= Used(s) <= |s.buf|
    && |s.published| == |s.popped| + Used(s)
    && s.popped == s.published[..|s.popped|]
    && (forall i: nat | i < Used(s) :: s.buf[Cell(|s.buf|, s.tail, i)] == s.published[|s.popped| + i])
    && ProducerInv(s)
    && ConsumerInv(s)
  }

  ghost predicate ProducerInv(s: State)
    requires WellFormed(s)
  {
    s.producer.Copying? ==>
      && 0 < |s.producer.data| && Used(s) + |s.producer.data| <= |s.buf|
      && forall i: nat | i < |s.producer.data| && i in s.producer.done ::
           s.buf[Cell(|s.buf|, s.head, i)] == s.producer.data[i]
  }

  ghost predicate ConsumerInv(s: State)
    requires WellFormed(s) && |s.popped| + Used(s) <= |s.published|
  {
    s.consumer.Reading? ==>
      && 0 < s.consumer.n <= Used(s)
      && forall i: nat | i < s.consumer.n && i in s.consumer.got ::
           s.consumer.got[i] == s.published[|s.popped| + i]
  }

  lemma InitInv(s: State)
    requires Init(s)
    ensures Inv(s) && Queue(s) == []
  {
  }

  /** The cells past `head` are the ones past the queue. */
  lemma HeadCells(s: State)
    requires WellFormed(s) && 0 <= Used(s) <= |s.buf|
    ensures forall i: nat | Used(s) + i < |s.buf| :: Cell(|s.buf|, s.head, i) == Cell(|s.buf|, s.tail, Used(s) + i)
  {
  }

  /** The region being written and the region being read have no cell in common. */
  lemma RegionsDisjoint(s: State, i: nat, j: nat)
    requires Inv(s) && s.producer.Copying? && s.consumer.Reading?
    requires i < |s.producer.data| && j < s.consumer.n
    ensures Cell(|s.buf|, s.head, i) != Cell(|s.buf|, s.tail, j)
  {
    HeadCells(s);
    CellInjective(|s.buf|, s.tail, Used(s) + i, j);
  }

  /** A push that fits the room takes all it is given. */
  lemma PushLoadInv(s: State, data: seq<byte>)
    requires Inv(s) && Enabled(s, PushLoad(data)) && 0 < |data| <= |s.buf| - Used(s)
    ensures Apply(s, PushLoad(data)) == s.(producer := Copying(data, {})) && Inv(Apply(s, PushLoad(data)))
  {
    assert data[..|data|] == data;
  }

  lemma PushCopyInv(s: State, i: nat)
    requires Inv(s) && Enabled(s, PushCopy(i))
    ensures Inv(Apply(s, PushCopy(i)))
  {
    var s' := Apply(s, PushCopy(i));
    var size := |s.buf|;
    HeadCells(s);
    forall j: nat | j < Used(s)
      ensures s'.buf[Cell(size, s.tail, j)] == s.buf[Cell(size, s.tail, j)]
    {
      CellInjective(size, s.tail, Used(s) + i, j);
    }
    forall j: nat | j < |s.producer.data| && j != i
      ensures s'.buf[Cell(size, s.head, j)] == s.buf[Cell(size, s.head, j)]
    {
      CellInjective(size, s.head, i, j);
    }
    assert ConsumerInv(s');
  }

  lemma PushStoreInv(s: State)
    requires Inv(s) && Enabled(s, PushStore)
    ensures Inv(Apply(s, PushStore))
  {
    var s' := Apply(s, PushStore);
    AdvanceShifts(|s.buf|, s.head, |s.producer.data|);
    AdvanceShifts(|s.buf|, s.tail, Used(s));
    assert Used(s') == Used(s) + |s.producer.data|;
    assert s'.popped == s'.published[..|s'.popped|];
    PushStoreWindow(s);
  }

  lemma PushStoreWindow(s: State)
    requires Inv(s) && Enabled(s, PushStore)
    ensures forall i: nat | i < Used(s) + |s.producer.data| ::
              s.buf[Cell(|s.buf|, s.tail, i)] == (s.published + s.producer.data)[|s.popped| + i]
  {
    HeadCells(s);
    forall i: nat | i < Used(s) + |s.producer.data|
      ensures s.buf[Cell(|s.buf|, s.tail, i)] == (s.published + s.producer.data)[|s.popped| + i]
    {
      if i >= Used(s) {
        assert Cell(|s.buf|, s.head, i - Used(s)) == Cell(|s.buf|, s.tail, i);
      }
    }
  }

  lemma PopStoreInv(s: State)
    requires Inv(s) && Enabled(s, PopStore)
    ensures Inv(Apply(s, PopStore))
  {
    AdvanceShifts(|s.buf|, s.tail, s.consumer.n);
    assert Returned(s.consumer) == s.published[|s.popped|..|s.popped| + s.consumer.n];
  }

  /** Every step of either side keeps the invariant. */
  lemma StepInv(s: State, a: Action)
    requires Inv(s) && Enabled(s, a)
    ensures Inv(Apply(s, a))
  {
    match a
    case PushLoad(data) =>
    case PushCopy(i) => PushCopyInv(s, i);
    case PushStore => PushStoreInv(s);
    case PopLoad(max) =>
    case PopCopy(i) =>
    case PopStore => PopStoreInv(s);
  }

  /** The indices count, over two laps, what was published and popped. */
  ghost predicate Counting(s: State) {
    var size := |s.buf|;
    if size == 0 then s.head == s.tail == 0 && s.published == s.popped == []
    else s.head == |s.published| % (2 * size) && s.tail == |s.popped| % (2 * size)
  }

  lemma StepCounting(s: State, a: Action)
    requires Inv(s) && Enabled(s, a) && Counting(s)
    ensures Counting(Apply(s, a))
  {
    match a
    case PushStore => AdvanceCounts(|s.buf|, |s.published|, |s.producer.data|);
    case PopStore => AdvanceCounts(|s.buf|, |s.popped|, s.consumer.n);
    case _ =>
  }

  lemma StepGrows(s: State, a: Action)
    requires Enabled(s, a)
    ensures |Apply(s, a).buf| == |s.buf| && |s.popped| <= |Apply(s, a).popped|
    ensures !a.PushStore? ==> Apply(s, a).published == s.published
  {
  }

  // ---- whole runs

  ghost predicate Runs(s: State, acts: seq<Action>)
    decreases |acts|
  {
    acts == [] || (Enabled(s, acts[0]) && Runs(Apply(s, acts[0]), acts[1..]))
  }

  ghost function End(s: State, acts: seq<Action>): State
    requires Runs(s, acts)
    decreases |acts|
  {
    if acts == [] then s else End(Apply(s, acts[0]), acts[1..])
  }

  /** A byte queue bounded by `size`: what the ring must look like from outside. */
  datatype FifoOp = Enqueue(data: seq<byte>) | Dequeue(out: seq<byte>)

  ghost predicate FifoRun(size: nat, q: seq<byte>, ops: seq<FifoOp>, q': seq<byte>)
    decreases |ops|
  {
    if ops == [] then q == q'
    else match ops[0]
      case Enqueue(d) => |q| + |d| <= size && FifoRun(size, q + d, ops[1..], q')
      case Dequeue(out) => out <= q && FifoRun(size, q[|out|..], ops[1..], q')
  }

  /** The queue operations of a run, each at the instant its index store becomes
      visible. */
  ghost function Linearization(s: State, acts: seq<Action>): seq<FifoOp>
    requires Runs(s, acts)
    decreases |acts|
  {
    if acts == [] then [] else
    var op :=
      match acts[0]
      case PushStore => [Enqueue(s.producer.data)]
      case PopStore => [Dequeue(Returned(s.consumer))]
      case _ => [];
    op + Linearization(Apply(s, acts[0]), acts[1..])
  }

  /** A step other than the two stores leaves the queue as it was; the stores
      append what the push copied, and remove from the front what the pop
      returned. */
  lemma StepQueue(s: State, a: Action)
    requires Inv(s) && Enabled(s, a)
    ensures Inv(Apply(s, a))
    ensures a.PushStore? ==> Queue(Apply(s, a)) == Queue(s) + s.producer.data
                             && |Queue(s)| + |s.producer.data| <= |s.buf|
    ensures a.PopStore? ==> Queue(s) == Returned(s.consumer) + Queue(Apply(s, a))
    ensures !a.PushStore? && !a.PopStore? ==> Queue(Apply(s, a)) == Queue(s)
  {
    StepInv(s, a);
    if a.PopStore? {
      assert Returned(s.consumer) == Queue(s)[..s.consumer.n];
    }
  }

  /** For every interleaving of the two sides, at every ring size: the run is a
      run of the bounded queue. */
  lemma {:induction false} RunsLinearize(s: State, acts: seq<Action>)
    requires Inv(s) && Runs(s, acts)
    ensures Inv(End(s, acts)) && |End(s, acts).buf| == |s.buf|
    ensures FifoRun(|s.buf|, Queue(s), Linearization(s, acts), Queue(End(s, acts)))
    decreases |acts|
  {
    if acts != [] {
      var s' := Apply(s, acts[0]);
      StepQueue(s, acts[0]);
      RunsLinearize(s', acts[1..]);
      var rest := Linearization(s', acts[1..]);
      var all := Linearization(s, acts);
      match acts[0]
      case PushStore => assert all[1..] == rest;
      case PopStore =>
        assert all[1..] == rest;
        assert Queue(s)[s.consumer.n..] == Queue(s');
      case _ => assert all == rest;
    }
  }

  /** From an empty ring, what the pops returned followed by what is still queued
      is everything the pushes published. */
  lemma NothingLostOrReordered(s: State, acts: seq<Action>)
    requires Init(s) && Runs(s, acts)
    ensures var e := End(s, acts); Inv(e) && e.popped + Queue(e) == e.published && |Queue(e)| <= |s.buf|
  {
    InitInv(s);
    RunsLinearize(s, acts);
  }

  /** A push takes `min(len, free)` of the free bytes there were when it loaded
      the tail, so a push of no more than a room read earlier by the same side is
      never short: the consumer can only have made more. */
  lemma PushNeverShort(s: State, acts: seq<Action>, data: seq<byte>)
    requires Inv(s) && s.producer == Resting && Runs(s, acts)
    requires forall a | a in acts :: a.PopLoad? || a.PopCopy? || a.PopStore?
    requires 0 < |data| <= |s.buf| - Used(s)
    ensures var e := End(s, acts);
            Inv(e) && Enabled(e, PushLoad(data)) && Apply(e, PushLoad(data)).producer == Copying(data, {})
    decreases |acts|
  {
    if acts == [] {
      assert data[..|data|] == data;
    } else {
      var s' := Apply(s, acts[0]);
      assert acts[0] in acts;
      StepQueue(s, acts[0]);
      PushNeverShort(s', acts[1..], data);
    }
  }
}
