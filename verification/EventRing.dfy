/** src/shared/usbif_ringbuf.c: the event ring as its two sides run it, each index
    access and each half of a record's copy one step; and as the object one side
    sees. */
module EventRing {

  datatype Kind = Attach | Detach

  datatype Event = Event(kind: Kind, speed: nat, vid: nat, pid: nat, classes: nat, devId: nat)

  // ---- indices: one lap, one slot always empty

  function Next(cap: nat, i: nat): nat {
    if i + 1 == cap then 0 else i + 1
  }

  function Count(cap: nat, head: nat, tail: nat): (n: int) {
    if head >= tail then head - tail else cap - tail + head
  }

  /** The slot `k` places behind the index. */
  function Slot(cap: nat, i: nat, k: nat): nat {
    if i + k < cap then i + k else if i + k < 2 * cap then i + k - cap else 0
  }

  predicate IndexOk(cap: nat, i: nat) {
    i < cap
  }

  lemma CountNext(cap: nat, head: nat, tail: nat)
    requires IndexOk(cap, head) && IndexOk(cap, tail)
    ensures 0 <= Count(cap, head, tail) < cap
    ensures Next(cap, head) == tail <==> Count(cap, head, tail) == cap - 1
    ensures head == tail <==> Count(cap, head, tail) == 0
    ensures Next(cap, head) != tail ==> Count(cap, Next(cap, head), tail) == Count(cap, head, tail) + 1
    ensures head != tail ==> Count(cap, head, Next(cap, tail)) == Count(cap, head, tail) - 1
    ensures Slot(cap, tail, Count(cap, head, tail)) == head
    ensures IndexOk(cap, Next(cap, head)) && IndexOk(cap, Next(cap, tail))
  {
  }

  lemma SlotNext(cap: nat, tail: nat, k: nat)
    requires IndexOk(cap, tail) && k + 1 < cap
    ensures Slot(cap, Next(cap, tail), k) == Slot(cap, tail, k + 1)
  {
  }

  lemma SlotsDiffer(cap: nat, tail: nat, j: nat, k: nat)
    requires IndexOk(cap, tail) && j < k < cap
    ensures Slot(cap, tail, j) != Slot(cap, tail, k) && Slot(cap, tail, j) < cap && Slot(cap, tail, k) < cap
  {
  }

  // ---- the two sides in steps

  /** A slot's bytes: a whole record, or one half written. */
  datatype Cell = Whole(event: Event) | Half

  datatype Push =
    | Resting
    | Checking(event: Event)
    | Writing(event: Event)
    | HalfWritten(event: Event)
    | Written(event: Event)

  datatype Pop = Waiting | Looking | Reading | Copied(got: Cell)

  /** The ring's fields, each side's place, and what was accepted and delivered. */
  datatype Ring = Ring(slots: seq<Cell>, head: nat, tail: nat, dropped: nat, push: Push, pop: Pop,
                       accepted: seq<Event>, delivered: seq<Cell>)

  datatype Step = PushBegin(event: Event) | PushCheck | PushWrite | PushWritten | PushPublish
                | PopBegin | PopCheck | PopCopy | PopPublish

  predicate Enabled(s: Ring, a: Step) {
    match a
    case PushBegin(_) => s.push.Resting?
    case PushCheck => s.push.Checking?
    case PushWrite => s.push.Writing?
    case PushWritten => s.push.HalfWritten?
    case PushPublish => s.push.Written?
    case PopBegin => s.pop.Waiting?
    case PopCheck => s.pop.Looking?
    case PopCopy => s.pop.Reading?
    case PopPublish => s.pop.Copied?
  }

  function Apply(s: Ring, a: Step): Ring
    requires Enabled(s, a) && s.head < |s.slots| && s.tail < |s.slots|
  {
    var cap := |s.slots|;
    match a
    case PushBegin(e) => s.(push := Checking(e))
    case PushCheck =>
      if Next(cap, s.head) == s.tail then s.(push := Resting, dropped := s.dropped + 1)
      else s.(push := Writing(s.push.event))
    case PushWrite => s.(slots := s.slots[s.head := Half], push := HalfWritten(s.push.event))
    case PushWritten => s.(slots := s.slots[s.head := Whole(s.push.event)], push := Written(s.push.event))
    case PushPublish => s.(head := Next(cap, s.head), push := Resting, accepted := s.accepted + [s.push.event])
    case PopBegin => s.(pop := Looking)
    case PopCheck => if s.tail == s.head then s.(pop := Waiting) else s.(pop := Reading)
    case PopCopy => s.(pop := Copied(s.slots[s.tail]))
    case PopPublish => s.(tail := Next(cap, s.tail), pop := Waiting, delivered := s.delivered + [s.pop.got])
  }

  function Start(cap: nat): Ring {
    Ring(seq(cap, i => Half), 0, 0, 0, Resting, Waiting, [], [])
  }

  /** The records published and not yet taken lie whole, in order, from the tail. */
  ghost predicate Queued(s: Ring) {
    var cap, n := |s.slots|, |s.accepted| - |s.delivered|;
    && s.head < cap && s.tail < cap && n == Count(cap, s.head, s.tail) && n >= 0
    && forall k | 0 <= k < n :: Slot(cap, s.tail, k) < cap
                                && s.slots[Slot(cap, s.tail, k)] == Whole(s.accepted[|s.delivered| + k])
  }

  ghost predicate Inv(s: Ring) {
    && Queued(s)
    && (forall i | 0 <= i < |s.delivered| :: s.delivered[i] == Whole(s.accepted[i]))
    && (s.push.Writing? || s.push.HalfWritten? || s.push.Written? ==> Next(|s.slots|, s.head) != s.tail)
    && (s.push.Written? ==> s.slots[s.head] == Whole(s.push.event))
    && (s.pop.Reading? || s.pop.Copied? ==> s.head != s.tail)
    && (s.pop.Copied? ==> s.pop.got == Whole(s.accepted[|s.delivered|]))
  }

  lemma StepInv(s: Ring, a: Step)
    requires Inv(s) && Enabled(s, a)
    ensures Inv(Apply(s, a)) && |Apply(s, a).slots| == |s.slots|
  {
    var cap, n := |s.slots|, |s.accepted| - |s.delivered|;
    CountNext(cap, s.head, s.tail);
    if a.PushWrite? || a.PushWritten? {
      WriteKeepsQueued(s, a);
    } else if a.PopPublish? {
      PopKeepsQueued(s);
    } else if a.PushPublish? {
      PushKeepsQueued(s);
    } else if a.PopCopy? {
      assert s.slots[Slot(cap, s.tail, 0)] == Whole(s.accepted[|s.delivered| + 0]);
    }
    hide Next, Count, Slot;
  }

  lemma WriteKeepsQueued(s: Ring, a: Step)
    requires Inv(s) && Enabled(s, a) && (a.PushWrite? || a.PushWritten?)
    ensures Queued(Apply(s, a))
  {
    var cap, n, s' := |s.slots|, |s.accepted| - |s.delivered|, Apply(s, a);
    CountNext(cap, s.head, s.tail);
    forall k | 0 <= k < n ensures s'.slots[Slot(cap, s.tail, k)] == s.slots[Slot(cap, s.tail, k)] {
      SlotsDiffer(cap, s.tail, k, n);
    }
    hide Next, Count, Slot;
  }

  lemma PushKeepsQueued(s: Ring)
    requires Inv(s) && s.push.Written?
    ensures Queued(Apply(s, PushPublish))
  {
    var cap, n := |s.slots|, |s.accepted| - |s.delivered|;
    CountNext(cap, s.head, s.tail);
    hide Next, Count, Slot;
  }

  lemma PopKeepsQueued(s: Ring)
    requires Inv(s) && s.pop.Copied?
    ensures Queued(Apply(s, PopPublish))
  {
    var cap, n, s' := |s.slots|, |s.accepted| - |s.delivered|, Apply(s, PopPublish);
    CountNext(cap, s.head, s.tail);
    forall k | 0 <= k < n - 1
      ensures Slot(cap, s'.tail, k) < cap && s'.slots[Slot(cap, s'.tail, k)] == Whole(s.accepted[|s.delivered| + 1 + k])
    {
      SlotNext(cap, s.tail, k);
      assert s.slots[Slot(cap, s.tail, k + 1)] == Whole(s.accepted[|s.delivered| + (k + 1)]);
    }
    hide Next, Count, Slot;
  }

  ghost predicate Runs(s: Ring, acts: seq<Step>)
    decreases |acts|
  {
    acts == []
    || (s.head < |s.slots| && s.tail < |s.slots| && Enabled(s, acts[0]) && Runs(Apply(s, acts[0]), acts[1..]))
  }

  ghost function End(s: Ring, acts: seq<Step>): Ring
    requires Runs(s, acts)
    decreases |acts|
  {
    if acts == [] then s else End(Apply(s, acts[0]), acts[1..])
  }

  lemma {:induction false} RunInv(s: Ring, acts: seq<Step>)
    requires Inv(s) && Runs(s, acts)
    ensures Inv(End(s, acts)) && |End(s, acts).slots| == |s.slots|
    decreases |acts|
  {
    if acts != [] {
      StepInv(s, acts[0]);
      RunInv(Apply(s, acts[0]), acts[1..]);
    }
  }

  /** However the two sides interleave: what is delivered is a prefix of what was
      accepted, record for record and each whole; at most cap - 1 wait; and a push
      is refused only if that many wait at that moment. */
  lemma DeliversInOrder(cap: nat, acts: seq<Step>)
    requires cap > 0 && Runs(Start(cap), acts)
    ensures var s := End(Start(cap), acts);
            && |s.delivered| <= |s.accepted| < |s.delivered| + cap
            && (forall i | 0 <= i < |s.delivered| :: s.delivered[i] == Whole(s.accepted[i]))
            && (Enabled(s, PushCheck) && s.head < |s.slots| && s.tail < |s.slots| ==>
                  (Apply(s, PushCheck).dropped > s.dropped <==> |s.accepted| == |s.delivered| + cap - 1))
  {
    assert Inv(Start(cap));
    RunInv(Start(cap), acts);
    var s := End(Start(cap), acts);
    CountNext(cap, s.head, s.tail);
    hide Next, Count, Slot;
  }

  /** The records of the pushes begun. */
  ghost function Begun(acts: seq<Step>): seq<Event>
    decreases |acts|
  {
    if acts == [] then [] else (if acts[0].PushBegin? then [acts[0].event] else []) + Begun(acts[1..])
  }

  /** The record of a push under way. */
  ghost function Pushing(s: Ring): seq<Event> {
    if s.push.Resting? then [] else [s.push.event]
  }

  /** Every push begun is accepted, dropped or under way; and nothing else is accepted. */
  lemma EveryPushCounted(cap: nat, acts: seq<Step>)
    requires cap > 0 && Runs(Start(cap), acts)
    ensures var s := End(Start(cap), acts);
            && |Begun(acts)| == |s.accepted| + s.dropped + (if s.push.Resting? then 0 else 1)
            && multiset(s.accepted) <= multiset(Begun(acts))
  {
    CountedFrom(Start(cap), acts);
    var s := End(Start(cap), acts);
    assert multiset(s.accepted) <= multiset(s.accepted) + multiset(Pushing(s));
  }

  lemma {:induction false} CountedFrom(s: Ring, acts: seq<Step>)
    requires Runs(s, acts)
    ensures var e := End(s, acts);
            && |e.accepted| + e.dropped + |Pushing(e)| == |s.accepted| + s.dropped + |Pushing(s)| + |Begun(acts)|
            && multiset(e.accepted) + multiset(Pushing(e))
               <= multiset(s.accepted) + multiset(Pushing(s)) + multiset(Begun(acts))
    decreases |acts|
  {
    if acts != [] {
      var s1 := Apply(s, acts[0]);
      CountedFrom(s1, acts[1..]);
      CountedStep(s, acts[0]);
      hide Apply, Enabled, Pushing;
    }
  }

  lemma CountedStep(s: Ring, a: Step)
    requires Enabled(s, a) && s.head < |s.slots| && s.tail < |s.slots|
    ensures var e, begun := Apply(s, a), if a.PushBegin? then [a.event] else [];
            && |e.accepted| + e.dropped + |Pushing(e)| == |s.accepted| + s.dropped + |Pushing(s)| + |begun|
            && multiset(e.accepted) + multiset(Pushing(e))
               <= multiset(s.accepted) + multiset(Pushing(s)) + multiset(begun)
  {
    hide Next;
    var e := Apply(s, a);
    if a.PushPublish? {
      assert e.accepted == s.accepted + Pushing(s) && Pushing(e) == [];
      hide *;
    } else {
      assert e.accepted == s.accepted;
      assert Pushing(e) == (if a.PushBegin? then [a.event] else Pushing(s)) || (a.PushCheck? && Pushing(e) == []);
      assert a.PushBegin? ==> Pushing(s) == [];
      assert e.dropped == s.dropped || (|Pushing(e)| == 0 && |Pushing(s)| == 1 && e.dropped == s.dropped + 1);
      assert a.PushCheck? && e.dropped == s.dropped ==> Pushing(e) == Pushing(s);
      hide *;
    }
  }

  // ---- the object

  class EventQueue {
    const slots: array<Event>
    var head: nat
    var tail: nat
    var dropped: nat
    ghost var contents: seq<Event>

    ghost predicate Valid()
      reads `head, `tail, `contents, slots
    {
      var cap := slots.Length;
      && head < cap && tail < cap && |contents| == Count(cap, head, tail)
      && forall k | 0 <= k < |contents| :: Slot(cap, tail, k) < cap && slots[Slot(cap, tail, k)] == contents[k]
    }

    constructor (storage: array<Event>)
      requires storage.Length > 0
      ensures Valid() && slots == storage && contents == [] && dropped == 0
    {
      slots, head, tail, dropped, contents := storage, 0, 0, 0, [];
    }

    /** Full at one less than the capacity; a refused record is counted. */
    method Push(e: Event) returns (ok: bool)
      requires Valid()
      modifies `head, `dropped, `contents, slots
      ensures Valid() && ok == (|old(contents)| < slots.Length - 1)
      ensures contents == if ok then old(contents) + [e] else old(contents)
      ensures dropped == old(dropped) + if ok then 0 else 1
    {
      var cap := slots.Length;
      CountNext(cap, head, tail);
      var advanced := Next(cap, head);
      if advanced == tail {
        dropped := dropped + 1;
        return false;
      }
      forall k | 0 <= k < |contents| ensures Slot(cap, tail, k) != head {
        SlotsDiffer(cap, tail, k, |contents|);
      }
      hide Next, Count, Slot;
      slots[head] := e;
      head := advanced;
      contents := contents + [e];
      ok := true;
    }

    method Pop() returns (ok: bool, e: Event)
      requires Valid()
      modifies `tail, `contents
      ensures Valid() && ok == (old(contents) != [])
      ensures contents == if ok then old(contents)[1..] else []
      ensures ok ==> e == old(contents)[0]
    {
      var cap := slots.Length;
      CountNext(cap, head, tail);
      e := slots[tail];
      if tail == head {
        return false, e;
      }
      assert slots[Slot(cap, tail, 0)] == contents[0];
      forall k | 0 <= k < |contents| - 1
        ensures Slot(cap, Next(cap, tail), k) < cap && slots[Slot(cap, Next(cap, tail), k)] == contents[k + 1]
      {
        SlotNext(cap, tail, k);
        assert slots[Slot(cap, tail, k + 1)] == contents[k + 1];
      }
      hide Next, Count, Slot;
      tail := Next(cap, tail);
      contents := contents[1..];
      ok := true;
    }

    method TakeDropped() returns (n: nat)
      modifies `dropped
      ensures n == old(dropped) && dropped == 0
    {
      n := dropped;
      dropped := 0;
    }
  }
}
