/** How much a write of src/shared/usbif_pcm_sink.c takes, over every run: exactly the
    whole frames that fit when it looked, and what it returns is what it took. */
module SinkAmounts {
  import opened Bytes
  import opened ByteRing
  import opened SinkGate
  import opened SinkGuarantees
  import R = RingSteps

  /** `n` bytes are the most whole frames in `len` bytes and in `room`. */
  ghost predicate MostWhole(n: nat, len: nat, room: int, frame: nat) {
    && n <= len && n <= room
    && (frame == 0 ==> n == len || n == room)
    && (frame > 0 ==> n % frame == 0 && (n + frame > len || n + frame > room))
  }

  lemma WholeIsMost(len: nat, room: nat, frame: nat)
    ensures MostWhole(Whole(Min(len, room), frame), len, room, frame)
  {
  }

  /** The room there is: what the storage holds less what was published and not popped. */
  ghost function RoomAt(e: Sink): int {
    |e.g.ring.buf| - (|e.g.ring.published| - |e.g.ring.popped|)
  }

  /** At its second load a write that holds the lock chooses the most whole frames of
      its data that the room then holds: it goes on to push them, or if that is nothing
      to give the lock back. */
  lemma ChoosesMost(e: Sink, t: nat) returns (n: nat)
    requires Reachable(e) && Enabled(e, LoadTail(t)) && e.calls[t].req.Write?
    ensures e.g.holder == By(t) && 0 <= RoomAt(e) <= |e.g.ring.buf|
    ensures MostWhole(n, |e.calls[t].req.data|, RoomAt(e), e.g.frame)
    ensures CallAt(Apply(e, LoadTail(t)), t, if n > 0 then Sized(n) else Unlocking(0))
    ensures Apply(e, LoadTail(t)).calls[t].req == e.calls[t].req
  {
    ReachableInv(e);
    SeenRoom(e, t);
    var room := RoomAt(e);
    hide Inv, R.Inv, Reachable, Room32, RoomAt;
    n := Whole(Min(|e.calls[t].req.data|, room), e.g.frame);
    WholeIsMost(|e.calls[t].req.data|, room, e.g.frame);
    ChosenNext(e, t, room, n);
    hide *;
  }

  lemma SeenRoom(e: Sink, t: nat)
    requires Inv(e) && Enabled(e, LoadTail(t)) && e.calls[t].req.Write?
    ensures e.g.holder == By(t) && 0 <= RoomAt(e) <= |e.g.ring.buf|
    ensures Room32(|e.g.ring.buf|, e.calls[t].pc.head, e.g.ring.tail) == RoomAt(e)
  {
    assert CallOk(e.g, t, e.calls[t]);
    TrueRoom(e);
    hide Inv, R.Inv;
  }

  lemma ChosenNext(e: Sink, t: nat, room: nat, n: nat)
    requires Enabled(e, LoadTail(t)) && e.calls[t].req.Write?
    requires Room32(|e.g.ring.buf|, e.calls[t].pc.head, e.g.ring.tail) == room
    requires n == Whole(Min(|e.calls[t].req.data|, room), e.g.frame)
    ensures CallAt(Apply(e, LoadTail(t)), t, if n > 0 then Sized(n) else Unlocking(0))
    ensures Apply(e, LoadTail(t)).calls[t].req == e.calls[t].req
  {
    hide Room32, Whole;
  }

  lemma TrueRoom(e: Sink)
    requires Inv(e)
    ensures RoomAt(e) == |e.g.ring.buf| - R.Used(e.g.ring) && 0 <= RoomAt(e) <= |e.g.ring.buf| < TWO32
  {
  }

  // ---- from there to its end

  /** The call is on its way to return `n`. */
  ghost predicate Bound(s: Sink, t: nat, req: Request, n: int) {
    && t in s.calls && s.calls[t].req == req
    && match s.calls[t].pc
       case Sized(k) => k == n
       case Pushing(k) => k == n
       case Unlocking(k) => k == n
       case Leaving(r) => r == n
       case _ => false
  }

  lemma OthersKeepBound(s: Sink, a: Action, t: nat, req: Request, n: int)
    requires Enabled(s, a) && Bound(s, t, req, n) && Caller(a) != By(t)
    ensures Bound(Apply(s, a), t, req, n)
  {
    assert t in s.calls;
    hide R.Apply, R.Enabled, AfterRoom, Bound;
    assert t in Apply(s, a).calls && Apply(s, a).calls[t] == s.calls[t];
    SameBound(s, Apply(s, a), t, req, n);
  }

  lemma SameBound(s: Sink, f: Sink, t: nat, req: Request, n: int)
    requires Bound(s, t, req, n) && t in f.calls && f.calls[t] == s.calls[t]
    ensures Bound(f, t, req, n)
  {
  }

  lemma OwnStepKeepsBound(s: Sink, a: Action, t: nat, req: Request, n: int)
    requires Enabled(s, a) && Bound(s, t, req, n) && Caller(a) == By(t) && a != Leave(t) && !a.Push?
    ensures Bound(Apply(s, a), t, req, n)
  {
    hide R.Apply, R.Enabled, AfterRoom;
  }

  lemma PushKeepsBound(s: Sink, t: nat, req: Request, n: int)
    requires Inv(s) && Enabled(s, Push(t)) && Bound(s, t, req, n)
    ensures Bound(Apply(s, Push(t)), t, req, n)
  {
    assert s.calls[t].pc == Sized(n) && s.calls[t].req == req;
    hide Inv, Apply, Enabled, Bound;
    PushInv(s, t);
    PushKeepsRequest(s, t);
    NowPushing(Apply(s, Push(t)), t, req, n);
  }

  lemma NowPushing(f: Sink, t: nat, req: Request, n: nat)
    requires CallAt(f, t, Pushing(n)) && f.calls[t].req == req
    ensures Bound(f, t, req, n)
  {
  }

  lemma StepBound(s: Sink, a: Action, t: nat, req: Request, n: int)
    requires Inv(s) && Enabled(s, a) && Bound(s, t, req, n) && a != Leave(t)
    ensures Bound(Apply(s, a), t, req, n)
  {
    hide Inv, Bound, Apply, Enabled;
    if Caller(a) != By(t) {
      OthersKeepBound(s, a, t, req, n);
    } else if a.Push? {
      PushKeepsBound(s, t, req, n);
    } else {
      OwnStepKeepsBound(s, a, t, req, n);
    }
  }

  lemma PushKeepsRequest(s: Sink, t: nat)
    requires Enabled(s, Push(t))
    ensures t in Apply(s, Push(t)).calls && Apply(s, Push(t)).calls[t].req == s.calls[t].req
  {
    hide R.Apply, R.Enabled;
  }

  lemma {:induction false} RunBound(s: Sink, acts: seq<Action>, t: nat, req: Request, n: int)
    requires Inv(s) && Runs(s, acts) && Bound(s, t, req, n) && Leave(t) !in acts
    ensures Bound(End(s, acts), t, req, n)
    decreases |acts|
  {
    if acts != [] {
      assert acts[0] in acts;
      StepBound(s, acts[0], t, req, n);
      StepInv(s, acts[0]);
      hide Inv, Bound, Apply, Enabled;
      RunBound(Apply(s, acts[0]), acts[1..], t, req, n);
    }
  }

  /** What the call that leaves now returns. */
  ghost function Returned(f: Sink, t: nat): int
    requires Enabled(f, Leave(t))
  {
    Apply(f, Leave(t)).g.ended[t].result
  }

  /** However the run goes on until it leaves, an admitted write that won the lock
      returns the most whole frames that were in its data and in the room when it looked. */
  lemma WriteReturnsWhatFits(e: Sink, t: nat, acts: seq<Action>, f: Sink)
    requires Reachable(e) && Enabled(e, LoadTail(t)) && e.calls[t].req.Write?
    requires Runs(Apply(e, LoadTail(t)), acts) && Leave(t) !in acts && f == End(Apply(e, LoadTail(t)), acts)
    requires Enabled(f, Leave(t))
    ensures Returned(f, t) >= 0 && MostWhole(Returned(f, t), |e.calls[t].req.data|, RoomAt(e), e.g.frame)
  {
    ReachableInv(e);
    hide Inv, Reachable, MostWhole, RoomAt, Apply, Runs, End;
    var n := ChoosesMost(e, t);
    LoadTailInv(e, t);
    RunBound(Apply(e, LoadTail(t)), acts, t, e.calls[t].req, n);
    LeavesWith(f, t, e.calls[t].req, n);
  }

  lemma LeavesWith(f: Sink, t: nat, req: Request, n: int)
    requires Enabled(f, Leave(t)) && Bound(f, t, req, n)
    ensures Returned(f, t) == n
  {
  }

  /** One that found it taken returns 0. */
  lemma LoserReturnsNothing(e: Sink, t: nat, acts: seq<Action>, f: Sink)
    requires Reachable(e) && Enabled(e, TryLock(t)) && e.g.busy
    requires Runs(Apply(e, TryLock(t)), acts) && Leave(t) !in acts && f == End(Apply(e, TryLock(t)), acts)
    requires Enabled(f, Leave(t))
    ensures Returned(f, t) == 0
  {
    ReachableInv(e);
    hide Inv, Reachable, Runs, End;
    TryLockInv(e, t);
    RunBound(Apply(e, TryLock(t)), acts, t, e.calls[t].req, 0);
    LeavesWith(f, t, e.calls[t].req, 0);
  }

  /** And one that found it free has it, and looks at the room next. */
  lemma WinnerHasTheLock(e: Sink, t: nat)
    requires Enabled(e, TryLock(t)) && !e.g.busy
    ensures var s := Apply(e, TryLock(t));
            s.g.busy && s.g.holder == By(t) && CallAt(s, t, Locked) && Enabled(s, LoadHead(t))
            && CallAt(Apply(s, LoadHead(t)), t, HeadSeen(s.g.ring.head))
  {
  }

  /** A call returns -1 at its gate exactly if its generation is 0 or not the open one's. */
  lemma RefusedReturnsMinusOne(e: Sink, t: nat)
    requires Enabled(e, Check(t))
    ensures var s := Apply(e, Check(t));
            && (CallAt(s, t, Refused) <==> e.calls[t].gen == 0 || e.calls[t].gen != e.g.live)
            && (!CallAt(s, t, Refused) ==> CallAt(s, t, Inside))
    ensures var s := Apply(e, Check(t));
            CallAt(s, t, Refused) ==> Enabled(s, Refuse(t)) && Apply(s, Refuse(t)).g.ended[t].result == -1
                                      && t !in Apply(s, Refuse(t)).calls
  {
  }
}
