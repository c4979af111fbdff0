/** What the header of src/shared/usbif_pcm_sink.h promises, for every number of
    calls and every interleaving, and where the code keeps less than the promise. */
module SinkGuarantees {
  import opened Bytes
  import opened ByteRing
  import opened SinkGate
  import R = RingSteps

  // ---- closing

  /** The steps of a call that read or write the ring. */
  predicate TouchesRing(a: Action) {
    a.LoadHead? || a.LoadTail? || a.Push? || a.Copy? || a.Store?
  }

  /** Once close has returned, no call is past the gate. */
  lemma CloseWaitsForAll(e: Sink, t: nat)
    requires Reachable(e) && e.g.owner.Closed? && t in e.calls
    ensures !Past(e.calls[t].pc)
  {
    ReachableInv(e);
    assert CallOk(e.g, t, e.calls[t]);
  }

  /** ... and none gets past it again under any generation handed out so far,
      however the run goes on, while fewer than 2^32 - 1 opens lie between. */
  lemma NoneEntersClosedGeneration(e: Sink, more: seq<Action>, t: nat, j: nat)
    requires Reachable(e) && e.g.owner.Closed? && Runs(e, more)
    requires 0 < j <= e.g.opens && End(e, more).g.opens - j < TWO32 - 1
    requires t in End(e, more).calls && Past(End(e, more).calls[t].pc)
    ensures End(e, more).g.opens > e.g.opens && End(e, more).calls[t].gen != GenOf(j)
  {
    ReachableInv(e);
    RunInv(e, more);
    var f := End(e, more);
    assert CallOk(f.g, t, f.calls[t]);
    GenOfCollides(j, f.g.opens);
    SmallMod(f.g.opens - j, TWO32 - 1);
  }

  lemma SmallMod(d: nat, m: nat)
    requires 0 < d < m
    ensures d % m != 0
  {
  }

  /** No step of any call ever touches storage that has been freed, or any
      storage while the gate is closed. */
  lemma NoTouchAfterFree(e: Sink, a: Action)
    requires Reachable(e) && Enabled(e, a) && TouchesRing(a)
    ensures e.g.alive && (e.g.owner.Open? || e.g.owner.Closing?) && e.calls[a.t].gen == GenOf(e.g.opens)
  {
    ReachableInv(e);
    assert CallOk(e.g, a.t, e.calls[a.t]);
  }

  // ---- stale sinks

  /** A sink of the `k`-th open gets in exactly while a stream is open whose
      number differs from `k` by a multiple of 2^32 - 1: its own, or one that
      many opens later. */
  lemma SinkEntersIff(e: Sink, t: nat, k: nat)
    requires Reachable(e) && Enabled(e, Check(t)) && 0 < k <= e.g.opens && e.calls[t].gen == GenOf(k)
    ensures Apply(e, Check(t)).calls[t].pc == Inside
            <==> e.g.owner.Open? && (e.g.opens - k) % (TWO32 - 1) == 0
  {
    ReachableInv(e);
    GenOfCollides(k, e.g.opens);
  }

  /** A run one step longer. */
  lemma {:induction false} Then(s: Sink, acts: seq<Action>, a: Action) returns (longer: seq<Action>)
    requires Inv(s) && Runs(s, acts) && Enabled(End(s, acts), a)
    ensures longer == acts + [a] && Runs(s, longer) && End(s, longer) == Apply(End(s, acts), a)
    decreases |acts|
  {
    longer := acts + [a];
    if acts == [] {
      assert longer[1..] == [];
    } else {
      StepInv(s, acts[0]);
      var rest := Then(Apply(s, acts[0]), acts[1..], a);
      assert longer[1..] == rest;
    }
  }

  lemma Next(e: Sink, a: Action) returns (e': Sink)
    requires Reachable(e) && Enabled(e, a)
    ensures e' == Apply(e, a) && Reachable(e')
  {
    var s, acts :| Init(s) && Runs(s, acts) && End(s, acts) == e;
    InitInv(s);
    var longer := Then(s, acts, a);
    e' := Apply(e, a);
  }

  lemma CloseAndReopen(s: Sink, acts: seq<Action>) returns (longer: seq<Action>)
    requires Inv(s) && Runs(s, acts) && Idle(End(s, acts)) && End(s, acts).g.owner.Open?
    ensures Runs(s, longer) && Idle(End(s, longer)) && End(s, longer).g.owner.Open?
    ensures End(s, longer).g.opens == End(s, acts).g.opens + 1
  {
    RunInv(s, acts);
    longer := Then(s, acts, CloseStore);
    longer := Then(s, longer, ClosePoll);
    longer := Then(s, longer, OpenPrepare(1));
    longer := Then(s, longer, OpenPublish);
  }

  lemma FirstOpen(s: Sink) returns (acts: seq<Action>)
    requires Init(s)
    ensures Runs(s, acts) && Idle(End(s, acts)) && End(s, acts).g.owner.Open? && End(s, acts).g.opens == 1
  {
    InitInv(s);
    acts := Then(s, [], SetUp([]));
    acts := Then(s, acts, OpenPrepare(1));
    acts := Then(s, acts, OpenPublish);
  }

  ghost predicate Idle(s: Sink) {
    s.calls == map[] && s.g.ended == map[] && s.g.users == 0
  }

  lemma {:induction false} ManyOpens(s: Sink, n: nat) returns (acts: seq<Action>)
    requires Init(s) && n > 0
    ensures Runs(s, acts) && Idle(End(s, acts)) && End(s, acts).g.owner.Open? && End(s, acts).g.opens == n
  {
    InitInv(s);
    if n == 1 {
      acts := FirstOpen(s);
    } else {
      acts := ManyOpens(s, n - 1);
      acts := CloseAndReopen(s, acts);
    }
  }

  /** So the promise that an old sink answers -1 for good is kept for exactly
      2^32 - 2 opens after its own: at the next one it is let in again. */
  lemma FirstSinkRevived(s: Sink) returns (e: Sink)
    requires Init(s)
    ensures Reachable(e) && e.g.opens == 1 + (TWO32 - 1) && CallAt(e, 0, Inside) && e.calls[0].gen == GenOf(1)
  {
    var acts := ManyOpens(s, TWO32);
    InitInv(s);
    RunInv(s, acts);
    assert GenOf(1) == GenOf(TWO32) == 1 by { GenOfCollides(1, TWO32); }
    acts := Then(s, acts, Enter(0, GenOf(1), Space));
    acts := Then(s, acts, Check(0));
    e := End(s, acts);
  }

  // ---- the try-lock

  /** At most one call is between taking the try-lock and releasing it, so at
      most one is pushing; and with no call in progress the lock is free. */
  lemma OneProducer(e: Sink, t: nat, u: nat)
    requires Reachable(e)
    ensures t in e.calls && u in e.calls && Holding(e.calls[t]) && Holding(e.calls[u]) ==> t == u
    ensures e.g.users == 0 ==> !e.g.busy
    ensures e.g.ring.producer.Copying? <==> exists v :: v in e.calls && e.calls[v].pc.Pushing?
  {
    ReachableInv(e);
    assert t in e.calls ==> CallOk(e.g, t, e.calls[t]);
    assert u in e.calls ==> CallOk(e.g, u, e.calls[u]);
    if e.g.ring.producer.Copying? {
      assert e.calls[e.g.holder.call].pc.Pushing?;
    }
    forall v | v in e.calls && e.calls[v].pc.Pushing?
      ensures e.g.ring.producer.Copying?
    {
      assert CallOk(e.g, v, e.calls[v]);
    }
  }

  /** A push of the bytes a write chose from the room is never short, whatever
      the consumer did in between. */
  lemma ChosenBytesFit(e: Sink, t: nat)
    requires Reachable(e) && Enabled(e, Push(t))
    ensures Apply(e, Push(t)).calls[t].pc == Pushing(e.calls[t].pc.n)
  {
    ReachableInv(e);
    PushInv(e, t);
  }

  // ---- the bytes

  /** What the consumer has popped, then what is queued, is the pieces the
      writes published, in order. Each piece is the first `result` bytes of its
      write's data, `result` being whole frames and what the write returned; a
      write that returned 0 or -1 published nothing. */
  lemma EveryByteAccounted(e: Sink, t: nat)
    requires Reachable(e)
    ensures R.Inv(e.g.ring)
    ensures e.g.ring.popped + R.Queue(e.g.ring) == Published(e.g.order, e.g.taken)
    ensures |R.Queue(e.g.ring)| <= |e.g.ring.buf|
    ensures t in e.g.ended && e.g.ended[t].req.Write? ==>
              var o := e.g.ended[t];
              if o.result > 0 then t in e.g.order && t in e.g.taken && o.result <= |o.req.data|
                && e.g.taken[t] == o.req.data[..o.result] && Multiple(o.result, o.frame)
              else t !in e.g.order && o.result in {0, -1}
    ensures t in e.g.order ==> t in e.g.ended || (t in e.calls && (e.calls[t].pc.Unlocking? || e.calls[t].pc.Leaving?))
  {
    ReachableInv(e);
    assert t in e.calls ==> CallOk(e.g, t, e.calls[t]);
  }

  // ---- every call leaves by itself

  /** A bound on the steps the call still has to take. */
  ghost function Rank(p: R.Producer, c: Call): nat {
    var len := if c.req.Write? then |c.req.data| else 0;
    match c.pc
    case Counted => 8 + len
    case Inside => 7 + len
    case Locked => 6 + len
    case HeadSeen(_) => 5 + len
    case Sized(_) => 4 + len
    case Pushing(n) => 3 + (if p.Copying? then Left(p.done, n) else 0)
    case Unlocking(_) => 2
    case Leaving(_) => 1
    case Refused => 1
  }

  /** How many of the first `n` bytes are still to be copied. */
  ghost function Left(done: set<nat>, n: nat): (k: nat)
    ensures k <= n
  {
    if n == 0 then 0 else Left(done, n - 1) + if n - 1 in done then 0 else 1
  }

  lemma {:induction false} LeftDrops(done: set<nat>, n: nat, i: nat)
    requires i !in done
    ensures Left(done + {i}, n) == Left(done, n) - if i < n then 1 else 0
  {
    if n > 0 {
      LeftDrops(done, n - 1, i);
    }
  }

  /** Whose step it is; the owner's and the consumer's are nobody's. */
  function Caller(a: Action): Holder {
    match a
    case Enter(t, _, _) => By(t)
    case Check(t) => By(t)
    case Refuse(t) => By(t)
    case TryLock(t) => By(t)
    case LoadHead(t) => By(t)
    case LoadTail(t) => By(t)
    case Push(t) => By(t)
    case Copy(t, _) => By(t)
    case Store(t) => By(t)
    case Unlock(t) => By(t)
    case Leave(t) => By(t)
    case _ => Nobody
  }

  lemma RankBound(g: Gate, t: nat, c: Call)
    requires CallOk(g, t, c)
    ensures Rank(g.ring.producer, c) <= 8 + if c.req.Write? then |c.req.data| else 0
  {
  }

  /** Each step of its own brings a call nearer to leaving, so a write is over
      after at most 8 steps and its data's length. */
  lemma OwnStepLowersRank(s: Sink, a: Action, t: nat)
    requires Inv(s) && Enabled(s, a) && t in s.calls && Caller(a) == By(t)
    ensures var s' := Apply(s, a);
            t in s'.calls ==> Rank(s'.g.ring.producer, s'.calls[t]) < Rank(s.g.ring.producer, s.calls[t])
    ensures Rank(s.g.ring.producer, s.calls[t]) <= 8 + if s.calls[t].req.Write? then |s.calls[t].req.data| else 0
  {
    assert CallOk(s.g, t, s.calls[t]);
    RankBound(s.g, t, s.calls[t]);
    match a
    case Push(_) => PushLowersRank(s, t);
    case Copy(_, i) => CopyLowersRank(s, t, i);
    case _ => MoveLowersRank(s, a, t);
  }

  lemma MoveLowersRank(s: Sink, a: Action, t: nat)
    requires Enabled(s, a) && t in s.calls && Caller(a) == By(t) && !a.Push? && !a.Copy?
    requires a.Store? ==> s.calls[t].pc.Pushing?
    ensures var s' := Apply(s, a);
            t in s'.calls ==> Rank(s'.g.ring.producer, s'.calls[t]) < Rank(s.g.ring.producer, s.calls[t])
  {
    hide R.Apply, R.Enabled, Whole;
  }

  lemma PushLowersRank(s: Sink, t: nat)
    requires Inv(s) && Enabled(s, Push(t))
    ensures var s' := Apply(s, Push(t));
            t in s'.calls && Rank(s'.g.ring.producer, s'.calls[t]) < Rank(s.g.ring.producer, s.calls[t])
  {
    assert CallOk(s.g, t, s.calls[t]);
    PushLoads(s, t);
    hide R.Inv, LogOk, LifeOk, CallsInv, Apply;
  }

  lemma CopyLowersRank(s: Sink, t: nat, i: nat)
    requires Inv(s) && Enabled(s, Copy(t, i))
    ensures var s' := Apply(s, Copy(t, i));
            t in s'.calls && Rank(s'.g.ring.producer, s'.calls[t]) < Rank(s.g.ring.producer, s.calls[t])
  {
    assert CallOk(s.g, t, s.calls[t]);
    LeftDrops(s.g.ring.producer.done, s.calls[t].pc.n, i);
  }

  /** No step of another call, of the owner or of the consumer takes it further
      from leaving. */
  lemma OthersKeepRank(s: Sink, a: Action, t: nat)
    requires Inv(s) && Enabled(s, a) && t in s.calls && Caller(a) != By(t)
    ensures var s' := Apply(s, a);
            t in s'.calls && Rank(s'.g.ring.producer, s'.calls[t]) == Rank(s.g.ring.producer, s.calls[t])
  {
    assert CallOk(s.g, t, s.calls[t]);
    if Caller(a).By? && Caller(a).call in s.calls {
      assert CallOk(s.g, Caller(a).call, s.calls[Caller(a).call]);
    }
  }

  /** A call in progress always has a step of its own to take: it never waits. */
  lemma OwnStepEnabled(s: Sink, t: nat) returns (a: Action)
    requires Inv(s) && t in s.calls
    ensures Caller(a) == By(t) && Enabled(s, a)
  {
    var c := s.calls[t];
    assert CallOk(s.g, t, c);
    match c.pc
    case Counted => a := Check(t);
    case Refused => a := Refuse(t);
    case Inside => a := if c.req.Write? then TryLock(t) else LoadHead(t);
    case Locked => a := LoadHead(t);
    case HeadSeen(_) => a := LoadTail(t);
    case Sized(_) => a := Push(t);
    case Pushing(n) =>
      if R.Copied(s.g.ring.producer.data, s.g.ring.producer.done) {
        a := Store(t);
      } else {
        var i: nat :| i < n && i !in s.g.ring.producer.done;
        a := Copy(t, i);
      }
    case Unlocking(_) => a := Unlock(t);
    case Leaving(_) => a := Leave(t);
  }

  // ---- the context a C sink carries

  /** USBIF_STREAM_CTX in a 32-bit uintptr_t, and the two fields read back. */
  function Pack(slot: nat, gen: u32): u32 {
    (gen * 4 + slot) % TWO32
  }

  function CtxSlot(ctx: u32): nat {
    ctx % 4
  }

  function CtxGen(ctx: u32): u32 {
    ctx / 4
  }

  /** Packing is faithful exactly for the generations a C sink is issued for. */
  lemma CtxRoundTrip(slot: nat, gen: u32)
    requires slot < 4
    ensures CtxSlot(Pack(slot, gen)) == slot
    ensures CtxGen(Pack(slot, gen)) == gen <==> gen <= (TWO32 - 1) / 4
  {
  }

  /** A C sink issued for the `k`-th open of a gate is let in exactly as a sink
      holding the generation itself is. */
  lemma CtxEntersIff(e: Sink, t: nat, k: nat, slot: nat)
    requires Reachable(e) && Enabled(e, Check(t)) && 0 < k <= e.g.opens && slot < 4
    requires GenOf(k) <= (TWO32 - 1) / 4 && e.calls[t].gen == CtxGen(Pack(slot, GenOf(k)))
    ensures Apply(e, Check(t)).calls[t].pc == Inside
            <==> e.g.owner.Open? && (e.g.opens - k) % (TWO32 - 1) == 0
  {
    CtxRoundTrip(slot, GenOf(k));
    SinkEntersIff(e, t, k);
  }
}
