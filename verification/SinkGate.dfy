/** src/shared/usbif_pcm_sink.c with the byte ring under it, as the tasks really
    run it: any number of write and space calls, the owner that opens, closes,
    frees and sets up the ring again, and the consumer draining it. Every atomic
    operation, every index load and every byte copied is one step. */
module SinkGate {
  import opened Bytes
  import opened ByteRing
  import R = RingSteps

  // ---- generations

  /** The generation after `gen`, in 32 bits, skipping the 0 that means closed. */
  function NextGen(gen: u32): u32 {
    var next := (gen + 1) % TWO32;
    if next == 0 then 1 else next
  }

  /** The generation of the `k`-th open; 0 before the first. */
  function GenOf(k: nat): u32 {
    if k == 0 then 0 else 1 + (k - 1) % (TWO32 - 1)
  }

  lemma GenOfStep(k: nat)
    ensures GenOf(k + 1) == NextGen(GenOf(k)) != 0
  {
  }

  /** Two opens share a generation exactly when a multiple of 2^32 - 1 opens
      lies between them. */
  lemma GenOfCollides(j: nat, k: nat)
    requires 0 < j <= k
    ensures GenOf(j) == GenOf(k) <==> (k - j) % (TWO32 - 1) == 0
  {
    var m := TWO32 - 1;
    var a, b := (j - 1) % m, (k - 1) % m;
    assert k - j == m * ((k - 1) / m - (j - 1) / m) + (b - a);
    MultiplePlus((k - 1) / m - (j - 1) / m, b - a);
  }

  lemma MultiplePlus(q: int, d: int)
    requires -(TWO32 - 1) < d < TWO32 - 1
    ensures ((TWO32 - 1) * q + d) % (TWO32 - 1) == 0 <==> d == 0
  {
  }

  // ---- the state

  datatype Request = Write(data: seq<byte>) | Space

  /** Where a call is between its two changes of `users`. */
  datatype Pc =
    | Counted               // users incremented, live not yet read
    | Refused               // live named another generation
    | Inside                // past the gate
    | Locked                // took the try-lock
    | HeadSeen(head: nat)   // the room's first load
    | Sized(n: nat)         // chose n whole-frame bytes from the room
    | Pushing(n: nat)       // the ring is copying them
    | Unlocking(n: nat)
    | Leaving(result: int)

  datatype Call = Call(gen: u32, req: Request, pc: Pc)

  datatype Owner = Opening | Open | Closing | Closed

  datatype Holder = Nobody | By(call: nat)

  datatype Outcome = Outcome(gen: u32, req: Request, frame: nat, result: int)

  /** The code's fields, the owner's place, the ring, and histories: how many
      opens there have been, how many when close last returned, who has the lock,
      which calls published what in which order, and what finished calls
      returned. The last three start over with each set-up of the ring. */
  datatype Gate = Gate(live: u32, users: nat, busy: bool, lastGen: u32, frame: nat,
                       owner: Owner, alive: bool, ring: R.State, opens: nat, drained: nat, holder: Holder,
                       order: seq<nat>, taken: map<nat, seq<byte>>, ended: map<nat, Outcome>)

  /** The gate and the calls in progress, by an identity never used twice. */
  datatype Sink = Sink(g: Gate, calls: map<nat, Call>)

  datatype Action =
    | Enter(t: nat, gen: u32, req: Request)
    | Check(t: nat)
    | Refuse(t: nat)
    | TryLock(t: nat)
    | LoadHead(t: nat)
    | LoadTail(t: nat)
    | Push(t: nat)
    | Copy(t: nat, i: nat)
    | Store(t: nat)
    | Unlock(t: nat)
    | Leave(t: nat)
    | CloseStore
    | ClosePoll
    | Free
    | SetUp(storage: seq<byte>)
    | OpenPrepare(frame: nat)
    | OpenPublish
    | Consume(a: R.Action)

  // ---- what a call computes

  /** `room`, as the uint32_t the code holds it in. */
  function Room32(size: nat, head: nat, tail: nat): u32 {
    (size - Span(size, head, tail)) % TWO32
  }

  /** A uint32_t returned through an int. */
  function Signed(n: u32): int {
    if n < TWO32 / 2 then n else n - TWO32
  }

  // ---- the steps

  ghost predicate CallAt(s: Sink, t: nat, pc: Pc) {
    t in s.calls && s.calls[t].pc == pc
  }

  ghost predicate Enabled(s: Sink, a: Action) {
    var g := s.g;
    match a
    case Enter(t, _, _) => t !in s.calls && t !in g.ended
    case Check(t) => CallAt(s, t, Counted)
    case Refuse(t) => CallAt(s, t, Refused)
    case TryLock(t) => CallAt(s, t, Inside) && s.calls[t].req.Write?
    case LoadHead(t) => CallAt(s, t, Locked) || (CallAt(s, t, Inside) && s.calls[t].req.Space?)
    case LoadTail(t) => t in s.calls && s.calls[t].pc.HeadSeen?
    case Push(t) => t in s.calls && s.calls[t].pc.Sized? && s.calls[t].req.Write?
                    && s.calls[t].pc.n <= |s.calls[t].req.data|
                    && R.Enabled(g.ring, R.PushLoad(s.calls[t].req.data[..s.calls[t].pc.n]))
    case Copy(t, i) => t in s.calls && s.calls[t].pc.Pushing? && R.Enabled(g.ring, R.PushCopy(i))
                       && i !in g.ring.producer.done
    case Store(t) => t in s.calls && s.calls[t].pc.Pushing? && R.Enabled(g.ring, R.PushStore)
    case Unlock(t) => t in s.calls && s.calls[t].pc.Unlocking?
    case Leave(t) => t in s.calls && s.calls[t].pc.Leaving?
    case CloseStore => g.owner.Open? || g.owner.Closed?
    case ClosePoll => g.owner.Closing?
    case Free => g.owner.Closed? && g.alive && g.ring.consumer.Waiting?
    case SetUp(storage) => g.owner.Closed? && !g.alive && 3 * |storage| <= TWO32
    case OpenPrepare(_) => g.owner.Closed? && g.alive
    case OpenPublish => g.owner.Opening?
    case Consume(a) => g.alive && (a.PopLoad? || a.PopCopy? || a.PopStore?) && R.Enabled(g.ring, a)
  }

  ghost function Move(s: Sink, t: nat, pc: Pc): Sink
    requires t in s.calls
  {
    s.(calls := s.calls[t := s.calls[t].(pc := pc)])
  }

  /** The last step of a call: users decremented, its result handed back. */
  ghost function Finish(s: Sink, t: nat, result: int): Sink
    requires t in s.calls
  {
    Sink(s.g.(users := if s.g.users > 0 then s.g.users - 1 else 0,
              ended := s.g.ended[t := Outcome(s.calls[t].gen, s.calls[t].req, s.g.frame, result)]),
         s.calls - {t})
  }

  ghost function Apply(s: Sink, a: Action): Sink
    requires Enabled(s, a)
  {
    var g := s.g;
    match a
    case Enter(t, gen, req) => Sink(g.(users := g.users + 1), s.calls[t := Call(gen, req, Counted)])
    case Check(t) =>
      var gen := s.calls[t].gen;
      Move(s, t, if gen == 0 || g.live != gen then Refused else Inside)
    case Refuse(t) => Finish(s, t, -1)
    case TryLock(t) =>
      if g.busy then Move(s, t, Leaving(0)) else Move(s, t, Locked).(g := g.(busy := true, holder := By(t)))
    case LoadHead(t) => Move(s, t, HeadSeen(g.ring.head))
    case LoadTail(t) => Move(s, t, AfterRoom(g, s.calls[t].req, s.calls[t].pc.head))
    case Push(t) =>
      var ring := R.Apply(g.ring, R.PushLoad(s.calls[t].req.data[..s.calls[t].pc.n]));
      Move(s, t, if ring.producer.Copying? then Pushing(|ring.producer.data|) else Unlocking(0)).(g := g.(ring := ring))
    case Copy(t, i) => s.(g := g.(ring := R.Apply(g.ring, R.PushCopy(i))))
    case Store(t) =>
      Move(s, t, Unlocking(s.calls[t].pc.n))
        .(g := g.(ring := R.Apply(g.ring, R.PushStore),
                  order := g.order + [t], taken := g.taken[t := g.ring.producer.data]))
    case Unlock(t) => Move(s, t, Leaving(s.calls[t].pc.n)).(g := g.(busy := false, holder := Nobody))
    case Leave(t) => Finish(s, t, s.calls[t].pc.result)
    case CloseStore => s.(g := g.(live := 0, owner := Closing))
    case ClosePoll => if g.users == 0 then s.(g := g.(owner := Closed, drained := g.opens)) else s
    case Free => s.(g := g.(alive := false))
    case SetUp(storage) =>
      s.(g := g.(alive := true, ring := R.State(storage, 0, 0, R.Resting, R.Waiting, [], []),
                 order := [], taken := map[], ended := map[]))
    case OpenPrepare(frame) =>
      s.(g := g.(lastGen := NextGen(g.lastGen), frame := frame, opens := g.opens + 1, owner := Opening))
    case OpenPublish => s.(g := g.(live := g.lastGen, owner := Open))
    case Consume(a) => s.(g := g.(ring := R.Apply(g.ring, a)))
  }

  /** The room is known: a write chooses its whole frames, a space call its answer. */
  ghost function AfterRoom(g: Gate, req: Request, head: nat): Pc {
    var room := Room32(|g.ring.buf|, head, g.ring.tail);
    if req.Space? then Leaving(Signed(Whole(room, g.frame)))
    else
      var n := Whole(Min(|req.data|, room), g.frame);
      if n > 0 then Sized(n) else Unlocking(0)
  }

  ghost predicate Init(s: Sink) {
    var g := s.g;
    && g.live == g.users == g.lastGen == g.opens == g.drained == 0 && !g.busy && g.holder == Nobody
    && g.owner == Closed && !g.alive && R.Init(g.ring) && 3 * |g.ring.buf| <= TWO32
    && g.order == [] && g.taken == map[] && g.ended == map[] && s.calls == map[]
  }

  // ---- the invariant

  /** Past the gate: may touch the ring. */
  ghost predicate Past(pc: Pc) {
    !pc.Counted? && !pc.Refused?
  }

  ghost predicate Holding(c: Call) {
    c.pc.Locked? || (c.pc.HeadSeen? && c.req.Write?) || c.pc.Sized? || c.pc.Pushing? || c.pc.Unlocking?
  }

  /** `t`'s call returned, or is about to return, `r`: exactly the first `r`
      bytes of its data are in the published sequence, and none of a call that
      returned nothing or was refused. */
  ghost predicate Accounted(taken: map<nat, seq<byte>>, t: nat, req: Request, r: int) {
    if t in taken then req.Write? && 0 < r <= |req.data| && taken[t] == req.data[..r]
    else req.Write? ==> r <= 0
  }

  ghost predicate StageOk(g: Gate, t: nat, c: Call) {
    match c.pc
    case HeadSeen(h) => IndexOk(|g.ring.buf|, h) && (c.req.Write? ==> h == g.ring.head)
    case Sized(n) => c.req.Write? && 0 < n <= |c.req.data| && Multiple(n, g.frame) && n <= |g.ring.buf| - R.Used(g.ring)
    case Pushing(n) => c.req.Write? && 0 < n <= |c.req.data| && Multiple(n, g.frame)
                       && g.ring.producer.Copying? && g.ring.producer.data == c.req.data[..n]
    case Unlocking(n) => c.req.Write? && Accounted(g.taken, t, c.req, n) && Multiple(n, g.frame)
    case Leaving(r) => Accounted(g.taken, t, c.req, r) && (c.req.Write? ==> 0 <= r && Multiple(r, g.frame))
    case Locked => c.req.Write?
    case _ => true
  }

  /** What is true of each call in progress. */
  ghost predicate CallOk(g: Gate, t: nat, c: Call) {
    && (Past(c.pc) ==> c.gen == g.lastGen && (g.owner.Open? || g.owner.Closing?) && g.alive && g.opens > g.drained)
    && (Holding(c) <==> g.holder == By(t))
    && StageOk(g, t, c)
    && (t in g.taken ==> c.pc.Unlocking? || c.pc.Leaving?)
    && t !in g.ended
  }

  ghost function Published(order: seq<nat>, taken: map<nat, seq<byte>>): seq<byte> {
    if order == [] then [] else
    Published(order[..|order| - 1], taken) + (if order[|order| - 1] in taken then taken[order[|order| - 1]] else [])
  }

  /** A finished write was refused, or took whole frames. */
  ghost predicate EndedWhole(o: Outcome) {
    o.req.Write? ==> o.result == -1 || (0 <= o.result && Multiple(o.result, o.frame))
  }

  /** The histories agree with each other and with what the ring published. */
  ghost predicate LogOk(order: seq<nat>, taken: map<nat, seq<byte>>, ended: map<nat, Outcome>, published: seq<byte>) {
    && published == Published(order, taken)
    && (forall t :: t in order <==> t in taken)
    && (forall i, j | 0 <= i < j < |order| :: order[i] != order[j])
    && (forall t | t in ended :: Accounted(taken, t, ended[t].req, ended[t].result) && EndedWhole(ended[t]))
  }

  ghost predicate LifeOk(g: Gate) {
    && g.lastGen == GenOf(g.opens)
    && g.live == (if g.owner.Open? then g.lastGen else 0)
    && g.drained <= g.opens && (g.owner.Closed? ==> g.drained == g.opens)
    && (g.owner.Open? || g.owner.Opening? ==> g.opens > g.drained && g.alive)
    && g.busy == g.holder.By?
    && (g.ring.producer.Copying? ==> g.holder.By?)
    && |g.ring.buf| < TWO32 / 2
  }

  ghost predicate Inv(s: Sink) {
    && LifeOk(s.g)
    && R.Inv(s.g.ring)
    && LogOk(s.g.order, s.g.taken, s.g.ended, s.g.ring.published)
    && CallsInv(s)
  }

  ghost predicate CallsInv(s: Sink) {
    && s.g.users == |s.calls|
    && (forall t | t in s.calls :: CallOk(s.g, t, s.calls[t]))
    && (forall t | t in s.g.taken :: t in s.calls || t in s.g.ended)
    && (s.g.holder.By? ==> s.g.holder.call in s.calls)
    && (s.g.holder.By? && s.g.ring.producer.Copying? ==> s.calls[s.g.holder.call].pc.Pushing?)
  }

  lemma InitInv(s: Sink)
    requires Init(s)
    ensures Inv(s)
  {
  }

  // ---- every step keeps the invariant

  /** A call moves on without touching the gate. */
  lemma MoveInv(s: Sink, t: nat, pc: Pc)
    requires Inv(s) && t in s.calls && !s.calls[t].pc.Pushing?
    requires CallOk(s.g, t, s.calls[t].(pc := pc))
    ensures Inv(Move(s, t, pc))
  {
    assert Move(s, t, pc).calls.Keys == s.calls.Keys;
  }

  /** The gate changes under the calls, none of which minds. */
  lemma GateInv(s: Sink, g: Gate)
    requires CallsInv(s) && LifeOk(g) && R.Inv(g.ring) && LogOk(g.order, g.taken, g.ended, g.ring.published)
    requires g.users == s.g.users && g.holder == s.g.holder && g.taken.Keys == s.g.taken.Keys
             && g.ended.Keys == s.g.ended.Keys
    requires g.ring.producer.Copying? ==> s.g.ring.producer.Copying?
    requires forall t | t in s.calls :: CallOk(g, t, s.calls[t])
    ensures Inv(s.(g := g))
  {
  }

  lemma EnterInv(s: Sink, t: nat, gen: u32, req: Request)
    requires Inv(s) && Enabled(s, Enter(t, gen, req))
    ensures Inv(Apply(s, Enter(t, gen, req)))
  {
    hide R.Inv, LogOk;
    var s' := Apply(s, Enter(t, gen, req));
    assert s'.calls.Keys == s.calls.Keys + {t};
    assert CallOk(s'.g, t, s'.calls[t]);
    assert forall u | u in s.calls :: CallOk(s.g, u, s.calls[u]) && CallOk(s'.g, u, s.calls[u]);
  }

  lemma FinishInv(s: Sink, t: nat, result: int)
    requires Inv(s) && t in s.calls && ((s.calls[t].pc == Refused && result == -1) || s.calls[t].pc == Leaving(result))
    ensures Inv(Finish(s, t, result))
  {
    hide R.Inv;
    var s' := Finish(s, t, result);
    assert CallOk(s.g, t, s.calls[t]);
    assert LogOk(s'.g.order, s'.g.taken, s'.g.ended, s'.g.ring.published);
    hide LogOk, LifeOk;
    assert s'.calls.Keys == s.calls.Keys - {t};
    assert forall u | u in s'.calls :: CallOk(s'.g, u, s'.calls[u]);
  }

  lemma CheckInv(s: Sink, t: nat)
    requires Inv(s) && Enabled(s, Check(t))
    ensures Inv(Apply(s, Check(t)))
  {
    assert CallOk(s.g, t, s.calls[t]);
    MoveInv(s, t, if s.calls[t].gen == 0 || s.g.live != s.calls[t].gen then Refused else Inside);
  }

  lemma TryLockInv(s: Sink, t: nat)
    requires Inv(s) && Enabled(s, TryLock(t))
    ensures Inv(Apply(s, TryLock(t)))
  {
    assert CallOk(s.g, t, s.calls[t]);
    if s.g.busy {
      MoveInv(s, t, Leaving(0));
    } else {
      var s' := Apply(s, TryLock(t));
      assert s'.calls.Keys == s.calls.Keys;
      assert forall u | u in s.calls && u != t :: CallOk(s.g, u, s.calls[u]) && CallOk(s'.g, u, s.calls[u]);
    }
  }

  lemma LoadHeadInv(s: Sink, t: nat)
    requires Inv(s) && Enabled(s, LoadHead(t))
    ensures Inv(Apply(s, LoadHead(t)))
  {
    assert CallOk(s.g, t, s.calls[t]);
    MoveInv(s, t, HeadSeen(s.g.ring.head));
  }

  /** A write that holds the lock computes the true room: the head is its own. */
  lemma LoadTailInv(s: Sink, t: nat)
    requires Inv(s) && Enabled(s, LoadTail(t))
    ensures Inv(Apply(s, LoadTail(t)))
  {
    assert CallOk(s.g, t, s.calls[t]);
    MoveInv(s, t, AfterRoom(s.g, s.calls[t].req, s.calls[t].pc.head));
  }

  /** The ring changes and one call moves on with it. */
  lemma RingMoveInv(s: Sink, t: nat, g: Gate, pc: Pc)
    requires CallsInv(s) && LifeOk(g) && R.Inv(g.ring) && LogOk(g.order, g.taken, g.ended, g.ring.published)
    requires t in s.calls && g == s.g.(ring := g.ring)
    requires forall u | u in s.calls && u != t :: CallOk(g, u, s.calls[u])
    requires CallOk(g, t, s.calls[t].(pc := pc)) && g.holder == By(t) && pc.Pushing?
    ensures Inv(Move(s, t, pc).(g := g))
  {
    assert Move(s, t, pc).calls.Keys == s.calls.Keys;
    hide CallOk, LifeOk, R.Inv, LogOk;
  }

  /** The push takes all the bytes chosen: the room they were chosen for is there. */
  lemma PushLoads(s: Sink, t: nat)
    requires Inv(s) && Enabled(s, Push(t)) && CallOk(s.g, t, s.calls[t])
    ensures var d := s.calls[t].req.data[..s.calls[t].pc.n];
            var ring := s.g.ring.(producer := R.Copying(d, {}));
            && R.Inv(ring) && s.g.holder == By(t)
            && Apply(s, Push(t)) == Move(s, t, Pushing(s.calls[t].pc.n)).(g := s.g.(ring := ring))
  {
    hide LogOk, LifeOk, Multiple, R.Inv, R.Apply, R.Enabled;
    var d := s.calls[t].req.data[..s.calls[t].pc.n];
    R.PushLoadInv(s.g.ring, d);
  }

  lemma CopyingKeepsCall(g: Gate, d: seq<byte>, u: nat, c: Call)
    requires CallOk(g, u, c) && g.holder != By(u)
    ensures CallOk(g.(ring := g.ring.(producer := R.Copying(d, {}))), u, c)
  {
  }

  lemma PushInv(s: Sink, t: nat)
    requires Inv(s) && Enabled(s, Push(t))
    ensures Inv(Apply(s, Push(t))) && t in Apply(s, Push(t)).calls
    ensures Apply(s, Push(t)).calls[t].pc == Pushing(s.calls[t].pc.n)
  {
    var c := s.calls[t];
    assert CallOk(s.g, t, c);
    PushLoads(s, t);
    var g := s.g.(ring := s.g.ring.(producer := R.Copying(c.req.data[..c.pc.n], {})));
    forall u | u in s.calls && u != t
      ensures CallOk(g, u, s.calls[u])
    {
      CopyingKeepsCall(s.g, c.req.data[..c.pc.n], u, s.calls[u]);
    }
    hide R.Inv, LogOk, Multiple, Apply, Enabled;
    RingMoveInv(s, t, g, Pushing(c.pc.n));
  }

  lemma CopyInv(s: Sink, t: nat, i: nat)
    requires Inv(s) && Enabled(s, Copy(t, i))
    ensures Inv(Apply(s, Copy(t, i)))
  {
    R.PushCopyInv(s.g.ring, i);
    var g' := s.g.(ring := R.Apply(s.g.ring, R.PushCopy(i)));
    assert forall u | u in s.calls :: CallOk(s.g, u, s.calls[u]) && CallOk(g', u, s.calls[u]);
    GateInv(s, g');
  }

  lemma StoreInv(s: Sink, t: nat)
    requires Inv(s) && Enabled(s, Store(t))
    ensures Inv(Apply(s, Store(t)))
  {
    var s', c := Apply(s, Store(t)), s.calls[t];
    assert CallOk(s.g, t, c);
    R.PushStoreInv(s.g.ring);
    StoreLogOk(s.g.order, s.g.taken, s.g.ended, s.g.ring.published, t, s.g.ring.producer.data);
    assert s'.calls.Keys == s.calls.Keys;
    forall u | u in s.calls
      ensures CallOk(s'.g, u, s'.calls[u])
    {
      StoreCallOk(s, t, u);
    }
  }

  lemma StoreCallOk(s: Sink, t: nat, u: nat)
    requires CallsInv(s) && Enabled(s, Store(t)) && u in s.calls
    ensures var s' := Apply(s, Store(t)); CallOk(s'.g, u, s'.calls[u])
  {
    assert CallOk(s.g, t, s.calls[t]) && CallOk(s.g, u, s.calls[u]);
  }

  lemma StoreLogOk(order: seq<nat>, taken: map<nat, seq<byte>>, ended: map<nat, Outcome>, published: seq<byte>,
                   t: nat, piece: seq<byte>)
    requires LogOk(order, taken, ended, published) && t !in taken && t !in ended
    ensures LogOk(order + [t], taken[t := piece], ended, published + piece)
  {
    PublishedFrame(order, taken, t, piece);
    assert (order + [t])[..|order|] == order;
  }

  lemma {:induction false} PublishedFrame(order: seq<nat>, taken: map<nat, seq<byte>>, t: nat, piece: seq<byte>)
    requires t !in order
    ensures Published(order, taken[t := piece]) == Published(order, taken)
  {
    if order != [] {
      PublishedFrame(order[..|order| - 1], taken, t, piece);
    }
  }

  lemma UnlockInv(s: Sink, t: nat)
    requires Inv(s) && Enabled(s, Unlock(t))
    ensures Inv(Apply(s, Unlock(t)))
  {
    var s', c := Apply(s, Unlock(t)), s.calls[t];
    assert CallOk(s.g, t, c);
    assert s'.calls.Keys == s.calls.Keys;
    assert CallOk(s'.g, t, s'.calls[t]);
    assert forall u | u in s.calls && u != t :: CallOk(s.g, u, s.calls[u]) && CallOk(s'.g, u, s.calls[u]);
  }

  lemma CloseInv(s: Sink, a: Action)
    requires Inv(s) && Enabled(s, a) && (a.CloseStore? || a.ClosePoll?)
    ensures Inv(Apply(s, a))
  {
    hide R.Inv, LogOk;
    var s' := Apply(s, a);
    assert a.ClosePoll? && s.g.users == 0 ==> s.calls == map[];
    assert forall u | u in s.calls :: CallOk(s.g, u, s.calls[u]) && CallOk(s'.g, u, s.calls[u]);
    GateInv(s, s'.g);
  }

  lemma OpenInv(s: Sink, a: Action)
    requires Inv(s) && Enabled(s, a) && (a.OpenPrepare? || a.OpenPublish? || a.Free?)
    ensures Inv(Apply(s, a))
  {
    hide R.Inv, LogOk;
    GenOfStep(s.g.opens);
    var s' := Apply(s, a);
    assert forall u | u in s.calls :: CallOk(s.g, u, s.calls[u]) && CallOk(s'.g, u, s.calls[u]);
    GateInv(s, s'.g);
  }

  lemma SetUpInv(s: Sink, a: Action)
    requires Inv(s) && Enabled(s, a) && a.SetUp?
    ensures Inv(Apply(s, a))
  {
    var s' := Apply(s, a);
    assert forall u | u in s.calls :: CallOk(s.g, u, s.calls[u]) && CallOk(s'.g, u, s.calls[u]);
  }

  lemma ConsumeInv(s: Sink, a: R.Action)
    requires Inv(s) && Enabled(s, Consume(a))
    ensures Inv(Apply(s, Consume(a)))
  {
    ConsumerFrame(s.g.ring, a);
    var g' := s.g.(ring := R.Apply(s.g.ring, a));
    forall u | u in s.calls
      ensures CallOk(g', u, s.calls[u])
    {
      ConsumeCallOk(s.g, g'.ring, u, s.calls[u]);
    }
    hide CallOk, LogOk, R.Inv, R.Apply;
    GateInv(s, g');
  }

  /** A call minds only the head, the producer and that room does not shrink. */
  lemma ConsumeCallOk(g: Gate, ring: R.State, u: nat, c: Call)
    requires CallOk(g, u, c)
    requires ring.head == g.ring.head && ring.producer == g.ring.producer && |ring.buf| == |g.ring.buf|
    requires R.Used(ring) <= R.Used(g.ring)
    ensures CallOk(g.(ring := ring), u, c)
  {
  }

  /** The consumer leaves the producer's side alone and only makes room. */
  lemma ConsumerFrame(r: R.State, a: R.Action)
    requires R.Inv(r) && (a.PopLoad? || a.PopCopy? || a.PopStore?) && R.Enabled(r, a)
    ensures var r' := R.Apply(r, a);
            R.Inv(r') && r'.head == r.head && r'.producer == r.producer && r'.published == r.published
            && r'.buf == r.buf && R.Used(r') <= R.Used(r)
  {
    R.StepInv(r, a);
  }

  lemma StepInv(s: Sink, a: Action)
    requires Inv(s) && Enabled(s, a)
    ensures Inv(Apply(s, a))
  {
    hide Inv;
    match a
    case Enter(t, gen, req) => EnterInv(s, t, gen, req);
    case Check(t) => CheckInv(s, t);
    case Refuse(t) => FinishInv(s, t, -1);
    case TryLock(t) => TryLockInv(s, t);
    case LoadHead(t) => LoadHeadInv(s, t);
    case LoadTail(t) => LoadTailInv(s, t);
    case Push(t) => PushInv(s, t);
    case Copy(t, i) => CopyInv(s, t, i);
    case Store(t) => StoreInv(s, t);
    case Unlock(t) => UnlockInv(s, t);
    case Leave(t) => FinishInv(s, t, s.calls[t].pc.result);
    case Consume(r) => ConsumeInv(s, r);
    case SetUp(_) => SetUpInv(s, a);
    case CloseStore => CloseInv(s, a);
    case ClosePoll => CloseInv(s, a);
    case _ => OpenInv(s, a);
  }

  // ---- whole runs

  ghost predicate Runs(s: Sink, acts: seq<Action>)
    decreases |acts|
  {
    acts == [] || (Enabled(s, acts[0]) && Runs(Apply(s, acts[0]), acts[1..]))
  }

  ghost function End(s: Sink, acts: seq<Action>): Sink
    requires Runs(s, acts)
    decreases |acts|
  {
    if acts == [] then s else End(Apply(s, acts[0]), acts[1..])
  }

  ghost predicate Reachable(e: Sink) {
    exists s, acts :: Init(s) && Runs(s, acts) && End(s, acts) == e
  }

  lemma {:induction false} RunInv(s: Sink, acts: seq<Action>)
    requires Inv(s) && Runs(s, acts)
    ensures Inv(End(s, acts)) && s.g.opens <= End(s, acts).g.opens && s.g.drained <= End(s, acts).g.drained
    decreases |acts|
  {
    if acts != [] {
      StepInv(s, acts[0]);
      RunInv(Apply(s, acts[0]), acts[1..]);
    }
  }

  lemma ReachableInv(e: Sink)
    requires Reachable(e)
    ensures Inv(e)
  {
    var s, acts :| Init(s) && Runs(s, acts) && End(s, acts) == e;
    InitInv(s);
    RunInv(s, acts);
  }
}
