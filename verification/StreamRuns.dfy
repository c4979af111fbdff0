/** Every run of the table of four streams in src/usbif_host_stream.c: opens, the
    library's callbacks, unplugging, and stops, one inside another's wait. */
module StreamRuns {
  import opened Bytes
  import opened IsoTiming
  import SinkGate

  const STREAMS: nat := 4

  /** A slot: its flags and counter, the transfers allocated, those the host library
      holds, and the gate on its ring. */
  datatype Slot = Slot(used: bool, open: bool, gone: bool, input: bool, xfer: set<nat>, held: set<nat>, inflight: int,
                       gate: u32, lastGen: u32)

  /** The table, and the stops in progress, the innermost last: each holds the host
      lock through its wait, so nothing is opened until they are over. */
  datatype Table = Table(slots: seq<Slot>, stops: seq<nat>)

  datatype Event =
    | Open(input: bool, made: set<nat>, taken: set<nat>)
    | Callback(slot: nat, xfer: nat, accepted: bool)
    | Unplug(slot: nat)
    | StopBegin(slot: nat)
    | StopEnd

  function Start(): Table {
    Table(seq(STREAMS, i => Slot(false, false, false, false, {}, {}, 0, 0, 0)), [])
  }

  /** The first free slot, or STREAMS. */
  function FirstFree(slots: seq<Slot>, from: nat): (k: nat)
    requires from <= |slots|
    ensures from <= k <= |slots| && (forall j | from <= j < k :: slots[j].used) && (k < |slots| ==> !slots[k].used)
    decreases |slots| - from
  {
    if from == |slots| || !slots[from].used then from else FirstFree(slots, from + 1)
  }

  /** open_locked on a free slot: too few transfers, or none of them taken, and it is
      free again; otherwise the stream is open, a playback stream's gate with it. */
  function Opened(s: Slot, input: bool, made: set<nat>, taken: set<nat>): Slot {
    var empty := Slot(false, false, false, input, {}, {}, 0, 0, s.lastGen);
    if |made| < MIN_XFER then empty
    else
      var gen := if input then s.lastGen else SinkGate.NextGen(s.lastGen);
      if taken == {} then empty.(lastGen := gen)
      else Slot(true, true, false, input, made, taken, |taken|, if input then 0 else gen, gen)
  }

  /** usbif_stream_cb. */
  function CalledBack(s: Slot, i: nat, accepted: bool): Slot {
    if s.open && accepted then s else s.(held := s.held - {i}, inflight := s.inflight - 1)
  }

  /** stop_locked up to its wait, and after it. */
  function Stopping(s: Slot): Slot {
    s.(open := false, gate := if s.input then s.gate else 0)
  }

  function Stopped(s: Slot): Slot {
    if s.inflight > 0 then s else s.(xfer := {}, used := false)
  }

  /** What a wait sees: `back` called back in turn, as far as they are held. */
  function Retired(s: Slot, back: seq<nat>): Slot
    decreases |back|
  {
    if back == [] then s
    else Retired(if back[0] in s.held then CalledBack(s, back[0], false) else s, back[1..])
  }

  lemma {:induction false} RetiredNone(s: Slot, back: seq<nat>)
    requires s.held == {}
    ensures Retired(s, back) == s
    decreases |back|
  {
    if back != [] {
      RetiredNone(s, back[1..]);
    }
  }

  ghost predicate Enabled(t: Table, e: Event) {
    match e
    case Open(_, made, taken) =>
      t.stops == [] && FirstFree(t.slots, 0) < |t.slots| && |made| <= MAX_XFER && taken <= made
    case Callback(k, i, _) => k < |t.slots| && i in t.slots[k].held
    case Unplug(k) => k < |t.slots| && t.slots[k].used
    case StopBegin(k) => k < |t.slots| && t.slots[k].used
    case StopEnd => t.stops != [] && t.stops[|t.stops| - 1] < |t.slots|
  }

  function Put(t: Table, k: nat, s: Slot): Table
    requires k < |t.slots|
  {
    t.(slots := t.slots[k := s])
  }

  ghost function Apply(t: Table, e: Event): Table
    requires Enabled(t, e)
  {
    match e
    case Open(input, made, taken) =>
      var k := FirstFree(t.slots, 0);
      Put(t, k, Opened(t.slots[k], input, made, taken))
    case Callback(k, i, accepted) => Put(t, k, CalledBack(t.slots[k], i, accepted))
    case Unplug(k) => Put(t, k, t.slots[k].(gone := true))
    case StopBegin(k) => Put(t, k, Stopping(t.slots[k])).(stops := t.stops + [k])
    case StopEnd =>
      var k := t.stops[|t.stops| - 1];
      Put(t, k, Stopped(t.slots[k])).(stops := t.stops[..|t.stops| - 1])
  }

  /** The counter is what the library holds, all of it allocated; a free slot has
      nothing; only an open playback stream's gate is open. */
  ghost predicate SlotOk(s: Slot) {
    && s.inflight == |s.held| && s.held <= s.xfer && |s.xfer| <= MAX_XFER
    && (!s.used ==> s.xfer == {} && !s.open)
    && (s.open ==> s.xfer != {})
    && (s.gate != 0 ==> s.used && s.open && !s.input)
  }

  ghost predicate Inv(t: Table) {
    && |t.slots| == STREAMS && (forall k | 0 <= k < STREAMS :: SlotOk(t.slots[k]))
    && (forall j | 0 <= j < |t.stops| :: t.stops[j] < STREAMS && !t.slots[t.stops[j]].open)
  }

  lemma OpenedOk(s: Slot, input: bool, made: set<nat>, taken: set<nat>)
    requires |made| <= MAX_XFER && taken <= made
    ensures SlotOk(Opened(s, input, made, taken))
  {
  }

  lemma CalledBackOk(s: Slot, i: nat, accepted: bool)
    requires SlotOk(s) && i in s.held
    ensures SlotOk(CalledBack(s, i, accepted)) && CalledBack(s, i, accepted).open == s.open
  {
    assert |s.held - {i}| == |s.held| - 1;
  }

  lemma StoppedOk(s: Slot)
    requires SlotOk(s) && !s.open
    ensures SlotOk(Stopped(s)) && !Stopped(s).open
  {
    if s.inflight == 0 {
      assert s.held == {};
    }
  }

  lemma StepInv(t: Table, e: Event)
    requires Inv(t) && Enabled(t, e)
    ensures Inv(Apply(t, e))
  {
    match e
    case Open(input, made, taken) => OpenedOk(t.slots[FirstFree(t.slots, 0)], input, made, taken);
    case Callback(k, i, accepted) => CalledBackOk(t.slots[k], i, accepted);
    case StopEnd => StoppedOk(t.slots[t.stops[|t.stops| - 1]]);
    case _ =>
    hide Opened, CalledBack, Stopped, FirstFree;
  }

  ghost predicate Runs(t: Table, es: seq<Event>)
    decreases |es|
  {
    es == [] || (Enabled(t, es[0]) && Runs(Apply(t, es[0]), es[1..]))
  }

  ghost function End(t: Table, es: seq<Event>): Table
    requires Runs(t, es)
    decreases |es|
  {
    if es == [] then t else End(Apply(t, es[0]), es[1..])
  }

  lemma {:induction false} RunInv(t: Table, es: seq<Event>)
    requires Inv(t) && Runs(t, es)
    ensures Inv(End(t, es))
    decreases |es|
  {
    if es != [] {
      StepInv(t, es[0]);
      RunInv(Apply(t, es[0]), es[1..]);
    }
  }

  /** What one event may do to a slot: free transfers only when the library holds none
      of them and no producer can reach the ring; take the slot only when it has
      nothing; count exactly what the library holds. */
  ghost predicate Safe(s: Slot, s': Slot) {
    && (!(s.xfer <= s'.xfer) ==> s.held == {} && s.gate == 0 && s'.held == {})
    && (!s.used && s'.used ==> s.xfer == {} == s.held)
    && s'.inflight == |s'.held|
    && (s.open && !s'.open ==> s'.gate == 0)
  }

  /** After any run, whatever happens next is safe for every slot. */
  lemma AlwaysSafe(es: seq<Event>, e: Event, k: nat)
    requires Runs(Start(), es) && Enabled(End(Start(), es), e) && k < 4
    ensures var t := End(Start(), es);
            |t.slots| == 4 == |Apply(t, e).slots| && Safe(t.slots[k], Apply(t, e).slots[k])
  {
    assert Inv(Start());
    RunInv(Start(), es);
    var t := End(Start(), es);
    StepInv(t, e);
    assert SlotOk(t.slots[k]) && SlotOk(Apply(t, e).slots[k]);
    hide Runs, End, Inv;
  }

  /** A stop that is over has freed its slot exactly if every transfer came back;
      otherwise the slot stays taken with all of them. */
  lemma StopFreesOrKeeps(es: seq<Event>)
    requires Runs(Start(), es) && Enabled(End(Start(), es), StopEnd)
    ensures var t := End(Start(), es);
            var k := t.stops[|t.stops| - 1];
            var s, s' := t.slots[k], Apply(t, StopEnd).slots[k];
            && s'.gate == 0 && !s'.open
            && (s.held == {} ==> !s'.used && s'.xfer == {})
            && (s.held != {} ==> s'.used == s.used == true && s'.xfer == s.xfer)
  {
    assert Inv(Start());
    RunInv(Start(), es);
    var t := End(Start(), es);
    assert SlotOk(t.slots[t.stops[|t.stops| - 1]]);
    hide Runs, End, Inv;
  }

  // ---- a stop as a stretch of a run

  /** The callbacks of a wait as events. */
  function WaitEvents(s: Slot, k: nat, back: seq<nat>): seq<Event>
    decreases |back|
  {
    if back == [] then []
    else if back[0] in s.held then
      [Callback(k, back[0], false)] + WaitEvents(CalledBack(s, back[0], false), k, back[1..])
    else WaitEvents(s, k, back[1..])
  }

  lemma {:induction false} WaitIsRun(t: Table, k: nat, back: seq<nat>)
    requires k < |t.slots|
    ensures var es := WaitEvents(t.slots[k], k, back);
            Runs(t, es) && End(t, es) == Put(t, k, Retired(t.slots[k], back))
    decreases |back|
  {
    var s := t.slots[k];
    if back == [] {
      assert Put(t, k, s) == t;
    } else if back[0] in s.held {
      var e := Callback(k, back[0], false);
      var t' := Apply(t, e);
      WaitIsRun(t', k, back[1..]);
      assert WaitEvents(s, k, back)[1..] == WaitEvents(t'.slots[k], k, back[1..]);
      assert Put(t', k, Retired(s, back)) == Put(t, k, Retired(s, back));
    } else {
      WaitIsRun(t, k, back[1..]);
    }
  }

  lemma {:induction false} RunsJoin(t: Table, a: seq<Event>, b: seq<Event>)
    requires Runs(t, a) && Runs(End(t, a), b)
    ensures Runs(t, a + b) && End(t, a + b) == End(End(t, a), b)
    decreases |a|
  {
    if a == [] {
      assert a + b == b;
    } else {
      RunsJoin(Apply(t, a[0]), a[1..], b);
      assert (a + b)[1..] == a[1..] + b;
    }
  }

  /** What a whole stop does to its slot. */
  function StoppedAfter(s: Slot, back: seq<nat>, flushed: seq<nat>): Slot {
    Stopped(Retired(Retired(Stopping(s), back), flushed))
  }

  function StopEvents(s: Slot, k: nat, back: seq<nat>, flushed: seq<nat>): seq<Event> {
    [StopBegin(k)] + WaitEvents(Stopping(s), k, back) + WaitEvents(Retired(Stopping(s), back), k, flushed) + [StopEnd]
  }

  /** It is a begin, the callbacks of its two waits, and an end: what is proved of
      every run holds of every stop made in one. */
  lemma StopIsRun(t: Table, k: nat, back: seq<nat>, flushed: seq<nat>)
    requires k < |t.slots| && t.slots[k].used
    ensures var es := StopEvents(t.slots[k], k, back, flushed);
            Runs(t, es) && End(t, es) == Put(t, k, StoppedAfter(t.slots[k], back, flushed))
  {
    var s := t.slots[k];
    var t1 := Apply(t, StopBegin(k));
    var t2 := Put(t1, k, Retired(Stopping(s), back));
    var t3 := Put(t2, k, Retired(Retired(Stopping(s), back), flushed));
    assert Runs(t, [StopBegin(k)]) && End(t, [StopBegin(k)]) == t1 by { OneStep(t, StopBegin(k)); }
    WaitIsRun(t1, k, back);
    RunsJoin(t, [StopBegin(k)], WaitEvents(Stopping(s), k, back));
    WaitIsRun(t2, k, flushed);
    RunsJoin(t, [StopBegin(k)] + WaitEvents(Stopping(s), k, back), WaitEvents(Retired(Stopping(s), back), k, flushed));
    OneStep(t3, StopEnd);
    RunsJoin(t, [StopBegin(k)] + WaitEvents(Stopping(s), k, back)
                + WaitEvents(Retired(Stopping(s), back), k, flushed), [StopEnd]);
    assert t3.stops[..|t3.stops| - 1] == t.stops;
    hide Retired, WaitEvents, Stopped, Stopping, Runs, End;
  }

  lemma OneStep(t: Table, e: Event)
    requires Enabled(t, e)
    ensures Runs(t, [e]) && End(t, [e]) == Apply(t, e)
  {
  }
}
