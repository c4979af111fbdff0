/** The life of a stream slot in src/usbif_host_stream.c: opening, completions,
    failed resubmits, unplugging and stopping, with the transfers the host library
    holds at each moment. */
module StreamSlots {
  import opened Bytes
  import opened IsoTiming
  import SinkGate
  import R = StreamRuns

  datatype Status = Ok | NoMem | Io

  /** The first `n` transfers. */
  ghost predicate FirstOnes(s: set<nat>, n: nat) {
    forall i: nat :: i in s <==> i < n
  }

  function Elems(s: seq<nat>): set<nat> {
    set i | i in s
  }

  /** What neither wait of a stop brought back. */
  ghost function StillOut(held: set<nat>, back: seq<nat>, flushed: seq<nat>): set<nat> {
    held - Elems(back) - Elems(flushed)
  }

  ghost predicate Below(s: set<nat>, n: nat) {
    forall i | i in s :: i < n
  }

  /** Those of the first `n` transfers that the library took. */
  ghost function TakenBelow(xfer: set<nat>, accepts: seq<bool>, n: nat): set<nat>
    requires n <= |accepts|
  {
    set i | i in xfer && i < n && accepts[i]
  }

  lemma TakenNext(xfer: set<nat>, accepts: seq<bool>, n: nat)
    requires n < |accepts|
    ensures n !in TakenBelow(xfer, accepts, n) && TakenBelow(xfer, accepts, n) <= xfer
    ensures TakenBelow(xfer, accepts, n + 1)
            == TakenBelow(xfer, accepts, n) + if n in xfer && accepts[n] then {n} else {}
  {
  }

  /** What is still held after the first `n` callbacks. */
  ghost function CalledBack(had: set<nat>, back: seq<nat>, n: nat): set<nat>
    requires n <= |back|
  {
    had - Elems(back[..n])
  }

  lemma CalledBackNone(had: set<nat>, back: seq<nat>)
    ensures CalledBack(had, back, 0) == had
  {
  }

  lemma CalledBackNext(had: set<nat>, back: seq<nat>, n: nat)
    requires n < |back|
    ensures CalledBack(had, back, n + 1) == CalledBack(had, back, n) - {back[n]}
  {
  }

  /** Nothing held, or everyone called back: the callbacks have done all they can. */
  lemma CalledBackAll(had: set<nat>, back: seq<nat>, n: nat)
    requires n <= |back| && (n == |back| || CalledBack(had, back, n) == {})
    ensures CalledBack(had, back, n) == had - Elems(back)
  {
    assert back[..|back|] == back;
    assert Elems(back[..n]) <= Elems(back);
  }

  lemma NoneTaken(xfer: set<nat>, accepts: seq<bool>, n: nat)
    requires FirstOnes(xfer, n) && n <= |accepts|
    ensures TakenBelow(xfer, accepts, n) == {} <==> forall i | 0 <= i < n :: !accepts[i]
  {
    forall i: nat | i < n && accepts[i] ensures i in TakenBelow(xfer, accepts, n) {
    }
  }

  lemma RetiredNext(s: R.Slot, back: seq<nat>, n: nat)
    requires n < |back|
    ensures R.Retired(s, back[n..])
         == R.Retired(if back[n] in s.held then R.CalledBack(s, back[n], false) else s, back[n + 1..])
  {
    assert back[n..][1..] == back[n + 1..];
  }

  lemma RetiredAll(s: R.Slot, back: seq<nat>, n: nat)
    requires n <= |back| && (n == |back| || s.held == {})
    ensures R.Retired(s, back[n..]) == s
  {
    if n < |back| {
      R.RetiredNone(s, back[n..]);
    }
  }

  /** The transfers an open makes. */
  function Made(n: nat): (s: set<nat>)
    ensures FirstOnes(s, n) && |s| == n
  {
    if n == 0 then {} else Made(n - 1) + {n - 1}
  }

  lemma MadeAll(s: set<nat>, n: nat)
    requires FirstOnes(s, n)
    ensures s == Made(n)
  {
  }

  lemma {:induction false} MadeBelow(n: nat)
    requires n <= MAX_XFER
    ensures Below(Made(n), MAX_XFER)
  {
  }

  class Stream {
    var used: bool
    var open: bool
    var gone: bool
    var input: bool
    var nxfer: nat
    /** The transfers allocated and not freed. */
    var xfer: set<nat>
    var inflight: nat
    var errors: nat
    /** The gate on the ring: its open generation, 0 while closed, and the last
        one it handed out, which carries on from one stream to the next. */
    var gate: u32
    var lastGen: u32
    /** The host library's side: the transfers submitted and not yet called back. */
    var held: set<nat>

    /** `inflight` is the number the library holds, all of them allocated; an
        unused slot has none; only an open playback stream's gate is open. */
    ghost predicate Valid()
      reads this
    {
      && inflight == |held| && held <= xfer && Below(xfer, MAX_XFER)
      && (!used ==> xfer == {} && !open)
      && (open ==> FirstOnes(xfer, nxfer) && MIN_XFER <= nxfer <= MAX_XFER)
      && (gate != 0 ==> used && open && !input)
    }

    constructor ()
      ensures Valid() && !used && lastGen == 0
    {
      used, open, gone, input, nxfer, inflight, errors := false, false, false, false, 0, 0, 0;
      xfer, held, gate, lastGen := {}, {}, 0, 0;
    }

    /** The slot as the table's runs see it. */
    ghost function AsSlot(): R.Slot
      reads this
    {
      R.Slot(used, open, gone, input, xfer, held, inflight, gate, lastGen)
    }

    /** The library takes a transfer: never one that is freed, or that it has. */
    method Submit(i: nat, accepted: bool) returns (ok: bool)
      requires i in xfer && i !in held
      modifies this`held
      ensures ok == accepted && held == if ok then old(held) + {i} else old(held)
    {
      ok := accepted;
      if ok {
        held := held + {i};
      }
    }

    /** The library lets go of a transfer's memory: never one it holds, and on a
        playback stream never while a producer can still reach the ring. */
    method Release(i: nat)
      requires i in xfer && i !in held && (input || gate == 0)
      modifies this`xfer
      ensures xfer == old(xfer) - {i}
    {
      xfer := xfer - {i};
    }

    /** usbif_stream_cb: the library calls back a transfer it held. It is back in
        the library's hands exactly if the stream is open and it took it. */
    method Callback(i: nat, accepted: bool)
      requires Valid() && i in held
      modifies this`held, this`inflight, this`errors
      ensures Valid()
      ensures held == if open && accepted then old(held) else old(held) - {i}
      ensures AsSlot() == R.CalledBack(old(AsSlot()), i, accepted)
    {
      hide Below, FirstOnes;
      held := held - {i};
      assert held + {i} == old(held) && |held| == old(|held|) - 1;
      if !open {
        inflight := inflight - 1;
        return;
      }
      var ok := Submit(i, accepted);
      if !ok {
        inflight := inflight - 1;
        errors := errors + 1;
      }
    }

    /** usbif_stream_wait_retired: `back` are the transfers the library calls back
        before the time is up. */
    method WaitRetired(back: seq<nat>)
      requires Valid() && !open
      modifies this`held, this`inflight, this`errors
      ensures Valid()
      ensures held == old(held) - Elems(back)
      ensures AsSlot() == R.Retired(old(AsSlot()), back)
    {
      ghost var had := held;
      var n := 0;
      assert back[0..] == back;
      CalledBackNone(had, back);
      while inflight > 0 && n < |back|
        invariant n <= |back| && Valid() && held == CalledBack(had, back, n)
        invariant R.Retired(AsSlot(), back[n..]) == R.Retired(old(AsSlot()), back)
      {
        CalledBackNext(had, back, n);
        RetiredNext(AsSlot(), back, n);
        hide CalledBack, Below, FirstOnes, R.Retired, R.CalledBack;
        if back[n] in held {
          Callback(back[n], false);
        }
        n := n + 1;
      }
      assert inflight == 0 ==> held == {};
      CalledBackAll(had, back, n);
      RetiredAll(AsSlot(), back, n);
    }

    method ReleaseAll()
      requires Valid() && held == {} && !open && gate == 0
      modifies this`xfer
      ensures xfer == {}
    {
      var i := 0;
      while i < MAX_XFER
        invariant 0 <= i <= MAX_XFER && Below(xfer, MAX_XFER) && forall j | j in xfer :: j >= i
      {
        if i in xfer {
          Release(i);
        }
        i := i + 1;
      }
    }

    /** usbif_stream_stop_locked. `back` come back by themselves, `flushed` after
        the endpoint is halted or the device is gone. The slot is free again if
        and only if every transfer came back; otherwise nothing is freed and the
        slot stays taken. Either way the gate is closed. */
    method Stop(back: seq<nat>, flushed: seq<nat>)
      requires Valid()
      modifies `open, `gate, `held, `inflight, `errors, `xfer, `used
      ensures Valid() && (used <==> old(used) && held != {})
      ensures old(used) ==> !open && gate == 0 && held == StillOut(old(held), back, flushed)
      ensures !used ==> xfer == {} == held
      ensures used ==> xfer == old(xfer)
      ensures AsSlot() == if old(used) then R.StoppedAfter(old(AsSlot()), back, flushed) else old(AsSlot())
    {
      hide Valid, StillOut, R.Retired, R.Stopped, R.Stopping;
      if !used {
        UnusedIsEmpty();
        return;
      }
      Quiesce(back, flushed);
      Free();
    }

    lemma UnusedIsEmpty()
      requires Valid() && !used
      ensures held == {} && xfer == {}
    {
    }

    /** No more resubmits, no producer reaches the ring any more, and both waits. */
    method Quiesce(back: seq<nat>, flushed: seq<nat>)
      requires Valid() && used
      modifies `open, `gate, `held, `inflight, `errors
      ensures Valid() && !open && gate == 0 && held == StillOut(old(held), back, flushed)
      ensures AsSlot() == R.Retired(R.Retired(R.Stopping(old(AsSlot())), back), flushed)
    {
      hide StillOut, Elems, FirstOnes;
      open := false;
      if !input {
        gate := 0;
      }
      Retire(back, flushed);
    }

    /** Everything freed and the slot given back, unless a transfer is still out. */
    method Free()
      requires Valid() && used && !open && gate == 0
      modifies `xfer, `used
      ensures Valid() && (used <==> held != {}) && (!used ==> xfer == {}) && (used ==> xfer == old(xfer))
      ensures AsSlot() == R.Stopped(old(AsSlot()))
    {
      if inflight > 0 {
        return;
      }
      assert held == {};
      hide Below, FirstOnes;
      ReleaseAll();
      used := false;
    }

    /** Both waits of a stop. */
    method Retire(back: seq<nat>, flushed: seq<nat>)
      requires Valid() && !open
      modifies this`held, this`inflight, this`errors
      ensures Valid() && held == StillOut(old(held), back, flushed)
      ensures AsSlot() == R.Retired(R.Retired(old(AsSlot()), back), flushed)
    {
      hide Elems, FirstOnes, Below, R.Retired;
      WaitRetired(back);
      if inflight > 0 {
        // Halted and flushed, or gone: waited for once more.
        WaitRetired(flushed);
      } else {
        assert held == {};
        R.RetiredNone(AsSlot(), flushed);
      }
    }

    /** What the library took of the transfers allocated. */
    ghost function Taken(accepts: seq<bool>): set<nat>
      reads this
      requires Below(xfer, |accepts|)
    {
      TakenBelow(xfer, accepts, |accepts|)
    }

    /** usbif_stream_open_locked on this slot, free until now: `allocs` is how many
        transfers the allocator has memory for, `accepts` which of them the library
        takes. A stream that opens has 3 transfers or more, at least one of them on
        the bus, and a playback stream's gate is open; one that does not leaves the
        slot free, with nothing allocated and nothing submitted. */
    method Open(isIn: bool, wanted: nat, allocs: nat, accepts: seq<bool>) returns (r: Status)
      requires Valid() && !used && MIN_XFER <= wanted <= MAX_XFER && |accepts| == wanted
      modifies this
      ensures Valid() && (r == Ok <==> used)
      ensures r == NoMem <==> Min(allocs, wanted) < MIN_XFER
      ensures r == Io <==> Min(allocs, wanted) >= MIN_XFER && forall i | 0 <= i < Min(allocs, wanted) :: !accepts[i]
      ensures r == Ok ==>
                && open && !gone && nxfer == Min(allocs, wanted) && FirstOnes(xfer, nxfer) && input == isIn
                && held == Taken(accepts) != {}
      ensures r != Ok ==> !open && AsSlot().xfer == {} == held && inflight == 0
      ensures lastGen == if r != NoMem && !isIn then SinkGate.NextGen(old(lastGen)) else old(lastGen)
      ensures gate == if r == Ok && !isIn then lastGen else 0
      ensures AsSlot() == R.Opened(old(AsSlot()), isIn, Made(Min(allocs, wanted)),
                                   TakenBelow(Made(Min(allocs, wanted)), accepts, Min(allocs, wanted)))
    {
      Allocate(isIn, Min(allocs, wanted));
      NoneTaken(xfer, accepts, nxfer);
      hide FirstOnes, Below, TakenBelow, Made, Valid;
      if nxfer < MIN_XFER {
        GiveUp();
        return NoMem;
      }
      r := Start(accepts);
    }

    /** The slot taken and its transfers made. */
    method Allocate(isIn: bool, n: nat)
      requires Valid() && !used && n <= MAX_XFER
      modifies this
      ensures Valid() && nxfer == n && FirstOnes(xfer, n)
      ensures AsSlot() == R.Slot(true, false, false, isIn, Made(n), {}, 0, 0, old(lastGen))
    {
      hide FirstOnes, Made;
      assert held == {};
      open, gone, input, nxfer, inflight, errors := false, false, isIn, n, 0, 0;
      AllocAll(n);
      MadeAll(xfer, n);
      MadeBelow(n);
      used := true;
    }

    /** Stopped with nothing on the bus: the slot is empty again. */
    method GiveUp()
      requires Valid() && used && held == {}
      modifies `open, `gate, `held, `inflight, `errors, `xfer, `used
      ensures Valid() && AsSlot() == R.Slot(false, false, gone, input, {}, {}, 0, 0, lastGen)
    {
      Stop([], []);
      assert StillOut({}, [], []) == {};
    }

    /** The second half: everything allocated, the gate opens and the transfers go out. */
    method Start(accepts: seq<bool>) returns (r: Status)
      requires Valid() && used && !open && gate == 0 && FirstOnes(xfer, nxfer) && MIN_XFER <= nxfer <= |accepts|
               && nxfer <= MAX_XFER
      requires held == {}
      modifies this
      ensures Valid() && r != NoMem && (r == Ok <==> used)
      ensures r == Io <==> forall i | 0 <= i < old(nxfer) :: !accepts[i]
      ensures r == Ok ==> open && nxfer == old(nxfer) && FirstOnes(xfer, nxfer)
                          && held == Taken(accepts) == TakenBelow(xfer, accepts, nxfer) != {}
      ensures input == old(input) && lastGen == if !input then SinkGate.NextGen(old(lastGen)) else old(lastGen)
      ensures gate == if r == Ok && !input then lastGen else 0
      ensures AsSlot() == if r == Ok then R.Slot(true, true, old(gone), input, old(xfer), held, |held|, gate, lastGen)
                          else R.Slot(false, false, old(gone), input, {}, {}, 0, 0, lastGen)
    {
      Launch(accepts);
      NoneTaken(xfer, accepts, nxfer);
      hide FirstOnes, Below, TakenBelow, Valid;
      if inflight == 0 {
        GiveUp();
        return Io;
      }
      return Ok;
    }

    /** The gate opened and every transfer offered to the library. */
    method Launch(accepts: seq<bool>)
      requires Valid() && used && !open && gate == 0 && FirstOnes(xfer, nxfer) && MIN_XFER <= nxfer <= |accepts|
               && nxfer <= MAX_XFER
      requires held == {}
      modifies `lastGen, `gate, `open, `held, `inflight, `errors
      ensures Valid() && open && Below(xfer, |accepts|) && held == Taken(accepts) == TakenBelow(xfer, accepts, nxfer)
      ensures lastGen == (if input then old(lastGen) else SinkGate.NextGen(old(lastGen)))
              && gate == if input then 0 else lastGen
      ensures inflight == |held| && (inflight == 0 <==> held == {})
    {
      if !input {
        lastGen := SinkGate.NextGen(lastGen);
        gate := lastGen;
      }
      open := true;
      SubmitAll(accepts);
      TakenAll(accepts);
      hide FirstOnes, Below, TakenBelow;
    }

    /** Past the last transfer there is nothing to take. */
    lemma TakenAll(accepts: seq<bool>)
      requires FirstOnes(xfer, nxfer) && Below(xfer, MAX_XFER) && nxfer <= |accepts|
      ensures Below(xfer, |accepts|) && Taken(accepts) == TakenBelow(xfer, accepts, nxfer)
    {
    }

    method AllocAll(n: nat)
      requires xfer == {}
      modifies this`xfer
      ensures FirstOnes(xfer, n)
    {
      var i := 0;
      while i < n
        invariant i <= n && FirstOnes(xfer, i)
      {
        xfer := xfer + {i};
        i := i + 1;
      }
    }

    method SubmitAll(accepts: seq<bool>)
      requires Valid() && used && open && held == {} && nxfer <= |accepts|
      modifies this`held, this`inflight, this`errors
      ensures Valid() && held == TakenBelow(xfer, accepts, nxfer)
    {
      var i := 0;
      while i < nxfer
        invariant 0 <= i <= nxfer && Valid() && held == TakenBelow(xfer, accepts, i)
      {
        TakenNext(xfer, accepts, i);
        hide TakenBelow, Below;
        var ok := Submit(i, accepts[i]);
        if ok {
          inflight := inflight + 1;
        } else {
          errors := errors + 1;
        }
        i := i + 1;
      }
    }
  }
}
