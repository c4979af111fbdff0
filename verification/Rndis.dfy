/** The RNDIS data path of src/usbif_host_net.c: frames wrapped one to a transfer on
    the way out, messages unwrapped back to back on the way in ([MS-RNDIS], section
    2.2.14). */
module Rndis {
  import opened Bytes
  import opened Wire

  const HEADER: nat := 44
  const PACKET_MSG: u32 := 1
  const TX_BYTES: nat := 2048
  const TX_XFERS: nat := 16
  const MIN_FRAME: nat := 14
  const MAX_FRAME: nat := 1536

  // ---- messages

  /** A message on the wire: a frame somewhere behind its header, between a gap and
      a tail; or something else, of another type or with a frame that runs past it. */
  datatype Message =
    | Frame(gap: seq<byte>, frame: seq<byte>, tail: seq<byte>)
    | Other(kind: u32, body: seq<byte>)

  function Size(m: Message): nat {
    match m
    case Frame(gap, frame, tail) => 16 + |gap| + |frame| + |tail|
    case Other(_, body) => 8 + |body|
  }

  /** At least a header, and of a length that can be written. */
  predicate Proper(m: Message) {
    HEADER <= Size(m) < TWO32
    && (m.Other? && m.kind == PACKET_MSG ==> 8 + Get32(m.body, 0) + Get32(m.body, 4) > Size(m))
  }

  function Print(m: Message): (r: seq<byte>)
    requires Proper(m)
    ensures |r| == Size(m)
  {
    match m
    case Frame(gap, frame, tail) =>
      LE32(PACKET_MSG) + LE32(Size(m)) + LE32(8 + |gap|) + LE32(|frame|) + gap + frame + tail
    case Other(kind, body) => LE32(kind) + LE32(Size(m)) + body
  }

  /** What the driver sends: the frame right behind a header of zeros. */
  function Wrapped(frame: seq<byte>): Message {
    Frame(Zeros(28), frame, [])
  }

  // ---- the receive loop

  /** The frames a transfer carried, and whether its last message was broken. */
  datatype Rx = Rx(frames: seq<seq<byte>>, broken: bool)

  /** The frame of the message at the front, if it holds one. */
  function FrameOf(s: seq<byte>): seq<seq<byte>>
    requires |s| >= HEADER && Get32(s, 4) <= |s|
  {
    var off, len := Get32(s, 8), Get32(s, 12);
    if Get32(s, 0) == PACKET_MSG && 8 + off + len <= Get32(s, 4) then [s[8 + off..8 + off + len]] else []
  }

  function Unwrap(s: seq<byte>): Rx {
    if |s| < HEADER then Rx([], false)
    else
      var mlen := Get32(s, 4);
      if mlen < HEADER || mlen > |s| then Rx([], true)
      else
        var rest := Unwrap(s[mlen..]);
        Rx(FrameOf(s) + rest.frames, rest.broken)
  }

  predicate Deliverable(frame: seq<byte>) {
    MIN_FRAME <= |frame| <= MAX_FRAME
  }

  /** Those of a size the stack is given. */
  function Delivered(frames: seq<seq<byte>>): (r: seq<seq<byte>>)
    ensures |r| <= |frames|
  {
    if frames == [] then []
    else Delivered(frames[..|frames| - 1]) + if Deliverable(frames[|frames| - 1]) then [frames[|frames| - 1]] else []
  }

  /** Those of them, the first being the `k`-th ever given, for which there was memory
      and which the stack did not refuse. */
  function Kept(takes: nat -> bool, k: nat, frames: seq<seq<byte>>): (r: seq<seq<byte>>)
    ensures |r| <= |frames|
  {
    if frames == [] then []
    else
      var n := |frames| - 1;
      Kept(takes, k, frames[..n]) + if takes(k + n) then [frames[n]] else []
  }

  /** The receive side: what the stack has, how many frames it was given, and the
      counters. */
  datatype Received = Received(stack: seq<seq<byte>>, given: nat, frames: nat, dropped: nat, errors: nat)

  /** After the frames `fs`: those kept are the stack's, in order; one of a wrong size
      is an error, and one of a right size not kept is dropped. */
  function Fed(r: Received, takes: nat -> bool, fs: seq<seq<byte>>): Received {
    Booked(r, |fs|, Delivered(fs), Kept(takes, r.given, Delivered(fs)))
  }

  /** Of `n` frames, `d` given and `kept` taken. */
  function Booked(r: Received, n: nat, d: seq<seq<byte>>, kept: seq<seq<byte>>): (r': Received)
    requires |kept| <= |d| <= n
    ensures r'.given == r.given + |d|
  {
    Received(r.stack + kept, r.given + |d|, r.frames + |kept|, r.dropped + |d| - |kept|, r.errors + n - |d|)
  }

  lemma FedNone(r: Received, takes: nat -> bool)
    ensures Fed(r, takes, []) == r
  {
  }

  lemma FedOne(r: Received, takes: nat -> bool, frame: seq<byte>)
    ensures Fed(r, takes, [frame]) ==
            if !Deliverable(frame) then r.(errors := r.errors + 1)
            else if takes(r.given) then r.(stack := r.stack + [frame], given := r.given + 1, frames := r.frames + 1)
            else r.(given := r.given + 1, dropped := r.dropped + 1)
  {
    assert [frame][..0] == [] && Delivered([frame][..0]) == [] && Kept(takes, r.given, [frame][..0]) == [];
    assert r.stack + [] == r.stack;
  }

  lemma FedJoin(r: Received, takes: nat -> bool, a: seq<seq<byte>>, b: seq<seq<byte>>)
    requires |b| <= 1
    ensures Fed(Fed(r, takes, a), takes, b) == Fed(r, takes, a + b)
  {
    hide Delivered, Kept, Booked;
    var da, db := Delivered(a), Delivered(b);
    DeliveredAppend(a, b);
    OneDelivered(b);
    assert |a + b| == |a| + |b|;
    KeptAppend(takes, r.given, da, db);
    BookedJoin(r, |a|, |b|, da, db, Kept(takes, r.given, da), Kept(takes, r.given + |da|, db));
  }

  /** The books of the two halves are those of the whole. */
  lemma BookedJoin(r: Received, m: nat, n: nat, da: seq<seq<byte>>, db: seq<seq<byte>>,
                   ka: seq<seq<byte>>, kb: seq<seq<byte>>)
    requires |ka| <= |da| <= m && |kb| <= |db| <= n
    ensures Booked(Booked(r, m, da, ka), n, db, kb) == Booked(r, m + n, da + db, ka + kb)
  {
    Regroup(r.stack, ka, kb);
  }

  lemma Regroup(a: seq<seq<byte>>, b: seq<seq<byte>>, c: seq<seq<byte>>)
    ensures a + (b + c) == a + b + c && |b + c| == |b| + |c|
  {
  }

  lemma KeptAppend(takes: nat -> bool, k: nat, a: seq<seq<byte>>, b: seq<seq<byte>>)
    requires |b| <= 1
    ensures Kept(takes, k, a + b) == Kept(takes, k, a) + Kept(takes, k + |a|, b)
  {
    if b == [] {
      assert a + b == a;
    } else {
      assert (a + b)[..|a|] == a && b[..0] == [];
    }
  }

  // ---- round trip

  function PrintAll(ms: seq<Message>): seq<byte>
    requires forall m | m in ms :: Proper(m)
  {
    if ms == [] then [] else Print(ms[0]) + PrintAll(ms[1..])
  }

  function Frames(ms: seq<Message>): seq<seq<byte>> {
    if ms == [] then [] else (if ms[0].Frame? then [ms[0].frame] else []) + Frames(ms[1..])
  }

  lemma PrintFields(m: Message)
    requires Proper(m)
    ensures var s := Print(m);
            && Get32(s, 4) == Size(m)
            && (m.Other? ==> Get32(s, 0) != PACKET_MSG || 8 + Get32(s, 8) + Get32(s, 12) > Size(m))
            && (m.Frame? ==> Get32(s, 0) == PACKET_MSG && Get32(s, 8) == 8 + |m.gap| && Get32(s, 12) == |m.frame|
                             && s[16 + |m.gap|..16 + |m.gap| + |m.frame|] == m.frame)
  {
    hide Get32, LE32;
    var s := Print(m);
    match m
    case Frame(gap, frame, tail) =>
      assert s[0..4] == LE32(PACKET_MSG) && s[4..8] == LE32(Size(m));
      assert s[8..12] == LE32(8 + |gap|) && s[12..16] == LE32(|frame|);
      FieldAt(s, 0);
      FieldAt(s, 4);
      FieldAt(s, 8);
      FieldAt(s, 12);
    case Other(kind, body) =>
      assert s[0..4] == LE32(kind) && s[4..8] == LE32(Size(m));
      assert s[8..12] == body[0..4] && s[12..16] == body[4..8];
      FieldAt(s, 0);
      FieldAt(s, 4);
      FieldAt(s, 8);
      FieldAt(s, 12);
      FieldAt(body, 0);
      FieldAt(body, 4);
  }

  lemma PrintedFront(m: Message, rest: seq<byte>)
    requires Proper(m)
    ensures var s := Print(m) + rest;
            && |s| >= HEADER && Get32(s, 4) == Size(m) <= |s| && s[Size(m)..] == rest
            && FrameOf(s) == if m.Frame? then [m.frame] else []
  {
    hide Get32, LE32, Print;
    PrintFields(m);
    var p, s := Print(m), Print(m) + rest;
    FieldKept(p, rest, 0);
    FieldKept(p, rest, 4);
    FieldKept(p, rest, 8);
    FieldKept(p, rest, 12);
    if m.Frame? {
      assert s[16 + |m.gap|..16 + |m.gap| + |m.frame|] == p[16 + |m.gap|..16 + |m.gap| + |m.frame|];
    }
  }

  lemma FieldKept(p: seq<byte>, rest: seq<byte>, at: nat)
    requires at + 4 <= |p|
    ensures Get32(p + rest, at) == Get32(p, at)
  {
  }

  /** The first message's frame comes out, and then what the rest unwraps to. */
  lemma FrontFirst(ms: seq<Message>, rest: seq<byte>)
    requires (forall m | m in ms :: Proper(m)) && ms != []
    ensures var u, v := Unwrap(PrintAll(ms) + rest), Unwrap(PrintAll(ms[1..]) + rest);
            u == Rx((if ms[0].Frame? then [ms[0].frame] else []) + v.frames, v.broken)
  {
    var s, more := Print(ms[0]), PrintAll(ms[1..]);
    PrintedFront(ms[0], more + rest);
    assert PrintAll(ms) == s + more;
    hide Print, Get32, FrameOf, PrintAll;
    Grouped(s, more, rest);
  }

  /** Messages back to back, and less than a header after them, unwrap to exactly
      their frames, in order, with nothing broken. */
  lemma {:induction false} UnwrapInverts(ms: seq<Message>, rest: seq<byte>)
    requires (forall m | m in ms :: Proper(m)) && |rest| < 44
    ensures Unwrap(PrintAll(ms) + rest) == Rx(Frames(ms), false)
  {
    if ms == [] {
      assert PrintAll(ms) + rest == rest;
    } else {
      UnwrapInverts(ms[1..], rest);
      FrontFirst(ms, rest);
      hide PrintAll, Proper;
    }
  }

  /** Messages, and then one whose length is less than a header or more than is left:
      their frames are out, and the transfer is broken. */
  lemma {:induction false} UnwrapBreaks(ms: seq<Message>, rest: seq<byte>)
    requires (forall m | m in ms :: Proper(m)) && |rest| >= 44
    requires var mlen := Value(rest, 4); mlen < 44 || mlen > |rest|
    ensures Unwrap(PrintAll(ms) + rest) == Rx(Frames(ms), true)
  {
    if ms == [] {
      assert PrintAll(ms) + rest == rest;
      ValueIs(rest, 4);
      hide Value, Get32;
    } else {
      UnwrapBreaks(ms[1..], rest);
      FrontFirst(ms, rest);
      hide PrintAll, Proper, Value;
    }
  }

  /** A message's bytes. */
  lemma MessageBytes(m: Message)
    requires Proper(m)
    ensures Size(m) >= 44
    ensures m.Frame? ==> Print(m) == [1, 0, 0, 0] + Four(16 + |m.gap| + |m.frame| + |m.tail|) + Four(8 + |m.gap|)
                                     + Four(|m.frame|) + m.gap + m.frame + m.tail
    ensures m.Other? ==> Print(m) == Four(m.kind) + Four(8 + |m.body|) + m.body
  {
    FourIs(1);
    FourIs(Size(m));
    if m.Frame? {
      FourIs(8 + |m.gap|);
      FourIs(|m.frame|);
    } else {
      FourIs(m.kind);
    }
    assert Four(1) == [1, 0, 0, 0];
    hide Four, LE32;
  }

  lemma {:induction false} AllDeliverable(frames: seq<seq<byte>>)
    requires forall f | f in frames :: Deliverable(f)
    ensures Delivered(frames) == frames
  {
    if frames != [] {
      var before, last := frames[..|frames| - 1], frames[|frames| - 1];
      assert last in frames && frames == before + [last];
      hide Deliverable;
      AllDeliverable(before);
    }
  }

  function WrapAll(frames: seq<seq<byte>>): (r: seq<Message>)
    requires forall f | f in frames :: Deliverable(f)
    ensures forall m | m in r :: Proper(m)
  {
    if frames == [] then []
    else
      assert Deliverable(frames[0]) && Proper(Wrapped(frames[0]));
      [Wrapped(frames[0])] + WrapAll(frames[1..])
  }

  lemma {:induction false} FramesOfWrapped(frames: seq<seq<byte>>)
    requires forall f | f in frames :: Deliverable(f)
    ensures Frames(WrapAll(frames)) == frames
  {
    if frames != [] {
      FramesOfWrapped(frames[1..]);
    }
  }

  /** Wrapped Ethernet frames come back, all of them and in order. */
  lemma WrappedFramesReturn(frames: seq<seq<byte>>, rest: seq<byte>)
    requires (forall i | 0 <= i < |frames| :: 14 <= |frames[i]| <= 1536) && |rest| < 44
    ensures Delivered(Unwrap(PrintAll(WrapAll(frames)) + rest).frames) == frames
  {
    UnwrapInverts(WrapAll(frames), rest);
    FramesOfWrapped(frames);
    AllDeliverable(frames);
  }

  // ---- the transmit side

  /** A transfer's bytes: the wrapped frame, and one byte more if it would end on a
      whole packet. */
  function Transfer(frame: seq<byte>, mps: nat): seq<byte>
    requires mps > 0 && |frame| <= TX_BYTES - HEADER - 1
  {
    Print(Wrapped(frame)) + if (HEADER + |frame|) % mps == 0 then [0] else []
  }

  /** It fits its buffer, unwraps to the frame alone, and ends in a short packet
      exactly when packets are longer than a byte. */
  lemma TransferIsOneFrame(frame: seq<byte>, mps: nat)
    requires mps > 0 && |frame| <= 2003
    ensures var s := Transfer(frame, mps);
            && |s| <= 2048 && (|s| % mps != 0 <==> mps > 1)
            && Unwrap(s) == Rx([frame], false)
  {
    var m, pad: seq<byte> := Wrapped(frame), if (HEADER + |frame|) % mps == 0 then [0] else [];
    OneMore(HEADER + |frame|, mps);
    assert Proper(m) && Size(m) == HEADER + |frame|;
    hide Print, Unwrap;
    UnwrapInverts([m], pad);
    OneMessage(m);
  }

  /** The bytes sent: 44 of header with the frame's length and place, the frame, and a
      byte more if all that is whole packets. */
  lemma TransferBytes(frame: seq<byte>, mps: nat)
    requires mps > 0 && |frame| <= 2003
    ensures Transfer(frame, mps)
         == [1, 0, 0, 0] + Four(44 + |frame|) + [36, 0, 0, 0] + Four(|frame|) + Zeros(28) + frame
            + if (44 + |frame|) % mps == 0 then [0] else []
  {
    var m := Wrapped(frame);
    assert Proper(m);
    MessageBytes(m);
    FourIs(36);
    assert Four(36) == [36, 0, 0, 0];
    hide Four, LE32, Print;
    assert Print(m) == [1, 0, 0, 0] + Four(44 + |frame|) + [36, 0, 0, 0] + Four(|frame|) + Zeros(28) + frame;
  }

  lemma OneMessage(m: Message)
    requires Proper(m)
    ensures PrintAll([m]) == Print(m) && Frames([m]) == if m.Frame? then [m.frame] else []
  {
    hide Print;
    assert PrintAll([m][1..]) == [] && Print(m) + [] == Print(m);
  }

  lemma OneMore(n: nat, mps: nat)
    requires mps > 0
    ensures n % mps == 0 ==> ((n + 1) % mps != 0 <==> mps > 1)
    ensures n % mps != 0 ==> mps > 1
  {
    if mps == 1 {
      DivModOf(n, 1, n, 0);
      DivModOf(n + 1, 1, n + 1, 0);
    } else if n % mps == 0 {
      DivModOf(n + 1, mps, n / mps, 1);
    }
  }

  class Net {
    const mps: nat
    const tx: array<seq<byte>>
    const txBusy: array<bool>
    var stack: seq<seq<byte>>
    var txFrames: nat
    var txDropped: nat
    var rxFrames: nat
    var rxDropped: nat
    var rxErrors: nat
    /** Whether the `k`-th frame given to the stack finds memory and is not refused,
        and how many have been given. */
    const takes: nat -> bool
    var given: nat

    ghost predicate Valid()
      reads this
    {
      mps > 0 && tx.Length == TX_XFERS == txBusy.Length
    }

    constructor (packet: nat, answers: nat -> bool)
      requires packet > 0
      ensures Valid() && mps == packet && takes == answers && given == 0 && stack == [] && fresh(tx) && fresh(txBusy)
      ensures forall i | 0 <= i < TX_XFERS :: !txBusy[i]
    {
      mps, takes := packet, answers;
      tx, txBusy := new seq<byte>[TX_XFERS](i => []), new bool[TX_XFERS](i => false);
      stack, txFrames, txDropped, rxFrames, rxDropped, rxErrors, given := [], 0, 0, 0, 0, 0, 0;
    }

    ghost function Receiving(): Received
      reads this
    {
      Received(stack, given, rxFrames, rxDropped, rxErrors)
    }

    /** One frame to the stack, if it is of a size it takes. */
    method RxFrame(frame: seq<byte>)
      modifies `stack, `rxFrames, `rxDropped, `rxErrors, `given
      ensures Receiving() == Fed(old(Receiving()), takes, [frame])
      ensures var fits := 14 <= |frame| <= 1536;
              var taken := fits && takes(old(given));
              && stack == old(stack) + (if taken then [frame] else [])
              && given == old(given) + (if fits then 1 else 0)
              && rxFrames == old(rxFrames) + (if taken then 1 else 0)
              && rxDropped == old(rxDropped) + (if fits && !taken then 1 else 0)
              && rxErrors == old(rxErrors) + if fits then 0 else 1
    {
      FedOne(Receiving(), takes, frame);
      hide Fed;
      if |frame| < MIN_FRAME || |frame| > MAX_FRAME {
        rxErrors := rxErrors + 1;
        return;
      }
      given := given + 1;
      if !takes(given - 1) {
        rxDropped := rxDropped + 1;
        return;
      }
      stack := stack + [frame];
      rxFrames := rxFrames + 1;
    }

    /** The message at the front: its frame, if it holds one, to the stack. */
    method RxMessage(p: seq<byte>)
      requires |p| >= HEADER && Get32(p, 4) <= |p|
      modifies `stack, `rxFrames, `rxDropped, `rxErrors, `given
      ensures Receiving() == Fed(old(Receiving()), takes, FrameOf(p))
    {
      FedNone(Receiving(), takes);
      hide Fed, Get32;
      var off, len := Get32(p, 8), Get32(p, 12);
      if Get32(p, 0) == PACKET_MSG && 8 + off + len <= Get32(p, 4) {
        RxFrame(p[8 + off..8 + off + len]);
      }
    }

    /** A completed transfer: every frame it carried that the stack takes, in order,
        the others left out alone; each frame and a broken message counted once. */
    method RxTransfer(data: seq<byte>)
      modifies `stack, `rxFrames, `rxDropped, `rxErrors, `given
      ensures var rx, r := Unwrap(data), Fed(old(Receiving()), takes, Unwrap(data).frames);
              Receiving() == if rx.broken then r.(errors := r.errors + 1) else r
    {
      var p := data;
      ghost var seen: seq<seq<byte>> := [];
      FedNone(Receiving(), takes);
      assert seen + Unwrap(p).frames == Unwrap(p).frames;
      hide Fed, Unwrap, Get32, FrameOf;
      while |p| >= HEADER
        invariant Receiving() == Fed(old(Receiving()), takes, seen)
        invariant Follows(data, seen, p)
        decreases |p|
      {
        UnwrapStops(data, seen, p);
        var mlen := Get32(p, 4);
        if mlen < HEADER || mlen > |p| {
          rxErrors := rxErrors + 1;
          return;
        }
        TurnOf(data, seen, p);
        FedJoin(old(Receiving()), takes, seen, FrameOf(p));
        RxMessage(p);
        seen := seen + FrameOf(p);
        p := p[mlen..];
        hide Follows;
      }
      UnwrapStops(data, seen, p);
    }

    /** One frame out. Too long, it is refused; with no slot free, or the bus refusing
        it, it is dropped; else it is in flight from the first free slot. No transfer
        in flight is touched. */
    method Transmit(frame: seq<byte>, accepted: bool) returns (ok: bool, slot: int)
      requires Valid()
      modifies this, tx, txBusy
      ensures Valid() && -1 <= slot < 16
      ensures slot >= 0
              <==> accepted && |frame| <= 2003 && exists i :: 0 <= i < 16 && !old(txBusy[i])
      ensures slot >= 0 ==> !old(txBusy[slot]) && txBusy[slot] && tx[slot] == Transfer(frame, mps)
                            && forall i | 0 <= i < slot :: old(txBusy[i])
      ensures forall i | 0 <= i < 16 && i != slot :: txBusy[i] == old(txBusy[i])
      ensures forall i | 0 <= i < 16 && old(txBusy[i]) :: tx[i] == old(tx[i])
      ensures txFrames + txDropped == old(txFrames + txDropped) + 1
      ensures txFrames == old(txFrames) + if slot >= 0 then 1 else 0
      ensures ok <==> slot >= 0 || (|frame| <= 2003 && forall i | 0 <= i < 16 :: old(txBusy[i]))
      ensures Receiving() == old(Receiving())
    {
      if |frame| > TX_BYTES - HEADER - 1 {
        txDropped := txDropped + 1;
        return false, -1;
      }
      slot := 0;
      while slot < TX_XFERS && txBusy[slot]
        invariant 0 <= slot <= TX_XFERS && forall i | 0 <= i < slot :: txBusy[i]
      {
        slot := slot + 1;
      }
      if slot == TX_XFERS {
        txDropped := txDropped + 1;
        return true, -1;
      }
      tx[slot] := Transfer(frame, mps);
      if !accepted {
        txDropped := txDropped + 1;
        return false, -1;
      }
      txBusy[slot] := true;
      txFrames := txFrames + 1;
      ok := true;
    }
  }

  /** `seen` are the frames in front of `p`, the rest of the transfer. */
  ghost predicate Follows(data: seq<byte>, seen: seq<seq<byte>>, p: seq<byte>) {
    Unwrap(data).frames == seen + Unwrap(p).frames && Unwrap(data).broken == Unwrap(p).broken
  }

  lemma UnwrapStops(data: seq<byte>, seen: seq<seq<byte>>, p: seq<byte>)
    requires Follows(data, seen, p)
    ensures |p| < HEADER ==> Unwrap(data) == Rx(seen, false)
    ensures |p| >= HEADER && (Get32(p, 4) < HEADER || Get32(p, 4) > |p|) ==> Unwrap(data) == Rx(seen, true)
  {
    assert seen + [] == seen;
  }

  lemma TurnOf(data: seq<byte>, seen: seq<seq<byte>>, p: seq<byte>)
    requires |p| >= HEADER && HEADER <= Get32(p, 4) <= |p| && Follows(data, seen, p)
    ensures Follows(data, seen + FrameOf(p), p[Get32(p, 4)..]) && |FrameOf(p)| <= 1
  {
    hide Get32;
    var rest := Unwrap(p[Get32(p, 4)..]).frames;
    assert seen + (FrameOf(p) + rest) == (seen + FrameOf(p)) + rest;
  }

  lemma OneDelivered(a: seq<seq<byte>>)
    requires |a| <= 1
    ensures |Delivered(a)| <= 1
  {
  }

  lemma DeliveredAppend(a: seq<seq<byte>>, b: seq<seq<byte>>)
    requires |b| <= 1
    ensures Delivered(a + b) == Delivered(a) + Delivered(b)
  {
    if b == [] {
      assert a + b == a;
    } else {
      assert (a + b)[..|a|] == a && b[..0] == [];
    }
  }
}
