/** src/shared/usbif_uvc_frame.h: the assembler's state and what each packet does
    to it, and the proof that over any packet stream it publishes exactly the
    frames UvcSpec keeps. */
module UvcAssembler {
  import opened Bytes
  import opened UvcSpec

  /** The assembler's fields. `staged` is what lies in the ring past its head and
      the four bytes kept for the length. */
  datatype Asm = Asm(maxFrame: nat, fill: nat, seen: nat, got: nat, hasFid: bool, fid: bool,
                     torn: bool, full: bool, big: bool,
                     frames: nat, droppedFull: nat, droppedTorn: nat, droppedBig: nat,
                     staged: seq<byte>)

  /** The state after a packet, and the frames it published. */
  datatype Out = Out(asm: Asm, published: seq<seq<byte>>)

  function Start(maxFrame: nat): Asm {
    Asm(maxFrame, 0, 0, 0, false, false, true, false, false, 0, 0, 0, 0, [])
  }

  function Cleared(a: Asm): Asm {
    a.(fill := 0, seen := 0, got := 0, torn := false, full := false, big := false, staged := [])
  }

  function End(a: Asm): Out {
    if a.big then Out(Cleared(a).(droppedBig := a.droppedBig + 1), [])
    else if a.torn then Out(Cleared(a).(droppedTorn := a.droppedTorn + if a.seen > 0 then 1 else 0), [])
    else if a.full then Out(Cleared(a).(droppedFull := a.droppedFull + 1), [])
    else if a.fill > 0 then Out(Cleared(a).(frames := a.frames + 1), [a.staged])
    else Out(Cleared(a), [])
  }

  /** The frame ID as the packet gives it: a change inside a frame tears and ends it. */
  function Follow(a: Asm, fid: bool): Out {
    if !a.hasFid then Out(a.(hasFid := true, fid := fid), [])
    else if fid != a.fid then
      if a.got > 0 then End(a.(fid := fid, torn := true)) else Out(a.(fid := fid), [])
    else Out(a, [])
  }

  function Take(a: Asm, payload: seq<byte>, free: nat): Asm {
    if payload == [] then a
    else
      var seen := a.seen + |payload|;
      var b := a.(seen := seen, big := a.big || (a.maxFrame > 0 && seen > a.maxFrame));
      if b.torn || b.full || b.big then b
      else if LEN_BYTES + b.fill + |payload| <= free then
        b.(fill := b.fill + |payload|, staged := b.staged + payload)
      else b.(full := true)
  }

  /** A good packet of the frame in progress. */
  function Absorb(a: Asm, eof: bool, err: bool, payload: seq<byte>, free: nat): Out {
    var b := Take(a.(got := a.got + 1, torn := a.torn || err), payload, free);
    if eof then End(b) else Out(b, [])
  }

  function Receive(a: Asm, p: Packet): Out {
    match p
    case Runt => Out(a, [])
    case Bad => Out(a.(torn := true), [])
    case Good(fid, eof, err, payload, free) =>
      var o := Follow(a, fid);
      var e := Absorb(o.asm, eof, err, payload, free);
      Out(e.asm, o.published + e.published)
  }

  function Run(maxFrame: nat, ps: seq<Packet>): Out {
    if ps == [] then Out(Start(maxFrame), [])
    else
      var before := Run(maxFrame, ps[..|ps| - 1]);
      var o := Receive(before.asm, ps[|ps| - 1]);
      Out(o.asm, before.published + o.published)
  }

  // ---- refinement

  /** The assembler's state is what the cut says of the frame in progress, and
      its counters and output are the verdicts on the frames that have ended. */
  ghost predicate Tracks(a: Asm, c: Cut) {
    && (a.got > 0 <==> HasGood(c.open))
    && (a.got > 0 ==> a.hasFid && forall i | 0 <= i < |c.open| && c.open[i].Good? :: c.open[i].fid == a.fid)
    && a.torn == (c.ended == [] || Damaged(c.open))
    && a.seen == |Payload(c.open)| && a.big == TooBig(c.open, a.maxFrame)
    && a.fill == |a.staged|
    && (!a.torn && !a.big ==> a.full == !AlwaysRoom(c.open) && (!a.full ==> a.staged == Payload(c.open)))
  }

  ghost predicate Counts(a: Asm, ended: seq<Frame>) {
    && a.frames == Count(ended, a.maxFrame, Kept) && a.droppedTorn == Count(ended, a.maxFrame, Torn)
    && a.droppedFull == Count(ended, a.maxFrame, NoRoom) && a.droppedBig == Count(ended, a.maxFrame, Oversize)
  }

  lemma Snoc(fs: seq<Frame>, f: Frame, maxFrame: nat, v: Verdict)
    ensures KeptFrames(fs + [f], maxFrame) ==
            KeptFrames(fs, maxFrame) + if Judge(f, fs == [], maxFrame) == Kept then [Payload(f.packets)] else []
    ensures Count(fs + [f], maxFrame, v) == Count(fs, maxFrame, v) + if Judge(f, fs == [], maxFrame) == v then 1 else 0
  {
    assert (fs + [f])[..|fs|] == fs;
  }

  lemma OpenSnoc(ps: seq<Packet>, p: Packet)
    ensures Payload(ps + [p]) == Payload(ps) + if p.Good? then p.payload else []
    ensures AlwaysRoom(ps + [p]) <==>
            AlwaysRoom(ps) && (p.Good? && p.payload != [] ==> LEN_BYTES + |Payload(ps)| + |p.payload| <= p.free)
    ensures Damaged(ps + [p]) <==> Damaged(ps) || p.Bad? || (p.Good? && p.err)
    ensures HasGood(ps + [p]) <==> HasGood(ps) || p.Good?
  {
    var qs := ps + [p];
    assert qs[..|ps|] == ps && qs[|ps|] == p;
    assert forall i | 0 <= i < |ps| :: qs[i] == ps[i];
  }

  /** The part of Tracks a frame's end goes by. */
  ghost predicate EndReady(a: Asm, c: Cut, complete: bool) {
    && a.torn == (c.ended == [] || Damaged(c.open) || !complete)
    && a.seen == |Payload(c.open)| && a.big == TooBig(c.open, a.maxFrame)
    && a.fill == |a.staged|
    && (!a.torn && !a.big ==> a.full == !AlwaysRoom(c.open) && (!a.full ==> a.staged == Payload(c.open)))
  }

  /** Ending a frame: its verdict is counted, and published if it is to keep it. */
  lemma EndTracks(a: Asm, c: Cut, complete: bool)
    requires EndReady(a, c, complete) && Counts(a, c.ended)
    ensures var ended := c.ended + [Frame(c.open, complete)];
            && Tracks(End(a).asm, Cut(ended, [])) && Counts(End(a).asm, ended) && End(a).asm.maxFrame == a.maxFrame
            && KeptFrames(ended, a.maxFrame) == KeptFrames(c.ended, a.maxFrame) + End(a).published
  {
    var f := Frame(c.open, complete);
    Snoc(c.ended, f, a.maxFrame, Kept);
    Snoc(c.ended, f, a.maxFrame, Torn);
    Snoc(c.ended, f, a.maxFrame, NoRoom);
    Snoc(c.ended, f, a.maxFrame, Oversize);
    EndVerdict(a, c, complete);
    hide Judge, Count, KeptFrames;
  }

  lemma EndVerdict(a: Asm, c: Cut, complete: bool)
    requires EndReady(a, c, complete)
    ensures var v, e := Judge(Frame(c.open, complete), c.ended == [], a.maxFrame), End(a);
            && e.asm == Cleared(a).(frames := a.frames + (if v == Kept then 1 else 0),
                                    droppedTorn := a.droppedTorn + (if v == Torn then 1 else 0),
                                    droppedFull := a.droppedFull + (if v == NoRoom then 1 else 0),
                                    droppedBig := a.droppedBig + (if v == Oversize then 1 else 0))
            && e.published == if v == Kept then [Payload(c.open)] else []
  {
    hide Damaged;
    if Payload(c.open) == [] && !a.big && !a.torn {
      EmptyHasRoom(c.open);
    }
  }

  lemma {:induction false} EmptyHasRoom(ps: seq<Packet>)
    requires Payload(ps) == []
    ensures AlwaysRoom(ps)
  {
    if ps != [] {
      EmptyHasRoom(ps[..|ps| - 1]);
    }
  }

  /** A packet of the frame in progress, before any end of frame. */
  lemma TakeTracks(a: Asm, c: Cut, p: Packet)
    requires Tracks(a, c) && p.Good? && !MovesOn(c.open, p) && a.hasFid && a.fid == p.fid
    ensures Tracks(Take(a.(got := a.got + 1, torn := a.torn || p.err), p.payload, p.free), Cut(c.ended, c.open + [p]))
  {
    OpenSnoc(c.open, p);
  }

  lemma MovesOnIff(a: Asm, c: Cut, p: Packet)
    requires Tracks(a, c) && p.Good?
    ensures MovesOn(c.open, p) <==> a.hasFid && p.fid != a.fid && a.got > 0
  {
    if a.got > 0 {
      var i :| 0 <= i < |c.open| && c.open[i].Good?;
      assert c.open[i].fid == a.fid;
    }
  }

  lemma FollowTracks(a: Asm, c: Cut, p: Packet)
    requires Tracks(a, c) && Counts(a, c.ended) && p.Good?
    ensures var o, b := Follow(a, p.fid), Begin(c, p);
            && Tracks(o.asm, b) && Counts(o.asm, b.ended) && o.asm.hasFid && o.asm.fid == p.fid && !MovesOn(b.open, p)
            && KeptFrames(b.ended, a.maxFrame) == KeptFrames(c.ended, a.maxFrame) + o.published
            && o.asm.maxFrame == a.maxFrame
  {
    MovesOnIff(a, c, p);
    hide Damaged, HasGood, KeptFrames, Count, TooBig, AlwaysRoom;
    if MovesOn(c.open, p) {
      EndTracks(a.(fid := p.fid, torn := true), c, false);
    }
  }

  /** The good packet itself, once its frame is the one in progress. */
  lemma GoodTracks(a: Asm, b: Cut, p: Packet)
    requires Tracks(a, b) && Counts(a, b.ended) && p.Good? && a.hasFid && a.fid == p.fid && !MovesOn(b.open, p)
    ensures var e := Absorb(a, p.eof, p.err, p.payload, p.free);
            var c' := if p.eof then Cut(b.ended + [Frame(b.open + [p], true)], []) else Cut(b.ended, b.open + [p]);
            && Tracks(e.asm, c') && Counts(e.asm, c'.ended) && e.asm.maxFrame == a.maxFrame
            && KeptFrames(c'.ended, a.maxFrame) == KeptFrames(b.ended, a.maxFrame) + e.published
  {
    TakeTracks(a, b, p);
    var t := Take(a.(got := a.got + 1, torn := a.torn || p.err), p.payload, p.free);
    TakeKeepsCounts(a.(got := a.got + 1, torn := a.torn || p.err), p.payload, p.free);
    hide Take, Damaged, HasGood, KeptFrames, Count, TooBig, AlwaysRoom;
    if p.eof {
      EndTracks(t, Cut(b.ended, b.open + [p]), true);
    }
  }

  lemma TakeKeepsCounts(a: Asm, payload: seq<byte>, free: nat)
    ensures var t := Take(a, payload, free);
            && t.maxFrame == a.maxFrame && t.frames == a.frames && t.droppedTorn == a.droppedTorn
            && t.droppedFull == a.droppedFull && t.droppedBig == a.droppedBig
  {
  }

  lemma BadTracks(a: Asm, c: Cut)
    requires Tracks(a, c)
    ensures Extend(c, Bad) == Cut(c.ended, c.open + [Bad]) && Tracks(a.(torn := true), Cut(c.ended, c.open + [Bad]))
  {
    OpenSnoc(c.open, Bad);
  }

  lemma ReceiveTracks(a: Asm, c: Cut, p: Packet)
    requires Tracks(a, c) && Counts(a, c.ended)
    ensures var o, c' := Receive(a, p), Extend(c, p);
            && Tracks(o.asm, c') && Counts(o.asm, c'.ended) && o.asm.maxFrame == a.maxFrame
            && KeptFrames(c'.ended, a.maxFrame) == KeptFrames(c.ended, a.maxFrame) + o.published
  {
    hide Damaged, KeptFrames, Count, TooBig, Take, End, Follow, Begin, Payload, AlwaysRoom;
    match p
    case Runt =>
    case Bad => BadTracks(a, c);
    case Good(_, _, _, _, _) =>
      FollowTracks(a, c, p);
      GoodTracks(Follow(a, p.fid).asm, Begin(c, p), p);
  }

  /** Over any packet stream: the assembler publishes exactly the frames to keep,
      in order, and its four counters are the verdicts on the frames that ended. */
  lemma {:induction false} PublishesKeptFrames(maxFrame: nat, ps: seq<Packet>)
    ensures var o, c := Run(maxFrame, ps), CutOf(ps);
            && o.published == KeptFrames(c.ended, maxFrame)
            && o.asm.maxFrame == maxFrame && Tracks(o.asm, c) && Counts(o.asm, c.ended)
  {
    if ps != [] {
      var before := ps[..|ps| - 1];
      PublishesKeptFrames(maxFrame, before);
      ReceiveTracks(Run(maxFrame, before).asm, CutOf(before), ps[|ps| - 1]);
    }
  }

  /** Every ended frame that carried payload is counted once: published, or dropped
      for exactly one reason. */
  lemma {:induction false} EveryFrameCounted(fs: seq<Frame>, maxFrame: nat)
    ensures Count(fs, maxFrame, Kept) + Count(fs, maxFrame, Torn) + Count(fs, maxFrame, NoRoom)
            + Count(fs, maxFrame, Oversize) == Carried(fs)
    ensures |KeptFrames(fs, maxFrame)| == Count(fs, maxFrame, Kept)
  {
    if fs != [] {
      EveryFrameCounted(fs[..|fs| - 1], maxFrame);
    }
  }

  ghost function Carried(fs: seq<Frame>): nat {
    if fs == [] then 0 else Carried(fs[..|fs| - 1]) + if Payload(fs[|fs| - 1].packets) != [] then 1 else 0
  }

  lemma CountersAddUp(maxFrame: nat, ps: seq<Packet>)
    ensures var a := Run(maxFrame, ps).asm;
            && a.frames + a.droppedTorn + a.droppedFull + a.droppedBig == Carried(CutOf(ps).ended)
            && (!a.torn && !a.full && !a.big ==> a.fill == a.seen && a.staged == Payload(CutOf(ps).open))
  {
    PublishesKeptFrames(maxFrame, ps);
    EveryFrameCounted(CutOf(ps).ended, maxFrame);
  }

  /** What is published was staged when it fitted: 1 to max_frame bytes each. */
  lemma {:induction false} KeptAreWhole(fs: seq<Frame>, maxFrame: nat, i: nat)
    requires i < |KeptFrames(fs, maxFrame)|
    ensures exists f :: f in fs && f.complete && !Damaged(f.packets) && AlwaysRoom(f.packets)
                        && KeptFrames(fs, maxFrame)[i] == Payload(f.packets)
    ensures 0 < |KeptFrames(fs, maxFrame)[i]| && (maxFrame > 0 ==> |KeptFrames(fs, maxFrame)[i]| <= maxFrame)
  {
    var f := fs[|fs| - 1];
    if i < |KeptFrames(fs[..|fs| - 1], maxFrame)| {
      KeptAreWhole(fs[..|fs| - 1], maxFrame, i);
    } else {
      assert f in fs;
    }
  }
}
