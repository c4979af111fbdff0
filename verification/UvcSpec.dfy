/** What a UVC packet stream means (UVC 1.1, section 2.4.3.3): packets cut into
    frames at their ends, and the frames worth keeping. No assembler state. */
module UvcSpec {
  import opened Bytes

  /** A packet as its header reads; `free` is the room the ring had for it. */
  datatype Packet =
    | Runt                                                              // no header at all
    | Bad                                                               // a header length that cannot be
    | Good(fid: bool, eof: bool, err: bool, payload: seq<byte>, free: nat)

  const HDR_FID: nat := 1
  const HDR_EOF: nat := 2
  const HDR_ERR: nat := 64
  const LEN_BYTES: nat := 4

  function Parse(data: seq<byte>, free: nat): Packet {
    if |data| < 2 then Runt
    else if data[0] < 2 || data[0] > |data| then Bad
    else Good(Bit(data[1], HDR_FID), Bit(data[1], HDR_EOF), Bit(data[1], HDR_ERR), data[data[0]..], free)
  }

  /** A packet with a header of `h` bytes, two of which are its length and its flags, is
      good: its payload is all that follows them, its frame ID, end of frame and error
      are bits 0, 1 and 6 of the flags. */
  lemma HeaderParses(h: byte, flags: byte, rest: seq<byte>, payload: seq<byte>, free: nat)
    requires h >= 2 && |rest| == h - 2
    ensures Parse([h, flags] + rest + payload, free)
            == Good(flags % 2 == 1, flags / 2 % 2 == 1, flags / 64 % 2 == 1, payload, free)
  {
    var data := [h, flags] + rest + payload;
    assert data[h..] == payload;
  }

  /** A header that says it is shorter than those two bytes, or longer than the packet,
      cannot be; fewer than two bytes are no header. */
  lemma HeaderCannotBe(data: seq<byte>, free: nat)
    ensures Parse(data, free) == Runt <==> |data| < 2
    ensures Parse(data, free) == Bad <==> |data| >= 2 && (data[0] < 2 || data[0] > |data|)
  {
  }

  // ---- cutting the stream

  /** The packets of one frame, and whether an end-of-frame packet ended it. */
  datatype Frame = Frame(packets: seq<Packet>, complete: bool)

  /** The frames that have ended, and the packets of the one in progress. */
  datatype Cut = Cut(ended: seq<Frame>, open: seq<Packet>)

  predicate HasGood(ps: seq<Packet>) {
    exists i :: 0 <= i < |ps| && ps[i].Good?
  }

  /** Another frame's packet: the frame ID has moved on. */
  predicate MovesOn(ps: seq<Packet>, p: Packet) {
    p.Good? && exists i :: 0 <= i < |ps| && ps[i].Good? && ps[i].fid != p.fid
  }

  function Begin(c: Cut, p: Packet): Cut {
    if MovesOn(c.open, p) then Cut(c.ended + [Frame(c.open, false)], []) else c
  }

  function Extend(c: Cut, p: Packet): Cut {
    if p.Runt? then c
    else
      var b := Begin(c, p);
      if p.Good? && p.eof then Cut(b.ended + [Frame(b.open + [p], true)], []) else Cut(b.ended, b.open + [p])
  }

  /** A frame ends with its end-of-frame packet, or before a packet with another
      frame ID. */
  function CutOf(ps: seq<Packet>): Cut {
    if ps == [] then Cut([], []) else Extend(CutOf(ps[..|ps| - 1]), ps[|ps| - 1])
  }

  // ---- what the cut is

  function Unframed(fs: seq<Frame>): seq<Packet> {
    if fs == [] then [] else Unframed(fs[..|fs| - 1]) + fs[|fs| - 1].packets
  }

  function WithoutRunts(ps: seq<Packet>): seq<Packet> {
    if ps == [] then []
    else WithoutRunts(ps[..|ps| - 1]) + if ps[|ps| - 1].Runt? then [] else [ps[|ps| - 1]]
  }

  /** One frame ID throughout, an end of frame only at the end, no runts. */
  ghost predicate OneFrame(ps: seq<Packet>, complete: bool) {
    && (forall i | 0 <= i < |ps| :: !ps[i].Runt?)
    && (forall i, j | 0 <= i < |ps| && 0 <= j < |ps| && ps[i].Good? && ps[j].Good? :: ps[i].fid == ps[j].fid)
    && (forall i | 0 <= i < |ps| && ps[i].Good? && ps[i].eof :: complete && i == |ps| - 1)
    && (complete ==> ps != [] && ps[|ps| - 1].Good? && ps[|ps| - 1].eof)
  }

  lemma UnframedAppend(fs: seq<Frame>, f: Frame)
    ensures Unframed(fs + [f]) == Unframed(fs) + f.packets
  {
    assert (fs + [f])[..|fs|] == fs;
  }

  /** The cut loses no packet, keeps their order, and every piece is one frame. */
  lemma {:induction false} CutIsFrames(ps: seq<Packet>)
    ensures var c := CutOf(ps);
            && Unframed(c.ended) + c.open == WithoutRunts(ps)
            && OneFrame(c.open, false)
            && forall i | 0 <= i < |c.ended| :: OneFrame(c.ended[i].packets, c.ended[i].complete)
  {
    if ps != [] {
      CutIsFrames(ps[..|ps| - 1]);
      ExtendIsFrames(CutOf(ps[..|ps| - 1]), ps[|ps| - 1]);
    }
  }

  ghost predicate IsFrames(c: Cut) {
    OneFrame(c.open, false) && forall i | 0 <= i < |c.ended| :: OneFrame(c.ended[i].packets, c.ended[i].complete)
  }

  lemma BeginIsFrames(c: Cut, p: Packet)
    requires IsFrames(c)
    ensures var b := Begin(c, p);
            IsFrames(b) && !MovesOn(b.open, p) && Unframed(b.ended) + b.open == Unframed(c.ended) + c.open
  {
    UnframedAppend(c.ended, Frame(c.open, false));
    hide Unframed, OneFrame;
    assert OneFrame(c.open, false);
    assert OneFrame([], false) by { OneFrameNone(); }
  }

  lemma OneFrameNone()
    ensures OneFrame([], false)
  {
  }

  lemma ExtendIsFrames(c: Cut, p: Packet)
    requires IsFrames(c)
    ensures IsFrames(Extend(c, p))
    ensures var c' := Extend(c, p);
            Unframed(c'.ended) + c'.open == Unframed(c.ended) + c.open + if p.Runt? then [] else [p]
  {
    if !p.Runt? {
      BeginIsFrames(c, p);
      var b := Begin(c, p);
      hide Begin, Unframed, IsFrames, MovesOn;
      if p.Good? && p.eof {
        FrameEnds(b, p);
      } else {
        FrameGrows(b, p);
      }
    }
  }

  lemma FrameEnds(b: Cut, p: Packet)
    requires IsFrames(b) && !MovesOn(b.open, p) && p.Good? && p.eof
    ensures var c' := Cut(b.ended + [Frame(b.open + [p], true)], []);
            IsFrames(c') && Unframed(c'.ended) + c'.open == Unframed(b.ended) + b.open + [p]
  {
    UnframedAppend(b.ended, Frame(b.open + [p], true));
    OneFrameExtend(b.open, p);
    OneFrameNone();
    hide Unframed, OneFrame, MovesOn;
    assert Unframed(b.ended) + (b.open + [p]) == Unframed(b.ended) + b.open + [p];
  }

  lemma FrameGrows(b: Cut, p: Packet)
    requires IsFrames(b) && !MovesOn(b.open, p) && !p.Runt? && !(p.Good? && p.eof)
    ensures IsFrames(Cut(b.ended, b.open + [p]))
    ensures Unframed(b.ended) + (b.open + [p]) == Unframed(b.ended) + b.open + [p]
  {
    OneFrameExtend(b.open, p);
    hide Unframed, OneFrame, MovesOn;
  }

  lemma OneFrameExtend(ps: seq<Packet>, p: Packet)
    requires OneFrame(ps, false) && !p.Runt? && !MovesOn(ps, p)
    ensures OneFrame(ps + [p], p.Good? && p.eof)
  {
    if p.Good? {
      assert forall i | 0 <= i < |ps| && ps[i].Good? :: ps[i].fid == p.fid;
    }
  }

  /** The packets after the `i`-th ended frame, up to the next end. */
  function Following(c: Cut, i: nat): seq<Packet>
    requires i < |c.ended|
  {
    if i + 1 < |c.ended| then c.ended[i + 1].packets else c.open
  }

  /** A frame that ended without its end of frame is followed by a packet whose frame
      ID is not its own. */
  ghost predicate EndsForCause(c: Cut, i: nat)
    requires i < |c.ended|
  {
    c.ended[i].complete
    || (Following(c, i) != [] && Following(c, i)[0].Good?
        && exists k :: 0 <= k < |c.ended[i].packets| && c.ended[i].packets[k].Good?
                       && c.ended[i].packets[k].fid != Following(c, i)[0].fid)
  }

  /** So a frame is never cut short for another reason. */
  lemma {:induction false} CutOnlyAtEnds(ps: seq<Packet>, i: nat)
    requires i < |CutOf(ps).ended|
    ensures EndsForCause(CutOf(ps), i)
  {
    var before, p := CutOf(ps[..|ps| - 1]), ps[|ps| - 1];
    if i < |before.ended| {
      CutOnlyAtEnds(ps[..|ps| - 1], i);
      StillForCause(before, p, i);
    } else {
      NewForCause(before, p, i);
    }
  }

  lemma StillForCause(c: Cut, p: Packet, i: nat)
    requires i < |c.ended| && EndsForCause(c, i)
    ensures i < |Extend(c, p).ended| && EndsForCause(Extend(c, p), i)
  {
    var c' := Extend(c, p);
    assert c'.ended[i] == c.ended[i];
    hide MovesOn;
    if !c.ended[i].complete {
      assert |Following(c', i)| > 0 && Following(c', i)[0] == Following(c, i)[0];
    }
  }

  lemma NewForCause(c: Cut, p: Packet, i: nat)
    requires |c.ended| <= i < |Extend(c, p).ended|
    ensures EndsForCause(Extend(c, p), i)
  {
  }

  // ---- which frames are kept

  function Payload(ps: seq<Packet>): seq<byte> {
    if ps == [] then []
    else Payload(ps[..|ps| - 1]) + if ps[|ps| - 1].Good? then ps[|ps| - 1].payload else []
  }

  /** A packet of the frame was damaged. */
  predicate Damaged(ps: seq<Packet>) {
    exists i :: 0 <= i < |ps| && (ps[i].Bad? || (ps[i].Good? && ps[i].err))
  }

  predicate TooBig(ps: seq<Packet>, maxFrame: nat) {
    maxFrame > 0 && |Payload(ps)| > maxFrame
  }

  /** Every payload fitted where it belongs, behind the length and what came before. */
  predicate AlwaysRoom(ps: seq<Packet>) {
    ps == [] ||
    (AlwaysRoom(ps[..|ps| - 1])
     && var p := ps[|ps| - 1];
        (p.Good? && p.payload != [] ==> LEN_BYTES + |Payload(ps)| <= p.free))
  }

  datatype Verdict = Kept | Torn | NoRoom | Oversize | Empty

  /** `first`: the frame the stream began in, perhaps in its middle. */
  function Judge(f: Frame, first: bool, maxFrame: nat): Verdict {
    if TooBig(f.packets, maxFrame) then Oversize
    else if Payload(f.packets) == [] then Empty
    else if first || !f.complete || Damaged(f.packets) then Torn
    else if !AlwaysRoom(f.packets) then NoRoom
    else Kept
  }

  function Through(ps: seq<Packet>, i: nat): seq<Packet>
    requires i < |ps|
  {
    ps[..i + 1]
  }

  lemma {:induction false} RoomIs(ps: seq<Packet>)
    ensures AlwaysRoom(ps)
            <==> forall i: nat | i < |ps| && ps[i].Good? && ps[i].payload != [] ::
                   4 + |Payload(Through(ps, i))| <= ps[i].free
  {
    if ps != [] {
      var n := |ps| - 1;
      RoomIs(ps[..n]);
      assert Through(ps, n) == ps;
      assert forall i: nat | i < n :: Through(ps[..n], i) == Through(ps, i);
    }
  }

  /** A frame is kept exactly if it is not the first, ended with its end-of-frame packet,
      has no packet with an error or a header that cannot be, carries a byte or more and
      no more than the maximum, and each payload found room behind the four bytes of the
      length and what came before. */
  lemma KeptIff(f: Frame, first: bool, maxFrame: nat)
    ensures Judge(f, first, maxFrame) == Kept
            <==> && !first && f.complete && 0 < |Payload(f.packets)|
                 && (maxFrame == 0 || |Payload(f.packets)| <= maxFrame)
                 && (forall p | p in f.packets :: !p.Bad? && (p.Good? ==> !p.err))
                 && (forall i: nat | i < |f.packets| && f.packets[i].Good? && f.packets[i].payload != [] ::
                       4 + |Payload(Through(f.packets, i))| <= f.packets[i].free)
  {
    RoomIs(f.packets);
    hide AlwaysRoom, Payload;
  }

  /** What a frame carries: its packets' payloads one behind another. */
  lemma PayloadNext(ps: seq<Packet>, p: Packet)
    ensures Payload([]) == [] && Payload(ps + [p]) == Payload(ps) + if p.Good? then p.payload else []
  {
    assert (ps + [p])[..|ps|] == ps;
  }

  /** The payloads of the frames kept, in order. */
  function KeptFrames(fs: seq<Frame>, maxFrame: nat): seq<seq<byte>> {
    if fs == [] then []
    else
      var f := fs[|fs| - 1];
      KeptFrames(fs[..|fs| - 1], maxFrame) +
      if Judge(f, |fs| == 1, maxFrame) == Kept then [Payload(f.packets)] else []
  }

  function Count(fs: seq<Frame>, maxFrame: nat, v: Verdict): nat {
    if fs == [] then 0
    else Count(fs[..|fs| - 1], maxFrame, v) + if Judge(fs[|fs| - 1], |fs| == 1, maxFrame) == v then 1 else 0
  }

  /** A frame as a record: its length in four bytes, then the frame. */
  function Record(f: seq<byte>): (r: seq<byte>)
    requires |f| < TWO32
    ensures |r| == LEN_BYTES + |f|
  {
    LE32(|f|) + f
  }

  lemma RecordBytes(f: seq<byte>)
    requires |f| < TWO32
    ensures Record(f) == [|f| % 256, |f| / 256 % 256, |f| / 0x1_0000 % 256, |f| / 0x100_0000] + f
  {
  }

  ghost predicate Sized(fs: seq<seq<byte>>) {
    forall i | 0 <= i < |fs| :: |fs[i]| < TWO32
  }

  ghost function Records(fs: seq<seq<byte>>): seq<byte>
    requires Sized(fs)
  {
    if fs == [] then [] else Records(fs[..|fs| - 1]) + Record(fs[|fs| - 1])
  }
}
