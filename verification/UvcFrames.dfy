/** usbif_uvc_frame_t as the object the stream drives: its fields updated packet by
    packet, the frame built in place past the ring's head. */
module UvcFrames {
  import opened Bytes
  import opened UvcSpec
  import A = UvcAssembler
  import FrameRing
  import opened ByteRing

  lemma RecordsOne(f: seq<byte>)
    requires |f| < TWO32
    ensures Records([f]) == Record(f) && Records([]) == []
  {
    assert [f][..0] == [] && Records([f][..0]) == [];
  }

  lemma LengthInFront(ahead: seq<byte>, fill: nat)
    requires fill < TWO32 && LEN_BYTES + fill <= |ahead|
    ensures Overwrite(ahead, 0, LE32(fill))[..LEN_BYTES + fill] == LE32(fill) + ahead[LEN_BYTES..LEN_BYTES + fill]
  {
  }

  class Assembler {
    const ring: FrameRing.Ring
    const maxFrame: nat
    var fill: nat
    var seen: nat
    var got: nat
    var hasFid: bool
    var fid: bool
    var torn: bool
    var full: bool
    var big: bool
    var frames: nat
    var droppedFull: nat
    var droppedTorn: nat
    var droppedBig: nat
    /** The payload staged so far. */
    ghost var staged: seq<byte>

    ghost function State(): A.Asm
      reads this
    {
      A.Asm(maxFrame, fill, seen, got, hasFid, fid, torn, full, big,
            frames, droppedFull, droppedTorn, droppedBig, staged)
    }

    /** The staged payload lies where a record's payload goes, with room before it
        for the length. */
    ghost predicate InPlace()
      reads this`fill, this`staged, ring`ahead
    {
      fill == |staged|
      && (fill > 0 ==> LEN_BYTES + fill <= |ring.ahead| && ring.ahead[LEN_BYTES..LEN_BYTES + fill] == staged)
    }

    ghost predicate Valid()
      reads this, ring, ring.buf
    {
      ring.Valid() && ring.buf.Length < TWO32 && InPlace()
    }

    constructor (r: FrameRing.Ring, max: nat)
      requires r.Valid() && r.buf.Length < TWO32
      ensures Valid() && ring == r && State() == A.Start(max)
    {
      ring, maxFrame, fill, seen, got, hasFid, fid := r, max, 0, 0, 0, false, false;
      torn, full, big := true, false, false;
      frames, droppedFull, droppedTorn, droppedBig, staged := 0, 0, 0, 0, [];
    }

    /** The record led by its length and published: the length always fits. */
    method Publish()
      requires Valid() && fill > 0
      modifies ring`head, ring`contents, ring`ahead, ring.buf
      ensures ring.Valid() && ring.contents == old(ring.contents) + Record(staged)
    {
      assert Record(staged) == LE32(fill) + staged && LEN_BYTES + fill <= |ring.ahead|;
      LengthInFront(ring.ahead, fill);
      hide FrameRing.Ring.Valid, Record, LE32, Overwrite, InPlace;
      var len := LE32(fill);
      var ok := ring.Stage(0, len);
      assert ok;
      ring.Commit(LEN_BYTES + fill);
    }

    /** The frame's verdict: counted, and published if it is whole. */
    method Settle()
      requires Valid()
      modifies `frames, `droppedFull, `droppedTorn, `droppedBig,
               ring`head, ring`contents, ring`ahead, ring`overflows, ring.buf
      ensures ring.Valid() && Sized(A.End(old(State())).published)
      ensures ring.contents == old(ring.contents) + Records(A.End(old(State())).published)
      ensures A.Cleared(State()) == A.End(old(State())).asm
      ensures A.End(old(State())).published == [] ==> ring.ahead == old(ring.ahead)
    {
      RecordsOne(staged);
      hide FrameRing.Ring.Valid, Records, Record;
      if big {
        droppedBig := droppedBig + 1;
      } else if torn {
        if seen > 0 {
          droppedTorn := droppedTorn + 1;
        }
      } else if full {
        droppedFull := droppedFull + 1;
        ring.overflows := ring.overflows + 1;
      } else if fill > 0 {
        Publish();
        frames := frames + 1;
      }
    }

    method End()
      requires Valid()
      modifies this, ring`head, ring`contents, ring`ahead, ring`overflows, ring.buf
      ensures Valid() && State() == A.End(old(State())).asm && Sized(A.End(old(State())).published)
      ensures ring.contents == old(ring.contents) + Records(A.End(old(State())).published)
      ensures A.End(old(State())).published == [] ==> ring.ahead == old(ring.ahead)
    {
      hide FrameRing.Ring.Valid, Records, A.End;
      Settle();
      fill, seen, got, staged := 0, 0, 0, [];
      torn, full, big := false, false, false;
    }

    method Follow(id: bool)
      requires Valid()
      modifies this, ring`head, ring`contents, ring`ahead, ring`overflows, ring.buf
      ensures Valid() && State() == A.Follow(old(State()), id).asm
      ensures A.Follow(old(State()), id).published == []
      ensures ring.contents == old(ring.contents) && ring.ahead == old(ring.ahead)
    {
      if !hasFid {
        hasFid := true;
        fid := id;
      } else if id != fid {
        fid := id;
        if got > 0 {
          torn := true;
          RecordsOne([]);
          End();
        }
      }
    }

    method Take(payload: seq<byte>)
      requires Valid()
      modifies this, ring`ahead, ring.buf
      ensures Valid() && State() == A.Take(old(State()), payload, |old(ring.ahead)|)
      ensures ring.contents == old(ring.contents)
    {
      hide FrameRing.Ring.Valid;
      if payload != [] {
        seen := seen + |payload|;
        if maxFrame > 0 && seen > maxFrame {
          big := true;
        }
        if !torn && !full && !big {
          var ok := ring.Stage(LEN_BYTES + fill, payload);
          if ok {
            fill := fill + |payload|;
            staged := staged + payload;
          } else {
            full := true;
          }
        }
      }
    }

    /** One packet as it arrived: the room its payload met is what was free then. */
    method Payload(data: seq<byte>)
      requires Valid()
      modifies this, ring`head, ring`contents, ring`ahead, ring`overflows, ring.buf
      ensures Valid()
      ensures var o := A.Receive(old(State()), Parse(data, |old(ring.ahead)|));
              && State() == o.asm && Sized(o.published)
              && ring.contents == old(ring.contents) + Records(o.published)
    {
      assert Records([]) == [];
      hide FrameRing.Ring.Valid, Records;
      if |data| < 2 {
        return;
      }
      if data[0] < 2 || data[0] > |data| {
        torn := true;
        return;
      }
      GoodPacket(data);
    }

    method GoodPacket(data: seq<byte>)
      requires Valid() && |data| >= 2 && 2 <= data[0] <= |data|
      modifies this, ring`head, ring`contents, ring`ahead, ring`overflows, ring.buf
      ensures Valid()
      ensures var o := A.Receive(old(State()), Parse(data, |old(ring.ahead)|));
              && State() == o.asm && Sized(o.published)
              && ring.contents == old(ring.contents) + Records(o.published)
    {
      hide Valid, Records, A.Follow, A.Absorb, Bit;
      Follow(Bit(data[1], HDR_FID));
      ghost var a, free := State(), |ring.ahead|;
      Absorb(data[1], data[data[0]..]);
      ghost var e := A.Absorb(a, Bit(data[1], HDR_EOF), Bit(data[1], HDR_ERR), data[data[0]..], free).published;
      assert [] + e == e;
    }

    ghost function Gathered(a: A.Asm, err: bool, payload: seq<byte>, free: nat): A.Asm {
      A.Take(a.(got := a.got + 1, torn := a.torn || err), payload, free)
    }

    lemma AbsorbIs(a: A.Asm, eof: bool, err: bool, payload: seq<byte>, free: nat)
      ensures var b := Gathered(a, err, payload, free);
              A.Absorb(a, eof, err, payload, free) == if eof then A.End(b) else A.Out(b, [])
    {
    }

    lemma NothingMore(bytes: seq<byte>)
      ensures Sized([]) && Records([]) == [] && bytes + [] == bytes
    {
    }

    method Absorb(flags: byte, payload: seq<byte>)
      requires Valid()
      modifies this, ring`head, ring`contents, ring`ahead, ring`overflows, ring.buf
      ensures Valid()
      ensures var o := A.Absorb(old(State()), Bit(flags, HDR_EOF), Bit(flags, HDR_ERR), payload, |old(ring.ahead)|);
              && State() == o.asm && Sized(o.published)
              && ring.contents == old(ring.contents) + Records(o.published)
    {
      var eof, err := Bit(flags, HDR_EOF), Bit(flags, HDR_ERR);
      hide *;
      AbsorbIs(State(), eof, err, payload, |ring.ahead|);
      NothingMore(ring.contents);
      Gather(err, payload);
      if eof {
        End();
      }
    }

    /** The packet marked and its payload taken. */
    method Gather(err: bool, payload: seq<byte>)
      requires Valid()
      modifies this, ring`ahead, ring.buf
      ensures Valid() && State() == Gathered(old(State()), err, payload, |old(ring.ahead)|)
      ensures ring.contents == old(ring.contents)
    {
      hide Valid, A.Take;
      Mark(err);
      Take(payload);
    }

    method Mark(err: bool)
      requires Valid()
      modifies this`got, this`torn
      ensures Valid() && State() == old(State()).(got := old(got) + 1, torn := old(torn) || err)
    {
      got := got + 1;
      if err {
        torn := true;
      }
    }
  }

  /** A reader takes bytes off the ring at any moment: the frame being built beside
      it stays where and as it was, with more room behind it. */
  method ReadBeside(a: Assembler, max: nat) returns (out: seq<byte>)
    requires a.Valid()
    modifies a.ring`tail, a.ring`contents, a.ring`ahead
    ensures a.Valid() && a.State() == old(a.State())
    ensures |out| == Min(max, |old(a.ring.contents)|) && old(a.ring.contents) == out + a.ring.contents
    ensures a.ring.ahead == old(a.ring.ahead) + out
  {
    ghost var ahead := a.ring.ahead;
    hide FrameRing.Ring.Valid;
    out := a.ring.ReadInto(max);
    assert a.fill > 0 ==> (ahead + out)[LEN_BYTES..LEN_BYTES + a.fill] == ahead[LEN_BYTES..LEN_BYTES + a.fill];
  }

  /** Between two frames, in step. */
  ghost predicate InStep(a: A.Asm) {
    a.fill == a.seen == a.got == 0 && a.staged == [] && !a.torn && !a.full && !a.big
  }

  /** A frame in one packet, in bytes: after a header of `h` bytes with the end of frame
      and no error in its flags, the ring has got the frame's length in four bytes,
      lowest first, and the frame. */
  method FrameInOnePacket(a: Assembler, h: byte, flags: byte, rest: seq<byte>, payload: seq<byte>)
    requires a.Valid() && InStep(a.State()) && h >= 2 && |rest| == h - 2
    requires flags / 2 % 2 == 1 && flags / 64 % 2 == 0
    requires 0 < |payload| && (a.maxFrame == 0 || |payload| <= a.maxFrame) && 4 + |payload| <= |a.ring.ahead|
    modifies a, a.ring`head, a.ring`contents, a.ring`ahead, a.ring`overflows, a.ring.buf
    ensures a.Valid() && InStep(a.State()) && a.frames == old(a.frames) + 1
    ensures |payload| < TWO32
            && a.ring.contents == old(a.ring.contents)
               + [|payload| % 256, |payload| / 256 % 256, |payload| / 0x1_0000 % 256, |payload| / 0x100_0000] + payload
  {
    RoomBelow(a, payload);
    PacketRecord(a.State(), h, flags, rest, payload, |a.ring.ahead|);
    hide Assembler.Valid, InStep, Parse, A.Receive, Records, Sized;
    ghost var was := a.ring.contents;
    a.Payload([h, flags] + rest + payload);
    var n := |payload|;
    Grouped(was, [n % 256, n / 256 % 256, n / 0x1_0000 % 256, n / 0x100_0000], payload);
  }

  /** What the packet makes of the assembler, and the record published. */
  lemma PacketRecord(a: A.Asm, h: byte, flags: byte, rest: seq<byte>, payload: seq<byte>, free: nat)
    requires InStep(a) && h >= 2 && |rest| == h - 2 && flags / 2 % 2 == 1 && flags / 64 % 2 == 0
    requires payload != [] && (a.maxFrame == 0 || |payload| <= a.maxFrame) && 4 + |payload| <= free
    requires |payload| < TWO32
    ensures var o, n := A.Receive(a, Parse([h, flags] + rest + payload, free)), |payload|;
            && InStep(o.asm) && o.asm.frames == a.frames + 1 && Sized(o.published)
            && Records(o.published) == [n % 256, n / 256 % 256, n / 0x1_0000 % 256, n / 0x100_0000] + payload
  {
    HeaderParses(h, flags, rest, payload, free);
    OnePacket(a, flags % 2 == 1, payload, free);
    RecordBytes(payload);
    RecordsOne(payload);
    hide Parse, A.Receive, InStep, Records, Record;
  }

  lemma RoomBelow(a: Assembler, payload: seq<byte>)
    requires a.Valid() && |payload| <= |a.ring.ahead|
    ensures |payload| < TWO32
  {
  }

  lemma OnePacket(a: A.Asm, fid: bool, payload: seq<byte>, free: nat)
    requires InStep(a) && payload != [] && (a.maxFrame == 0 || |payload| <= a.maxFrame) && 4 + |payload| <= free
    ensures var o := A.Receive(a, Good(fid, true, false, payload, free));
            && o.published == [payload] && InStep(o.asm) && o.asm.frames == a.frames + 1
  {
    assert [] + payload == payload;
  }
}
