/** A whole video session: packets arriving into the assembler and a reader taking
    records off the same ring, in any interleaving. */
module VideoSession {
  import opened Bytes
  import opened UvcSpec
  import A = UvcAssembler
  import UvcFrames
  import opened CameraRead

  /** What happens next: a packet, a read() beginning with a buffer of `cap` bytes, or
      its next call on the ring. */
  datatype Event = Packet(data: seq<byte>) | Begin(cap: nat) | Turn

  /** Where the reader is: about to look for a record; with its length read, about to
      read it; or skipping it, `part` gone. */
  datatype Reader = Looking | Body(size: nat) | Skipping(size: nat, part: seq<byte>)

  /** The ring's queued bytes, the assembler, the reader and its buffer; `packets` and
      `taken` record what arrived and the records read, `since` where the current
      read() began among them. */
  datatype Session = Session(size: nat, bytes: seq<byte>, asm: A.Asm, reader: Reader, cap: nat, buf: seq<byte>,
                             packets: seq<UvcSpec.Packet>, taken: seq<seq<byte>>, since: nat)

  ghost function Free(s: Session): nat {
    if |s.bytes| <= s.size then s.size - |s.bytes| else 0
  }

  ghost function RecordsOr(fs: seq<seq<byte>>): seq<byte> {
    if Sized(fs) then Records(fs) else []
  }

  const SKIP_BYTES: nat := 512

  /** The reader's next call: the four length bytes if they are there; the record into
      the buffer; or the next of its bytes dropped. Packets may arrive between any two. */
  ghost function TurnOf(s: Session): Session {
    match s.reader
    case Looking =>
      if |s.bytes| < LEN_BYTES then s
      else
        var size := Get32(s.bytes, 0);
        s.(bytes := s.bytes[LEN_BYTES..], reader := if size <= s.cap then Body(size) else Skipping(size, []))
    case Body(size) =>
      var frame := s.bytes[..Min(size, |s.bytes|)];
      s.(bytes := s.bytes[|frame|..], reader := Looking, taken := s.taken + [frame], buf := frame)
    case Skipping(size, part) =>
      var piece := s.bytes[..Min(SkipNext(size, part), |s.bytes|)];
      var rest := s.bytes[|piece|..];
      if |part + piece| >= size then s.(bytes := rest, reader := Looking, taken := s.taken + [part + piece])
      else s.(bytes := rest, reader := Skipping(size, part + piece))
  }

  function SkipNext(size: nat, part: seq<byte>): nat {
    if size > |part| then Min(size - |part|, SKIP_BYTES) else 0
  }

  /** What each of the reader's calls takes off the ring: the length; the frame; or of one
      that does not fit, no more than 512 bytes at a time. */
  lemma TurnTakes(s: Session)
    ensures var taken := |s.bytes| - |TurnOf(s).bytes|;
            match s.reader
            case Looking => taken == if |s.bytes| >= 4 then 4 else 0
            case Body(size) => taken == Min(size, |s.bytes|)
            case Skipping(size, part) =>
              taken == Min(if size > |part| then Min(size - |part|, 512) else 0, |s.bytes|)
    ensures s.bytes[|s.bytes| - |TurnOf(s).bytes|..] == TurnOf(s).bytes
  {
  }

  ghost function Step(s: Session, e: Event): Session {
    match e
    case Packet(data) =>
      var p := Parse(data, Free(s));
      var o := A.Receive(s.asm, p);
      s.(asm := o.asm, bytes := s.bytes + RecordsOr(o.published), packets := s.packets + [p])
    case Begin(cap) => if s.reader.Looking? then s.(cap := cap, buf := [], since := |s.taken|) else s
    case Turn => TurnOf(s)
  }

  ghost function After(size: nat, maxFrame: nat, es: seq<Event>): Session {
    if es == [] then Session(size, [], A.Start(maxFrame), Looking, 0, [], [], [], 0)
    else Step(After(size, maxFrame, es[..|es| - 1]), es[|es| - 1])
  }

  /** The frames the packets so far amount to. */
  ghost function Due(s: Session): seq<seq<byte>> {
    KeptFrames(CutOf(s.packets).ended, s.asm.maxFrame)
  }

  /** What is in the ring of the frames queued: whole records, but for what the reader
      has had of the first. */
  ghost predicate Reads(r: Reader, cap: nat, queued: seq<seq<byte>>, bytes: seq<byte>)
    requires Sized(queued)
  {
    match r
    case Looking => bytes == Records(queued)
    case Body(size) => queued != [] && size == |queued[0]| <= cap && bytes == queued[0] + Records(queued[1..])
    case Skipping(size, part) =>
      && queued != [] && size == |queued[0]| > cap && part <= queued[0] && |part| < size
      && bytes == queued[0][|part|..] + Records(queued[1..])
  }

  ghost predicate Queue(s: Session, queued: seq<seq<byte>>) {
    Sized(queued) && Reads(s.reader, s.cap, queued, s.bytes) && s.taken + queued == Due(s)
  }

  /** Every frame due has been read or is queued, in order and once; the queue is whole
      records, but for what is being read, and fits beside what is staged; the buffer holds the newest frame of
      this read() that fits it. */
  ghost predicate InSync(s: Session) {
    && (exists queued :: Queue(s, queued))
    && |s.bytes| <= s.size
    && s.asm == A.Run(s.asm.maxFrame, s.packets).asm
    && s.asm.fill == |s.asm.staged|
    && (s.asm.fill > 0 ==> LEN_BYTES + s.asm.fill <= Free(s))
    && s.since <= |s.taken| && s.buf == NewestFitting(s.taken[s.since..], s.cap)
  }

  // ---- the assembler's part

  /** What a packet publishes was staged or has just found room, so it fits. */
  lemma ReceiveFits(a: A.Asm, p: UvcSpec.Packet, free: nat)
    requires a.fill == |a.staged| && (a.fill > 0 ==> LEN_BYTES + a.fill <= free) && (p.Good? ==> p.free == free)
    ensures var o := A.Receive(a, p);
            && o.asm.fill == |o.asm.staged| && |o.published| <= 1
            && (o.published == [] ==> o.asm.fill > 0 ==> LEN_BYTES + o.asm.fill <= free)
            && (o.published != [] ==> o.asm.fill == 0 && LEN_BYTES + |o.published[0]| <= free)
  {
    hide A.Follow, A.Absorb;
    if p.Good? {
      FollowFits(a, p.fid);
      var f := A.Follow(a, p.fid);
      AbsorbFits(f.asm, p.eof, p.err, p.payload, free);
      assert f.published + A.Absorb(f.asm, p.eof, p.err, p.payload, free).published
          == A.Absorb(f.asm, p.eof, p.err, p.payload, free).published;
    }
  }

  lemma FollowFits(a: A.Asm, fid: bool)
    requires a.fill == |a.staged|
    ensures var o := A.Follow(a, fid);
            && o.published == [] && o.asm.fill == |o.asm.staged| && (o.asm.fill == a.fill || o.asm.fill == 0)
  {
  }

  lemma AbsorbFits(a: A.Asm, eof: bool, err: bool, payload: seq<byte>, free: nat)
    requires a.fill == |a.staged| && (a.fill > 0 ==> LEN_BYTES + a.fill <= free)
    ensures var o := A.Absorb(a, eof, err, payload, free);
            && o.asm.fill == |o.asm.staged| && |o.published| <= 1
            && (o.published == [] ==> o.asm.fill > 0 ==> LEN_BYTES + o.asm.fill <= free)
            && (o.published != [] ==> o.asm.fill == 0 && LEN_BYTES + |o.published[0]| <= free)
  {
  }

  /** One more packet: its frames are due, and the assembler is where the whole
      packet stream puts it. */
  lemma RunSnoc(maxFrame: nat, ps: seq<UvcSpec.Packet>, p: UvcSpec.Packet)
    ensures var o := A.Receive(A.Run(maxFrame, ps).asm, p);
            && A.Run(maxFrame, ps + [p]).asm == o.asm && o.asm.maxFrame == maxFrame
            && KeptFrames(CutOf(ps + [p]).ended, maxFrame) == KeptFrames(CutOf(ps).ended, maxFrame) + o.published
  {
    assert (ps + [p])[..|ps|] == ps;
    A.PublishesKeptFrames(maxFrame, ps);
    A.PublishesKeptFrames(maxFrame, ps + [p]);
  }

  lemma PacketSync(s: Session, data: seq<byte>)
    requires InSync(s) && s.size < TWO32
    ensures InSync(Step(s, Packet(data)))
  {
    hide KeptFrames, CutOf, A.Run, A.Receive, Records, NewestFitting, Sized, RecordsOr, Reads;
    var queued :| Queue(s, queued);
    var p := Parse(data, Free(s));
    hide Parse;
    ReceiveFits(s.asm, p, Free(s));
    RunSnoc(s.asm.maxFrame, s.packets, p);
    var o, s' := A.Receive(s.asm, p), Step(s, Packet(data));
    Published(o.published, |s.bytes|, s.size);
    ReadsMore(s.reader, s.cap, queued, s.bytes, o.published);
    assert s.taken + (queued + o.published) == (s.taken + queued) + o.published;
    assert Queue(s', queued + o.published);
  }

  lemma Published(published: seq<seq<byte>>, used: nat, size: nat)
    requires used <= size < TWO32
    requires |published| <= 1 && (published != [] ==> LEN_BYTES + |published[0]| <= size - used)
    ensures Sized(published)
    ensures |RecordsOr(published)| == if published == [] then 0 else LEN_BYTES + |published[0]|
  {
    if published != [] {
      RecordsFirst(published);
      NoRecord(published[1..]);
    } else {
      NoRecord(published);
    }
  }

  /** A record more behind what is queued. */
  lemma ReadsMore(r: Reader, cap: nat, queued: seq<seq<byte>>, bytes: seq<byte>, published: seq<seq<byte>>)
    requires Sized(queued) && Sized(published) && Reads(r, cap, queued, bytes)
    ensures Sized(queued + published) && Reads(r, cap, queued + published, bytes + RecordsOr(published))
  {
    RecordsAppend(queued, published);
    if !r.Looking? {
      NextQueue(queued);
      RecordsAppend(queued[1..], published);
      var front := if r.Body? then queued[0] else queued[0][|r.part|..];
      Behind(queued, published, front, Records(queued[1..]), Records(published));
    }
    hide Records, Sized;
  }

  lemma Behind(queued: seq<seq<byte>>, published: seq<seq<byte>>, front: seq<byte>, rest: seq<byte>, more: seq<byte>)
    requires queued != []
    ensures (queued + published)[0] == queued[0] && (queued + published)[1..] == queued[1..] + published
    ensures front + rest + more == front + (rest + more)
  {
  }

  // ---- the reader's part

  /** A look with something queued reads the length of the first record. */
  lemma LookTakes(s: Session, queued: seq<seq<byte>>)
    requires Sized(queued) && s.reader.Looking? && Reads(Looking, s.cap, queued, s.bytes)
    ensures queued == [] ==> TurnOf(s) == s
    ensures queued != [] ==>
              var s' := TurnOf(s);
              && s' == s.(bytes := s'.bytes, reader := s'.reader) && |s'.bytes| <= |s.bytes|
              && Reads(s'.reader, s.cap, queued, s'.bytes)
  {
    NoRecord(queued);
    if queued != [] {
      FirstRecord(queued);
      var size := |queued[0]|;
      hide Records, Get32;
      assert s.bytes[LEN_BYTES..] == queued[0] + Records(queued[1..]) by {
        assert s.bytes[LEN_BYTES..][..size] == s.bytes[LEN_BYTES..LEN_BYTES + size];
        assert s.bytes[LEN_BYTES..][size..] == s.bytes[LEN_BYTES + size..];
      }
      assert queued[0][0..] == queued[0];
    }
  }

  /** The record's own calls take exactly it, at once or piece by piece. */
  lemma BodyTakes(s: Session, queued: seq<seq<byte>>)
    requires Sized(queued) && !s.reader.Looking? && Reads(s.reader, s.cap, queued, s.bytes)
    ensures var s', frame := TurnOf(s), queued[0];
            && |s'.bytes| <= |s.bytes|
            && if s'.reader.Looking?
               then s' == s.(bytes := Records(queued[1..]), reader := Looking, taken := s.taken + [frame],
                             buf := if |frame| <= s.cap then frame else s.buf)
               else s' == s.(bytes := s'.bytes, reader := s'.reader) && Reads(s'.reader, s.cap, queued, s'.bytes)
  {
    NextQueue(queued);
    hide Records, Get32, Sized;
    var frame, rest := queued[0], Records(queued[1..]);
    if s.reader.Body? {
      assert (frame + rest)[..|frame|] == frame && (frame + rest)[|frame|..] == rest;
    } else {
      var part := s.reader.part;
      var n := SkipNext(|frame|, part);
      PieceTaken(frame, rest, |part|, n);
      assert part == frame[..|part|] && Min(n, |s.bytes|) == n;
      assert part + s.bytes[..n] == frame[..|part| + n];
    }
  }

  /** The next `n` bytes of a frame of which `at` are gone, with `rest` behind it. */
  lemma PieceTaken(frame: seq<byte>, rest: seq<byte>, at: nat, n: nat)
    requires at + n <= |frame|
    ensures var bytes := frame[at..] + rest;
            && bytes[..n] == frame[at..at + n] && bytes[n..] == frame[at + n..] + rest
            && frame[..at] + bytes[..n] == frame[..at + n]
            && (at + n == |frame| ==> frame[..at + n] == frame && bytes[n..] == rest)
  {
    var bytes := frame[at..] + rest;
    assert bytes[..n] == frame[at..at + n];
  }

  lemma TurnSync(s: Session)
    requires InSync(s)
    ensures InSync(Step(s, Turn))
  {
    hide TurnOf, KeptFrames, CutOf, A.Run, Records, NewestFitting, Reads, Sized;
    var queued :| Queue(s, queued);
    var s' := TurnOf(s);
    if s.reader.Looking? {
      LookTakes(s, queued);
      assert Queue(s', queued);
    } else {
      FirstOf(s.reader, s.cap, queued, s.bytes);
      BodyTakes(s, queued);
      if s'.reader.Looking? {
        NewestFittingSnoc(s.taken[s.since..], queued[0], s.cap);
        assert s'.taken[s.since..] == s.taken[s.since..] + [queued[0]];
        assert s'.taken + queued[1..] == s.taken + queued;
        NextQueue(queued);
        ReadsLooking(s.cap, queued[1..]);
        assert Queue(s', queued[1..]);
      } else {
        assert Queue(s', queued);
      }
    }
  }

  lemma FirstOf(r: Reader, cap: nat, queued: seq<seq<byte>>, bytes: seq<byte>)
    requires Sized(queued) && Reads(r, cap, queued, bytes) && !r.Looking?
    ensures queued != []
  {
  }

  lemma NextQueue(queued: seq<seq<byte>>)
    requires Sized(queued) && queued != []
    ensures Sized(queued[1..])
  {
  }

  lemma ReadsLooking(cap: nat, queued: seq<seq<byte>>)
    requires Sized(queued)
    ensures Reads(Looking, cap, queued, Records(queued))
  {
  }

  /** Every interleaving of packets and reads keeps the ring in sync. */
  lemma {:induction false} AlwaysInSync(size: nat, maxFrame: nat, es: seq<Event>)
    requires size < TWO32
    ensures var s := After(size, maxFrame, es);
            InSync(s) && s.size == size && s.asm.maxFrame == maxFrame
  {
    if es == [] {
      assert Queue(After(size, maxFrame, es), []);
    } else {
      AlwaysInSync(size, maxFrame, es[..|es| - 1]);
      var s, e := After(size, maxFrame, es[..|es| - 1]), es[|es| - 1];
      match e
      case Packet(data) =>
        PacketSync(s, data);
        RunSnoc(s.asm.maxFrame, s.packets, Parse(data, Free(s)));
      case Begin(_) => BeginSync(s, e);
      case Turn => TurnSync(s);
    }
  }

  lemma BeginSync(s: Session, e: Event)
    requires InSync(s) && e.Begin?
    ensures InSync(Step(s, e))
  {
    hide KeptFrames, CutOf, A.Run, Records, Sized;
    var queued :| Queue(s, queued);
    assert Queue(Step(s, e), queued);
  }

  /** So a read() that finds fewer than four bytes finds none, every frame due has
      been read exactly once, and it returns the newest that fits of those it read. */
  lemma ReadDrains(size: nat, maxFrame: nat, es: seq<Event>)
    requires size < TWO32 && |After(size, maxFrame, es).bytes| < LEN_BYTES && After(size, maxFrame, es).reader.Looking?
    ensures var s := After(size, maxFrame, es);
            && s.bytes == [] && s.taken == Due(s)
            && s.since <= |Due(s)| && s.buf == NewestFitting(Due(s)[s.since..], s.cap)
  {
    AlwaysInSync(size, maxFrame, es);
    var s := After(size, maxFrame, es);
    var queued :| Queue(s, queued);
    NoRecord(queued);
  }

  // ---- on the objects themselves

  /** The assembler and its ring are where the session says. */
  ghost predicate Shows(a: UvcFrames.Assembler, s: Session)
    reads a, a.ring, a.ring.buf
  {
    a.Valid() && s.size == a.ring.buf.Length && s.bytes == a.ring.contents && s.asm == a.State()
  }

  /** A packet to the assembler is the session's packet ... */
  method PacketArrives(a: UvcFrames.Assembler, data: seq<byte>, ghost s: Session)
    requires Shows(a, s)
    modifies a, a.ring`head, a.ring`contents, a.ring`ahead, a.ring`overflows, a.ring.buf
    ensures Shows(a, Step(s, Packet(data)))
  {
    assert |a.ring.ahead| == Free(s);
    hide UvcFrames.Assembler.Valid, Parse, A.Receive, Records, Sized;
    a.Payload(data);
  }

  /** ... and each call the reader makes on the ring, whatever is being built in it, its
      turn. */
  method ReaderTurn(a: UvcFrames.Assembler, reader: Reader, cap: nat, ghost s: Session)
    returns (reader': Reader, got: seq<byte>)
    requires Shows(a, s) && reader == s.reader && cap == s.cap
    modifies a.ring`tail, a.ring`contents, a.ring`ahead
    ensures Shows(a, TurnOf(s)) && reader' == TurnOf(s).reader && s.bytes == got + TurnOf(s).bytes
    ensures reader.Body? ==> TurnOf(s).buf == got
  {
    match reader
    case Looking =>
      var waiting := a.ring.Any();
      if waiting < LEN_BYTES {
        return Looking, [];
      }
      hide UvcFrames.Assembler.Valid, Get32;
      got := UvcFrames.ReadBeside(a, LEN_BYTES);
      SameLength(got, s.bytes);
      var size := Get32(got, 0);
      reader' := if size <= cap then Body(size) else Skipping(size, []);
    case Body(size) =>
      hide UvcFrames.Assembler.Valid;
      got := UvcFrames.ReadBeside(a, size);
      assert s.bytes[..|got|] == got;
      reader' := Looking;
    case Skipping(size, part) =>
      hide UvcFrames.Assembler.Valid;
      got := UvcFrames.ReadBeside(a, SkipNext(size, part));
      assert s.bytes[..|got|] == got;
      reader' := if |part + got| >= size then Looking else Skipping(size, part + got);
  }

  lemma SameLength(hdr: seq<byte>, bytes: seq<byte>)
    requires |hdr| == LEN_BYTES && hdr <= bytes
    ensures Get32(hdr, 0) == Get32(bytes, 0)
  {
  }
}
