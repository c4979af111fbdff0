/** usbif_stream_fill in src/usbif_host_stream.c: a playback transfer's packets
    from the ring, topped up with silence, and what that makes of a whole run of
    writes and transfers. */
module Playback {
  import opened Bytes
  import ByteRing
  import IsoTiming

  /** One packet as laid into a transfer: bytes from the ring, then silence. */
  datatype Piece = Piece(taken: seq<byte>, silence: nat)

  ghost function PieceBytes(p: Piece): seq<byte> {
    p.taken + Zeros(p.silence)
  }

  /** Everything laid into transfers. */
  ghost function Laid(ps: seq<Piece>): seq<byte> {
    if ps == [] then [] else Laid(ps[..|ps| - 1]) + PieceBytes(ps[|ps| - 1])
  }

  /** The same without the silence. */
  ghost function Taken(ps: seq<Piece>): seq<byte> {
    if ps == [] then [] else Taken(ps[..|ps| - 1]) + ps[|ps| - 1].taken
  }

  /** What a packet asked for `want` bytes gets from the ring holding `have`. */
  ghost function PieceOf(have: seq<byte>, want: nat, frame: nat, paced: bool): (p: Piece)
    ensures p.taken <= have && |p.taken| <= want
    ensures |p.taken| + p.silence <= want
    ensures paced ==> |p.taken| + p.silence == want
    ensures Multiple(|p.taken|, frame)
  {
    var take := Whole(Min(|have|, want), frame);
    Piece(have[..take], if paced then want - take else 0)
  }

  /** Whole frames, and silence only when the ring ran dry. */
  lemma PieceWhole(have: seq<byte>, want: nat, frame: nat, paced: bool)
    requires Multiple(|have|, frame) && (paced ==> Multiple(want, frame))
    ensures var p := PieceOf(have, want, frame, paced);
            && Multiple(p.silence, frame) && Multiple(|have| - |p.taken|, frame)
            && (p.silence > 0 ==> p.taken == have)
  {
    var p := PieceOf(have, want, frame, paced);
    if paced {
      MultipleSum(want, |p.taken|, frame);
    }
    MultipleSum(|have|, |p.taken|, frame);
  }

  lemma LaidAppend(ps: seq<Piece>, p: Piece)
    ensures Laid(ps + [p]) == Laid(ps) + PieceBytes(p) && Taken(ps + [p]) == Taken(ps) + p.taken
  {
    assert (ps + [p])[..|ps|] == ps;
  }

  // ---- a stream as it runs

  /** A stream as it runs: accepted writes land in the ring at any moment, and
      packets are filled one after another. `written` and `pieces` are everything
      accepted and everything laid so far. */
  datatype Run = Run(ring: seq<byte>, written: seq<byte>, pieces: seq<Piece>)

  /** A write the gate accepted; or a packet, with the writes accepted between its
      look at what the ring holds and its read. */
  datatype Event = Accept(data: seq<byte>) | Packet(want: nat, meanwhile: seq<byte>)

  predicate Legal(e: Event, frame: nat, paced: bool) {
    match e
    case Accept(data) => Multiple(|data|, frame)
    case Packet(want, meanwhile) => Multiple(|meanwhile|, frame) && (paced ==> Multiple(want, frame))
  }

  ghost function Happen(r: Run, e: Event, frame: nat, paced: bool): Run {
    match e
    case Accept(data) => Run(r.ring + data, r.written + data, r.pieces)
    case Packet(want, meanwhile) =>
      var p := PieceOf(r.ring, want, frame, paced);
      Run((r.ring + meanwhile)[|p.taken|..], r.written + meanwhile, r.pieces + [p])
  }

  ghost function Play(r: Run, es: seq<Event>, frame: nat, paced: bool): Run {
    if es == [] then r else Happen(Play(r, es[..|es| - 1], frame, paced), es[|es| - 1], frame, paced)
  }

  // ---- one transfer

  /** A transfer's packets: what each is asked to carry, and what others write between
      its look at the ring and its read. */
  ghost function Packets(wants: seq<nat>, amid: seq<seq<byte>>): (es: seq<Event>)
    requires |amid| == |wants|
    ensures |es| == |wants| && forall i | 0 <= i < |wants| :: es[i] == Packet(wants[i], amid[i])
  {
    seq(|wants|, i requires 0 <= i < |wants| => Packet(wants[i], amid[i]))
  }

  lemma PlaySnoc(r: Run, wants: seq<nat>, amid: seq<seq<byte>>, want: nat, m: seq<byte>, frame: nat, paced: bool)
    requires |amid| == |wants|
    ensures Play(r, Packets(wants + [want], amid + [m]), frame, paced)
         == Happen(Play(r, Packets(wants, amid), frame, paced), Packet(want, m), frame, paced)
  {
    var es := Packets(wants + [want], amid + [m]);
    assert es[..|wants|] == Packets(wants, amid) && es[|wants|] == Packet(want, m);
    hide Happen, Packets;
  }

  /** The room `n` packets may take. */
  ghost function Room(packet: nat, n: nat): nat
  {
    if n == 0 then 0 else packet + Room(packet, n - 1)
  }

  lemma {:induction false} RoomIs(packet: nat, n: nat)
    ensures Room(packet, n) == packet * n
  {
    if n > 0 {
      RoomIs(packet, n - 1);
    }
  }

  lemma RoomStep(packet: nat, n: nat)
    requires n > 0
    ensures Room(packet, n) == packet + Room(packet, n - 1)
  {
  }

  ghost function Sum(ns: seq<nat>): nat {
    if ns == [] then 0 else Sum(ns[..|ns| - 1]) + ns[|ns| - 1]
  }

  /** A transfer whose packets so far wanted `wants`, from a ring that held `q` and
      got `amid` meanwhile: `bytes` are laid, of `lens` a packet, and `rest` is queued. */
  ghost predicate Filled(q: seq<byte>, wants: seq<nat>, amid: seq<seq<byte>>, frame: nat, paced: bool,
                         rest: seq<byte>, bytes: seq<byte>, lens: seq<nat>) {
    && |amid| == |wants|
    && var r := Play(Run(q, [], []), Packets(wants, amid), frame, paced);
    && rest == r.ring && bytes == Laid(r.pieces)
    && |lens| == |r.pieces| == |wants| && (forall i | 0 <= i < |lens| :: lens[i] == |PieceBytes(r.pieces[i])|)
    && |bytes| == Sum(lens)
  }

  lemma FilledNone(q: seq<byte>, frame: nat, paced: bool)
    ensures Filled(q, [], [], frame, paced, q, [], [])
  {
  }

  lemma FilledStep(q: seq<byte>, wants: seq<nat>, amid: seq<seq<byte>>, want: nat, m: seq<byte>, frame: nat,
                   paced: bool, rest: seq<byte>, bytes: seq<byte>, lens: seq<nat>,
                   p: Piece, rest': seq<byte>, bytes': seq<byte>)
    requires Filled(q, wants, amid, frame, paced, rest, bytes, lens)
    requires p == PieceOf(rest, want, frame, paced) && rest' == (rest + m)[|p.taken|..]
             && bytes' == bytes + PieceBytes(p)
    ensures Filled(q, wants + [want], amid + [m], frame, paced, rest', bytes', lens + [|PieceBytes(p)|])
  {
    hide PieceOf, PieceBytes, Play, Packets, Laid, Taken, Sum;
    var r := Play(Run(q, [], []), Packets(wants, amid), frame, paced);
    PlaySnoc(Run(q, [], []), wants, amid, want, m, frame, paced);
    LaidAppend(r.pieces, p);
    SumAppend(lens, |PieceBytes(p)|);
  }

  lemma UpdatePrefix(ns: seq<nat>, i: nat, n: nat)
    requires i < |ns|
    ensures ns[i := n][..i + 1] == ns[..i] + [n]
  {
  }

  lemma SumAppend(ns: seq<nat>, n: nat)
    ensures Sum(ns + [n]) == Sum(ns) + n
  {
    assert (ns + [n])[..|ns|] == ns;
  }

  class Transfer {
    const data: array<byte>
    var packets: seq<nat>
    var numBytes: nat
    /** The bytes laid into `data` so far. */
    ghost var laid: seq<byte>

    ghost predicate Valid()
      reads `laid, data
    {
      |laid| <= data.Length && data[..|laid|] == laid
    }

    constructor (size: nat, pkts: nat)
      ensures Valid() && laid == [] && data.Length == size && |packets| == pkts && fresh(data)
    {
      data := new byte[size](_ => 0);
      packets := seq(pkts, _ => 0);
      numBytes, laid := 0, [];
    }

    method Put(at: nat, src: seq<byte>)
      requires at + |src| <= data.Length
      modifies data
      ensures data[..at] == old(data[..at]) && data[..at + |src|] == data[..at] + src
    {
      forall i | 0 <= i < |src| {
        data[at + i] := src[i];
      }
    }

    /** One packet after those laid: `p`, then silence. */
    method Lay(at: nat, p: seq<byte>, silence: nat)
      requires Valid() && at == |laid| && |laid| + |p| + silence <= data.Length
      modifies data, this`laid
      ensures Valid() && laid == old(laid) + (p + Zeros(silence))
    {
      ghost var was := laid;
      Put(at, p);
      laid := laid + p;
      Put(at + |p|, Zeros(silence));
      laid := laid + Zeros(silence);
      assert laid == was + (p + Zeros(silence));
    }
  }

  class OutStream {
    const packet: nat
    const pkts: nat
    const cfgFrame: nat
    const paced: bool
    const pace: IsoTiming.Pace
    const ring: ByteRing.Ring
    var starved: nat

    ghost predicate Valid()
      reads this, pace, ring, ring.buf
    {
      pace.Valid() && ring.Valid() && (paced ==> cfgFrame == pace.frame)
    }

    constructor (packet: nat, pkts: nat, rate: nat, frame: nat, slotUs: nat, ring: ByteRing.Ring)
      requires ring.Valid()
      ensures Valid() && fresh(pace) && this.ring == ring && this.packet == packet && this.pkts == pkts
      ensures cfgFrame == frame && paced == (rate > 0 && frame > 0) && pace.packets == 0
      ensures pace.rate == rate && pace.frame == (if frame == 0 then 1 else frame)
    {
      this.packet, this.pkts, this.cfgFrame, this.ring, starved := packet, pkts, frame, ring, 0;
      this.paced := rate > 0 && frame > 0;
      pace := new IsoTiming.Pace(rate, frame, slotUs);
    }

    /** What the stream's packet `k` is asked to carry. */
    ghost function Want(k: nat): nat
      requires pace.frame > 0
    {
      if paced then IsoTiming.Packet(pace.rate, pace.frame, pace.slotUs, packet, k) else packet
    }

    ghost function Wants(k: nat, n: nat): (ws: seq<nat>)
      requires pace.frame > 0
      ensures |ws| == n
    {
      if n == 0 then [] else Wants(k, n - 1) + [Want(k + n - 1)]
    }

    lemma WantsStep(k: nat, i: nat)
      requires pace.frame > 0
      ensures Wants(k, i + 1) == Wants(k, i) + [Want(k + i)]
    {
    }

    lemma WantFits(k: nat)
      requires pace.frame > 0
      ensures Want(k) <= packet
    {
      IsoTiming.PacketWhole(pace.rate, pace.frame, pace.slotUs, packet, k);
    }

    /** A paced stream's packets are asked for whole frames. */
    lemma {:induction false} WantsWhole(k: nat, n: nat)
      requires Valid() && paced
      ensures forall w | w in Wants(k, n) :: Multiple(w, cfgFrame)
    {
      if n > 0 {
        WantsWhole(k, n - 1);
        IsoTiming.PacketWhole(pace.rate, pace.frame, pace.slotUs, packet, k + n - 1);
      }
    }

    method NextWant(ghost k: nat) returns (want: nat)
      requires pace.Valid() && (paced ==> k == pace.packets)
      modifies pace`acc, pace`packets
      ensures pace.Valid() && want == Want(k) <= packet
      ensures pace.packets == old(pace.packets) + if paced then 1 else 0
    {
      WantFits(k);
      want := packet;
      if paced {
        want := pace.Next(packet);
      }
    }

    /** Packet `k` of the stream, after those already laid. `write` is what another task
        writes to the ring between the look at it and the read; `m`, what it takes of it. */
    method FillPacket(x: Transfer, total: nat, write: seq<byte>, ghost k: nat)
      returns (want: nat, ghost p: Piece, ghost m: seq<byte>)
      requires Valid() && x.Valid() && (paced ==> k == pace.packets)
      requires total == |x.laid| && total + packet <= x.data.Length && x.data != ring.buf
      modifies x.data, x`laid, this`starved, pace`acc, pace`packets, ring`head, ring`tail, ring`contents, ring.buf
      ensures Valid() && x.Valid() && want == |PieceBytes(p)| <= packet && m <= write
      ensures p == PieceOf(old(ring.contents), Want(k), cfgFrame, paced)
      ensures x.laid == old(x.laid) + PieceBytes(p) && ring.contents == (old(ring.contents) + m)[|p.taken|..]
      ensures pace.packets == old(pace.packets) + if paced then 1 else 0
    {
      want := NextWant(k);
      p := PieceOf(ring.contents, want, cfgFrame, paced);
      var have := ring.Used();
      var take := Whole(Min(have, want), cfgFrame);
      if !paced {
        want := take;
      }
      ghost var was := ring.contents;
      var n := ring.Push(write);
      m := write[..n];
      var got := ring.Pop(take);
      TakenFirst(was, m, got, ring.contents, take);
      x.Lay(total, got, want - take);
      if take < want {
        starved := starved + 1;
      }
    }

    lemma TakenFirst(was: seq<byte>, m: seq<byte>, got: seq<byte>, left: seq<byte>, take: nat)
      requires was + m == got + left && |got| == Min(take, |was + m|) && take <= |was|
      ensures got == was[..take] && left == (was + m)[take..]
    {
      assert got == (was + m)[..take] && left == (got + left)[take..];
    }

    /** The transfer's packets before the `i`-th are filled, from a ring that held
        `q` when the stream stood at packet `k` and got `amid` since. */
    ghost predicate FilledTo(x: Transfer, i: nat, q: seq<byte>, k: nat, amid: seq<seq<byte>>)
      reads x`packets, x`laid, ring
      requires pace.frame > 0
    {
      i <= |x.packets| && Filled(q, Wants(k, i), amid, cfgFrame, paced, ring.contents, x.laid, x.packets[..i])
    }

    /** The transfer's `i`-th packet. */
    method FillNext(x: Transfer, total: nat, i: nat, write: seq<byte>, ghost q: seq<byte>, ghost k: nat,
                    ghost amid: seq<seq<byte>>)
      returns (want: nat, ghost m: seq<byte>)
      requires Valid() && x.Valid() && i < |x.packets| && FilledTo(x, i, q, k, amid)
               && (paced ==> k + i == pace.packets)
      requires total == |x.laid| && total + packet <= x.data.Length && x.data != ring.buf
      modifies x`laid, x`packets, x.data, this`starved, pace`acc, pace`packets, ring`head, ring`tail, ring`contents,
               ring.buf
      ensures Valid() && x.Valid() && |x.packets| == old(|x.packets|) && FilledTo(x, i + 1, q, k, amid + [m])
              && m <= write
      ensures |x.laid| == total + want && want <= packet
      ensures pace.packets == old(pace.packets) + if paced then 1 else 0
    {
      WantsStep(k, i);
      hide Filled, Wants, Want, PieceOf, PieceBytes, ByteRing.Ring.Valid, Transfer.Valid;
      ghost var p: Piece;
      ghost var rest, bytes, lens := ring.contents, x.laid, x.packets[..i];
      want, p, m := FillPacket(x, total, write, k + i);
      FilledStep(q, Wants(k, i), amid, Want(k + i), m, cfgFrame, paced, rest, bytes, lens, p, ring.contents, x.laid);
      UpdatePrefix(x.packets, i, want);
      x.packets := x.packets[i := want];
    }

    /** The packets one after another. */
    method FillPackets(x: Transfer, writes: seq<seq<byte>>) returns (total: nat, ghost amid: seq<seq<byte>>)
      requires Valid() && x.Valid() && FilledTo(x, 0, ring.contents, pace.packets, []) && x.laid == []
      requires |x.packets| == pkts == |writes| && Room(packet, pkts) <= x.data.Length && x.data != ring.buf
      modifies x`laid, x`packets, x.data, this`starved, pace`acc, pace`packets, ring`head, ring`tail, ring`contents,
               ring.buf
      ensures Valid() && x.Valid() && |x.packets| == pkts
      ensures FilledTo(x, pkts, old(ring.contents), old(pace.packets), amid) && Prefixes(amid, writes, pkts)
      ensures total == |x.laid| <= Room(packet, pkts)
      ensures pace.packets == old(pace.packets) + if paced then pkts else 0
    {
      assert pace.frame > 0 && Prefixes([], writes, 0);
      hide *;
      total, amid := 0, [];
      var i := 0;
      ghost var q, k, room := ring.contents, pace.packets, Room(packet, pkts);
      while i < pkts
        invariant i <= pkts && Valid() && x.Valid() && |x.packets| == pkts
        invariant pace.packets == k + if paced then i else 0
        invariant room == Room(packet, pkts - i) && total == |x.laid| && total + room <= Room(packet, pkts)
        invariant FilledTo(x, i, q, k, amid) && Prefixes(amid, writes, i)
      {
        RoomStep(packet, pkts - i);
        room := room - packet;
        total, amid := FillOne(x, total, i, writes, q, k, amid);
        i := i + 1;
      }
    }

    /** One of them, in the books of the loop. */
    method FillOne(x: Transfer, total: nat, i: nat, writes: seq<seq<byte>>, ghost q: seq<byte>, ghost k: nat,
                   ghost amid: seq<seq<byte>>)
      returns (total': nat, ghost amid': seq<seq<byte>>)
      requires Valid() && x.Valid() && i < |x.packets| && FilledTo(x, i, q, k, amid)
               && (paced ==> k + i == pace.packets)
      requires total == |x.laid| && total + packet <= x.data.Length && x.data != ring.buf
      requires i < |writes| && Prefixes(amid, writes, i)
      modifies x`laid, x`packets, x.data, this`starved, pace`acc, pace`packets, ring`head, ring`tail, ring`contents,
               ring.buf
      ensures Valid() && x.Valid() && |x.packets| == old(|x.packets|)
      ensures FilledTo(x, i + 1, q, k, amid') && Prefixes(amid', writes, i + 1)
      ensures total' == |x.laid| <= total + packet
      ensures pace.packets == old(pace.packets) + if paced then 1 else 0
    {
      hide *;
      var want;
      ghost var m;
      want, m := FillNext(x, total, i, writes[i], q, k, amid);
      PrefixesStep(amid, writes, i, m);
      total', amid' := total + want, amid + [m];
    }

    /** A transfer filled, `writes` being what others write during it, one between the
        look and the read of each packet: its bytes are the pieces that the ring gives
        for the packets' wants, the ring keeps the rest, and num_bytes is the sum of the
        packets', within the buffer the stream allocated. `amid`: what the ring took. */
    method Fill(x: Transfer, writes: seq<seq<byte>>) returns (ghost amid: seq<seq<byte>>)
      requires Valid() && |x.packets| == pkts == |writes| && Room(packet, pkts) <= x.data.Length && x.data != ring.buf
      modifies x, x.data, this`starved, pace`acc, pace`packets, ring`head, ring`tail, ring`contents, ring.buf
      ensures Valid() && x.Valid() && |x.packets| == pkts && Prefixes(amid, writes, pkts)
      ensures Filled(old(ring.contents), Wants(old(pace.packets), pkts), amid, cfgFrame, paced,
                     ring.contents, x.laid, x.packets)
      ensures x.numBytes == |x.laid| == Sum(x.packets) <= Room(packet, pkts)
      ensures pace.packets == old(pace.packets) + if paced then pkts else 0
    {
      x.laid := [];
      FilledNone(ring.contents, cfgFrame, paced);
      assert x.Valid() && pace.frame > 0 && x.packets[..0] == [];
      assert FilledTo(x, 0, ring.contents, pace.packets, []);
      hide *;
      ghost var q, k := ring.contents, pace.packets;
      var total;
      total, amid := FillPackets(x, writes);
      FilledAll(x, q, k, amid);
      x.numBytes := total;
    }

    lemma FilledAll(x: Transfer, q: seq<byte>, k: nat, amid: seq<seq<byte>>)
      requires pace.frame > 0 && FilledTo(x, |x.packets|, q, k, amid)
      ensures Filled(q, Wants(k, |x.packets|), amid, cfgFrame, paced, ring.contents, x.laid, x.packets)
      ensures |x.laid| == Sum(x.packets)
    {
      assert x.packets[..|x.packets|] == x.packets;
    }
  }

  /** What was taken of each of the first `n` writes. */
  ghost predicate Prefixes(amid: seq<seq<byte>>, writes: seq<seq<byte>>, n: nat) {
    |amid| == n <= |writes| && forall i | 0 <= i < n :: amid[i] <= writes[i]
  }

  lemma PrefixesStep(amid: seq<seq<byte>>, writes: seq<seq<byte>>, n: nat, m: seq<byte>)
    requires Prefixes(amid, writes, n) && n < |writes| && m <= writes[n]
    ensures Prefixes(amid + [m], writes, n + 1)
  {
  }

  // ---- over a whole run

  /** Each packet is whole frames, begins and falls silent on a frame boundary. */
  ghost predicate OnFrames(ps: seq<Piece>, frame: nat) {
    forall i | 0 <= i < |ps| ::
      Multiple(|ps[i].taken|, frame) && Multiple(ps[i].silence, frame) && Multiple(|Laid(ps[..i])|, frame)
  }

  /** For any interleaving of accepted writes and packets: the bytes laid, less the
      silence, and then what is still queued, are the bytes written. No frame is
      ever split, repeated, reordered or shifted by the silence between. */
  lemma {:induction false} PlaysWhatWasWritten(es: seq<Event>, frame: nat, paced: bool)
    requires forall e | e in es :: Legal(e, frame, paced)
    ensures var r := Play(Run([], [], []), es, frame, paced);
            && Taken(r.pieces) + r.ring == r.written
            && Multiple(|r.ring|, frame) && OnFrames(r.pieces, frame) && Multiple(|Laid(r.pieces)|, frame)
  {
    if es == [] {
    } else {
      var e, before := es[|es| - 1], es[..|es| - 1];
      PlaysWhatWasWritten(before, frame, paced);
      var r := Play(Run([], [], []), before, frame, paced);
      if e.Accept? {
        assert e in es;
        MultipleSum(|r.ring|, |e.data|, frame);
      } else {
        PacketKeeps(r, e, frame, paced);
      }
    }
  }

  lemma PacketKeeps(r: Run, e: Event, frame: nat, paced: bool)
    requires e.Packet? && Legal(e, frame, paced)
    requires Taken(r.pieces) + r.ring == r.written && Multiple(|r.ring|, frame)
    requires OnFrames(r.pieces, frame) && Multiple(|Laid(r.pieces)|, frame)
    ensures var r' := Happen(r, e, frame, paced);
            && Taken(r'.pieces) + r'.ring == r'.written
            && Multiple(|r'.ring|, frame) && OnFrames(r'.pieces, frame) && Multiple(|Laid(r'.pieces)|, frame)
  {
    var p := PieceOf(r.ring, e.want, frame, paced);
    PieceWhole(r.ring, e.want, frame, paced);
    MultipleSum(|r.ring| - |p.taken|, |e.meanwhile|, frame);
    MultipleSum(|p.taken|, p.silence, frame);
    MultipleSum(|Laid(r.pieces)|, |PieceBytes(p)|, frame);
    hide PieceOf;
    LaidAppend(r.pieces, p);
    PacketConserves(r, p, e.meanwhile);
    OnFramesAppend(r.pieces, p, frame);
  }

  lemma OnFramesAppend(ps: seq<Piece>, p: Piece, frame: nat)
    requires OnFrames(ps, frame) && Multiple(|Laid(ps)|, frame) && Multiple(|p.taken|, frame)
             && Multiple(p.silence, frame)
    ensures OnFrames(ps + [p], frame)
  {
    assert forall i | 0 <= i < |ps| :: (ps + [p])[..i] == ps[..i];
    assert (ps + [p])[..|ps|] == ps;
  }

  lemma PacketConserves(r: Run, p: Piece, meanwhile: seq<byte>)
    requires Taken(r.pieces) + r.ring == r.written && p.taken <= r.ring
    ensures Taken(r.pieces + [p]) + (r.ring + meanwhile)[|p.taken|..] == r.written + meanwhile
  {
    LaidAppend(r.pieces, p);
    hide Taken;
    assert r.ring + meanwhile == p.taken + (r.ring + meanwhile)[|p.taken|..];
  }

  /** Silence is laid only when the ring had run dry: a packet that falls silent
      took everything that was queued. */
  lemma SilenceMeansDry(es: seq<Event>, frame: nat, paced: bool, want: nat, meanwhile: seq<byte>)
    requires forall e | e in es :: Legal(e, frame, paced)
    requires Legal(Packet(want, meanwhile), frame, paced)
    ensures var r := Play(Run([], [], []), es, frame, paced);
            var r' := Happen(r, Packet(want, meanwhile), frame, paced);
            r'.pieces[|r.pieces|].silence > 0 ==> paced && r'.ring == meanwhile && |r.ring| < want
  {
    PlaysWhatWasWritten(es, frame, paced);
    var r := Play(Run([], [], []), es, frame, paced);
    PieceWhole(r.ring, want, frame, paced);
  }

  // ---- a transfer as a stretch of the run

  lemma {:induction false} PlayJoin(r: Run, a: seq<Event>, b: seq<Event>, frame: nat, paced: bool)
    ensures Play(r, a + b, frame, paced) == Play(Play(r, a, frame, paced), b, frame, paced)
  {
    if b == [] {
      assert a + b == a;
    } else {
      var most, last := b[..|b| - 1], b[|b| - 1];
      PlayJoin(r, a, most, frame, paced);
      assert (a + b)[..|a + b| - 1] == a + most;
    }
  }

  /** What a run goes on with depends on the ring alone. */
  lemma {:induction false} PlayShift(r: Run, es: seq<Event>, frame: nat, paced: bool)
    ensures var o := Play(Run(r.ring, [], []), es, frame, paced);
            Play(r, es, frame, paced) == Run(o.ring, r.written + o.written, r.pieces + o.pieces)
  {
    if es == [] {
      assert r.written + [] == r.written && r.pieces + [] == r.pieces;
    } else {
      PlayShift(r, es[..|es| - 1], frame, paced);
      hide PieceOf, Play;
      var o := Play(Run(r.ring, [], []), es[..|es| - 1], frame, paced);
      HappenShift(r, o, es[|es| - 1], frame, paced);
      PlayLast(r, es, frame, paced);
      PlayLast(Run(r.ring, [], []), es, frame, paced);
    }
  }

  lemma PlayLast(r: Run, es: seq<Event>, frame: nat, paced: bool)
    requires es != []
    ensures Play(r, es, frame, paced) == Happen(Play(r, es[..|es| - 1], frame, paced), es[|es| - 1], frame, paced)
  {
  }

  lemma HappenShift(r: Run, o: Run, e: Event, frame: nat, paced: bool)
    ensures var o' := Happen(o, e, frame, paced);
            Happen(Run(o.ring, r.written + o.written, r.pieces + o.pieces), e, frame, paced)
            == Run(o'.ring, r.written + o'.written, r.pieces + o'.pieces)
  {
    hide PieceOf;
    match e
    case Accept(data) => assert r.written + (o.written + data) == (r.written + o.written) + data;
    case Packet(want, m) =>
      var p := PieceOf(o.ring, want, frame, paced);
      assert r.written + (o.written + m) == (r.written + o.written) + m;
      assert r.pieces + (o.pieces + [p]) == (r.pieces + o.pieces) + [p];
  }

  /** What was written amid a transfer's packets. */
  ghost function Joined(amid: seq<seq<byte>>): seq<byte> {
    if amid == [] then [] else Joined(amid[..|amid| - 1]) + amid[|amid| - 1]
  }

  lemma {:induction false} PacketsWrite(q: seq<byte>, wants: seq<nat>, amid: seq<seq<byte>>, frame: nat, paced: bool)
    requires |amid| == |wants|
    ensures Play(Run(q, [], []), Packets(wants, amid), frame, paced).written == Joined(amid)
  {
    if wants != [] {
      var n := |wants| - 1;
      PacketsWrite(q, wants[..n], amid[..n], frame, paced);
      PlaySnoc(Run(q, [], []), wants[..n], amid[..n], wants[n], amid[n], frame, paced);
      assert wants[..n] + [wants[n]] == wants && amid[..n] + [amid[n]] == amid;
      hide PieceOf, Play, Packets;
    }
  }

  lemma {:induction false} LaidJoin(a: seq<Piece>, b: seq<Piece>)
    ensures Laid(a + b) == Laid(a) + Laid(b)
  {
    if b == [] {
      assert a + b == a;
    } else {
      var most, last := b[..|b| - 1], b[|b| - 1];
      LaidJoin(a, most);
      LaidAppend(a + most, last);
      LaidAppend(most, last);
      hide Laid, PieceBytes;
      assert a + b == (a + most) + [last] && b == most + [last];
    }
  }

  /** So a transfer that Fill fills, at any moment of a run and whatever is written
      during it, goes on with that run: its bytes come behind everything laid before,
      the ring holds what the run says, and the bytes laid less the silence, then the
      ring, are those written. */
  lemma FillGoesOnPlaying(es: seq<Event>, wants: seq<nat>, amid: seq<seq<byte>>, frame: nat, paced: bool,
                          rest: seq<byte>, bytes: seq<byte>, lens: seq<nat>)
    requires forall e | e in es :: Legal(e, frame, paced)
    requires (paced ==> forall w | w in wants :: Multiple(w, frame)) && forall m | m in amid :: Multiple(|m|, frame)
    requires Filled(Play(Run([], [], []), es, frame, paced).ring, wants, amid, frame, paced, rest, bytes, lens)
    ensures var r := Play(Run([], [], []), es, frame, paced);
            var r' := Play(Run([], [], []), es + Packets(wants, amid), frame, paced);
            && r'.ring == rest && r'.written == r.written + Joined(amid) && Laid(r'.pieces) == Laid(r.pieces) + bytes
            && Taken(r'.pieces) + rest == r'.written && OnFrames(r'.pieces, frame)
  {
    var r, more := Play(Run([], [], []), es, frame, paced), Packets(wants, amid);
    PlayJoin(Run([], [], []), es, more, frame, paced);
    PlayShift(r, more, frame, paced);
    PacketsWrite(r.ring, wants, amid, frame, paced);
    LaidJoin(r.pieces, Play(Run(r.ring, [], []), more, frame, paced).pieces);
    hide Play, Laid, Taken, OnFrames;
    assert forall e | e in es + more :: Legal(e, frame, paced);
    PlaysWhatWasWritten(es + more, frame, paced);
  }
}
