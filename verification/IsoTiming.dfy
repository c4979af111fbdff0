/** src/shared/usbif_iso_pace.h and src/shared/usbif_iso_queue.h: how many bytes
    each isochronous packet carries, and how much schedule is kept queued. */
module IsoTiming {
  import opened Bytes

  const MICRO: nat := 1_000_000

  // ---- pacing

  /** Whole frames due after `k` packets: the exact rate, rounded down. */
  ghost function Due(rate: nat, slotUs: nat, k: nat): nat {
    k * (rate * slotUs) / MICRO
  }

  /** Whole frames of packet `k`, before any cap. */
  ghost function Frames(rate: nat, slotUs: nat, k: nat): (n: nat)
  {
    DueGrows(rate * slotUs, k, 1);
    Due(rate, slotUs, k + 1) - Due(rate, slotUs, k)
  }

  /** The most frames any packet is due: the ideal count rounded up. */
  function MostFrames(rate: nat, slotUs: nat): nat {
    (rate * slotUs + MICRO - 1) / MICRO
  }

  /** `w` more packets are due the floor of their ideal count, or one frame more
      when that is not whole. */
  lemma DueGrows(u: nat, k: nat, w: nat)
    ensures k * u / MICRO + w * u / MICRO <= (k + w) * u / MICRO <= k * u / MICRO + (w * u + MICRO - 1) / MICRO
  {
    assert (k + w) * u == k * u + w * u;
  }

  /** The remainder carried from packet `k` is what makes the exact rate come due. */
  lemma PaceStep(rate: nat, slotUs: nat, k: nat)
    ensures var u := rate * slotUs;
            var owed := k * u % MICRO + u;
            owed / MICRO == Frames(rate, slotUs, k) && owed - owed / MICRO * MICRO == (k + 1) * u % MICRO < MICRO
  {
    var u := rate * slotUs;
    assert (k + 1) * u == k * u + u;
    DueGrows(u, k, 1);
  }

  class Pace {
    const rate: nat
    const frame: nat
    const slotUs: nat
    var acc: nat
    ghost var packets: nat

    ghost predicate Valid()
      reads this
    {
      frame > 0 && slotUs > 0 && acc == packets * (rate * slotUs) % MICRO
    }

    constructor (rate: nat, frame: nat, slotUs: nat)
      ensures Valid() && packets == 0
      ensures this.rate == rate && this.frame == (if frame == 0 then 1 else frame)
      ensures this.slotUs == if slotUs == 0 then 1000 else slotUs
    {
      this.rate := rate;
      this.frame := if frame == 0 then 1 else frame;
      this.slotUs := if slotUs == 0 then 1000 else slotUs;
      acc, packets := 0, 0;
    }

    /** The remainder carried is always below one frame, and no fraction of a
        frame is ever lost: packet `k` is what the exact rate makes due in it,
        unless that is over the cap. */
    method Next(max: nat) returns (want: nat)
      requires Valid()
      modifies this`acc, this`packets
      ensures Valid() && packets == old(packets) + 1 && acc < MICRO
      ensures want == Packet(rate, frame, slotUs, max, old(packets))
    {
      PaceStep(rate, slotUs, packets);
      hide Frames;
      acc := acc + rate * slotUs;
      var frames := acc / MICRO;
      acc := acc - frames * MICRO;
      packets := packets + 1;
      want := frames * frame;
      var cap := max - max % frame;
      assert cap == Whole(max, frame);
      want := if want > cap then cap else want;
    }
  }

  ghost function Packet(rate: nat, frame: nat, slotUs: nat, max: nat, k: nat): nat
    requires frame > 0
  {
    Min(Frames(rate, slotUs, k) * frame, Whole(max, frame))
  }

  /** Bytes of the `w` packets from packet `j` on. */
  ghost function Sent(rate: nat, frame: nat, slotUs: nat, max: nat, j: nat, w: nat): nat
    requires frame > 0
  {
    if w == 0 then 0
    else Sent(rate, frame, slotUs, max, j, w - 1) + Packet(rate, frame, slotUs, max, j + w - 1)
  }

  /** No packet splits a frame or is over the endpoint's maximum. */
  lemma PacketWhole(rate: nat, frame: nat, slotUs: nat, max: nat, k: nat)
    requires frame > 0
    ensures Multiple(Packet(rate, frame, slotUs, max, k), frame) && Packet(rate, frame, slotUs, max, k) <= max
  {
    MultipleOf(Frames(rate, slotUs, k), frame);
  }

  /** Some packet of the window was due more than the endpoint takes. */
  ghost predicate Capped(rate: nat, frame: nat, slotUs: nat, max: nat, k: nat) {
    Frames(rate, slotUs, k) * frame > max
  }

  lemma CappedCost(rate: nat, frame: nat, slotUs: nat, max: nat, k: nat)
    requires frame > 0
    ensures Packet(rate, frame, slotUs, max, k) <= Frames(rate, slotUs, k) * frame
    ensures Packet(rate, frame, slotUs, max, k) == Frames(rate, slotUs, k) * frame
            <==> !Capped(rate, frame, slotUs, max, k)
  {
    var f := Frames(rate, slotUs, k);
    if f * frame <= max && Whole(max, frame) < f * frame {
      MultipleOf(f, frame);
      MultipleSum(f * frame, Whole(max, frame), frame);
      AtLeastOne(f * frame - Whole(max, frame), frame);
    }
  }

  lemma AtLeastOne(d: nat, m: nat)
    requires d > 0 && m > 0 && Multiple(d, m)
    ensures d >= m
  {
  }

  /** Any window of packets carries exactly the frames due in it if and only if
      none of them was capped; a cap only ever loses frames. */
  lemma {:induction false} WindowExact(rate: nat, frame: nat, slotUs: nat, max: nat, j: nat, w: nat)
    requires frame > 0
    ensures var due := (Due(rate, slotUs, j + w) - Due(rate, slotUs, j)) * frame;
            && Sent(rate, frame, slotUs, max, j, w) <= due
            && (Sent(rate, frame, slotUs, max, j, w) == due
                <==> forall k | j <= k < j + w :: !Capped(rate, frame, slotUs, max, k))
  {
    if w > 0 {
      WindowExact(rate, frame, slotUs, max, j, w - 1);
      CappedCost(rate, frame, slotUs, max, j + w - 1);
      var a, b, c := Due(rate, slotUs, j), Due(rate, slotUs, j + w - 1), Due(rate, slotUs, j + w);
      assert (c - a) * frame == (b - a) * frame + (c - b) * frame;
    }
  }

  /** Uncapped, the frames sent after `k` packets are the exact rate rounded
      down, and any window of `w` carries its ideal count rounded down or up. */
  lemma RateExact(rate: nat, frame: nat, slotUs: nat, max: nat, j: nat, w: nat)
    requires frame > 0 && forall k | j <= k < j + w :: !Capped(rate, frame, slotUs, max, k)
    ensures j == 0 ==> Sent(rate, frame, slotUs, max, 0, w) == (w * (rate * slotUs) / 1_000_000) * frame
    ensures exists n :: Sent(rate, frame, slotUs, max, j, w) == n * frame
                        && w * (rate * slotUs) / 1_000_000 <= n <= (w * (rate * slotUs) + 999_999) / 1_000_000
  {
    WindowExact(rate, frame, slotUs, max, j, w);
    DueGrows(rate * slotUs, j, w);
    var n := Due(rate, slotUs, j + w) - Due(rate, slotUs, j);
    assert Sent(rate, frame, slotUs, max, j, w) == n * frame;
  }

  /** The cap never bites, however long the stream, if and only if the endpoint
      takes the most frames one packet can be due. */
  lemma NeverCappedIff(rate: nat, frame: nat, slotUs: nat, max: nat)
    requires frame > 0
    ensures (forall k :: !Capped(rate, frame, slotUs, max, k)) 
            <==> (rate * slotUs + 999_999) / 1_000_000 * frame <= max
  {
    var u, most := rate * slotUs, MostFrames(rate, slotUs);
    forall k
      ensures Frames(rate, slotUs, k) <= most
    {
      DueGrows(u, k, 1);
    }
    if most * frame <= max {
      forall k
        ensures !Capped(rate, frame, slotUs, max, k)
      {
        TimesMonotonic(Frames(rate, slotUs, k), most, frame);
      }
    } else {
      var k := FullPacket(rate, slotUs, MICRO);
      assert Capped(rate, frame, slotUs, max, k);
    }
  }

  lemma TimesMonotonic(a: nat, b: nat, m: nat)
    requires a <= b
    ensures a * m <= b * m
  {
  }

  /** Over a million packets the whole of `u` per packet comes due, so one of
      them carries the ideal count rounded up. */
  lemma FullPacket(rate: nat, slotUs: nat, n: nat) returns (k: nat)
    requires n == MICRO
    ensures Frames(rate, slotUs, k) == MostFrames(rate, slotUs)
  {
    var u, most := rate * slotUs, MostFrames(rate, slotUs);
    if most == 0 {
      k := 0;
      DueGrows(u, 0, 1);
    } else if forall i: nat | i < n :: Frames(rate, slotUs, i) < most {
      AllShort(rate, slotUs, n, most - 1);
      DueMillion(rate, slotUs);
      assert false;
    } else {
      k :| k < n && Frames(rate, slotUs, k) >= most;
      DueGrows(u, k, 1);
    }
  }

  lemma DueMillion(rate: nat, slotUs: nat)
    ensures Due(rate, slotUs, MICRO) == rate * slotUs
  {
  }

  lemma {:induction false} AllShort(rate: nat, slotUs: nat, n: nat, f: nat)
    requires forall i: nat | i < n :: Frames(rate, slotUs, i) <= f
    ensures Due(rate, slotUs, n) <= n * f
  {
    if n > 0 {
      AllShort(rate, slotUs, n - 1, f);
      assert n * f == (n - 1) * f + f;
      assert Frames(rate, slotUs, n - 1) <= f;
    }
  }

  // ---- the queue

  datatype Queue = Queue(pktsPerXfer: nat, numXfer: nat)

  const HS_PKTS: nat := 32
  const FS_PKTS: nat := 8
  const QUEUE_TICKS: nat := 3
  const MIN_XFER: nat := 3
  const MAX_XFER: nat := 12
  const MAX_XFER_SLOTS: nat := 61

  function OrOne(n: nat): nat {
    if n == 0 then 1 else n
  }

  function SlotUs(highSpeed: bool): nat {
    if highSpeed then 125 else 1000
  }

  /** As many packets as the bus allows a transfer and its slots hold. */
  function PktsPerXfer(most: nat, interval: nat): nat
    requires interval > 0
  {
    if most * interval > MAX_XFER_SLOTS then if interval >= MAX_XFER_SLOTS then 1 else MAX_XFER_SLOTS / interval
    else most
  }

  function NumXfer(queueUs: nat, xferUs: nat): nat
    requires xferUs > 0
  {
    var n := (queueUs + xferUs - 1) / xferUs;
    if n < MIN_XFER then MIN_XFER else if n > MAX_XFER then MAX_XFER else n
  }

  function MostPkts(highSpeed: bool): nat {
    if highSpeed then HS_PKTS else FS_PKTS
  }

  function XferUs(highSpeed: bool, interval: nat): (us: nat)
    ensures us > 0
  {
    PktsFit(MostPkts(highSpeed), OrOne(interval));
    TimesMonotonic(1, PktsPerXfer(MostPkts(highSpeed), OrOne(interval)), OrOne(interval));
    TimesMonotonic(1, PktsPerXfer(MostPkts(highSpeed), OrOne(interval)) * OrOne(interval), SlotUs(highSpeed));
    PktsPerXfer(MostPkts(highSpeed), OrOne(interval)) * OrOne(interval) * SlotUs(highSpeed)
  }

  function TicksUs(tickMs: nat): nat {
    QUEUE_TICKS * OrOne(tickMs) * 1000
  }

  function QueueSize(highSpeed: bool, interval: nat, tickMs: nat): Queue {
    Queue(PktsPerXfer(MostPkts(highSpeed), OrOne(interval)), NumXfer(TicksUs(tickMs), XferUs(highSpeed, interval)))
  }

  function QueueUs(q: Queue, highSpeed: bool, interval: nat): nat {
    q.pktsPerXfer * q.numXfer * OrOne(interval) * SlotUs(highSpeed)
  }

  /** A transfer never spans more slots than the controller's list holds, unless
      it is a single packet, and carries as many packets as that and the bus's
      limit allow. */
  lemma PktsFit(most: nat, interval: nat)
    requires 0 < most <= MAX_XFER_SLOTS && interval > 0
    ensures var p := PktsPerXfer(most, interval);
            && 1 <= p <= most
            && (p * interval <= MAX_XFER_SLOTS || p == 1)
            && (p == most || (p + 1) * interval > MAX_XFER_SLOTS)
  {
    var p := PktsPerXfer(most, interval);
    if p != most && interval < MAX_XFER_SLOTS {
      assert p * interval == MAX_XFER_SLOTS - MAX_XFER_SLOTS % interval;
      assert (p + 1) * interval == p * interval + interval;
      if most < p {
        TimesMonotonic(most, p, interval);
      }
    } else if p != most {
      TimesMonotonic(2, p + 1, interval);
    }
  }

  /** 3 to 12 transfers, the fewest in that range that cover the time wanted; they
      cover it if and only if twelve do. */
  lemma NumXferCovers(queueUs: nat, xferUs: nat)
    requires xferUs > 0 && queueUs > 0
    ensures var n := NumXfer(queueUs, xferUs);
            && MIN_XFER <= n <= MAX_XFER
            && (n * xferUs >= queueUs <==> MAX_XFER * xferUs >= queueUs)
            && (n == MIN_XFER || (n - 1) * xferUs < queueUs) && (n == MAX_XFER || n * xferUs >= queueUs)
  {
    var n := (queueUs + xferUs - 1) / xferUs;
    assert n * xferUs == queueUs + xferUs - 1 - (queueUs + xferUs - 1) % xferUs;
    assert (n - 1) * xferUs == n * xferUs - xferUs;
    if n > MAX_XFER {
      TimesMonotonic(MAX_XFER, n - 1, xferUs);
    } else {
      TimesMonotonic(n, MAX_XFER, xferUs);
      TimesMonotonic(n, NumXfer(queueUs, xferUs), xferUs);
    }
  }

  /** A transfer covers at least 3.875 ms of bus time. */
  lemma TransferLong(highSpeed: bool, interval: nat)
    ensures XferUs(highSpeed, interval) >= 3875
    ensures interval <= 32768 ==> XferUs(highSpeed, interval) <= 32768 * 1000
  {
    var most, i := MostPkts(highSpeed), OrOne(interval);
    PktsFit(most, i);
    var p := PktsPerXfer(most, i);
    assert (p + 1) * i == p * i + i;
    TimesMonotonic(1, p, i);
    if p == most {
      TimesMonotonic(1, i, most);
    }
  }

  /** The size of the queue: as many packets a transfer as the bus's limit of 32 or 8 and
      the 61 slots allow, and at least one; and the fewest transfers of 3 to 12 that cover
      three ticks, or all 12. An interval or tick of 0 counts as 1. */
  lemma QueueIs(highSpeed: bool, interval: nat, tickMs: nat)
    ensures var q := QueueSize(highSpeed, interval, tickMs);
            var i, slot := if interval == 0 then 1 else interval, if highSpeed then 125 else 1000;
            var most, ticks := if highSpeed then 32 else 8, 3 * (if tickMs == 0 then 1 else tickMs) * 1000;
            var transfer := q.pktsPerXfer * i * slot;
            && 1 <= q.pktsPerXfer <= most
            && (q.pktsPerXfer == 1 || q.pktsPerXfer * i <= 61)
            && (q.pktsPerXfer == most || (q.pktsPerXfer + 1) * i > 61)
            && 3 <= q.numXfer <= 12
            && (q.numXfer == 3 || (q.numXfer - 1) * transfer < ticks)
            && (q.numXfer == 12 || q.numXfer * transfer >= ticks)
  {
    PktsFit(MostPkts(highSpeed), OrOne(interval));
    NumXferCovers(TicksUs(tickMs), XferUs(highSpeed, interval));
    hide NumXfer, PktsPerXfer;
  }

  /** At every endpoint interval and every FreeRTOS tick up to 15 ms the queue's packets
      cover three ticks, and no product on the way leaves 32 bits. */
  lemma QueueCoversThreeTicks(highSpeed: bool, interval: nat, tickMs: nat)
    requires interval <= 32768 && tickMs <= 15
    ensures var q := QueueSize(highSpeed, interval, tickMs);
            var i, slot := if interval == 0 then 1 else interval, if highSpeed then 125 else 1000;
            3 * (if tickMs == 0 then 1 else tickMs) * 1000 <= q.pktsPerXfer * q.numXfer * i * slot < 0x1_0000_0000
    ensures QueueUs(QueueSize(highSpeed, interval, tickMs), highSpeed, interval) < 0x1_0000_0000
  {
    TransferLong(highSpeed, interval);
    var x := XferUs(highSpeed, interval);
    NumXferCovers(TicksUs(tickMs), x);
    QueueIsTransfers(highSpeed, interval, tickMs);
    TimesMonotonic(NumXfer(TicksUs(tickMs), x), MAX_XFER, x);
  }

  lemma QueueIsTransfers(highSpeed: bool, interval: nat, tickMs: nat)
    ensures var q := QueueSize(highSpeed, interval, tickMs);
            QueueUs(q, highSpeed, interval) == q.numXfer * XferUs(highSpeed, interval)
  {
    var q := QueueSize(highSpeed, interval, tickMs);
    Reorder(q.pktsPerXfer, q.numXfer, OrOne(interval), SlotUs(highSpeed));
  }

  lemma Reorder(a: nat, b: nat, c: nat, d: nat)
    ensures a * b * c * d == b * (a * c * d)
  {
    assert a * b * c == b * (a * c);
    assert b * (a * c) * d == b * (a * c * d);
  }
}
