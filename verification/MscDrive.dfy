/** Drive of packages/usb-host-msc/usb/host/msc.py, on a wire to the device: what
    readblocks and writeblocks do, through 64-block commands and 8-block chunks. */
module MscDrive {
  import opened Bytes
  import opened BulkOnly
  import opened MscDevice
  import opened MscProtocol
  import opened MscPipes
  import opened MscCommand

  const MAX_BLOCKS: nat := 64

  /** The packet sizes a bulk endpoint may have (USB 2.0, section 5.8.3). */
  predicate BulkPacket(mps: nat) {
    mps == 8 || mps == 16 || mps == 32 || mps == 64 || mps == 512
  }

  /** The cable: bulk transfers against the device at its other end. `taken` is what the
      host already has of the device's outstanding inward transfer. */
  class Wire {
    const mps: nat
    var dev: Dev
    var taken: nat

    ghost predicate Valid()
      reads this
    {
      BulkPacket(mps) && Sound(dev) && taken <= Outstanding(dev)
    }

    constructor (packet: nat, d: Dev)
      requires BulkPacket(packet) && Sound(d)
      ensures Valid() && mps == packet && dev == d
    {
      mps, dev, taken := packet, d, 0;
    }

    method Write(data: seq<byte>) returns (ok: bool)
      requires Valid()
      modifies this
      ensures Valid() && taken == old(taken)
      ensures var p := WritePipe(old(dev), mps, data); dev == p.dev && ok == p.ok
    {
      var p := WritePipe(dev, mps, data);
      dev, ok := p.dev, p.ok;
    }

    method Read(want: nat) returns (data: seq<byte>, ok: bool)
      requires Valid()
      modifies this
      ensures Valid() && Pipe(dev, taken, data, ok) == ReadPipe(old(dev), old(taken), mps, want)
    {
      var p := ReadPipe(dev, taken, mps, want);
      dev, taken, data, ok := p.dev, p.taken, p.data, p.ok;
    }
  }

  /** How readblocks or writeblocks ends: done, an OSError with the sense of the block
      it stopped at, or an error without: of a transfer that timed out, or of a phase
      error, whose reset and sense are not followed. */
  datatype Outcome = Done | Failed(block: nat, key: byte, asc: byte) | Raised(block: nat)

  class Drive {
    const wire: Wire
    const lun: byte
    const bs: nat
    var tag: u32
    var csw: seq<byte>

    ghost predicate Valid()
      reads this, wire
    {
      wire.Valid() && |csw| == CSW_LEN
    }

    constructor (w: Wire, unit: byte, blockSize: nat)
      requires w.Valid()
      ensures Valid() && wire == w && bs == blockSize && tag == 0 && csw == Zeros(CSW_LEN)
    {
      wire, lun, bs, tag, csw := w, unit, blockSize, 0, Zeros(CSW_LEN);
    }

    /** _command: one command; what it read, and its status. */
    method Command(cb: seq<byte>, ask: Ask) returns (data: seq<byte>, answer: Answer)
      requires Valid() && |cb| <= 16 && Length(ask) < TWO32
      modifies this, wire
      ensures Valid() && tag == (old(tag) + 1) % TWO32
      ensures CommandOf(old(wire.dev), old(wire.taken), wire.mps, tag, lun, old(csw), cb, ask)
              == Reply(wire.dev, wire.taken, csw, data, answer)
    {
      hide Sound, WritePipe, ReadPipe, PackCbw, Overwrite, Get32;
      tag := (tag + 1) % TWO32;
      data, answer := [], TimedOut;
      var ok := wire.Write(Cbw(tag, lun, cb, ask));
      if ok {
        data, ok := MoveData(ask);
      }
      if ok {
        var told;
        told, ok := wire.Read(CSW_LEN);
        if ok {
          csw := Overwrite(csw, 0, told);
          answer := Answered(Verdict(csw, tag));
        }
      }
    }

    method MoveData(ask: Ask) returns (data: seq<byte>, ok: bool)
      requires Valid()
      modifies wire
      ensures Valid()
      ensures Pipe(wire.dev, wire.taken, data, ok) == Move(old(wire.dev), old(wire.taken), wire.mps, ask)
    {
      hide Sound;
      data, ok := [], true;
      match ask
      case Nothing =>
      case Inward(len) =>
        if len > 0 {
          data, ok := wire.Read(len);
        }
      case Outward(out) =>
        ok := wire.Write(out);
    }

    /** What Drive does with a device it has found: up to twenty tries for a medium,
        then its capacity. It succeeds exactly if the medium is in, and has the
        device's own figures. */
    method Connect() returns (ok: bool, blockCount: nat, blockSize: nat)
      requires Valid() && Idle(wire.dev) && Wf(wire.dev)
      modifies this, wire
      ensures Valid() && (ok <==> !old(wire.dev).ejected)
      ensures ok ==> blockCount == old(wire.dev).blocks && blockSize == old(wire.dev).bs
      ensures Same(old(wire.dev), wire.dev) && wire.dev.disk == old(wire.dev).disk
    {
      ghost var d := wire.dev;
      ok, blockCount, blockSize := false, 0, 0;
      var tries := 0;
      SameAsItself(d);
      hide Sound, Idle, Wf, CommandOf, PackCsw, Same, GetBE32, ReadyBlock, CapacityBlock;
      while tries < 20 && !ok
        invariant Valid() && Same(d, wire.dev) && wire.dev.disk == d.disk && (ok ==> !d.ejected)
        invariant tries > 0 && !ok ==> d.ejected
      {
        ok := TestReady(d);
        tries := tries + 1;
      }
      ok, blockCount, blockSize := Capacity(d);
    }

    /** READ CAPACITY. */
    method Capacity(ghost d: Dev) returns (ok: bool, blockCount: nat, blockSize: nat)
      requires Valid() && Same(d, wire.dev) && wire.dev.disk == d.disk && Wf(d)
      modifies this, wire
      ensures Valid() && Same(d, wire.dev) && wire.dev.disk == d.disk && (ok <==> !d.ejected)
      ensures ok ==> blockCount == d.blocks && blockSize == d.bs
    {
      SameIs(d, wire.dev);
      IdleTook(wire.dev, wire.taken);
      hide Sound, Idle, Wf, CommandOf, PackCsw, Same, GetBE32, CapacityBlock, Outstanding;
      ok, blockCount, blockSize := false, 0, 0;
      ghost var mid, was := wire.dev, csw;
      var cap, answer := Command(CapacityBlock(), Inward(8));
      if mid.ejected {
        CapacityRefused(mid, wire.mps, tag, lun, was);
        CapacityCame(d, mid, wire.mps, tag, lun, was, FAILED);
      } else {
        CapacityCommand(mid, wire.mps, tag, lun, was);
        CapacityCame(d, mid, wire.mps, tag, lun, was, PASSED);
      }
      ok := answer == Answered(PASSED);
      if ok {
        blockCount, blockSize := GetBE32(cap, 0) + 1, GetBE32(cap, 4);
      }
    }

    /** One try: TEST UNIT READY, and the sense if it is not. */
    method TestReady(ghost d: Dev) returns (ok: bool)
      requires Valid() && Same(d, wire.dev) && wire.dev.disk == d.disk
      modifies this, wire
      ensures Valid() && Same(d, wire.dev) && wire.dev.disk == d.disk && (ok <==> !d.ejected)
    {
      IdleTook(wire.dev, wire.taken);
      hide Sound, Idle, CommandOf, PackCsw, ReadyBlock;
      ghost var mid, was := wire.dev, csw;
      var none, answer := Command(ReadyBlock(), Nothing);
      ReadyCommand(mid, wire.mps, tag, lun, was);
      ok := answer == Answered(PASSED);
      if !ok {
        var got, key, asc := Sense();
      }
    }

    /** One command of a read: what came lands in the buffer at `at`. */
    method ReadPart(block: nat, n: nat, buf: array<byte>, at: nat) returns (answer: Answer, ghost data: seq<byte>)
      requires Valid() && Steady(wire.dev, bs) && block < TWO32
      requires 0 < n <= MAX_BLOCKS && at + At(bs, n) <= buf.Length && At(bs, n) < TWO32
      modifies this, wire, buf
      ensures Valid() && |data| <= At(bs, n)
      ensures PartGot(old(wire.dev), wire.dev, wire.mps, old(csw), tag, block, n, data, answer)
      ensures tag == (old(tag) + 1) % TWO32 && buf[..] == Overwrite(old(buf[..]), at, data)
    {
      SteadyTook(wire.dev, wire.taken, bs);
      hide Sound, Steady, Refusal, Range, BlockCommand, At, PackCsw, Overwrite, PartGot, Fits, Outstanding;
      ghost var d, was, had := wire.dev, csw, wire.taken;
      var came;
      came, answer := Command(BlockCommand(READ_10, block, n), Inward(At(bs, n)));
      ReadPartIs(d, had, wire.mps, tag, lun, was, block, n, bs);
      hide CommandOf;
      data := came;
      CopyInto(buf, at, came);
    }

    /** One command of a write. */
    method WritePart(block: nat, n: nat, data: seq<byte>, ghost fits: bool) returns (answer: Answer)
      requires Valid() && block < TWO32 && 0 < n <= MAX_BLOCKS && |data| == At(bs, n) < TWO32
      requires fits ==> Fits(bs, wire.mps, n) && Idle(wire.dev) && Wf(wire.dev) && bs == wire.dev.bs
      modifies this, wire
      ensures Valid() && (fits ==> PartWritten(old(wire.dev), wire.dev, block, n, data, answer))
      ensures tag == (old(tag) + 1) % TWO32
    {
      if fits {
        IdleTook(wire.dev, wire.taken);
      }
      hide Sound, Idle, Wf, Refusal, BlockCommand, At, PackCsw, Overwrite, PartWritten, Fits, Outstanding;
      ghost var d, was := wire.dev, csw;
      var none;
      none, answer := Command(BlockCommand(WRITE_10, block, n), Outward(data));
      assert tag == (old(tag) + 1) % TWO32;
      hide Drive.Valid, Cbw, Verdict;
      if fits {
        WritePartIs(d, wire.mps, tag, lun, was, block, n, data);
      }
    }

    /** _sense: the reason of the last refusal; `ok`: the command went through. */
    method Sense() returns (ok: bool, key: byte, asc: byte)
      requires Valid()
      modifies this, wire
      ensures Valid() && (old(wire.dev).outX.OutNone? ==> !ok)
      ensures Idle(old(wire.dev)) ==>
                && ok && Same(old(wire.dev), wire.dev) && wire.dev.disk == old(wire.dev.disk)
                && key as int == old(wire.dev.sense.0) as int % 16 && asc == old(wire.dev.sense.1)
    {
      ghost var d, was, had := wire.dev, csw, wire.taken;
      ghost var idle := Idle(d);
      if idle {
        IdleTook(d, had);
      }
      hide Sound, CommandOf, PackCsw, SenseCommandBlock, Idle, Overwrite, SenseReply, Same, Outstanding;
      var data, answer := Command(SenseCommandBlock(), Inward(SENSE_LEN));
      CommandReads(d, had, wire.mps, tag, lun, was, SenseCommandBlock(), SENSE_LEN);
      Stuck(d, had, wire.mps, tag, lun, was, SenseCommandBlock(), Inward(SENSE_LEN));
      if idle {
        SenseIs(d, wire.mps, tag, lun, was);
      }
      var sense := Overwrite(Zeros(SENSE_LEN), 0, data);
      ok, key, asc := answer.Answered?, sense[2] as int % 16, sense[12];
    }

    /** How a command that did not pass ends the loop: its sense if it was answered. */
    method Failure(answer: Answer, block: nat) returns (r: Outcome)
      requires Valid()
      modifies this, wire
      ensures Valid() && EndedBy(old(wire.dev), wire.dev, answer, block, r) && r != Done
    {
      hide Sound, Idle, Same;
      if answer.TimedOut? || answer.status == PHASE_ERROR {
        r := Raised(block);
      } else {
        var ok, key, asc := Sense();
        r := if ok then Failed(block, key, asc) else Raised(block);
      }
    }

    /** One turn of the loop: a command, and the sense of its refusal. */
    method ReadNext(ghost d: Dev, ghost at: Status, ghost was: seq<byte>, blockNum: nat, done: nat, n: nat,
                    ghost count: nat, buf: array<byte>)
      returns (failed: bool, r: Outcome)
      requires Valid() && Steady(wire.dev, bs) && bs == d.bs && blockNum + count <= TWO32
      requires done < count && n == Min(count - done, MAX_BLOCKS) && At(bs, n) < TWO32
      requires At(bs, done) + At(bs, n) <= buf.Length && (done == 0 ==> at == Status(csw, (tag + 1) % TWO32))
      requires ReadHere(d, wire.dev, wire.mps, at, blockNum, done, count, was, buf[..])
      modifies this, wire, buf
      ensures Valid()
      ensures !failed ==> ReadHere(d, wire.dev, wire.mps, at, blockNum, done + n, count, was, buf[..])
                          && tag == (old(tag) + 1) % TWO32
      ensures failed ==> ReadCame(d, wire.dev, wire.mps, at, blockNum, count, was, buf[..], r) && r != Done
    {
      assert wire.mps > 0;
      hide *;
      ghost var mid, now, place := wire.dev, buf[..], Status(csw, (tag + 1) % TWO32);
      FitsPart(bs, wire.mps, count, done);
      ghost var data;
      var answer;
      answer, data := ReadPart(blockNum + done, n, buf, At(bs, done));
      ghost var got, filled := wire.dev, buf[..];
      failed, r := answer != Answered(PASSED), Done;
      if answer == Answered(PASSED) {
        ReadTurn(d, mid, got, wire.mps, at, place, blockNum, done, count, was, now, data, answer);
      } else {
        r := Failure(answer, blockNum + done);
        assert buf[..] == filled;
        ReadStops(d, mid, got, wire.dev, wire.mps, at, place, blockNum, done, count, was, now, data, answer, r);
      }
    }

    /** The loop of a read. */
    method ReadAll(blockNum: nat, count: nat, buf: array<byte>) returns (r: Outcome)
      requires Valid() && Idle(wire.dev) && Wf(wire.dev) && bs == wire.dev.bs && At(bs, MAX_BLOCKS) < TWO32
      requires At(bs, count) <= buf.Length && blockNum + count <= TWO32
      modifies this, wire, buf
      ensures Valid()
      ensures ReadCame(old(wire.dev), wire.dev, wire.mps, old(Status(csw, (tag + 1) % TWO32)), blockNum, count,
                       old(buf[..]), buf[..], r)
      ensures r == Done ==> tag == TagAfter(old(tag), count)
    {
      TagStart(tag);
      hide Sound, Idle, Wf, Same, At, ReadHere, Fits, ReadCame, Steady, TagAfter;
      ghost var d, was, at := wire.dev, buf[..], Status(csw, (tag + 1) % TWO32);
      ReadBegins(d, wire.mps, at, blockNum, count, was);
      var done := 0;
      while done < count
        invariant Valid() && done <= count && (done == 0 ==> at == Status(csw, (tag + 1) % TWO32))
        invariant ReadHere(d, wire.dev, wire.mps, at, blockNum, done, count, was, buf[..])
        invariant (done == count || done % 64 == 0) && tag == TagAfter(old(tag), done)
      {
        var n := Min(count - done, MAX_BLOCKS);
        ReadFits(d, wire.dev, wire.mps, at, blockNum, done, count, was, buf[..]);
        TagNext(old(tag), done, n, count);
        var failed;
        failed, r := ReadNext(d, at, was, blockNum, done, n, count, buf);
        if failed {
          return;
        }
        done := done + n;
      }
      ReadEnds(d, wire.dev, wire.mps, at, blockNum, count, was, buf[..]);
      r := Done;
    }

    /** readblocks: `buf` filled with the blocks from `blockNum`, 64 to a command. The
        first refused command ends it, leaving what came before it in `buf`. */
    method ReadBlocks(blockNum: nat, buf: array<byte>) returns (r: Outcome)
      requires Valid() && Idle(wire.dev) && Wf(wire.dev) && bs == wire.dev.bs && At(bs, MAX_BLOCKS) < TWO32
      requires bs > 0 && blockNum + CountOf(buf.Length, bs) <= TWO32
      modifies this, wire, buf
      ensures Valid()
      ensures ReadCame(old(wire.dev), wire.dev, wire.mps, old(Status(csw, (tag + 1) % TWO32)), blockNum,
                       CountOf(buf.Length, bs), old(buf[..]), buf[..], r)
      ensures r == Done ==> tag == (old(tag) + (CountOf(buf.Length, bs) + 63) / 64) % TWO32
    {
      WholeBlocks(bs, buf.Length);
      hide *;
      ghost var t := tag;
      r := ReadAll(blockNum, CountOf(buf.Length, bs), buf);
      TagIs(t, CountOf(buf.Length, bs));
    }

    /** The same for a write. */
    method WriteNext(ghost d: Dev, blockNum: nat, done: nat, n: nat, ghost count: nat, all: seq<byte>)
      returns (failed: bool, r: Outcome)
      requires Valid() && bs == d.bs && blockNum + count <= TWO32
      requires done < count && n == Min(count - done, MAX_BLOCKS) && At(bs, n) < TWO32
      requires At(bs, done) + At(bs, n) <= |all|
      requires WriteHere(d, wire.dev, wire.mps, blockNum, done, count, all)
      modifies this, wire
      ensures Valid()
      ensures !failed ==> WriteHere(d, wire.dev, wire.mps, blockNum, done + n, count, all)
                          && tag == (old(tag) + 1) % TWO32
      ensures failed ==> WriteCame(d, wire.dev, wire.mps, blockNum, count, all, r) && r != Done
    {
      assert wire.mps > 0;
      hide *;
      ghost var mid := wire.dev;
      FitsPart(bs, wire.mps, count, done);
      WriteReady(d, mid, wire.mps, blockNum, done, count, all);
      var part := all[At(bs, done)..At(bs, done) + At(bs, n)];
      var answer := WritePart(blockNum + done, n, part, Fits(bs, wire.mps, count));
      failed, r := answer != Answered(PASSED), Done;
      ghost var now := wire.dev;
      if answer == Answered(PASSED) {
        WriteTurn(d, mid, now, wire.mps, blockNum, done, count, n, all, part, answer);
      } else {
        r := Failure(answer, blockNum + done);
        WriteStops(d, mid, now, wire.dev, wire.mps, blockNum, done, count, n, all, part, answer, r);
      }
    }

    /** The loop of a write, over what the buffer holds. */
    method WriteAll(blockNum: nat, count: nat, all: seq<byte>) returns (r: Outcome)
      requires Valid() && Idle(wire.dev) && Wf(wire.dev) && bs == wire.dev.bs && At(bs, MAX_BLOCKS) < TWO32
      requires At(bs, count) <= |all| && blockNum + count <= TWO32
      modifies this, wire
      ensures Valid() && WriteCame(old(wire.dev), wire.dev, wire.mps, blockNum, count, all, r)
      ensures r == Done ==> tag == TagAfter(old(tag), count)
    {
      TagStart(tag);
      hide Sound, Idle, Wf, Same, At, WriteHere, WriteCame, TagAfter;
      ghost var d := wire.dev;
      WriteBegins(d, wire.mps, blockNum, count, all);
      var done := 0;
      while done < count
        invariant Valid() && done <= count
        invariant WriteHere(d, wire.dev, wire.mps, blockNum, done, count, all)
        invariant (done == count || done % 64 == 0) && tag == TagAfter(old(tag), done)
      {
        var n := Min(count - done, MAX_BLOCKS);
        PartInside(bs, done, n, count);
        TagNext(old(tag), done, n, count);
        var failed;
        failed, r := WriteNext(d, blockNum, done, n, count, all);
        if failed {
          return;
        }
        done := done + n;
      }
      WriteEnds(d, wire.dev, wire.mps, blockNum, count, all);
      r := Done;
    }

    /** writeblocks: the blocks from `blockNum` written from `buf`, 64 to a command. */
    method WriteBlocks(blockNum: nat, buf: array<byte>) returns (r: Outcome)
      requires Valid() && Idle(wire.dev) && Wf(wire.dev) && bs == wire.dev.bs && At(bs, MAX_BLOCKS) < TWO32
      requires bs > 0 && blockNum + CountOf(buf.Length, bs) <= TWO32
      modifies this, wire
      ensures Valid()
      ensures WriteCame(old(wire.dev), wire.dev, wire.mps, blockNum, CountOf(buf.Length, bs), buf[..], r)
      ensures r == Done ==> tag == (old(tag) + (CountOf(buf.Length, bs) + 63) / 64) % TWO32
    {
      WholeBlocks(bs, buf.Length);
      hide *;
      ghost var t := tag;
      r := WriteAll(blockNum, CountOf(buf.Length, bs), buf[..]);
      TagIs(t, CountOf(buf.Length, bs));
    }
  }

  /** The tag after commands for `blocks` blocks, 64 to a command. */
  ghost function TagAfter(tag: u32, blocks: nat): u32 {
    (tag + (blocks + 63) / 64) % TWO32
  }

  lemma TagStart(tag: u32)
    ensures TagAfter(tag, 0) == tag
  {
  }

  lemma TagIs(tag: u32, blocks: nat)
    ensures TagAfter(tag, blocks) == (tag + (blocks + 63) / 64) % TWO32
  {
  }

  lemma TagNext(tag: u32, done: nat, n: nat, count: nat)
    requires done % 64 == 0 && done < count && n == Min(count - done, MAX_BLOCKS)
    ensures TagAfter(tag, done + n) == (TagAfter(tag, done) + 1) % TWO32
    ensures done + n == count || (done + n) % 64 == 0
  {
    var k := done / 64;
    OneMore(done, n, k);
    OneOn(tag + k);
    hide Min;
    assert (tag + k) + 1 == tag + (k + 1);
  }

  lemma OneMore(done: nat, n: nat, k: nat)
    requires done == k * 64 && 0 < n <= 64
    ensures (done + 63) / 64 == k && (done + n + 63) / 64 == k + 1
  {
  }

  lemma OneOn(n: nat)
    ensures (n + 1) % TWO32 == (n % TWO32 + 1) % TWO32
  {
  }

  method CopyInto(buf: array<byte>, at: nat, data: seq<byte>)
    requires at + |data| <= buf.Length
    modifies buf
    ensures buf[..] == Overwrite(old(buf[..]), at, data)
  {
    forall i | 0 <= i < |data| {
      buf[at + i] := data[i];
    }
  }

  /** The same drive, with the medium where it was, ready for the next command. */
  ghost predicate Same(d: Dev, d': Dev) {
    Idle(d') && SameDrive(d, d') && d'.ejected == d.ejected
  }

  /** A command for `n` blocks is moved in one host transfer, through however many of
      the device's: at most one, or whole packets each. */
  predicate Fits(bs: nat, mps: nat, n: nat)
    requires mps > 0
  {
    n <= CHUNK_BLOCKS || !Short(At(bs, CHUNK_BLOCKS), mps)
  }

  /** A transfer too long for its chunks is one command's, the first's. */
  lemma FitsPart(bs: nat, mps: nat, count: nat, done: nat)
    requires mps > 0 && done <= count
    ensures Fits(bs, mps, count) ==> Fits(bs, mps, Min(count - done, MAX_BLOCKS))
    ensures !Fits(bs, mps, count) && done == 0 ==> !Fits(bs, mps, Min(count, MAX_BLOCKS))
    ensures done < count ==> 0 < Min(count - done, MAX_BLOCKS) <= MAX_BLOCKS
  {
    hide At;
  }

  /** Where it does not fit, a packet holds a status. */
  lemma PacketHoldsStatus(bs: nat, mps: nat, n: nat)
    requires BulkPacket(mps) && !Fits(bs, mps, n) && bs > 0
    ensures mps >= CSW_LEN
  {
    assert At(bs, CHUNK_BLOCKS) == 8 * bs;
  }

  /** The host can send a command, or the device will not take one. */
  ghost predicate Steady(d: Dev, bs: nat) {
    (Idle(d) && Wf(d) && d.bs == bs) || d.outX.OutNone?
  }

  lemma IdleTook(d: Dev, taken: nat)
    requires Sound(d) && taken <= Outstanding(d)
    ensures Idle(d) ==> taken == 0
  {
    SoundInv(d);
    hide Sound;
  }

  lemma SteadyTook(d: Dev, taken: nat, bs: nat)
    requires Sound(d) && taken <= Outstanding(d) && Steady(d, bs)
    ensures !d.outX.OutNone? ==> taken == 0 && Idle(d) && Wf(d) && d.bs == bs
  {
    IdleTook(d, taken);
    hide Sound, Wf;
  }

  /** The host's status buffer as a command finds it, and the command's tag. */
  datatype Status = Status(csw: seq<byte>, tag: u32)

  /** A block is taken for a status: what stands in its place, over what the host's
      buffer had, has the signature, the tag and a status of 0. */
  ghost predicate TakenForStatus(d: Dev, at: Status, block: nat, n: nat)
    requires Wf(d) && n > CHUNK_BLOCKS && block + n <= d.blocks
  {
    |at.csw| == CSW_LEN && Verdict(Overwrite(at.csw, 0, InStatusPlace(d, block, n)), at.tag) == PASSED
  }

  /** One read command: the blocks if it is in range; refused, its status if it was
      for at most a chunk, and else no status. */
  ghost predicate PartRead(d: Dev, d': Dev, block: nat, n: nat, data: seq<byte>, answer: Answer)
    requires Wf(d)
  {
    var refusal := Refusal(d, READ_10, block, n);
    && |data| <= At(d.bs, n)
    && (refusal == (0, 0) ==>
          && answer == Answered(PASSED) && Same(d, d') && d'.disk == d.disk
          && block + n <= d.blocks && data == Range(d, block, block + n))
    && (refusal != (0, 0) && n <= CHUNK_BLOCKS ==>
          answer == Answered(FAILED) && Same(d, d') && d'.disk == d.disk && d'.sense == refusal)
    && (refusal != (0, 0) && n > CHUNK_BLOCKS ==> answer == TimedOut || answer == Answered(PHASE_ERROR))
  }

  /** Or of chunks it does not fit: only the first of them, and what of the second is
      taken for a status; but refused, its status. */
  ghost predicate PartCut(d: Dev, d': Dev, at: Status, block: nat, n: nat, data: seq<byte>, answer: Answer)
    requires Wf(d) && n > CHUNK_BLOCKS
  {
    var refusal := Refusal(d, READ_10, block, n);
    && (refusal == (0, 0) ==>
          && block + n <= d.blocks && data == Range(d, block, block + CHUNK_BLOCKS) && d'.outX.OutNone?
          && answer.Answered? && (answer == Answered(PASSED) <==> TakenForStatus(d, at, block, n)))
    && (refusal != (0, 0) ==>
          answer == Answered(FAILED) && Same(d, d') && d'.disk == d.disk && d'.sense == refusal)
  }

  ghost predicate PartGot(d: Dev, d': Dev, mps: nat, csw: seq<byte>, tag: u32, block: nat, n: nat, data: seq<byte>,
                          answer: Answer)
    requires mps > 0
  {
    if d.outX.OutNone? then answer == TimedOut && data == [] && d' == d
    else Wf(d) && if Fits(d.bs, mps, n) then PartRead(d, d', block, n, data, answer)
                  else PartCut(d, d', Status(csw, tag), block, n, data, answer)
  }

  /** What a command that did not pass makes of the loop. */
  ghost predicate EndedBy(d: Dev, d': Dev, answer: Answer, block: nat, r: Outcome) {
    if answer.TimedOut? || answer == Answered(PHASE_ERROR) || d.outX.OutNone? then r == Raised(block)
    else Idle(d) ==> Same(d, d') && d'.disk == d.disk && r == Failed(block, d.sense.0 as int % 16, d.sense.1)
  }

  /** A device that waits for no command gets none. */
  lemma Stuck(d: Dev, taken: nat, mps: nat, tag: u32, lun: byte, csw: seq<byte>, cb: seq<byte>, ask: Ask)
    requires Sound(d) && mps > 0 && taken <= Outstanding(d) && |csw| == CSW_LEN && |cb| <= 16 && Length(ask) < TWO32
    ensures d.outX.OutNone? ==> CommandOf(d, taken, mps, tag, lun, csw, cb, ask) == Reply(d, taken, csw, [], TimedOut)
  {
    assert |Cbw(tag, lun, cb, ask)| == CBW_LEN;
    hide Sound, Cbw, WritePipe, ReadPipe, Move, Overwrite, Verdict;
  }

  lemma SameAsItself(d: Dev)
    requires Idle(d)
    ensures Same(d, d)
  {
    hide Idle;
  }

  lemma SameIs(d: Dev, d': Dev)
    requires Same(d, d') && Wf(d) && d'.disk == d.disk
    ensures Idle(d') && Wf(d') && Sound(d') && d'.bs == d.bs && d'.blocks == d.blocks && d'.ejected == d.ejected
  {
  }

  lemma CapacityCame(d: Dev, mid: Dev, mps: nat, tag: u32, lun: byte, csw: seq<byte>, status: byte)
    requires Same(d, mid) && Sound(mid) && mps > 0 && |csw| == CSW_LEN
    requires var r := CommandOf(mid, 0, mps, tag, lun, csw, CapacityBlock(), Inward(8));
             Came(mid, r, tag, 0, status) && r.dev.ejected == mid.ejected
    ensures Same(d, CommandOf(mid, 0, mps, tag, lun, csw, CapacityBlock(), Inward(8)).dev)
  {
    hide Sound, Idle, CommandOf, PackCsw, CapacityBlock;
  }

  lemma ReadPartIs(d: Dev, taken: nat, mps: nat, tag: u32, lun: byte, csw: seq<byte>, lba: u32, n: nat, bs: nat)
    requires Sound(d) && Steady(d, bs) && BulkPacket(mps) && |csw| == CSW_LEN && 0 < n <= MAX_BLOCKS
             && At(bs, n) < TWO32
    requires taken <= Outstanding(d) && (!d.outX.OutNone? ==> taken == 0 && Idle(d) && Wf(d) && d.bs == bs)
    ensures var r := CommandOf(d, taken, mps, tag, lun, csw, BlockCommand(READ_10, lba, n), Inward(At(bs, n)));
            |r.data| <= At(bs, n) && PartGot(d, r.dev, mps, csw, tag, lba, n, r.data, r.answer)
  {
    hide Sound, Idle, Wf, CommandOf, BlockCommand, At, Fits, Outstanding, PartRead, PartCut, Steady;
    if d.outX.OutNone? {
      Stuck(d, taken, mps, tag, lun, csw, BlockCommand(READ_10, lba, n), Inward(At(bs, n)));
    } else {
      CommandReads(d, 0, mps, tag, lun, csw, BlockCommand(READ_10, lba, n), At(d.bs, n));
      if Fits(d.bs, mps, n) {
        PartReadIs(d, mps, tag, lun, csw, lba, n);
      } else {
        PartCutIs(d, mps, tag, lun, csw, lba, n);
      }
    }
  }

  lemma PartReadIs(d: Dev, mps: nat, tag: u32, lun: byte, csw: seq<byte>, lba: u32, n: nat)
    requires Idle(d) && Wf(d) && mps > 0 && |csw| == CSW_LEN && 0 < n <= MAX_BLOCKS && At(d.bs, n) < TWO32
    requires Fits(d.bs, mps, n)
    ensures var r := ReadOf(d, mps, tag, lun, csw, lba, n);
            PartRead(d, r.dev, lba, n, r.data, r.answer)
  {
    CommandReads(d, 0, mps, tag, lun, csw, BlockCommand(READ_10, lba, n), At(d.bs, n));
    if Refusal(d, READ_10, lba, n) == (0, 0) {
      ReadCommand(d, mps, tag, lun, csw, lba, n);
    } else if n <= CHUNK_BLOCKS {
      RefusedRead(d, mps, tag, lun, csw, lba, n);
    } else {
      RefusedReadLosesStatus(d, mps, tag, lun, csw, lba, n);
    }
    hide Sound, Idle, Wf, CommandOf, Range, BlockCommand, At, PackCsw, Short, RoundUp;
  }

  lemma PartCutIs(d: Dev, mps: nat, tag: u32, lun: byte, csw: seq<byte>, lba: u32, n: nat)
    requires Idle(d) && Wf(d) && BulkPacket(mps) && |csw| == CSW_LEN && 0 < n <= MAX_BLOCKS && At(d.bs, n) < TWO32
    requires !Fits(d.bs, mps, n)
    ensures var r := ReadOf(d, mps, tag, lun, csw, lba, n);
            n > CHUNK_BLOCKS && PartCut(d, r.dev, Status(csw, tag), lba, n, r.data, r.answer)
  {
    assert d.bs > 0;
    hide Sound, Idle, Wf, CommandOf, Range, BlockCommand, At, PackCsw, Short, Overwrite, Verdict, InStatusPlace;
    hide PartCut;
    PacketHoldsStatus(d.bs, mps, n);
    if Refusal(d, READ_10, lba, n) == (0, 0) {
      CutRead(d, mps, tag, lun, csw, lba, n);
      CutIs(d, ReadOf(d, mps, tag, lun, csw, lba, n), Status(csw, tag), lba, n);
    } else {
      RefusedRead(d, mps, tag, lun, csw, lba, n);
      CutRefused(d, ReadOf(d, mps, tag, lun, csw, lba, n), Status(csw, tag), lba, n);
    }
  }

  lemma CutIs(d: Dev, r: Reply, at: Status, lba: nat, n: nat)
    requires Wf(d) && CHUNK_BLOCKS < n && lba + n <= d.blocks && Refusal(d, READ_10, lba, n) == (0, 0)
             && |at.csw| == CSW_LEN
    requires r.data == Range(d, lba, lba + CHUNK_BLOCKS) && r.dev.outX.OutNone?
    requires r.answer == Answered(Verdict(Overwrite(at.csw, 0, InStatusPlace(d, lba, n)), at.tag))
    ensures PartCut(d, r.dev, at, lba, n, r.data, r.answer)
  {
    hide Wf, Range, Overwrite, Verdict, InStatusPlace;
  }

  lemma CutRefused(d: Dev, r: Reply, at: Status, lba: nat, n: nat)
    requires Wf(d) && CHUNK_BLOCKS < n && Refusal(d, READ_10, lba, n) != (0, 0) && r.answer == Answered(FAILED)
    requires Idle(r.dev) && SameDrive(d, r.dev) && r.dev.disk == d.disk && r.dev.ejected == d.ejected
    requires r.dev.sense == Refusal(d, READ_10, lba, n)
    ensures PartCut(d, r.dev, at, lba, n, r.data, r.answer)
  {
    hide Wf, Idle, Range, TakenForStatus;
  }

  lemma CommandReads(d: Dev, taken: nat, mps: nat, tag: u32, lun: byte, csw: seq<byte>, cb: seq<byte>, len: nat)
    requires Sound(d) && mps > 0 && taken <= Outstanding(d) && |csw| == CSW_LEN && |cb| <= 16 && len < TWO32
    ensures |CommandOf(d, taken, mps, tag, lun, csw, cb, Inward(len)).data| <= len
  {
    hide Sound, WritePipe, ReadPipe, PackCbw, Overwrite, Get32, Verdict;
  }

  /** One write command: its bytes are on the disk, or it is refused and the disk is
      as it was. */
  ghost predicate PartWritten(d: Dev, d': Dev, block: nat, n: nat, data: seq<byte>, answer: Answer) {
    var refusal := Refusal(d, WRITE_10, block, n);
    && Same(d, d')
    && if refusal == (0, 0)
       then answer == Answered(PASSED) && At(d.bs, block) + |data| <= |d.disk|
            && d'.disk == Overwrite(d.disk, At(d.bs, block), data)
       else answer == Answered(FAILED) && d'.disk == d.disk && d'.sense == refusal
  }

  lemma WritePartIs(d: Dev, mps: nat, tag: u32, lun: byte, csw: seq<byte>, lba: u32, n: nat, data: seq<byte>)
    requires Idle(d) && Wf(d) && mps > 0 && |csw| == CSW_LEN && 0 < n <= MAX_BLOCKS && |data| == At(d.bs, n) < TWO32
    requires Fits(d.bs, mps, n)
    ensures var r := WriteOf(d, mps, tag, lun, csw, lba, n, data);
            PartWritten(d, r.dev, lba, n, data, r.answer)
  {
    if Refusal(d, WRITE_10, lba, n) == (0, 0) {
      WriteCommand(d, mps, tag, lun, csw, lba, n, data);
    } else {
      ChunkOrder(d.bs, n);
      RefusedWrite(d, mps, tag, lun, csw, lba, n, data);
    }
    hide Sound, Idle, Wf, CommandOf, BlockCommand, At, PackCsw, Overwrite, Short;
  }

  lemma SenseIs(d: Dev, mps: nat, tag: u32, lun: byte, csw: seq<byte>)
    requires Sound(d) && Idle(d) && mps > 0 && |csw| == CSW_LEN
    ensures var r := CommandOf(d, 0, mps, tag, lun, csw, SenseCommandBlock(), Inward(SENSE_LEN));
            && r.answer.Answered? && Same(d, r.dev) && r.dev.disk == d.disk && |r.data| == SENSE_LEN
            && var got := Overwrite(Zeros(SENSE_LEN), 0, r.data); got[2] == d.sense.0 && got[12] == d.sense.1
  {
    hide Sound, CommandOf, PackCsw, SenseCommandBlock, Idle, Zeros;
    SenseCommand(d, mps, tag, lun, csw);
    SenseFields(d.sense);
    hide Overwrite, SenseReply;
  }

  lemma SenseFields(sense: (byte, byte))
    ensures var reply := SenseReply(sense);
            |reply| == SENSE_LEN && Overwrite(Zeros(SENSE_LEN), 0, reply) == reply && reply[2] == sense.0
            && reply[12] == sense.1
  {
    assert Overwrite(Zeros(SENSE_LEN), 0, SenseReply(sense)) == SenseReply(sense);
  }

  // ---- whole transfers

  /** The first of the 64-block commands to be refused, from `k` on; `count` if none. */
  ghost function Stops(d: Dev, op: byte, block: nat, count: nat, k: nat): (r: nat)
    requires k <= count
    ensures k <= r <= count
    decreases count - k
  {
    if k == count then count
    else
      var n := Min(count - k, MAX_BLOCKS);
      if Refusal(d, op, block + k, n) != (0, 0) then k else Stops(d, op, block, count, k + n)
  }

  /** None is refused exactly when the whole range would not be. */
  lemma {:induction false} StopsIff(d: Dev, op: byte, block: nat, count: nat, k: nat)
    requires k < count
    ensures Stops(d, op, block, count, k) == count <==> Refusal(d, op, block, count) == (0, 0)
    decreases count - k
  {
    var n := Min(count - k, MAX_BLOCKS);
    if k + n < count {
      StopsIff(d, op, block, count, k + n);
    }
  }

  /** How many blocks a buffer holds whole. */
  function CountOf(len: nat, bs: nat): nat
    requires bs > 0
  {
    len / bs
  }

  /** The blocks from `block`, as many as are asked for, if they are all on the disk. */
  ghost function Upto(d: Dev, block: nat, n: nat): seq<byte>
    requires Wf(d)
  {
    if block + n <= d.blocks then Range(d, block, block + n) else []
  }

  /** How a refused read command ends: with its sense if it was for at most a chunk. */
  ghost function ReadFailure(d: Dev, block: nat, n: nat): Outcome {
    var refusal := Refusal(d, READ_10, block, n);
    if n <= CHUNK_BLOCKS then Failed(block, refusal.0, refusal.1) else Raised(block)
  }

  lemma WholeBlocks(bs: nat, len: nat)
    requires bs > 0
    ensures At(bs, CountOf(len, bs)) <= len
  {
  }

  ghost predicate ReadSoFar(d: Dev, now: Dev, block: nat, done: nat, count: nat, was: seq<byte>, buf: seq<byte>)
  {
    && Wf(d) && done <= count && Same(d, now) && now.disk == d.disk
    && (done > 0 ==> block + done <= d.blocks)
    && Stops(d, READ_10, block, count, 0) == Stops(d, READ_10, block, count, done)
    && |Upto(d, block, done)| == At(d.bs, done) <= At(d.bs, count) <= |was|
    && buf == Overwrite(was, 0, Upto(d, block, done))
  }

  lemma WholeBegins(d: Dev, block: nat, count: nat, was: seq<byte>)
    requires Idle(d) && Wf(d) && At(d.bs, count) <= |was|
    ensures ReadSoFar(d, d, block, 0, count, was, was)
  {
    AtOrder(d.bs, 0, count);
    assert Upto(d, block, 0) == [];
    hide Idle, Upto;
  }

  lemma WholeRoom(d: Dev, now: Dev, block: nat, done: nat, count: nat, was: seq<byte>, buf: seq<byte>)
    requires ReadSoFar(d, now, block, done, count, was, buf) && done < count
    ensures var n := Min(count - done, MAX_BLOCKS);
            && Idle(now) && Wf(now) && now.bs == d.bs && |buf| == |was|
            && At(d.bs, done) + At(d.bs, n) <= |was| && At(d.bs, n) <= At(d.bs, MAX_BLOCKS)
  {
    var n := Min(count - done, MAX_BLOCKS);
    AtSum(d.bs, done, n);
    AtOrder(d.bs, done + n, count);
    AtOrder(d.bs, n, MAX_BLOCKS);
    hide At, Armed, Respects, Heard, Upto, Overwrite;
  }

  /** One command further: its blocks are in. */
  lemma WholeTurn(d: Dev, mid: Dev, now: Dev, block: nat, done: nat, count: nat,
                 was: seq<byte>, buf: seq<byte>, data: seq<byte>, answer: Answer)
    requires ReadSoFar(d, mid, block, done, count, was, buf) && done < count && Wf(mid)
    requires PartRead(mid, now, block + done, Min(count - done, MAX_BLOCKS), data, answer) && answer == Answered(PASSED)
    requires At(d.bs, done) + |data| <= |buf|
    ensures ReadSoFar(d, now, block, done + Min(count - done, MAX_BLOCKS), count, was,
                      Overwrite(buf, At(d.bs, done), data))
  {
    var n := Min(count - done, MAX_BLOCKS);
    hide Idle, Wf, At, Upto, Stops, Overwrite, Range;
    WholeRoom(d, mid, block, done, count, was, buf);
    assert Refusal(mid, READ_10, block + done, n) == Refusal(d, READ_10, block + done, n) == (0, 0);
    hide Refusal, PartRead;
    ReadGrows(d, mid, now, block, done, count, n, was, buf, data);
  }

  lemma ReadGrows(d: Dev, mid: Dev, now: Dev, block: nat, done: nat, count: nat, n: nat,
                  was: seq<byte>, buf: seq<byte>, data: seq<byte>)
    requires ReadSoFar(d, mid, block, done, count, was, buf) && done < count && n == Min(count - done, MAX_BLOCKS)
             && Wf(mid)
    requires Refusal(d, READ_10, block + done, n) == (0, 0) && Same(mid, now) && now.disk == mid.disk
    requires block + done + n <= mid.blocks && data == Range(mid, block + done, block + done + n)
    requires |buf| == |was| && At(d.bs, done) + |data| <= |buf|
    ensures ReadSoFar(d, now, block, done + n, count, was, Overwrite(buf, At(d.bs, done), data))
  {
    hide Idle, Wf, At, Upto, Stops, Overwrite, Range, Refusal;
    StopsNext(d, READ_10, block, count, done);
    UptoGrows(d, mid, block, done, n);
    AtSum(d.bs, done, n);
    OverwriteTwice(was, 0, Upto(d, block, done), data);
    AtOrder(d.bs, done + n, count);
  }

  /** Or it is the one refused. */
  lemma WholeStops(d: Dev, mid: Dev, now: Dev, block: nat, done: nat, count: nat,
                  was: seq<byte>, buf: seq<byte>, data: seq<byte>, answer: Answer)
    requires ReadSoFar(d, mid, block, done, count, was, buf) && done < count && Wf(mid)
    requires PartRead(mid, now, block + done, Min(count - done, MAX_BLOCKS), data, answer) && answer != Answered(PASSED)
    requires At(d.bs, done) + |data| <= |buf|
    ensures Stops(d, READ_10, block, count, 0) == done && At(d.bs, done) <= At(d.bs, count) <= |was| == |buf|
    ensures Overwrite(buf, At(d.bs, done), data)[..At(d.bs, done)] == Upto(d, block, done)
    ensures Min(count - done, MAX_BLOCKS) > CHUNK_BLOCKS ==> answer == TimedOut || answer == Answered(PHASE_ERROR)
    ensures Min(count - done, MAX_BLOCKS) <= CHUNK_BLOCKS ==>
              && answer == Answered(FAILED) && Same(d, now) && now.disk == d.disk && Idle(now)
              && now.sense == Refusal(d, READ_10, block + done, Min(count - done, MAX_BLOCKS))
  {
    var n := Min(count - done, MAX_BLOCKS);
    hide Idle, Wf, At, Upto, Stops, Overwrite, Range;
    assert Refusal(mid, READ_10, block + done, n) == Refusal(d, READ_10, block + done, n);
    StopsNext(d, READ_10, block, count, done);
    OverwriteAfter(was, Upto(d, block, done), At(d.bs, done), data);
  }

  lemma StopsNext(d: Dev, op: byte, block: nat, count: nat, k: nat)
    requires k < count
    ensures var n := Min(count - k, MAX_BLOCKS);
            Stops(d, op, block, count, k) ==
            if Refusal(d, op, block + k, n) != (0, 0) then k else Stops(d, op, block, count, k + n)
  {
  }

  lemma UptoGrows(d: Dev, mid: Dev, block: nat, done: nat, n: nat)
    requires Wf(d) && Wf(mid) && SameDrive(d, mid) && mid.disk == d.disk && block + done + n <= d.blocks
    ensures Upto(d, block, done + n) == Upto(d, block, done) + Range(mid, block + done, block + done + n)
    ensures |Upto(d, block, done + n)| == At(d.bs, done + n)
  {
    RangeSplit(d, block, block + done, block + done + n);
    NextRange(d, mid, block + done, block + done + n);
    AtSum(d.bs, block, done + n);
    hide Wf, At, Range;
  }

  lemma OverwriteAfter(s: seq<byte>, a: seq<byte>, at: nat, b: seq<byte>)
    requires at == |a| && |a| + |b| <= |s|
    ensures Overwrite(Overwrite(s, 0, a), at, b)[..at] == a
  {
  }

  /** What readblocks promises: the blocks before the first refused command are in
      the buffer; with none refused that is all of them, and the rest of the buffer,
      the disk and the drive are as they were. */
  ghost predicate WholeRead(d: Dev, now: Dev, block: nat, count: nat, was: seq<byte>, buf: seq<byte>, r: Outcome) {
    var k := Stops(d, READ_10, block, count, 0);
    && Wf(d) && At(d.bs, k) <= At(d.bs, count) <= |was| == |buf| && buf[..At(d.bs, k)] == Upto(d, block, k)
    && (k == count ==> r == Done && buf[At(d.bs, k)..] == was[At(d.bs, k)..])
    && (k < count ==> r == ReadFailure(d, block + k, Min(count - k, MAX_BLOCKS)))
    && (!r.Raised? ==> Same(d, now) && now.disk == d.disk)
  }

  lemma WholeEnds(d: Dev, now: Dev, block: nat, count: nat, was: seq<byte>, buf: seq<byte>)
    requires ReadSoFar(d, now, block, count, count, was, buf)
    ensures WholeRead(d, now, block, count, was, buf, Done)
  {
    hide Idle, At, Upto, Wf;
  }

  lemma SoFarWf(d: Dev, now: Dev, block: nat, done: nat, count: nat, was: seq<byte>, buf: seq<byte>)
    requires ReadSoFar(d, now, block, done, count, was, buf)
    ensures Wf(d)
  {
  }

  ghost predicate ReadFailed(d: Dev, now: Dev, block: nat, done: nat, count: nat, was: seq<byte>, buf: seq<byte>,
                             r: Outcome)
    requires Wf(d)
  {
    && done < count && Stops(d, READ_10, block, count, 0) == done
    && At(d.bs, done) <= At(d.bs, count) <= |was| == |buf|
    && buf[..At(d.bs, done)] == Upto(d, block, done)
    && r == ReadFailure(d, block + done, Min(count - done, MAX_BLOCKS))
    && (r.Failed? ==> Same(d, now) && now.disk == d.disk)
  }

  lemma FailureIs(d: Dev, mid: Dev, now: Dev, block: nat, done: nat, count: nat, was: seq<byte>, buf: seq<byte>,
                  r: Outcome)
    requires Wf(d) && done < count && Stops(d, READ_10, block, count, 0) == done
    requires At(d.bs, done) <= At(d.bs, count) <= |was| == |buf| && buf[..At(d.bs, done)] == Upto(d, block, done)
    requires var n := Min(count - done, MAX_BLOCKS);
             if n > CHUNK_BLOCKS then r == Raised(block + done)
             else Same(d, mid) && mid.disk == d.disk && Same(mid, now) && now.disk == mid.disk
                  && mid.sense == Refusal(d, READ_10, block + done, n)
                  && r == Failed(block + done, mid.sense.0 as int % 16, mid.sense.1)
    ensures ReadFailed(d, now, block, done, count, was, buf, r)
  {
    hide Idle, Wf, At, Upto, Stops;
  }

  lemma ReadFailedIs(d: Dev, now: Dev, block: nat, done: nat, count: nat, was: seq<byte>, buf: seq<byte>, r: Outcome)
    requires Wf(d) && ReadFailed(d, now, block, done, count, was, buf, r)
    ensures WholeRead(d, now, block, count, was, buf, r)
  {
    hide Same, Wf, At, Upto, Stops;
  }

  // ---- the books of a write

  ghost function Written(d: Dev, block: nat, data: seq<byte>): seq<byte> {
    if At(d.bs, block) + |data| <= |d.disk| then Overwrite(d.disk, At(d.bs, block), data) else d.disk
  }

  ghost predicate WriteSoFar(d: Dev, now: Dev, block: nat, done: nat, count: nat, all: seq<byte>) {
    && Wf(d) && done <= count && Same(d, now)
    && (done > 0 ==> block + done <= d.blocks)
    && Stops(d, WRITE_10, block, count, 0) == Stops(d, WRITE_10, block, count, done)
    && At(d.bs, done) <= At(d.bs, count) <= |all|
    && now.disk == Written(d, block, all[..At(d.bs, done)])
  }

  /** What writeblocks promises: the blocks before the first refused command are
      written, and nothing else on the disk has changed. */
  ghost predicate AllWritten(d: Dev, now: Dev, block: nat, count: nat, all: seq<byte>, r: Outcome) {
    var k := Stops(d, WRITE_10, block, count, 0);
    && Same(d, now) && At(d.bs, k) <= |all| && now.disk == Written(d, block, all[..At(d.bs, k)])
    && r == if k == count then Done
            else var refusal := Refusal(d, WRITE_10, block + k, Min(count - k, MAX_BLOCKS));
                 Failed(block + k, refusal.0, refusal.1)
  }

  lemma AllBegins(d: Dev, block: nat, count: nat, all: seq<byte>)
    requires Idle(d) && Wf(d) && At(d.bs, count) <= |all|
    ensures WriteSoFar(d, d, block, 0, count, all)
  {
    AtOrder(d.bs, 0, count);
    assert Written(d, block, all[..0]) == d.disk;
    hide Idle;
  }

  lemma AllRoom(d: Dev, now: Dev, block: nat, done: nat, count: nat, all: seq<byte>)
    requires WriteSoFar(d, now, block, done, count, all) && done < count
    ensures var n := Min(count - done, MAX_BLOCKS);
            && Idle(now) && Wf(now) && now.bs == d.bs
            && At(d.bs, done) + At(d.bs, n) <= |all| && At(d.bs, n) <= At(d.bs, MAX_BLOCKS)
  {
    var n := Min(count - done, MAX_BLOCKS);
    AtSum(d.bs, done, n);
    AtOrder(d.bs, done + n, count);
    AtOrder(d.bs, n, MAX_BLOCKS);
    hide At, Armed, Respects, Heard, Overwrite;
  }

  lemma AllTurn(d: Dev, mid: Dev, now: Dev, block: nat, done: nat, count: nat, n: nat,
                  all: seq<byte>, part: seq<byte>, answer: Answer)
    requires WriteSoFar(d, mid, block, done, count, all) && done < count && n == Min(count - done, MAX_BLOCKS)
    requires PartWritten(mid, now, block + done, n, part, answer) && answer == Answered(PASSED)
    requires At(d.bs, done) + At(d.bs, n) <= |all| && part == all[At(d.bs, done)..At(d.bs, done) + At(d.bs, n)]
    ensures WriteSoFar(d, now, block, done + n, count, all)
  {
    hide Idle, Wf, At, Stops, Overwrite, Written;
    assert Refusal(mid, WRITE_10, block + done, n) == Refusal(d, WRITE_10, block + done, n) == (0, 0);
    assert block + done + n <= d.blocks;
    hide Refusal, Same;
    StopsNext(d, WRITE_10, block, count, done);
    AtOrder(d.bs, done + n, count);
    WrittenMore(d, block, done, n, all);
  }

  /** A part written behind those before it. */
  lemma WrittenMore(d: Dev, block: nat, done: nat, n: nat, all: seq<byte>)
    requires Wf(d) && block + done + n <= d.blocks && At(d.bs, done) + At(d.bs, n) <= |all|
    ensures var disk := Written(d, block, all[..At(d.bs, done)]);
            var part := all[At(d.bs, done)..At(d.bs, done) + At(d.bs, n)];
            && At(d.bs, done + n) <= |all| && At(d.bs, block + done) + |part| <= |disk|
            && Overwrite(disk, At(d.bs, block + done), part) == Written(d, block, all[..At(d.bs, done + n)])
  {
    InDisk(d, block + done + n);
    AtSum(d.bs, done, n);
    AtSum(d.bs, block, done);
    AtSum(d.bs, block + done, n);
    hide Wf, At, Overwrite;
    NextSlice(all, At(d.bs, done), At(d.bs, n));
    OverwriteTwice(d.disk, At(d.bs, block), all[..At(d.bs, done)], all[At(d.bs, done)..At(d.bs, done) + At(d.bs, n)]);
  }

  lemma NextSlice(all: seq<byte>, from: nat, n: nat)
    requires from + n <= |all|
    ensures all[..from] + all[from..from + n] == all[..from + n]
  {
  }

  lemma InDisk(d: Dev, n: nat)
    requires Wf(d) && n <= d.blocks
    ensures At(d.bs, n) <= |d.disk|
  {
    AtOrder(d.bs, n, d.blocks);
  }

  lemma AllStops(d: Dev, mid: Dev, refusedAt: Dev, now: Dev, block: nat, done: nat, count: nat, n: nat,
                   all: seq<byte>, part: seq<byte>, answer: Answer, r: Outcome)
    requires WriteSoFar(d, mid, block, done, count, all) && done < count && n == Min(count - done, MAX_BLOCKS)
    requires PartWritten(mid, refusedAt, block + done, n, part, answer) && answer != Answered(PASSED)
    requires Same(refusedAt, now) && now.disk == refusedAt.disk
    requires r == Failed(block + done, refusedAt.sense.0 as int % 16, refusedAt.sense.1)
    ensures AllWritten(d, now, block, count, all, r)
  {
    hide Idle, Wf, At, Stops, Overwrite;
    assert Refusal(mid, WRITE_10, block + done, n) == Refusal(d, WRITE_10, block + done, n);
    StopsNext(d, WRITE_10, block, count, done);
  }

  lemma AllEnds(d: Dev, now: Dev, block: nat, count: nat, all: seq<byte>)
    requires WriteSoFar(d, now, block, count, count, all)
    ensures AllWritten(d, now, block, count, all, Done)
  {
    hide Idle, At, Wf, Overwrite;
  }

  // ---- at every chunk size

  /** The first command is not refused, and a block is taken for its status. */
  ghost predicate Fooled(d: Dev, at: Status, block: nat, count: nat) {
    var n := Min(count, MAX_BLOCKS);
    Wf(d) && n > CHUNK_BLOCKS && Refusal(d, READ_10, block, n) == (0, 0) && TakenForStatus(d, at, block, n)
  }

  /** The buffer with the first chunk in it. */
  ghost function FirstChunkIn(d: Dev, block: nat, was: seq<byte>): seq<byte>
  {
    if Wf(d) && block + CHUNK_BLOCKS <= d.blocks && At(d.bs, CHUNK_BLOCKS) <= |was|
    then Overwrite(was, 0, Range(d, block, block + CHUNK_BLOCKS)) else was
  }

  /** A read after `done` blocks: so far as above; or, of chunks it does not fit, at
      its first command, or past it with a block taken for its status. */
  ghost predicate ReadHere(d: Dev, now: Dev, mps: nat, at: Status, block: nat, done: nat, count: nat,
                           was: seq<byte>, buf: seq<byte>) {
    && mps > 0
    && if Fits(d.bs, mps, count) then ReadSoFar(d, now, block, done, count, was, buf)
       else ReadCut(d, now, at, block, done, count, was, buf)
  }

  ghost predicate ReadCut(d: Dev, now: Dev, at: Status, block: nat, done: nat, count: nat, was: seq<byte>,
                          buf: seq<byte>) {
    && Wf(d) && At(d.bs, count) <= |was| && count > CHUNK_BLOCKS
    && if done == 0 then now == d && buf == was && Idle(d)
       else done == Min(count, MAX_BLOCKS) && now.outX.OutNone? && Fooled(d, at, block, count)
            && buf == FirstChunkIn(d, block, was)
  }

  /** What it comes to: the whole read above; or, of chunks it does not fit, the first
      chunk only, and done only if a block was taken for the status of the only
      command; or the sense of the refusal. */
  ghost predicate ReadCame(d: Dev, now: Dev, mps: nat, at: Status, block: nat, count: nat,
                           was: seq<byte>, buf: seq<byte>, r: Outcome) {
    && mps > 0
    && if Fits(d.bs, mps, count) then WholeRead(d, now, block, count, was, buf, r)
       else CutShort(d, now, at, block, count, was, buf, r)
  }

  ghost predicate CutShort(d: Dev, now: Dev, at: Status, block: nat, count: nat, was: seq<byte>, buf: seq<byte>,
                           r: Outcome) {
    var refusal := Refusal(d, READ_10, block, Min(count, MAX_BLOCKS));
    && Wf(d) && At(d.bs, count) <= |was| == |buf| && count > CHUNK_BLOCKS
    && if refusal == (0, 0)
       then && buf == FirstChunkIn(d, block, was)
            && r == if !Fooled(d, at, block, count) then Raised(block)
                    else if count <= MAX_BLOCKS then Done else Raised(block + MAX_BLOCKS)
       else r == Failed(block, refusal.0, refusal.1) && Same(d, now) && now.disk == d.disk
  }

  /** A part of a range is inside it. */
  lemma PartInside(bs: nat, done: nat, n: nat, count: nat)
    requires done <= count && n == Min(count - done, MAX_BLOCKS)
    ensures At(bs, done) + At(bs, n) <= At(bs, count) && At(bs, n) <= At(bs, MAX_BLOCKS)
  {
    AtSum(bs, done, n);
    AtOrder(bs, done + n, count);
    AtOrder(bs, n, MAX_BLOCKS);
    hide At;
  }

  lemma ReadBegins(d: Dev, mps: nat, at: Status, block: nat, count: nat, was: seq<byte>)
    requires Idle(d) && Wf(d) && At(d.bs, count) <= |was| && mps > 0
    ensures ReadHere(d, d, mps, at, block, 0, count, was, was)
  {
    hide Idle, Wf, At, ReadSoFar, Short;
    WholeBegins(d, block, count, was);
  }

  lemma ReadFits(d: Dev, now: Dev, mps: nat, at: Status, block: nat, done: nat, count: nat, was: seq<byte>,
                 buf: seq<byte>)
    requires ReadHere(d, now, mps, at, block, done, count, was, buf) && done < count
    ensures var n := Min(count - done, MAX_BLOCKS);
            && Steady(now, d.bs) && |buf| == |was|
            && At(d.bs, done) + At(d.bs, n) <= |was| && At(d.bs, n) <= At(d.bs, MAX_BLOCKS)
  {
    PartInside(d.bs, done, Min(count - done, MAX_BLOCKS), count);
    hide Idle, Wf, At, ReadSoFar, Fits, Range, Overwrite, Fooled;
    if Fits(d.bs, mps, count) {
      WholeRoom(d, now, block, done, count, was, buf);
    }
  }

  lemma ReadTurn(d: Dev, mid: Dev, now: Dev, mps: nat, at: Status, place: Status, block: nat, done: nat, count: nat,
                 was: seq<byte>, buf: seq<byte>, data: seq<byte>, answer: Answer)
    requires ReadHere(d, mid, mps, at, block, done, count, was, buf) && done < count && (done == 0 ==> at == place)
    requires PartGot(mid, now, mps, place.csw, place.tag, block + done, Min(count - done, MAX_BLOCKS), data, answer)
    requires answer == Answered(PASSED) && At(d.bs, done) + |data| <= |buf|
    ensures ReadHere(d, now, mps, at, block, done + Min(count - done, MAX_BLOCKS), count, was,
                      Overwrite(buf, At(d.bs, done), data))
  {
    FitsPart(d.bs, mps, count, done);
    if Fits(d.bs, mps, count) {
      SoFarWf(d, mid, block, done, count, was, buf);
      hide Idle, Wf, At, Fits, ReadSoFar, PartRead, Overwrite, Refusal, Range, Same;
      WholeTurn(d, mid, now, block, done, count, was, buf, data, answer);
    } else {
      hide Idle, Wf, At, Fits, PartCut, Overwrite, Refusal, Range, Same;
      CutTurn(d, mid, now, at, block, done, count, was, buf, data, answer);
    }
  }

  lemma CutTurn(d: Dev, mid: Dev, now: Dev, at: Status, block: nat, done: nat, count: nat,
                was: seq<byte>, buf: seq<byte>, data: seq<byte>, answer: Answer)
    requires ReadCut(d, mid, at, block, done, count, was, buf) && done == 0
    requires PartCut(d, now, at, block, Min(count, MAX_BLOCKS), data, answer)
    requires answer == Answered(PASSED) && At(d.bs, 0) + |data| <= |buf|
    ensures ReadCut(d, now, at, block, Min(count, MAX_BLOCKS), count, was, Overwrite(buf, At(d.bs, 0), data))
  {
    AtOrder(d.bs, CHUNK_BLOCKS, count);
    hide Idle, Wf, At, Overwrite, Range, Same, TakenForStatus;
  }

  lemma ReadStops(d: Dev, mid: Dev, stopped: Dev, now: Dev, mps: nat, at: Status, place: Status, block: nat, done: nat,
                  count: nat, was: seq<byte>, buf: seq<byte>, data: seq<byte>, answer: Answer, r: Outcome)
    requires ReadHere(d, mid, mps, at, block, done, count, was, buf) && done < count && (done == 0 ==> at == place)
    requires PartGot(mid, stopped, mps, place.csw, place.tag, block + done, Min(count - done, MAX_BLOCKS), data, answer)
    requires answer != Answered(PASSED) && At(d.bs, done) + |data| <= |buf|
             && EndedBy(stopped, now, answer, block + done, r)
    ensures ReadCame(d, now, mps, at, block, count, was, Overwrite(buf, At(d.bs, done), data), r)
  {
    FitsPart(d.bs, mps, count, done);
    if Fits(d.bs, mps, count) {
      SoFarWf(d, mid, block, done, count, was, buf);
      hide Idle, Wf, At, Fits, ReadSoFar, PartRead, Overwrite, Refusal, Range, Same, WholeRead, EndedBy;
      WholeReadStops(d, mid, stopped, now, block, done, count, was, buf, data, answer, r);
    } else if done == 0 {
      hide Idle, Wf, At, Fits, PartCut, Overwrite, Refusal, Range, Same, CutShort, EndedBy;
      CutReadStops(d, stopped, now, at, block, count, was, data, answer, r);
    } else {
      hide Idle, Wf, Fits, Refusal, Range, Same, TakenForStatus, FirstChunkIn;
      NothingOver(buf, At(d.bs, done));
      FirstChunkSize(d, block, was);
      hide At, Overwrite;
    }
  }

  lemma NothingOver(buf: seq<byte>, at: nat)
    requires at <= |buf|
    ensures Overwrite(buf, at, []) == buf
  {
  }

  lemma FirstChunkSize(d: Dev, block: nat, was: seq<byte>)
    ensures |FirstChunkIn(d, block, was)| == |was|
  {
    if Wf(d) && block + CHUNK_BLOCKS <= d.blocks {
      AtSum(d.bs, block, CHUNK_BLOCKS);
    }
    hide At, Wf;
  }

  lemma WholeReadStops(d: Dev, mid: Dev, stopped: Dev, now: Dev, block: nat, done: nat, count: nat,
                       was: seq<byte>, buf: seq<byte>, data: seq<byte>, answer: Answer, r: Outcome)
    requires ReadSoFar(d, mid, block, done, count, was, buf) && done < count && Wf(mid)
    requires PartRead(mid, stopped, block + done, Min(count - done, MAX_BLOCKS), data, answer)
             && answer != Answered(PASSED)
    requires At(d.bs, done) + |data| <= |buf| && EndedBy(stopped, now, answer, block + done, r)
    ensures WholeRead(d, now, block, count, was, Overwrite(buf, At(d.bs, done), data), r)
  {
    SoFarWf(d, mid, block, done, count, was, buf);
    WholeStops(d, mid, stopped, block, done, count, was, buf, data, answer);
    assert Idle(stopped) ==> !stopped.outX.OutNone?;
    hide Idle, Wf, At, ReadSoFar, Fits, PartRead, Refusal, Range, Same, WholeRead, Upto, Stops;
    FailureIs(d, stopped, now, block, done, count, was, Overwrite(buf, At(d.bs, done), data), r);
    hide Overwrite;
    ReadFailedIs(d, now, block, done, count, was, Overwrite(buf, At(d.bs, done), data), r);
  }

  lemma CutReadStops(d: Dev, stopped: Dev, now: Dev, at: Status, block: nat, count: nat, was: seq<byte>,
                     data: seq<byte>, answer: Answer, r: Outcome)
    requires Wf(d) && At(d.bs, count) <= |was| && count > CHUNK_BLOCKS
    requires PartCut(d, stopped, at, block, Min(count, MAX_BLOCKS), data, answer) && answer != Answered(PASSED)
    requires At(d.bs, 0) + |data| <= |was| && EndedBy(stopped, now, answer, block, r)
    ensures CutShort(d, now, at, block, count, was, Overwrite(was, At(d.bs, 0), data), r)
  {
    AtOrder(d.bs, CHUNK_BLOCKS, count);
    FirstChunkSize(d, block, was);
    assert Same(d, stopped) ==> Idle(stopped) && !stopped.outX.OutNone?;
    hide Idle, Wf, At, Overwrite, Range, TakenForStatus, SameDrive;
  }

  lemma ReadEnds(d: Dev, now: Dev, mps: nat, at: Status, block: nat, count: nat, was: seq<byte>, buf: seq<byte>)
    requires ReadHere(d, now, mps, at, block, count, count, was, buf)
    ensures ReadCame(d, now, mps, at, block, count, was, buf, Done)
  {
    FirstChunkSize(d, block, was);
    hide Idle, Wf, At, ReadSoFar, WholeRead, Fits, TakenForStatus, FirstChunkIn;
    if Fits(d.bs, mps, count) {
      WholeEnds(d, now, block, count, was, buf);
    }
  }

  /** A write likewise; of chunks it does not fit nothing is said. */
  ghost predicate WriteHere(d: Dev, now: Dev, mps: nat, block: nat, done: nat, count: nat, all: seq<byte>) {
    mps > 0 && (Fits(d.bs, mps, count) ==> WriteSoFar(d, now, block, done, count, all))
  }

  ghost predicate WriteCame(d: Dev, now: Dev, mps: nat, block: nat, count: nat, all: seq<byte>, r: Outcome) {
    mps > 0 && (Fits(d.bs, mps, count) ==> AllWritten(d, now, block, count, all, r))
  }

  lemma WriteBegins(d: Dev, mps: nat, block: nat, count: nat, all: seq<byte>)
    requires Idle(d) && Wf(d) && At(d.bs, count) <= |all| && mps > 0
    ensures WriteHere(d, d, mps, block, 0, count, all)
  {
    hide Idle, Wf, At, WriteSoFar;
    AllBegins(d, block, count, all);
  }

  lemma WriteReady(d: Dev, now: Dev, mps: nat, block: nat, done: nat, count: nat, all: seq<byte>)
    requires WriteHere(d, now, mps, block, done, count, all) && done < count
    ensures mps > 0 && (Fits(d.bs, mps, count) ==> Idle(now) && Wf(now) && now.bs == d.bs)
  {
    hide Idle, Wf, At, WriteSoFar, Fits;
    if Fits(d.bs, mps, count) {
      AllRoom(d, now, block, done, count, all);
    }
  }

  lemma WriteTurn(d: Dev, mid: Dev, now: Dev, mps: nat, block: nat, done: nat, count: nat, n: nat,
                  all: seq<byte>, part: seq<byte>, answer: Answer)
    requires WriteHere(d, mid, mps, block, done, count, all) && done < count && n == Min(count - done, MAX_BLOCKS)
    requires Fits(d.bs, mps, count) ==>
               PartWritten(mid, now, block + done, n, part, answer) && answer == Answered(PASSED)
    requires At(d.bs, done) + At(d.bs, n) <= |all| && part == all[At(d.bs, done)..At(d.bs, done) + At(d.bs, n)]
    ensures WriteHere(d, now, mps, block, done + n, count, all)
  {
    FitsPart(d.bs, mps, count, done);
    hide Idle, Wf, At, WriteSoFar, Fits, PartWritten, Refusal, Same;
    if Fits(d.bs, mps, count) {
      AllTurn(d, mid, now, block, done, count, n, all, part, answer);
    }
  }

  lemma WriteStops(d: Dev, mid: Dev, stopped: Dev, now: Dev, mps: nat, block: nat, done: nat, count: nat, n: nat,
                   all: seq<byte>, part: seq<byte>, answer: Answer, r: Outcome)
    requires WriteHere(d, mid, mps, block, done, count, all) && done < count && n == Min(count - done, MAX_BLOCKS)
    requires Fits(d.bs, mps, count) ==> PartWritten(mid, stopped, block + done, n, part, answer)
    requires answer != Answered(PASSED) && EndedBy(stopped, now, answer, block + done, r)
    ensures WriteCame(d, now, mps, block, count, all, r)
  {
    FitsPart(d.bs, mps, count, done);
    if Fits(d.bs, mps, count) {
      assert Idle(stopped) && !stopped.outX.OutNone? && answer == Answered(FAILED);
      hide Idle, Wf, At, WriteSoFar, Fits, Refusal, Same, AllWritten, Overwrite, PartWritten;
      AllStops(d, mid, stopped, now, block, done, count, n, all, part, answer, r);
    }
  }

  lemma WriteEnds(d: Dev, now: Dev, mps: nat, block: nat, count: nat, all: seq<byte>)
    requires WriteHere(d, now, mps, block, count, count, all)
    ensures WriteCame(d, now, mps, block, count, all, Done)
  {
    hide Idle, Wf, WriteSoFar, AllWritten, Fits;
    if Fits(d.bs, mps, count) {
      AllEnds(d, now, block, count, all);
    }
  }

  // ---- in range

  /** readblocks says it is done exactly for a range on the disk with the medium in,
      moved in transfers its chunks fit, or else in one command of which a block was
      taken for the status. Fitting, the buffer has exactly the blocks; taken for the
      status, it has the first eight and nothing of the others. */
  lemma ReadsExactlyTheDisk(d: Dev, now: Dev, mps: nat, at: Status, block: nat, count: nat,
                            was: seq<byte>, buf: seq<byte>, r: Outcome)
    requires ReadCame(d, now, mps, at, block, count, was, buf, r) && count > 0
    ensures r == Done <==> block + count <= d.blocks && !d.ejected
                           && (Fits(d.bs, mps, count) || (count <= MAX_BLOCKS && Fooled(d, at, block, count)))
    ensures r == Done && Fits(d.bs, mps, count) ==>
              buf == Range(d, block, block + count) + was[At(d.bs, count)..] && now.disk == d.disk
    ensures r == Done && !Fits(d.bs, mps, count) ==>
              Wf(d) && block + CHUNK_BLOCKS <= d.blocks && At(d.bs, CHUNK_BLOCKS) < At(d.bs, count) <= |was|
              && buf == Range(d, block, block + CHUNK_BLOCKS) + was[At(d.bs, CHUNK_BLOCKS)..]
  {
    if Fits(d.bs, mps, count) {
      StopsIff(d, READ_10, block, count, 0);
      hide Same, Wf, At, Stops, Range, Fits, Overwrite;
      if r == Done {
        assert buf == buf[..At(d.bs, count)] + buf[At(d.bs, count)..];
      }
    } else if r == Done {
      FirstChunkOver(d, block, count, was);
      hide Same, Wf, At, Range, Fits, Overwrite, TakenForStatus, FirstChunkIn;
    }
  }

  lemma FirstChunkOver(d: Dev, block: nat, count: nat, was: seq<byte>)
    requires Wf(d) && count > CHUNK_BLOCKS && At(d.bs, count) <= |was| && block + count <= d.blocks
    ensures At(d.bs, CHUNK_BLOCKS) < At(d.bs, count)
    ensures FirstChunkIn(d, block, was) == Range(d, block, block + CHUNK_BLOCKS) + was[At(d.bs, CHUNK_BLOCKS)..]
  {
    AtOrder(d.bs, CHUNK_BLOCKS, count);
    AtSum(d.bs, block, CHUNK_BLOCKS);
    hide At, Range;
  }

  /** What it takes, of blocks as long as a status or longer: the ninth begins with a
      status wrapper of the command's tag that says passed. */
  lemma FooledIs(d: Dev, at: Status, block: nat, count: nat)
    requires Wf(d) && CHUNK_BLOCKS < count && d.bs >= CSW_LEN && |at.csw| == CSW_LEN
    requires Refusal(d, READ_10, block, Min(count, MAX_BLOCKS)) == (0, 0)
    ensures block + CHUNK_BLOCKS < d.blocks && |Range(d, block + CHUNK_BLOCKS, block + CHUNK_BLOCKS + 1)| == d.bs
    ensures var ninth := Range(d, block + CHUNK_BLOCKS, block + CHUNK_BLOCKS + 1);
            Fooled(d, at, block, count)
            <==> Get32(ninth, 0) == CSW_SIGNATURE && Get32(ninth, 4) == at.tag && ninth[12] == PASSED
  {
    var n, from := Min(count, MAX_BLOCKS), block + CHUNK_BLOCKS;
    var to := from + Min(n - CHUNK_BLOCKS, CHUNK_BLOCKS);
    AtSum(d.bs, from, 1);
    OneAt(d.bs);
    RangeSplit(d, from, from + 1, to);
    hide Wf, At, Range;
    NinthIs(at.csw, Range(d, from, from + 1), Range(d, from + 1, to), at.tag);
  }

  lemma OneAt(bs: nat)
    ensures At(bs, 1) == bs
  {
  }

  lemma NinthIs(csw: seq<byte>, ninth: seq<byte>, rest: seq<byte>, tag: u32)
    requires |csw| == CSW_LEN <= |ninth|
    ensures var s := (ninth + rest)[..Min(|ninth + rest|, CSW_LEN)];
            Verdict(Overwrite(csw, 0, s), tag) == PASSED
            <==> Get32(ninth, 0) == CSW_SIGNATURE && Get32(ninth, 4) == tag && ninth[12] == PASSED
  {
    var s := (ninth + rest)[..Min(|ninth + rest|, CSW_LEN)];
    assert Overwrite(csw, 0, s) == s == ninth[..CSW_LEN];
  }

  /** writeblocks, of chunks its transfers fit, says it is done exactly if the drive
      would take the blocks, and then exactly those have changed. A protected or absent
      disk is as it was. */
  lemma WritesExactlyThose(d: Dev, now: Dev, mps: nat, block: nat, count: nat, all: seq<byte>, r: Outcome)
    requires WriteCame(d, now, mps, block, count, all, r) && Wf(d) && count > 0 && Fits(d.bs, mps, count)
    ensures r == Done <==> block + count <= d.blocks && !d.ejected && !d.readonly
    ensures r == Done ==> At(d.bs, block) + At(d.bs, count) <= |d.disk| && At(d.bs, count) <= |all|
                          && now.disk == Overwrite(d.disk, At(d.bs, block), all[..At(d.bs, count)])
    ensures d.readonly || d.ejected ==> now.disk == d.disk
  {
    StopsIff(d, WRITE_10, block, count, 0);
    StopsNext(d, WRITE_10, block, count, 0);
    AtSum(d.bs, block, count);
    AtOrder(d.bs, 0, count);
    if r == Done {
      InDisk(d, block + count);
    }
    assert Written(d, block, all[..0]) == d.disk;
    hide Same, Wf, At, Stops, Overwrite, Fits;
  }

  // ---- an instance

  /** A drive of ten 100-byte blocks, up and idle, the ninth beginning with a status
      wrapper for the first command a host makes. */
  function DecoyDisk(): (disk: seq<byte>)
    ensures |disk| == 1000
  {
    Zeros(800) + (PackCsw(1, 0, PASSED) + Zeros(187))
  }

  function Decoy(): Dev {
    Dev(100, 10, DecoyDisk(), false, Zeros(36), true, false, (0, 0),
        0, 0, false, 0, 0, 0, 0, 0, Zeros(800), InNone, WaitingCbw, 0, 0, 0, 0, [Opened])
  }

  lemma DecoyIdle()
    ensures Idle(Decoy()) && Wf(Decoy()) && Sound(Decoy())
  {
    var d := Decoy();
    var f := d.(open := false, outX := OutNone, log := []);
    assert Wf(f) by { hide PackCsw; }
    FreshSound(f);
    StepSound(f, Open);
    hide Sound, PackCsw, Zeros;
    assert [] + [Opened] == [Opened];
    assert Step(f, Open) == d;
  }

  lemma NinthBlock()
    ensures var disk, s := DecoyDisk(), PackCsw(1, 0, PASSED);
            disk[At(100, 8)..At(100, 9)] == s + Zeros(187)[..87] && disk[At(100, 0)..At(100, 8)] == Zeros(800)
  {
    assert At(100, 8) == 800 && At(100, 9) == 900 && At(100, 0) == 0;
    hide PackCsw, At;
  }

  lemma HeldByte()
    ensures DecoyDisk()[800] == 0x55
  {
  }

  lemma WrapperInFront(s: seq<byte>, rest: seq<byte>)
    requires |s| == CSW_LEN
    ensures Get32(s + rest, 0) == Get32(s, 0) && Get32(s + rest, 4) == Get32(s, 4) && (s + rest)[12] == s[12]
  {
  }

  lemma DecoyBlocks()
    ensures var d, s := Decoy(), PackCsw(1, 0, PASSED);
            Wf(d) && Range(d, 0, CHUNK_BLOCKS) == Zeros(800) && Range(d, 8, 9) == s + Zeros(187)[..87]
  {
    DecoyIdle();
    NinthBlock();
    hide PackCsw, Idle, Sound, Zeros, At, Wf, DecoyDisk;
  }

  lemma DecoyFools()
    ensures Fooled(Decoy(), Status(Zeros(CSW_LEN), 1), 0, 9) && !Fits(100, 64, 9)
    ensures Wf(Decoy()) && Range(Decoy(), 0, CHUNK_BLOCKS) == Zeros(800)
  {
    DecoyBlocks();
    DecoySize();
    EightOfAHundred();
    CswRoundTrip(1, 0, PASSED);
    WrapperInFront(PackCsw(1, 0, PASSED), Zeros(187)[..87]);
    hide PackCsw, Get32, Zeros, At, Wf, Decoy, Range, Fooled;
    FooledIs(Decoy(), Status(Zeros(CSW_LEN), 1), 0, 9);
  }

  lemma EightOfAHundred()
    ensures Short(At(100, CHUNK_BLOCKS), 64)
  {
  }

  /** A host's first read of its first nine blocks, over 64-byte packets, is done, and
      the ninth is not in the buffer. */
  lemma DecoyRead(now: Dev, was: seq<byte>, buf: seq<byte>, r: Outcome)
    requires ReadCame(Decoy(), now, 64, Status(Zeros(CSW_LEN), 1), 0, 9, was, buf, r)
    ensures r == Done && |buf| == |was| > 800 && buf[800] == was[800]
  {
    DecoyFools();
    hide Fooled, Fits, Range, Decoy;
    ReadsExactlyTheDisk(Decoy(), now, 64, Status(Zeros(CSW_LEN), 1), 0, 9, was, buf, r);
    DecoySize();
  }

  lemma DecoySize()
    ensures Decoy().bs == 100 && Decoy().blocks == 10 && !Decoy().ejected && Decoy().disk == DecoyDisk()
    ensures At(100, CHUNK_BLOCKS) == 800 && At(100, 9) == 900 && CountOf(900, 100) == 9 && At(100, MAX_BLOCKS) < TWO32
  {
  }

  method BlockTakenForStatus() returns (r: Outcome, read: byte, held: byte)
    ensures r == Done && read == 0 && held == 0x55
  {
    DecoyIdle();
    DecoyFools();
    DecoySize();
    HeldByte();
    hide Idle, Wf, Sound, Decoy, Zeros, Fooled, ReadCame, At, CountOf, Range, PackCsw, DecoyDisk;
    held := Decoy().disk[800];
    var wire := new Wire(64, Decoy());
    var drive := new Drive(wire, 0, 100);
    var buf := new byte[900](_ => 0);
    ghost var was := buf[..];
    r := drive.ReadBlocks(0, buf);
    DecoyRead(wire.dev, was, buf[..], r);
    read := buf[800];
    assert buf[..][800] == was[800];
  }
}
