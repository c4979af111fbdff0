/** MSCInterface and RAMBlockDev as the objects they are: fields updated by the
    callbacks of the transfers, proved to do what MscDevice says. */
module MscInterface {
  import opened Bytes
  import opened BulkOnly
  import D = MscDevice
  import MscWire

  class RAMBlockDev {
    const bs: nat
    const blocks: nat
    var data: seq<byte>

    constructor (count: nat, size: nat)
      ensures bs == size && blocks == count && data == Zeros(D.At(size, count))
    {
      bs, blocks, data := size, count, Zeros(D.At(size, count));
    }

    method ReadBlocks(n: nat, len: nat) returns (out: seq<byte>)
      requires D.At(bs, n) + len <= |data|
      ensures out == data[D.At(bs, n)..D.At(bs, n) + len]
    {
      var start := D.At(bs, n);
      out := data[start..start + len];
    }

    method WriteBlocks(n: nat, src: seq<byte>)
      requires D.At(bs, n) + |src| <= |data|
      modifies this
      ensures data == Overwrite(old(data), D.At(bs, n), src)
    {
      var start := D.At(bs, n);
      data := Overwrite(data, start, src);
    }
  }

  class MSCInterface {
    const bdev: RAMBlockDev
    const readonly: bool
    const inquiry: seq<byte>
    var open: bool
    var ejected: bool
    var sense: (byte, byte)
    var tag: u32
    var dlen: u32
    var dirIn: bool
    var done: nat
    var lba: nat
    var left: nat
    var chunk: nat
    var discardLeft: nat
    var buf: seq<byte>
    var epIn: D.InXfer
    var epOut: D.OutXfer
    var blocksRead: nat
    var blocksWritten: nat
    var commands: nat
    var errors: nat
    ghost var log: seq<D.Note>

    ghost function State(): D.Dev
      reads this, bdev
    {
      D.Dev(bdev.bs, bdev.blocks, bdev.data, readonly, inquiry, open, ejected, sense, tag, dlen, dirIn, done,
            lba, left, chunk, discardLeft, buf, epIn, epOut, blocksRead, blocksWritten, commands, errors, log)
    }

    constructor (dev: RAMBlockDev, ro: bool, answer: seq<byte>)
      requires 0 < dev.bs < TWO32 && 0 < dev.blocks < TWO32 && |dev.data| == D.At(dev.bs, dev.blocks) && |answer| == 36
      ensures bdev == dev && D.Quiet(State()) && D.Inv(State())
      ensures !open && !ejected && log == [] && readonly == ro
    {
      bdev, readonly, inquiry, open, ejected, sense := dev, ro, answer, false, false, (0, 0);
      tag, dlen, dirIn, done, lba, left, chunk, discardLeft := 0, 0, false, 0, 0, 0, 0, 0;
      buf, epIn, epOut := Zeros(D.At(dev.bs, D.CHUNK_BLOCKS)), D.InNone, D.OutNone;
      blocksRead, blocksWritten, commands, errors, log := 0, 0, 0, 0, [];
    }

    // ---- status

    method Status(status: byte)
      modifies `epIn
      ensures State() == D.Status(old(State()), status)
    {
      hide PackCsw;
      var residue := if dlen > done then dlen - done else 0;
      epIn := D.SendingCsw(PackCsw(tag, residue, status));
    }

    method Discard()
      modifies `epOut
      ensures State() == D.Discard(old(State()))
    {
      epOut := D.Receiving(Min(discardLeft, |buf|), D.Refused);
    }

    method Fail(key: byte, asc: byte)
      modifies this
      ensures State() == D.Fail(old(State()), key, asc)
    {
      hide D.Status, D.Discard, Overwrite, Zeros;
      sense := (key, asc);
      errors := errors + 1;
      if dlen > 0 && !dirIn {
        discardLeft := dlen;
        Discard();
      } else if dlen > 0 && dirIn {
        SendZeros();
      } else {
        Status(FAILED);
      }
    }

    /** Zeros for a host that waits for data: what it asked for, at most a buffer. */
    method SendZeros()
      modifies `buf, `left, `epIn
      ensures var n := Min(dlen, |old(buf)|);
              State() == old(State()).(buf := Overwrite(old(buf), 0, Zeros(n)), left := 0,
                                       inX := D.Sending(Zeros(n), D.Refused))
    {
      var n := Min(dlen, |buf|);
      buf := Overwrite(buf, 0, Zeros(n));
      left := 0;
      epIn := D.Sending(Zeros(n), D.Refused);
    }

    // ---- data phases

    method Send(data: seq<byte>)
      modifies `left, `epIn
      ensures State() == D.Send(old(State()), data)
    {
      hide D.Status;
      var n := Min(|data|, dlen);
      if n == 0 {
        Status(PASSED);
        return;
      }
      left := 0;
      epIn := D.Sending(data[..n], D.Data);
    }

    method ReadChunk()
      requires D.Wf(State()) && lba + left <= bdev.blocks
      modifies this
      ensures State() == D.ReadChunk(old(State()))
    {
      ghost var d := State();
      var k := Min(left, D.CHUNK_BLOCKS);
      D.ChunkInDisk(d, k);
      hide D.Wf, D.At, Overwrite;
      var mv := bdev.ReadBlocks(lba, D.At(bdev.bs, k));
      CountRead(k);
      buf := Overwrite(buf, 0, mv);
      epIn := D.Sending(mv, D.Data);
    }

    method CountRead(k: nat)
      requires k <= left
      modifies `lba, `left, `blocksRead, `log
      ensures State() == old(State()).(lba := old(lba) + k, left := old(left) - k, blocksRead := old(blocksRead) + k,
                                       log := old(log) + [D.Touched(old(lba), k, false)])
    {
      log := log + [D.Touched(lba, k, false)];
      lba, left, blocksRead := lba + k, left - k, blocksRead + k;
    }

    method WriteChunkArm()
      modifies `chunk, `epOut
      ensures State() == D.WriteChunkArm(old(State()))
    {
      hide D.At;
      var k := Min(left, D.CHUNK_BLOCKS);
      chunk := k;
      epOut := D.Receiving(D.At(bdev.bs, k), D.Data);
    }

    // ---- commands

    method Blocks(cb: seq<byte>)
      requires D.Wf(State()) && |cb| == 16
      modifies this
      ensures State() == D.Blocks(old(State()), cb)
    {
      hide D.Wf, D.Fail, D.ReadChunk, D.WriteChunkArm, GetBE32, GetBE16;
      var at, count := GetBE32(cb, 2), GetBE16(cb, 7);
      if cb[0] == WRITE_10 && readonly {
        Fail(D.DATA_PROTECT, D.WRITE_PROTECTED);
        return;
      }
      if at + count > bdev.blocks {
        Fail(D.ILLEGAL_REQUEST, D.LBA_OUT_OF_RANGE);
        return;
      }
      ghost var d := State();
      lba, left := at, count;
      SameWf(d, State());
      if cb[0] == WRITE_10 {
        WriteChunkArm();
      } else {
        ReadChunk();
      }
    }

    method Answer(op: byte)
      requires D.Wf(State())
      modifies this
      ensures State() == D.Answer(old(State()), op)
    {
      hide D.Fail, D.Send, BE32;
      var protect: byte := if readonly then 0x80 else 0;
      if op == INQUIRY {
        Send(inquiry);
      } else if op == REQUEST_SENSE {
        var reply := D.SenseReply(sense);
        sense := (0, 0);
        Send(reply);
      } else if op == READ_CAPACITY_10 {
        Send(BE32(bdev.blocks - 1) + BE32(bdev.bs));
      } else if op == READ_FORMAT_CAPACITIES {
        Send(BE32(8) + BE32(bdev.blocks) + BE32(bdev.bs)[0 := 2]);
      } else if op == MODE_SENSE_6 {
        Send([3, 0, protect, 0]);
      } else if op == MODE_SENSE_10 {
        Send([0, 6, 0, protect, 0, 0, 0, 0]);
      } else {
        Fail(D.ILLEGAL_REQUEST, D.INVALID_COMMAND);
      }
    }

    method StartStop(cb: seq<byte>)
      requires |cb| == 16 && cb[0] == START_STOP_UNIT
      modifies `ejected, `log, `epIn
      ensures State() == var d := old(State());
                         D.Status(if D.Ejects(cb) then d.(ejected := true, log := d.log + [D.Ejected]) else d, PASSED)
    {
      hide D.Status, Bit;
      if Bit(cb[4], 2) && !Bit(cb[4], 1) {
        ejected := true;
        log := log + [D.Ejected];
      }
      Status(PASSED);
    }

    method Dispatch(cb: seq<byte>)
      requires D.Wf(State()) && |cb| == 16
      modifies this
      ensures State() == D.Dispatch(old(State()), cb)
      ensures ejected == (old(ejected) || (cb[0] == 0x1B && cb[4] as int / 2 % 2 == 1 && cb[4] as int % 2 == 0))
    {
      MscWire.EjectsExactly(State(), cb);
      hide D.Wf, D.Fail, D.Status, D.Blocks, D.Answer, D.Ejects, MscWire.Tells;
      var op := cb[0];
      if op == START_STOP_UNIT {
        StartStop(cb);
      } else if ejected && op != INQUIRY && op != REQUEST_SENSE {
        Fail(D.NOT_READY, D.MEDIUM_NOT_PRESENT);
      } else if op == TEST_UNIT_READY || op == PREVENT_ALLOW || op == SYNCHRONIZE_CACHE_10 || op == VERIFY_10 {
        Status(PASSED);
      } else if op == READ_10 || op == WRITE_10 {
        Blocks(cb);
      } else {
        Answer(op);
      }
    }

    // ---- completions

    method ArmCbw()
      modifies `epOut
      ensures State() == D.ArmCbw(old(State()))
    {
      if open && epOut.OutNone? {
        epOut := D.WaitingCbw;
      }
    }

    method CbwDone(cbw: seq<byte>)
      requires D.Wf(State())
      modifies this
      ensures State() == D.CbwDone(old(State()), cbw)
    {
      hide D.Wf, D.Dispatch, Get32, D.ArmCbw;
      if |cbw| != CBW_LEN || Get32(cbw, 0) != CBW_SIGNATURE {
        errors := errors + 1;
        ArmCbw();
        return;
      }
      ghost var d := State();
      commands := commands + 1;
      tag, dlen, dirIn := Get32(cbw, 4), Get32(cbw, 8), cbw[12] >= 0x80;
      done := 0;
      log := log + [D.Asked(tag, dlen)];
      SameWf(d, State());
      Dispatch(cbw[15..31]);
    }

    method InDone(n: nat)
      requires D.Wf(State()) && (left > 0 ==> lba + left <= bdev.blocks)
      modifies this
      ensures State() == D.InDone(old(State()), n)
    {
      hide D.Wf, D.ReadChunk, D.Status;
      ghost var d := State();
      done := done + n;
      log := log + [D.Moved(n)];
      SameWf(d, State());
      if left > 0 {
        ReadChunk();
      } else {
        Status(PASSED);
      }
    }

    method FailInDone(n: nat)
      modifies this
      ensures State() == D.FailInDone(old(State()), n)
    {
      hide D.Status;
      done := done + n;
      log := log + [D.Moved(n)];
      Status(FAILED);
    }

    /** The chunk in the buffer put on the disk. */
    method WriteChunk(data: seq<byte>)
      requires D.Wf(State()) && chunk <= Min(left, D.CHUNK_BLOCKS) && lba + left <= bdev.blocks
      requires |data| <= D.At(bdev.bs, chunk)
      modifies this, bdev
      ensures State() == D.WriteChunk(old(State()), data)
    {
      D.ChunkInDisk(State(), chunk);
      hide D.Wf, D.At, Overwrite;
      buf := Overwrite(buf, 0, data);
      bdev.WriteBlocks(lba, buf[..D.At(bdev.bs, chunk)]);
      CountWritten();
    }

    method CountWritten()
      requires chunk <= left
      modifies `lba, `left, `blocksWritten, `log
      ensures State() == old(State()).(lba := old(lba) + chunk, left := old(left) - chunk,
                                       blocksWritten := old(blocksWritten) + chunk,
                                       log := old(log) + [D.Touched(old(lba), chunk, true)])
    {
      log := log + [D.Touched(lba, chunk, true)];
      lba, left, blocksWritten := lba + chunk, left - chunk, blocksWritten + chunk;
    }

    method OutDone(data: seq<byte>)
      requires D.Wf(State()) && chunk <= Min(left, D.CHUNK_BLOCKS) && lba + left <= bdev.blocks
      requires |data| <= D.At(bdev.bs, chunk)
      modifies this, bdev
      ensures State() == D.OutDone(old(State()), data)
    {
      hide D.Wf, D.At, D.WriteChunk, D.WriteChunkArm, D.Status;
      ghost var d := State();
      done := done + |data|;
      log := log + [D.Moved(|data|)];
      SameWf(d, State());
      WriteChunk(data);
      if left > 0 {
        WriteChunkArm();
      } else {
        Status(PASSED);
      }
    }

    method DiscardDone(data: seq<byte>)
      requires |data| <= discardLeft && |data| <= |buf|
      modifies this
      ensures State() == D.DiscardDone(old(State()), data)
    {
      hide D.Discard, D.Status, Overwrite;
      CountDiscarded(data);
      if discardLeft > 0 && |data| > 0 {
        Discard();
      } else {
        Status(FAILED);
      }
    }

    method CountDiscarded(data: seq<byte>)
      requires |data| <= discardLeft && |data| <= |buf|
      modifies `buf, `discardLeft, `done, `log
      ensures State() == old(State()).(discardLeft := old(discardLeft) - |data|, done := old(done) + |data|,
                                       buf := Overwrite(old(buf), 0, data), log := old(log) + [D.Moved(|data|)])
    {
      hide Overwrite;
      buf, log := Overwrite(buf, 0, data), log + [D.Moved(|data|)];
      discardLeft, done := discardLeft - |data|, done + |data|;
    }

    method CswDone(ghost csw: seq<byte>)
      modifies this
      ensures State() == D.CswDone(old(State()), csw)
    {
      log := log + [D.Told(csw)];
      ArmCbw();
    }

    lemma SameWf(d: D.Dev, d': D.Dev)
      requires D.Wf(d) && d'.bs == d.bs && d'.blocks == d.blocks && d'.inquiry == d.inquiry
      requires |d'.disk| == |d.disk| && |d'.buf| == |d.buf|
      ensures D.Wf(d')
    {
    }

    // ---- what the USB stack calls

    /** Up, or up again: the wait is armed whenever nothing is outstanding, so also
        after a transfer died with the interface still open. */
    method OnOpen()
      requires D.Inv(State())
      modifies this
      ensures State() == D.Step(old(State()), D.Open)
    {
      hide D.Wf, D.Armed;
      open := true;
      if epIn.InNone? && epOut.OutNone? {
        log := log + [D.Opened];
        ArmCbw();
      }
    }

    method OnReset()
      requires D.Inv(State())
      modifies this
      ensures State() == D.Step(old(State()), D.Reset)
    {
      hide D.Wf, D.Armed;
      open, epIn, epOut := false, D.InNone, D.OutNone;
      log := log + [D.Lost];
    }

    method Insert()
      requires D.Inv(State())
      modifies this
      ensures State() == D.Step(old(State()), D.Insert)
    {
      hide D.Wf, D.Armed;
      ejected := false;
      log := log + [D.Inserted];
    }

    /** The outstanding inward transfer completes: its slot is free before its
        callback runs. */
    method InCompleted(n: nat)
      requires D.Inv(State())
      modifies this
      ensures State() == D.Step(old(State()), D.Sent(n))
    {
      hide D.InDone, D.FailInDone, D.CswDone;
      var x := epIn;
      ghost var d := State();
      match x
      case InNone =>
      case Sending(data, why) =>
        if n <= |data| {
          epIn := D.InNone;
          SameWf(d, State());
          hide D.Wf;
          if why.Data? {
            InDone(n);
          } else {
            FailInDone(n);
          }
        }
      case SendingCsw(csw) =>
        epIn := D.InNone;
        CswDone(csw);
    }

    method OutCompleted(data: seq<byte>)
      requires D.Inv(State())
      modifies this, bdev
      ensures State() == D.Step(old(State()), D.Got(data))
    {
      hide D.CbwDone, D.OutDone, D.DiscardDone, D.At;
      var x := epOut;
      ghost var d := State();
      match x
      case OutNone =>
      case WaitingCbw =>
        if |data| <= CBW_LEN {
          epOut := D.OutNone;
          SameWf(d, State());
          CbwDone(data);
        }
      case Receiving(len, why) =>
        if |data| <= len {
          epOut := D.OutNone;
          SameWf(d, State());
          if why.Data? {
            OutDone(data);
          } else {
            DiscardDone(data);
          }
        }
    }
  }
}
