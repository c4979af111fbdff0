/** What the mass storage device says and does, byte for byte as Bulk-Only Transport 1.0,
    SPC-2 and SBC-2 number it: the wrappers, what each command is answered with, and
    when the medium is in. */
module MscWire {
  import opened Bytes
  import opened Wire
  import opened BulkOnly
  import opened MscDevice
  import opened MscProtocol

  // ---- wrappers

  lemma CbwBytes(tag: u32, dlen: u32, flags: byte, lun: byte, cb: seq<byte>)
    requires |cb| <= 16
    ensures PackCbw(tag, dlen, flags, lun, cb)
         == [0x55, 0x53, 0x42, 0x43] + Four(tag) + Four(dlen) + [flags, lun, |cb|] + cb + Zeros(16 - |cb|)
  {
    assert LE32(0x43425355) == [0x55, 0x53, 0x42, 0x43];
  }

  lemma CswBytes(tag: u32, residue: u32, status: byte)
    ensures PackCsw(tag, residue, status) == [0x55, 0x53, 0x42, 0x53] + Four(tag) + Four(residue) + [status]
  {
    assert LE32(0x53425355) == [0x55, 0x53, 0x42, 0x53];
  }

  lemma BlockCommandBytes(op: byte, lba: u32, count: nat)
    requires count < 0x1_0000
    ensures BlockCommand(op, lba, count)
         == [op, 0, lba / 0x100_0000, lba / 0x1_0000 % 256, lba / 256 % 256, lba % 256, 0, count / 256, count % 256, 0]
  {
  }

  /** A valid wrapper: 31 bytes that begin with the four of its signature. */
  predicate ValidCbw(data: seq<byte>) {
    |data| == 31 && data[0] == 0x55 && data[1] == 0x53 && data[2] == 0x42 && data[3] == 0x43
  }

  lemma ValidIs(data: seq<byte>)
    ensures IsCbw(data) <==> ValidCbw(data)
  {
  }

  /** The command it starts has its tag and length, lowest byte first, the direction of
      its flags' top bit, and its last 16 bytes. */
  lemma CbwStarts(d: Dev, data: seq<byte>)
    requires Wf(d) && ValidCbw(data)
    ensures var b := Begun(d, data);
            && b.tag == data[4] as int + data[5] as int * 256 + data[6] as int * 0x1_0000 + data[7] as int * 0x100_0000
            && b.dlen
               == data[8] as int + data[9] as int * 256 + data[10] as int * 0x1_0000 + data[11] as int * 0x100_0000
            && (b.dirIn <==> data[12] as int / 128 == 1) && b.done == 0 && b.commands == d.commands + 1
            && Wf(b) && CbwDone(d.(inX := InNone, outX := OutNone), data) == Dispatch(b, data[15..31])
  {
    ValidIs(data);
    BegunIs(d, data);
    WfKept(d, Begun(d, data));
    hide Wf, Dispatch;
  }

  /** Anything else is an error, and the next wrapper is waited for. */
  lemma CbwRefused(d: Dev, data: seq<byte>)
    requires Wf(d) && d.open && !ValidCbw(data)
    ensures CbwDone(d.(inX := InNone, outX := OutNone), data)
            == d.(inX := InNone, outX := WaitingCbw, errors := d.errors + 1)
  {
    ValidIs(data);
    hide Wf, Dispatch, IsCbw;
  }

  // ---- answers

  /** The status wrapper: its tag, what of the announced length did not move, and `status`. */
  ghost predicate Tells(d: Dev, x: Dev, status: byte) {
    x.outX == d.outX
    && x.inX == SendingCsw([0x55, 0x53, 0x42, 0x53] + Four(d.tag)
                           + Four(if d.dlen > d.done then d.dlen - d.done else 0) + [status])
  }

  /** Data, no more of it than was asked for; or if nothing was, the status passed. */
  ghost predicate Answers(d: Dev, x: Dev, data: seq<byte>) {
    if d.dlen == 0 then Tells(d, x, 0)
    else x.inX == Sending(data[..Min(|data|, d.dlen)], Data) && x.left == 0 && x.outX == d.outX
  }

  /** Refused: the reason kept and counted, the data phase taken or filled with zeros. */
  ghost predicate Refuses(d: Dev, x: Dev, key: byte, code: byte) {
    && x.sense == (key, code) && x.errors == d.errors + 1 && x.disk == d.disk
    && if d.dlen == 0 then Tells(d, x, 1)
       else if d.dirIn then x.inX == Sending(Zeros(Min(d.dlen, |d.buf|)), Refused) && x.left == 0 && x.outX == d.outX
       else x.outX == Receiving(Min(d.dlen, |d.buf|), Refused) && x.discardLeft == d.dlen && x.inX == d.inX
  }

  lemma StatusTells(d: Dev, status: byte)
    ensures Tells(d, Status(d, status), status)
  {
    CswBytes(d.tag, Residue(d.dlen, d.done), status);
    hide PackCsw, Four;
  }

  lemma SendAnswers(d: Dev, data: seq<byte>)
    requires data != []
    ensures Answers(d, Send(d, data), data)
  {
    StatusTells(d, 0);
    hide Status, Tells;
  }

  lemma FailRefuses(d: Dev, key: byte, code: byte)
    ensures Refuses(d, Fail(d, key, code), key, code)
  {
    var e := d.(sense := (key, code), errors := d.errors + 1);
    StatusTells(e, 1);
    hide Four, PackCsw, Zeros;
  }

  // ---- commands

  /** Whether a command block takes the medium out: START STOP UNIT with LoEj set and
      Start clear. */
  predicate TakesOut(cb: seq<byte>)
    requires |cb| == 16
  {
    cb[0] == 0x1B && cb[4] as int / 2 % 2 == 1 && cb[4] as int % 2 == 0
  }

  /** Only that command changes whether the medium is in, and it always passes. */
  lemma EjectsExactly(d: Dev, cb: seq<byte>)
    requires Wf(d) && |cb| == 16
    ensures var x := Dispatch(d, cb);
            && (cb[0] == 0x1B ==> Tells(d, x, 0)
                                  && x.ejected == (d.ejected || (cb[4] as int / 2 % 2 == 1 && cb[4] as int % 2 == 0)))
            && (cb[0] != 0x1B ==> x.ejected == d.ejected)
  {
    var e := d.(ejected := true, log := d.log + [Ejected]);
    StatusTells(d, 0);
    StatusTells(e, 0);
    assert Tells(e, Status(e, 0), 0) ==> Tells(d, Status(e, 0), 0) by { hide Four, PackCsw; }
    KeepsMedium(d, cb);
    hide Wf, Tells, PackCsw, Fail, Blocks, Answer;
  }

  lemma FailKeepsMedium(d: Dev, key: byte, code: byte)
    ensures Fail(d, key, code).ejected == d.ejected
  {
    hide PackCsw, Overwrite, Zeros;
  }

  lemma BlocksKeepMedium(d: Dev, cb: seq<byte>)
    requires Wf(d) && |cb| == 16
    ensures Blocks(d, cb).ejected == d.ejected
  {
    FailKeepsMedium(d, DATA_PROTECT, WRITE_PROTECTED);
    FailKeepsMedium(d, ILLEGAL_REQUEST, LBA_OUT_OF_RANGE);
    hide Wf, At, GetBE32, GetBE16, Overwrite, Fail;
  }

  lemma AnswerKeepsMedium(d: Dev, op: byte)
    requires Wf(d)
    ensures Answer(d, op).ejected == d.ejected
  {
    FailKeepsMedium(d, ILLEGAL_REQUEST, INVALID_COMMAND);
    hide Wf, PackCsw, Fail, BE32, FormatReply, SenseReply;
  }

  lemma KeepsMedium(d: Dev, cb: seq<byte>)
    requires Wf(d) && |cb| == 16
    ensures Fail(d, 2, 0x3A).ejected == Blocks(d, cb).ejected == Answer(d, cb[0]).ejected == d.ejected
  {
    hide *;
    FailKeepsMedium(d, 2, 0x3A);
    BlocksKeepMedium(d, cb);
    AnswerKeepsMedium(d, cb[0]);
  }

  /** With the medium out every command but that, INQUIRY and REQUEST SENSE is refused as
      not ready, medium not present; these and TEST UNIT READY, PREVENT ALLOW, SYNCHRONIZE
      CACHE and VERIFY pass without data. */
  lemma PlainCommands(d: Dev, cb: seq<byte>)
    requires Wf(d) && |cb| == 16
    ensures d.ejected && cb[0] !in {0x1B, 0x12, 0x03} ==> Refuses(d, Dispatch(d, cb), 2, 0x3A)
    ensures !d.ejected && cb[0] in {0x00, 0x1E, 0x35, 0x2F} ==> Tells(d, Dispatch(d, cb), 0)
    ensures !d.ejected && cb[0] !in {0x00, 0x03, 0x12, 0x1A, 0x1B, 0x1E, 0x23, 0x25, 0x28, 0x2A, 0x2F, 0x35, 0x5A} ==>
              Refuses(d, Dispatch(d, cb), 5, 0x20)
  {
    FailRefuses(d, 2, 0x3A);
    FailRefuses(d, 5, 0x20);
    StatusTells(d, 0);
    hide Wf, Tells, Refuses, Status, Fail, Blocks, Send;
  }

  /** INQUIRY answers with the drive's 36 bytes; REQUEST SENSE with 18 of fixed format,
      the key in the third and the code in the thirteenth, and forgets them. */
  lemma AboutTheDrive(d: Dev, cb: seq<byte>)
    requires Wf(d) && |cb| == 16
    ensures cb[0] == 0x12 ==> Answers(d, Dispatch(d, cb), d.inquiry) && Dispatch(d, cb).sense == d.sense
    ensures cb[0] == 0x03 ==>
              && Dispatch(d, cb).sense == (0, 0)
              && Answers(d, Dispatch(d, cb),
                         [0x70, 0, d.sense.0, 0, 0, 0, 0, 10, 0, 0, 0, 0, d.sense.1, 0, 0, 0, 0, 0])
  {
    SendAnswers(d, d.inquiry);
    var e := d.(sense := (0, 0));
    SendAnswers(e, SenseReply(d.sense));
    assert Answers(e, Send(e, SenseReply(d.sense)), SenseReply(d.sense))
           ==> Answers(d, Send(e, SenseReply(d.sense)), SenseReply(d.sense)) by { hide Four; }
    hide Wf, Answers, Fail, Blocks;
  }

  lemma HighBytes(n: u32)
    ensures BE32(n) == FourHigh(n)
  {
  }

  lemma FormatBytes(d: Dev)
    requires Wf(d)
    ensures FormatReply(d) == [0, 0, 0, 8] + FourHigh(d.blocks) + [2] + FourHigh(d.bs)[1..]
  {
    HighBytes(8);
    HighBytes(d.blocks);
    HighBytes(d.bs);
    assert FourHigh(8) == [0, 0, 0, 8];
    hide BE32, FourHigh, Wf;
  }

  /** READ CAPACITY answers with the last block and the block size, highest byte first;
      READ FORMAT CAPACITIES with a list of one formatted capacity; MODE SENSE says
      whether the medium is write-protected. */
  lemma AboutTheMedium(d: Dev, cb: seq<byte>)
    requires Wf(d) && |cb| == 16 && !d.ejected
    ensures cb[0] == 0x25 ==> Answers(d, Dispatch(d, cb), FourHigh(d.blocks - 1) + FourHigh(d.bs))
    ensures cb[0] == 0x23 ==>
              Answers(d, Dispatch(d, cb), [0, 0, 0, 8] + FourHigh(d.blocks) + [2] + FourHigh(d.bs)[1..])
    ensures cb[0] == 0x1A ==> Answers(d, Dispatch(d, cb), [3, 0, if d.readonly then 0x80 else 0, 0])
    ensures cb[0] == 0x5A ==> Answers(d, Dispatch(d, cb), [0, 6, 0, if d.readonly then 0x80 else 0, 0, 0, 0, 0])
  {
    HighBytes(d.blocks - 1);
    HighBytes(d.bs);
    FormatBytes(d);
    hide FourHigh, BE32, FormatReply;
    SendAnswers(d, BE32(d.blocks - 1) + BE32(d.bs));
    SendAnswers(d, FormatReply(d));
    SendAnswers(d, [3, 0, ProtectBit(d), 0]);
    SendAnswers(d, [0, 6, 0, ProtectBit(d), 0, 0, 0, 0]);
    hide Wf, Answers, Send, Fail, Blocks;
  }

  function Address(cb: seq<byte>): nat
    requires |cb| == 16
  {
    cb[2] as int * 0x100_0000 + cb[3] as int * 0x1_0000 + cb[4] as int * 256 + cb[5] as int
  }

  function Blocks16(cb: seq<byte>): nat
    requires |cb| == 16
  {
    cb[7] as int * 256 + cb[8] as int
  }

  /** READ(10) and WRITE(10): protected, a write is refused as such; past the last block,
      either as out of range; else the first up to 8 blocks at the address are on their
      way out of the disk, or asked for. */
  lemma BlockCommands(d: Dev, cb: seq<byte>)
    requires Wf(d) && |cb| == 16 && !d.ejected && (cb[0] == 0x28 || cb[0] == 0x2A)
    ensures var x, at, n := Dispatch(d, cb), Address(cb), Blocks16(cb);
            var k := if n < 8 then n else 8;
            if cb[0] == 0x2A && d.readonly then Refuses(d, x, 7, 0x27)
            else if at + n > d.blocks then Refuses(d, x, 5, 0x21)
            else && x.lba == (if cb[0] == 0x28 then at + k else at) && x.left == (if cb[0] == 0x28 then n - k else n)
                 && x.disk == d.disk && At(d.bs, at) <= At(d.bs, at + k) <= |d.disk|
                 && if cb[0] == 0x28 then x.inX == Sending(d.disk[At(d.bs, at)..At(d.bs, at + k)], Data)
                    else x.outX == Receiving(At(d.bs, k), Data)
  {
    FailRefuses(d, 7, 0x27);
    FailRefuses(d, 5, 0x21);
    assert GetBE32(cb, 2) == Address(cb) && GetBE16(cb, 7) == Blocks16(cb);
    if Address(cb) + Blocks16(cb) <= d.blocks {
      var e := d.(lba := Address(cb), left := Blocks16(cb));
      WfKept(d, e);
      ChunkInDisk(e, Min(e.left, 8));
    }
    hide Wf, At, Refuses, Fail, GetBE32, GetBE16, Address, Blocks16;
  }

  lemma AtIs(bs: nat, n: nat)
    ensures At(bs, n) == n * bs
  {
  }

  // ---- the medium, over runs

  /** Whether the medium is out after these events: taken out by the last valid command
      of that kind since the last insert. */
  ghost function TakenOut(d: Dev, es: seq<Event>): bool
    requires Fresh(d)
  {
    if es == [] then false
    else
      var before, e := After(d, es[..|es| - 1]), es[|es| - 1];
      if e.Insert? then false
      else if e.Got? && before.outX.WaitingCbw? && ValidCbw(e.data) && TakesOut(e.data[15..31]) then true
      else TakenOut(d, es[..|es| - 1])
  }

  lemma {:induction false} OutIffTakenOut(d: Dev, es: seq<Event>)
    requires Fresh(d)
    ensures After(d, es).ejected == TakenOut(d, es)
  {
    if es != [] {
      OutIffTakenOut(d, es[..|es| - 1]);
      hide Sound, Fresh, After, TakenOut;
      StepMedium(After(d, es[..|es| - 1]), es[|es| - 1]);
      AfterLast(d, es);
    }
  }

  lemma AfterLast(d: Dev, es: seq<Event>)
    requires Fresh(d) && es != []
    ensures var before, e := After(d, es[..|es| - 1]), es[|es| - 1];
            && Sound(before) && After(d, es) == Step(before, e)
            && TakenOut(d, es) == if e.Insert? then false
                                  else (&& e.Got? && before.outX.WaitingCbw?
                                        && ValidCbw(e.data) && TakesOut(e.data[15..31]))
                                       || TakenOut(d, es[..|es| - 1])
  {
    hide Sound, Fresh, Step;
  }

  lemma StepMedium(d: Dev, e: Event)
    requires Sound(d)
    ensures Step(d, e).ejected == if e.Insert? then false
                                  else d.ejected
                                       || (e.Got? && d.outX.WaitingCbw? && ValidCbw(e.data) && TakesOut(e.data[15..31]))
  {
    if e.Got? && d.outX.WaitingCbw? {
      ValidIs(e.data);
      if IsCbw(e.data) {
        BegunIs(d, e.data);
        WfKept(d, Begun(d, e.data));
        EjectsExactly(Begun(d, e.data), e.data[15..31]);
      }
    }
    hide Wf, Dispatch, Respects, Heard, Armed, Tells, IsCbw;
  }
}
