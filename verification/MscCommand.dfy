/** One command of packages/usb-host-msc/usb/host/msc.py against the device of
    packages/usb-device-msc: what the host gets back, and what the disk is after. */
module MscCommand {
  import opened Bytes
  import opened Wire
  import opened BulkOnly
  import opened MscDevice
  import opened MscProtocol
  import opened MscPipes

  datatype Ask = Nothing | Inward(len: nat) | Outward(data: seq<byte>)

  datatype Answer = Answered(status: byte) | TimedOut

  /** The device after the command and what the host has of its outstanding transfer,
      the host's status buffer, and what it read. */
  datatype Reply = Reply(dev: Dev, taken: nat, csw: seq<byte>, data: seq<byte>, answer: Answer)

  function Length(ask: Ask): nat {
    match ask
    case Nothing => 0
    case Inward(len) => len
    case Outward(data) => |data|
  }

  function Cbw(tag: u32, lun: byte, cb: seq<byte>, ask: Ask): seq<byte>
    requires |cb| <= 16 && Length(ask) < TWO32
  {
    PackCbw(tag, Length(ask), if ask.Inward? then 0x80 else 0, lun, cb)
  }

  /** The data phase, if there is one. */
  function Move(d: Dev, taken: nat, mps: nat, ask: Ask): (p: Pipe)
    requires Sound(d) && mps > 0 && taken <= Outstanding(d)
    ensures Sound(p.dev) && p.taken <= Outstanding(p.dev)
  {
    match ask
    case Nothing => Pipe(d, taken, [], true)
    case Inward(len) => if len == 0 then Pipe(d, taken, [], true) else ReadPipe(d, taken, mps, len)
    case Outward(data) => WritePipe(d, mps, data).(taken := taken)
  }

  /** The status as the host reads it: it must carry the signature and the tag. */
  function Verdict(csw: seq<byte>, tag: u32): byte
    requires |csw| == CSW_LEN
  {
    if Get32(csw, 0) != CSW_SIGNATURE || Get32(csw, 4) != tag then PHASE_ERROR else csw[12]
  }

  /** Its bytes: the signature in the first four, the tag in the next and the status in the
      last; 2 is a phase error. */
  lemma VerdictBytes(csw: seq<byte>, tag: u32)
    requires |csw| == 13
    ensures Verdict(csw, tag)
            == if csw[..4] == [0x55, 0x53, 0x42, 0x53] && Value(csw, 4) == tag then csw[12] else 2
  {
    ValueIs(csw, 0);
    ValueIs(csw, 4);
    assert Value(csw, 0) == 0x53425355 <==> csw[..4] == [0x55, 0x53, 0x42, 0x53];
    hide Get32, Value;
  }

  /** _command: the wrapper out, the data either way, the status in. */
  function CommandOf(d: Dev, taken: nat, mps: nat, tag: u32, lun: byte, csw: seq<byte>, cb: seq<byte>,
                     ask: Ask): (r: Reply)
    requires Sound(d) && mps > 0 && taken <= Outstanding(d) && |csw| == CSW_LEN && |cb| <= 16 && Length(ask) < TWO32
    ensures Sound(r.dev) && r.taken <= Outstanding(r.dev) && |r.csw| == CSW_LEN
  {
    var sent := WritePipe(d, mps, Cbw(tag, lun, cb, ask));
    if !sent.ok then Reply(sent.dev, taken, csw, [], TimedOut)
    else
      var moved := Move(sent.dev, taken, mps, ask);
      if !moved.ok then Reply(moved.dev, moved.taken, csw, moved.data, TimedOut)
      else
        var told := ReadPipe(moved.dev, moved.taken, mps, CSW_LEN);
        if !told.ok then Reply(told.dev, told.taken, csw, moved.data, TimedOut)
        else
          var csw' := Overwrite(csw, 0, told.data);
          Reply(told.dev, told.taken, csw', moved.data, Answered(Verdict(csw', tag)))
  }

  // ---- the wrappers' ways

  /** Up, with nothing under way: the device waits for a command. */
  ghost predicate Idle(d: Dev) {
    Sound(d) && d.outX.WaitingCbw?
  }

  /** The command arrived, before it is dispatched. */
  ghost function Told(d: Dev, tag: u32, ask: Ask): Dev
    requires Length(ask) < TWO32
  {
    d.(commands := d.commands + 1, tag := tag, dlen := Length(ask), dirIn := ask.Inward?, done := 0,
       log := d.log + [Asked(tag, Length(ask))], inX := InNone, outX := OutNone)
  }

  lemma TellingIs(d: Dev, mps: nat, tag: u32, lun: byte, cb: seq<byte>, ask: Ask)
    requires Idle(d) && mps > 0 && |cb| <= 16 && Length(ask) < TWO32
    ensures var e := Told(d, tag, ask);
            && Acting(e)
            && WritePipe(d, mps, Cbw(tag, lun, cb, ask)) == Pipe(Dispatch(e, cb + Zeros(16 - |cb|)), 0, [], true)
  {
    var cbw := Cbw(tag, lun, cb, ask);
    CbwRoundTrip(tag, Length(ask), if ask.Inward? then 0x80 else 0, lun, cb);
    assert Begun(d, cbw) == Told(d, tag, ask);
    StepSound(d, Got(cbw));
    hide IsCbw, PackCbw, Get32, Zeros;
    BegunActing(d, cbw);
    BegunIs(d, cbw);
    hide Acting, Sound, Dispatch;
    assert |cbw| == CBW_LEN;
  }

  lemma HearingIs(d0: Dev, d: Dev, mps: nat, moved: nat, status: byte)
    requires Sound(d) && mps > 0 && Answering(d0, d, moved, status) && d.open
    ensures var p, csw := ReadPipe(d, 0, mps, CSW_LEN), PackCsw(d0.tag, Residue(d0.dlen, moved), status);
            && p.ok && p.data == csw && p.taken == 0 && SameDrive(d0, p.dev) && p.dev.disk == d.disk && Idle(p.dev)
            && p.dev.ejected == d.ejected && p.dev.sense == d.sense
  {
    StepSound(d, Sent(CSW_LEN));
    ReadPipeWhole(d, mps);
    hide PackCsw, Armed, Wf, Heard, Respects, Short, ReadPipe;
  }

  function Padded(cb: seq<byte>): (r: seq<byte>)
    requires |cb| <= 16
    ensures |r| == 16
  {
    cb + Zeros(16 - |cb|)
  }

  /** The device as the command is dispatched, before any of its data moves. */
  ghost function Started(d: Dev, tag: u32, cb: seq<byte>, ask: Ask): (x: Dev)
    requires Idle(d) && |cb| <= 16 && Length(ask) < TWO32
    ensures Sound(x) && Goes(Told(d, tag, ask), x)
  {
    StartedSound(d, tag, cb, ask);
    Dispatch(Told(d, tag, ask), Padded(cb))
  }

  lemma StartedSound(d: Dev, tag: u32, cb: seq<byte>, ask: Ask)
    requires Idle(d) && |cb| <= 16 && Length(ask) < TWO32
    ensures Wf(Told(d, tag, ask)) && Sound(Dispatch(Told(d, tag, ask), Padded(cb)))
    ensures Goes(Told(d, tag, ask), Dispatch(Told(d, tag, ask), Padded(cb))) && d.open
  {
    var e := Told(d, tag, ask);
    TellingIs(d, 64, tag, 0, cb, ask);
    ActingQuiet(e);
    DispatchGoes(e, Padded(cb));
    GoesSound(e, Dispatch(e, Padded(cb)));
  }

  /** The command went through: its status, and the drive idle again. */
  ghost predicate Came(d: Dev, r: Reply, tag: u32, residue: u32, status: byte) {
    && r.answer == Answered(status) && r.csw == PackCsw(tag, residue, status) && r.taken == 0
    && Idle(r.dev) && SameDrive(d, r.dev)
  }

  /** A data phase that ends with the status next is answered by that status. */
  lemma CommandAnswered(d: Dev, mps: nat, tag: u32, lun: byte, csw: seq<byte>, cb: seq<byte>, ask: Ask,
                        moved: nat, status: byte)
    requires Idle(d) && mps > 0 && |csw| == CSW_LEN && |cb| <= 16 && Length(ask) < TWO32
    requires var x := Started(d, tag, cb, ask);
             Move(x, 0, mps, ask).ok && Move(x, 0, mps, ask).taken == 0
             && Answering(x, Move(x, 0, mps, ask).dev, moved, status)
    ensures var x, r := Started(d, tag, cb, ask), CommandOf(d, 0, mps, tag, lun, csw, cb, ask);
            var m := Move(x, 0, mps, ask);
            && Came(d, r, tag, Residue(Length(ask), moved), status)
            && r.data == m.data && r.dev.disk == m.dev.disk && r.dev.ejected == x.ejected && r.dev.sense == x.sense
  {
    StartedSound(d, tag, cb, ask);
    hide PackCsw, Sound, Move, Wf, Armed, ReadPipe, WritePipe, Dispatch, Cbw, Residue, Heard;
    var x := Started(d, tag, cb, ask);
    var m := Move(x, 0, mps, ask);
    TellingIs(d, mps, tag, lun, cb, ask);
    HearingIs(x, m.dev, mps, moved, status);
    VerdictIs(csw, tag, Residue(Length(ask), moved), status);
    CommandUnfolds(d, mps, tag, lun, csw, cb, ask, x);
    hide Overwrite, Verdict, Idle, Padded, CommandOf;
  }

  /** The command's three transfers, each from where the one before left the device. */
  lemma CommandUnfolds(d: Dev, mps: nat, tag: u32, lun: byte, csw: seq<byte>, cb: seq<byte>, ask: Ask, x: Dev)
    requires Sound(d) && Sound(x) && mps > 0 && |csw| == CSW_LEN && |cb| <= 16 && Length(ask) < TWO32
    requires WritePipe(d, mps, Cbw(tag, lun, cb, ask)) == Pipe(x, 0, [], true)
    ensures var r, m := CommandOf(d, 0, mps, tag, lun, csw, cb, ask), Move(x, 0, mps, ask);
            var told := ReadPipe(m.dev, m.taken, mps, CSW_LEN);
            && (!m.ok || !told.ok ==> r.answer == TimedOut && r.data == m.data)
            && (!m.ok ==> r.dev == m.dev)
            && (m.ok && told.ok ==>
                  var csw' := Overwrite(csw, 0, told.data);
                  r == Reply(told.dev, told.taken, csw', m.data, Answered(Verdict(csw', tag))))
  {
    hide Sound, WritePipe, ReadPipe, Cbw, Move, Overwrite, Verdict;
  }

  /** The same from an idle drive: its command started, its data moved, its status read. */
  lemma CommandGoesOn(d: Dev, mps: nat, tag: u32, lun: byte, csw: seq<byte>, cb: seq<byte>, ask: Ask)
    requires Idle(d) && mps > 0 && |csw| == CSW_LEN && |cb| <= 16 && Length(ask) < TWO32
    ensures var r, m := CommandOf(d, 0, mps, tag, lun, csw, cb, ask), Move(Started(d, tag, cb, ask), 0, mps, ask);
            var told := ReadPipe(m.dev, m.taken, mps, CSW_LEN);
            && (!m.ok || !told.ok ==> r.answer == TimedOut && r.data == m.data)
            && (m.ok && told.ok ==>
                  var csw' := Overwrite(csw, 0, told.data);
                  r == Reply(told.dev, told.taken, csw', m.data, Answered(Verdict(csw', tag))))
  {
    TellingIs(d, mps, tag, lun, cb, ask);
    StartedSound(d, tag, cb, ask);
    var x := Started(d, tag, cb, ask);
    hide Sound, Dispatch, Goes, WritePipe, ReadPipe, Cbw, Move, Overwrite, Verdict, CommandOf;
    CommandUnfolds(d, mps, tag, lun, csw, cb, ask, x);
  }

  lemma VerdictIs(csw: seq<byte>, tag: u32, residue: u32, status: byte)
    requires |csw| == CSW_LEN
    ensures var told := PackCsw(tag, residue, status);
            Overwrite(csw, 0, told) == told && Verdict(told, tag) == status
  {
    CswRoundTrip(tag, residue, status);
    hide PackCsw, Get32;
  }

  // ---- reads and writes

  ghost function ReadOf(d: Dev, mps: nat, tag: u32, lun: byte, csw: seq<byte>, lba: u32, n: nat): (r: Reply)
    requires Idle(d) && mps > 0 && |csw| == CSW_LEN && n < 0x1_0000 && At(d.bs, n) < TWO32
    ensures Sound(r.dev)
  {
    CommandOf(d, 0, mps, tag, lun, csw, BlockCommand(READ_10, lba, n), Inward(At(d.bs, n)))
  }

  ghost function WriteOf(d: Dev, mps: nat, tag: u32, lun: byte, csw: seq<byte>, lba: u32, n: nat,
                         data: seq<byte>): (r: Reply)
    requires Idle(d) && mps > 0 && |csw| == CSW_LEN && n < 0x1_0000 && |data| < TWO32
    ensures Sound(r.dev)
  {
    CommandOf(d, 0, mps, tag, lun, csw, BlockCommand(WRITE_10, lba, n), Outward(data))
  }

  lemma StartsBlocks(d: Dev, tag: u32, op: byte, lba: u32, n: nat, ask: Ask)
    requires Idle(d) && n < 0x1_0000 && Length(ask) < TWO32 && !d.ejected && (op == READ_10 || op == WRITE_10)
    ensures var e := Told(d, tag, ask);
            Wf(e) && Started(d, tag, BlockCommand(op, lba, n), ask) ==
            if op == WRITE_10 && d.readonly then Fail(e, DATA_PROTECT, WRITE_PROTECTED)
            else if lba + n > d.blocks then Fail(e, ILLEGAL_REQUEST, LBA_OUT_OF_RANGE)
            else if op == WRITE_10 then WriteChunkArm(e.(lba := lba, left := n))
            else ReadChunk(e.(lba := lba, left := n))
  {
    var cb := BlockCommand(op, lba, n);
    StartedSound(d, tag, cb, ask);
    BlockCommandRoundTrip(op, lba, n);
    assert Padded(cb) == cb + Zeros(6);
    hide BlockCommand, GetBE32, GetBE16, Sound, Wf, Goes, Fail, ReadChunk, WriteChunkArm, Zeros;
  }

  /** The device as it starts to read: the blocks are on their way. */
  lemma ReadStarted(d: Dev, tag: u32, lba: u32, n: nat)
    requires Idle(d) && Wf(d) && !d.ejected && 0 < n < 0x1_0000 && At(d.bs, n) < TWO32 && lba + n <= d.blocks
    ensures var x := Started(d, tag, BlockCommand(READ_10, lba, n), Inward(At(d.bs, n)));
            && Wf(x) && Sound(x) && Reading(x, lba, lba + n) && SameDrive(d, x) && x.disk == d.disk && !x.ejected
            && x.done == 0 && x.dlen == At(d.bs, n) && x.tag == tag && x.lba == lba + Min(n, CHUNK_BLOCKS)
  {
    var ask := Inward(At(d.bs, n));
    StartsBlocks(d, tag, READ_10, lba, n, ask);
    StartsReading(d, Started(d, tag, BlockCommand(READ_10, lba, n), ask), tag, ask, lba, n);
    hide Idle, Sound, Wf, At, Started, BlockCommand, Reading, Goes;
  }

  lemma RangeSize(d: Dev, lba: nat, n: nat)
    requires Wf(d) && n > 0 && lba + n <= d.blocks
    ensures |Range(d, lba, lba + n)| == At(d.bs, n) > 0
  {
    AtSum(d.bs, lba, n);
    ChunkOrder(d.bs, n);
    hide At, Wf, Range;
  }

  /** Its data phase brings all of them. */
  lemma ReadMoves(d: Dev, x: Dev, mps: nat, lba: nat, n: nat)
    requires Wf(d) && Wf(x) && Sound(x) && n > 0 && Reading(x, lba, lba + n) && SameDrive(d, x) && x.disk == d.disk
             && mps > 0
    requires lba + n <= d.blocks && x.done == 0 && x.lba == lba + Min(n, CHUNK_BLOCKS)
    requires n > CHUNK_BLOCKS ==> !Short(At(d.bs, CHUNK_BLOCKS), mps)
    ensures var m := Move(x, 0, mps, Inward(At(d.bs, n)));
            && m.ok && m.taken == 0 && m.data == Range(d, lba, lba + n)
            && Answering(x, m.dev, At(d.bs, n), PASSED) && m.dev.disk == x.disk
  {
    hide Sound, Wf, At, Range, ReadPipe, RoundUp, Short, Answering;
    assert x.left > 0 ==> n > CHUNK_BLOCKS;
    hide Reading;
    RangeSize(d, lba, n);
    NextRange(d, x, lba, lba + n);
    ReadsRange(x, mps, lba, lba + n);
    assert [] + Range(d, lba, lba + n) == Range(d, lba, lba + n);
  }

  /** A read in range returns exactly the disk's blocks, with residue 0. */
  lemma ReadCommand(d: Dev, mps: nat, tag: u32, lun: byte, csw: seq<byte>, lba: u32, n: nat)
    requires Idle(d) && Wf(d) && !d.ejected && mps > 0 && |csw| == CSW_LEN && 0 < n < 0x1_0000 && At(d.bs, n) < TWO32
    requires lba + n <= d.blocks && (n > CHUNK_BLOCKS ==> !Short(At(d.bs, CHUNK_BLOCKS), mps))
    ensures var r := ReadOf(d, mps, tag, lun, csw, lba, n);
            && Came(d, r, tag, 0, PASSED) && r.data == Range(d, lba, lba + n)
            && r.dev.disk == d.disk && !r.dev.ejected
  {
    var ask := Inward(At(d.bs, n));
    hide Idle, Sound, Wf, At, Started, BlockCommand, Reading, PackCsw, Answering, Came, Move, Range, Short, CommandOf;
    ReadStarted(d, tag, lba, n);
    ReadMoves(d, Started(d, tag, BlockCommand(READ_10, lba, n), ask), mps, lba, n);
    CommandAnswered(d, mps, tag, lun, csw, BlockCommand(READ_10, lba, n), ask, At(d.bs, n), PASSED);
  }

  lemma StartsReading(d: Dev, x: Dev, tag: u32, ask: Ask, lba: u32, n: nat)
    requires Idle(d) && !d.ejected && 0 < n && lba + n <= d.blocks && Length(ask) < TWO32
    requires Wf(Told(d, tag, ask)) && Sound(x) && x == ReadChunk(Told(d, tag, ask).(lba := lba, left := n))
    ensures Wf(x) && Reading(x, lba, lba + n) && SameDrive(d, x) && x.disk == d.disk && x.done == 0 && x.left < n
    ensures !x.ejected && x.dlen == Length(ask) && (x.left > 0 ==> n > CHUNK_BLOCKS) && x.tag == tag
  {
    var e := Told(d, tag, ask).(lba := lba, left := n);
    WfKept(d, e);
    ChunkRange(e);
    hide Wf, At, Heard, Respects, Armed, Range;
  }

  lemma StartsWriting(d: Dev, x: Dev, tag: u32, ask: Ask, lba: u32, n: nat)
    requires Idle(d) && 0 < n && lba + n <= d.blocks && Length(ask) < TWO32
    requires Wf(Told(d, tag, ask)) && Sound(x) && x == WriteChunkArm(Told(d, tag, ask).(lba := lba, left := n))
    ensures Inv(x) && Writing(x, lba + n) && SameDrive(d, x) && x.disk == d.disk && x.done == 0 && x.lba == lba
            && x.left == n
    ensures x.ejected == d.ejected && x.dlen == Length(ask) && x.tag == tag
  {
    hide Wf, At, Heard, Respects, Armed;
  }

  /** A write in range puts exactly its bytes on exactly those blocks, with residue 0. */
  lemma WriteCommand(d: Dev, mps: nat, tag: u32, lun: byte, csw: seq<byte>, lba: u32, n: nat, data: seq<byte>)
    requires Idle(d) && Wf(d) && !d.ejected && !d.readonly && mps > 0 && |csw| == CSW_LEN
    requires 0 < n < 0x1_0000 && |data| == At(d.bs, n) < TWO32
    requires lba + n <= d.blocks && (n > CHUNK_BLOCKS ==> !Short(At(d.bs, CHUNK_BLOCKS), mps))
    ensures At(d.bs, lba) + |data| <= |d.disk|
    ensures var r := WriteOf(d, mps, tag, lun, csw, lba, n, data);
            && Came(d, r, tag, 0, PASSED) && !r.dev.ejected
            && r.dev.disk == Overwrite(d.disk, At(d.bs, lba), data)
  {
    var ask := Outward(data);
    var x := Started(d, tag, BlockCommand(WRITE_10, lba, n), ask);
    StartsBlocks(d, tag, WRITE_10, lba, n, ask);
    StartsWriting(d, x, tag, ask, lba, n);
    AtSum(d.bs, lba, n);
    hide Idle, Sound, Wf, Told, At, Started, BlockCommand, Writing, PackCsw, Goes, WriteChunkArm, Overwrite, Inv;
    WritesThrough(x, mps, lba + n, data);
    CommandAnswered(d, mps, tag, lun, csw, BlockCommand(WRITE_10, lba, n), ask, |data|, PASSED);
  }

  // ---- refusals

  /** Why the device refuses a READ(10) or WRITE(10), as sense key and code; (0, 0)
      if it does not. */
  function Refusal(d: Dev, op: byte, lba: nat, n: nat): (byte, byte) {
    if d.ejected then (NOT_READY, MEDIUM_NOT_PRESENT)
    else if op == WRITE_10 && d.readonly then (DATA_PROTECT, WRITE_PROTECTED)
    else if lba + n > d.blocks then (ILLEGAL_REQUEST, LBA_OUT_OF_RANGE)
    else (0, 0)
  }

  lemma StartsRefusal(d: Dev, tag: u32, op: byte, lba: u32, n: nat, ask: Ask)
    requires Idle(d) && n < 0x1_0000 && Length(ask) < TWO32 && (op == READ_10 || op == WRITE_10)
    requires Refusal(d, op, lba, n) != (0, 0)
    ensures var sense := Refusal(d, op, lba, n);
            Started(d, tag, BlockCommand(op, lba, n), ask) == Fail(Told(d, tag, ask), sense.0, sense.1)
  {
    if d.ejected {
      BlockCommandRoundTrip(op, lba, n);
      assert Padded(BlockCommand(op, lba, n)) == BlockCommand(op, lba, n) + Zeros(6);
      hide BlockCommand, Sound, Wf, Goes, Fail, Zeros;
    } else {
      StartsBlocks(d, tag, op, lba, n, ask);
      hide Started, BlockCommand, Fail, Sound, Wf;
    }
  }

  lemma FailsOutward(d: Dev, x: Dev, tag: u32, data: seq<byte>, key: byte, asc: byte)
    requires Idle(d) && 0 < |data| < TWO32 && Sound(x) && x == Fail(Told(d, tag, Outward(data)), key, asc)
    ensures Inv(x) && x.outX.Receiving? && x.outX.what.Refused? && x.discardLeft == |data| && x.disk == d.disk
            && x.done == 0
    ensures x.sense == (key, asc) && x.ejected == d.ejected && x.dlen == |data| && x.tag == tag
            && |x.buf| == At(d.bs, CHUNK_BLOCKS)
  {
    hide Wf, Heard, Respects, Armed;
    BufferOf(d);
  }

  lemma BufferOf(d: Dev)
    requires Wf(d)
    ensures |d.buf| == At(d.bs, CHUNK_BLOCKS) > 0
  {
    BufferHolds(d);
  }

  /** A refused write of any size, in whole-packet chunks if in several, is answered:
      all its data dropped, the disk as it was, and the reason kept for REQUEST SENSE. */
  lemma RefusedWrite(d: Dev, mps: nat, tag: u32, lun: byte, csw: seq<byte>, lba: u32, n: nat, data: seq<byte>)
    requires Idle(d) && Wf(d) && mps > 0 && |csw| == CSW_LEN && n < 0x1_0000 && 0 < |data| < TWO32
    requires Refusal(d, WRITE_10, lba, n) != (0, 0)
    requires |data| > At(d.bs, CHUNK_BLOCKS) ==> !Short(At(d.bs, CHUNK_BLOCKS), mps)
    ensures var r := WriteOf(d, mps, tag, lun, csw, lba, n, data);
            && Came(d, r, tag, 0, FAILED) && r.dev.disk == d.disk && r.dev.ejected == d.ejected
            && r.dev.sense == Refusal(d, WRITE_10, lba, n)
  {
    var ask, sense := Outward(data), Refusal(d, WRITE_10, lba, n);
    var x := Started(d, tag, BlockCommand(WRITE_10, lba, n), ask);
    StartsRefusal(d, tag, WRITE_10, lba, n, ask);
    FailsOutward(d, x, tag, data, sense.0, sense.1);
    hide Idle, Sound, Wf, Told, At, Started, BlockCommand, PackCsw, Goes, Fail, Inv, Refusal;
    DropsThrough(x, mps, data);
    CommandAnswered(d, mps, tag, lun, csw, BlockCommand(WRITE_10, lba, n), ask, |data|, FAILED);
  }

  lemma FailsInward(d: Dev, x: Dev, tag: u32, len: nat, key: byte, asc: byte)
    requires Idle(d) && 0 < len < TWO32 && Sound(x) && x == Fail(Told(d, tag, Inward(len)), key, asc)
    ensures x.inX == Sending(Zeros(Min(len, |x.buf|)), Refused) && x.disk == d.disk && x.done == 0 && x.open
    ensures x.sense == (key, asc) && x.ejected == d.ejected && x.dlen == len && x.tag == tag
            && |x.buf| == At(d.bs, CHUNK_BLOCKS)
  {
    hide Wf, Heard, Respects, Armed, Zeros;
    BufferOf(d);
  }

  /** A refused read gives zeros, at most a buffer of them, and then its status. */
  lemma RefusedRead(d: Dev, mps: nat, tag: u32, lun: byte, csw: seq<byte>, lba: u32, n: nat)
    requires Idle(d) && Wf(d) && mps > 0 && |csw| == CSW_LEN && 0 < n < 0x1_0000 && At(d.bs, n) < TWO32
    requires Refusal(d, READ_10, lba, n) != (0, 0)
    requires n <= CHUNK_BLOCKS || Short(At(d.bs, CHUNK_BLOCKS), mps)
    ensures var r := ReadOf(d, mps, tag, lun, csw, lba, n);
            && Came(d, r, tag, Residue(At(d.bs, n), At(d.bs, CHUNK_BLOCKS)), FAILED)
            && r.dev.disk == d.disk && r.dev.ejected == d.ejected && r.dev.sense == Refusal(d, READ_10, lba, n)
            && r.data == Zeros(Min(At(d.bs, n), At(d.bs, CHUNK_BLOCKS)))
  {
    var ask, sense := Inward(At(d.bs, n)), Refusal(d, READ_10, lba, n);
    var x := Started(d, tag, BlockCommand(READ_10, lba, n), ask);
    StartsRefusal(d, tag, READ_10, lba, n, ask);
    ChunkOrder(d.bs, n);
    FailsInward(d, x, tag, At(d.bs, n), sense.0, sense.1);
    hide Idle, Sound, Wf, Told, At, Started, BlockCommand, PackCsw, Goes, Fail, Inv, Refusal, Answering, Came, Short;
    ZerosRead(x, mps, At(d.bs, n));
    CommandAnswered(d, mps, tag, lun, csw, BlockCommand(READ_10, lba, n), ask, Min(At(d.bs, n), |x.buf|), FAILED);
  }

  lemma ChunkOrder(bs: nat, n: nat)
    requires bs > 0 && n > 0
    ensures At(bs, n) > 0 && (n <= CHUNK_BLOCKS ==> At(bs, n) <= At(bs, CHUNK_BLOCKS))
    ensures n > CHUNK_BLOCKS ==> At(bs, n) > At(bs, CHUNK_BLOCKS)
  {
    AtOrder(bs, 0, n);
    if n <= CHUNK_BLOCKS {
      AtOrder(bs, n, CHUNK_BLOCKS);
    } else {
      AtOrder(bs, CHUNK_BLOCKS, n);
    }
  }

  lemma ZerosRead(x: Dev, mps: nat, want: nat)
    requires Sound(x) && mps > 0 && x.done == 0 && 0 < want
    requires x.inX == Sending(Zeros(Min(want, |x.buf|)), Refused) && (want <= |x.buf| || Short(|x.buf|, mps))
    ensures var p, n := ReadPipe(x, 0, mps, want), Min(want, |x.buf|);
            p.ok && p.taken == 0 && p.data == Zeros(n) && Answering(x, p.dev, n, FAILED) && p.dev.disk == x.disk
  {
    SoundInv(x);
    BufferHolds(x);
    hide Sound, Inv, Step, Short, Answering, ReadPipe;
    ZerosStep(x);
    if want <= |x.buf| {
      ReadPipeWhole(x, mps);
    } else {
      ReadPipeShort(x, mps, want);
    }
  }

  /** Otherwise the host takes the status for data, as much of it as its whole packets
      have room for. All of it, and no status comes: the read times out. Less, and what
      is left of it is no status. */
  lemma RefusedReadLosesStatus(d: Dev, mps: nat, tag: u32, lun: byte, csw: seq<byte>, lba: u32, n: nat)
    requires Idle(d) && Wf(d) && mps > 0 && |csw| == CSW_LEN && 0 < n < 0x1_0000 && At(d.bs, n) < TWO32
    requires Refusal(d, READ_10, lba, n) != (0, 0)
    requires n > CHUNK_BLOCKS && !Short(At(d.bs, CHUNK_BLOCKS), mps)
    ensures ReadOf(d, mps, tag, lun, csw, lba, n).answer
            == if RoundUp(At(d.bs, n), mps) - At(d.bs, CHUNK_BLOCKS) >= CSW_LEN then TimedOut else Answered(PHASE_ERROR)
  {
    ChunkOrder(d.bs, n);
    hide Idle, Sound, Wf, At, BlockCommand, Short, Move, ReadPipe, Started, Overwrite, Verdict, CommandOf, RoundUp;
    hide Refusal, PackCsw;
    var ask, cb := Inward(At(d.bs, n)), BlockCommand(READ_10, lba, n);
    ReadRefused(d, tag, lba, n);
    StatusLost(Started(d, tag, cb, ask), mps, At(d.bs, n), csw);
    CommandGoesOn(d, mps, tag, lun, csw, cb, ask);
  }

  /** Its data phase, and the verdict on what follows it, if anything does. */
  lemma StatusLost(x: Dev, mps: nat, want: nat, csw: seq<byte>)
    requires Sound(x) && mps > 0 && want > |x.buf| && x.dlen == want < TWO32 && x.done == 0 && |csw| == CSW_LEN
    requires x.inX == Sending(Zeros(|x.buf|), Refused) && !Short(|x.buf|, mps)
    ensures var m := Move(x, 0, mps, Inward(want));
            var told := ReadPipe(m.dev, m.taken, mps, CSW_LEN);
            m.ok && if RoundUp(want, mps) - |x.buf| >= CSW_LEN then !told.ok
                    else told.ok && Verdict(Overwrite(csw, 0, told.data), x.tag) == PHASE_ERROR
  {
    hide Sound, Short, Move, ReadPipe, Overwrite, Verdict, RoundUp, PackCsw, Zeros;
    MoveIn(x, mps, want);
    StatusAsData(x, mps, want);
    if RoundUp(want, mps) - |x.buf| < CSW_LEN {
      LateStatus(csw, x.tag, want - |x.buf|, RoundUp(want, mps) - |x.buf|);
    }
  }

  /** The device as it starts to refuse a read of more than its buffer. */
  lemma ReadRefused(d: Dev, tag: u32, lba: u32, n: nat)
    requires Idle(d) && Wf(d) && CHUNK_BLOCKS < n < 0x1_0000 && At(d.bs, CHUNK_BLOCKS) < At(d.bs, n) < TWO32
    requires Refusal(d, READ_10, lba, n) != (0, 0)
    ensures var x := Started(d, tag, BlockCommand(READ_10, lba, n), Inward(At(d.bs, n)));
            && Sound(x) && x.inX == Sending(Zeros(|x.buf|), Refused) && |x.buf| == At(d.bs, CHUNK_BLOCKS)
            && x.done == 0 && x.dlen == At(d.bs, n) && x.tag == tag
  {
    var ask, sense := Inward(At(d.bs, n)), Refusal(d, READ_10, lba, n);
    StartsRefusal(d, tag, READ_10, lba, n, ask);
    hide Idle, Sound, Wf, Told, At, Started, BlockCommand, Goes, Fail, Refusal;
    FailsInward(d, Started(d, tag, BlockCommand(READ_10, lba, n), ask), tag, At(d.bs, n), sense.0, sense.1);
  }

  lemma StatusAsData(x: Dev, mps: nat, want: nat)
    requires Sound(x) && mps > 0 && want > |x.buf| && x.dlen == want < TWO32 && x.done == 0
    requires x.inX == Sending(Zeros(|x.buf|), Refused) && !Short(|x.buf|, mps)
    ensures var p, k := ReadPipe(x, 0, mps, want), RoundUp(want, mps) - |x.buf|;
            var told := ReadPipe(p.dev, p.taken, mps, CSW_LEN);
            && want - |x.buf| <= k && 0 < k && p.ok
            && if k >= CSW_LEN then !told.ok
               else told.ok && told.data == PackCsw(x.tag, want - |x.buf|, FAILED)[k..]
  {
    SoundInv(x);
    hide Sound, Inv, RoundUp, Zeros, Step, ReadOn, Short, PackCsw;
    var m := want - |x.buf|;
    ZerosThenStatus(x);
    var d, zeros := Step(x, Sent(|x.buf|)), InData(x);
    RoundUpAfter(|x.buf|, m, mps);
    RoundUpIs(m, mps);
    ReadOnNext(x, mps, RoundUp(want, mps), []);
    assert [] + zeros == zeros;
    if RoundUp(m, mps) >= CSW_LEN {
      WholeStatus(d, mps, RoundUp(m, mps), zeros);
    } else {
      PartStatus(d, mps, RoundUp(m, mps), zeros);
    }
  }

  lemma ZerosThenStatus(x: Dev)
    requires Sound(x) && x.inX == Sending(Zeros(|x.buf|), Refused) && x.done == 0
    ensures var d := Step(x, Sent(|x.buf|));
            && Sound(d) && d.inX == SendingCsw(PackCsw(x.tag, Residue(x.dlen, |x.buf|), FAILED)) && |x.buf| > 0
  {
    ZerosStep(x);
    StepSound(x, Sent(|x.buf|));
    SoundInv(x);
    BufferHolds(x);
    hide Sound, Inv, Wf, PackCsw, Step;
  }

  lemma StatusStep(d: Dev)
    requires Sound(d) && d.inX.SendingCsw?
    ensures Sound(Step(d, Sent(CSW_LEN))) && Step(d, Sent(CSW_LEN)).inX.InNone?
  {
    StepSound(d, Sent(CSW_LEN));
    hide Sound;
  }

  /** A status with room for it in a data phase: none is left to be read. */
  lemma WholeStatus(d: Dev, mps: nat, room: nat, acc: seq<byte>)
    requires Sound(d) && mps > 0 && d.inX.SendingCsw? && |d.inX.csw| == CSW_LEN <= room
    ensures var p := ReadOn(d, 0, mps, room, acc);
            p.ok && !ReadPipe(p.dev, p.taken, mps, CSW_LEN).ok
  {
    StatusStep(d);
    RoundUpIs(CSW_LEN, mps);
    hide Sound, RoundUp, Step, Short, ReadOn;
    var e, all := Step(d, Sent(CSW_LEN)), acc + d.inX.csw;
    ReadOnNext(d, mps, room, acc);
    if room == CSW_LEN {
      ReadOnFull(e, mps, all);
    } else {
      ReadOnNothing(e, mps, room - CSW_LEN, all);
    }
    ReadOnNothing(e, mps, RoundUp(CSW_LEN, mps), []);
  }

  /** And one without: the rest of it is left, and read as it is. */
  lemma PartStatus(d: Dev, mps: nat, room: nat, acc: seq<byte>)
    requires Sound(d) && mps > 0 && d.inX.SendingCsw? && 0 < room < |d.inX.csw| == CSW_LEN
    ensures var p := ReadOn(d, 0, mps, room, acc);
            var told := ReadPipe(p.dev, p.taken, mps, CSW_LEN);
            p.ok && told.ok && told.data == d.inX.csw[room..]
  {
    assert ReadOn(d, 0, mps, room, acc) == Pipe(d, room, acc + InData(d)[0..][..room], true);
    StatusStep(d);
    RoundUpIs(CSW_LEN, mps);
    hide Sound, RoundUp, Step, Short, ReadOn;
    var e, rest := Step(d, Sent(CSW_LEN)), d.inX.csw[room..];
    assert [] + rest == rest && rest[..|rest|] == rest;
    ReadOnRest(d, room, mps, RoundUp(CSW_LEN, mps), []);
    ReadOnNothing(e, mps, RoundUp(CSW_LEN, mps) + room - CSW_LEN, rest);
  }

  /** The rest of a status, read as one, has no signature where it should be, or not
      the tag. */
  lemma LateStatus(csw: seq<byte>, tag: u32, residue: u32, k: nat)
    requires |csw| == CSW_LEN && 0 < k < CSW_LEN && residue < CSW_LEN
    ensures Verdict(Overwrite(csw, 0, PackCsw(tag, residue, FAILED)[k..]), tag) == PHASE_ERROR
  {
    var s := PackCsw(tag, residue, FAILED);
    var c := Overwrite(csw, 0, s[k..]);
    StatusBytes(tag, residue);
    hide PackCsw, Get32;
    if Get32(c, 0) == CSW_SIGNATURE {
      SignatureBytes(c);
      assert c[0] == s[k];
      assert k == 4;
      FieldAt(c, 4);
      FieldAt(s, 8);
      assert c[4..8] == s[8..12];
      FieldAt(c, 0);
      FieldAt(s, 4);
      assert c[0..4] == s[4..8];
    }
  }

  lemma SignatureBytes(c: seq<byte>)
    requires |c| >= 4 && Get32(c, 0) == CSW_SIGNATURE
    ensures c[0] == 0x55 && c[1] == 0x53 && c[2] == 0x42 && c[3] == 0x53
  {
  }

  lemma StatusBytes(tag: u32, residue: u32)
    requires residue < CSW_LEN
    ensures var s := PackCsw(tag, residue, FAILED);
            && s[0] == 0x55 && s[1] == 0x53 && s[2] == 0x42 && s[3] == 0x53
            && s[8] == residue && s[9] == s[10] == s[11] == 0 && s[12] == FAILED
            && Get32(s, 4) == tag && Get32(s, 8) == residue
  {
    CswRoundTrip(tag, residue, FAILED);
  }

  // ---- a chunk that is not whole packets

  /** What a host that stops after the first chunk reads in the status's place: the
      second chunk's first bytes. */
  ghost function InStatusPlace(d: Dev, lba: nat, n: nat): (s: seq<byte>)
    requires Wf(d) && n > CHUNK_BLOCKS && lba + n <= d.blocks
    ensures |s| <= CSW_LEN
  {
    var chunk := Range(d, lba + CHUNK_BLOCKS, lba + CHUNK_BLOCKS + Min(n - CHUNK_BLOCKS, CHUNK_BLOCKS));
    chunk[..Min(|chunk|, CSW_LEN)]
  }

  /** Reading more than a chunk that ends in a short packet: the host's transfer ends
      with the first chunk, and it takes the second's first bytes for the status. */
  lemma CutRead(d: Dev, mps: nat, tag: u32, lun: byte, csw: seq<byte>, lba: u32, n: nat)
    requires Idle(d) && Wf(d) && !d.ejected && mps >= CSW_LEN && |csw| == CSW_LEN && n < 0x1_0000 && At(d.bs, n) < TWO32
    requires lba + n <= d.blocks && n > CHUNK_BLOCKS && Short(At(d.bs, CHUNK_BLOCKS), mps)
    ensures var r := ReadOf(d, mps, tag, lun, csw, lba, n);
            && r.data == Range(d, lba, lba + CHUNK_BLOCKS) && r.dev.outX.OutNone?
            && r.answer == Answered(Verdict(Overwrite(csw, 0, InStatusPlace(d, lba, n)), tag))
  {
    hide Idle, Sound, Wf, At, BlockCommand, Reading, Short, Move, ReadPipe, InStatusPlace, Started, Overwrite;
    hide Verdict, CommandOf, Range;
    ReadStarted(d, tag, lba, n);
    CutMove(d, Started(d, tag, BlockCommand(READ_10, lba, n), Inward(At(d.bs, n))), mps, lba, n);
    CommandGoesOn(d, mps, tag, lun, csw, BlockCommand(READ_10, lba, n), Inward(At(d.bs, n)));
  }

  /** Its data phase and what follows it. */
  lemma CutMove(d: Dev, x: Dev, mps: nat, lba: nat, n: nat)
    requires Wf(d) && Wf(x) && Sound(x) && Reading(x, lba, lba + n) && SameDrive(d, x) && x.disk == d.disk
    requires mps >= CSW_LEN && lba + n <= d.blocks && n > CHUNK_BLOCKS && x.lba == lba + CHUNK_BLOCKS
    requires Short(At(d.bs, CHUNK_BLOCKS), mps)
    ensures var m := Move(x, 0, mps, Inward(At(d.bs, n)));
            var told := ReadPipe(m.dev, m.taken, mps, CSW_LEN);
            && m.ok && m.data == Range(d, lba, lba + CHUNK_BLOCKS)
            && told.ok && told.data == InStatusPlace(d, lba, n) && told.dev.outX.OutNone?
  {
    ChunkOrder(d.bs, n);
    hide Sound, Wf, At, Reading, Short, Move, ReadPipe, InStatusPlace, Range;
    MoveIn(x, mps, At(d.bs, n));
    FirstChunkOnly(x, mps, lba, lba + n, At(d.bs, n));
    NextRange(d, x, lba, lba + CHUNK_BLOCKS);
    SamePlace(d, x, lba, n);
  }

  lemma MoveIn(x: Dev, mps: nat, len: nat)
    requires Sound(x) && mps > 0 && len > 0
    ensures Move(x, 0, mps, Inward(len)) == ReadPipe(x, 0, mps, len)
  {
  }

  lemma SamePlace(d: Dev, x: Dev, lba: nat, n: nat)
    requires Wf(d) && Wf(x) && SameDrive(d, x) && x.disk == d.disk && n > CHUNK_BLOCKS && lba + n <= d.blocks
    ensures InStatusPlace(x, lba, n) == InStatusPlace(d, lba, n)
  {
    NextRange(d, x, lba + CHUNK_BLOCKS, lba + CHUNK_BLOCKS + Min(n - CHUNK_BLOCKS, CHUNK_BLOCKS));
    hide Wf, Range;
  }

  lemma FirstChunkOnly(x: Dev, mps: nat, from: nat, to: nat, want: nat)
    requires Wf(x) && Sound(x) && Reading(x, from, to) && mps >= CSW_LEN && Short(At(x.bs, CHUNK_BLOCKS), mps)
    requires want > At(x.bs, CHUNK_BLOCKS) && from + CHUNK_BLOCKS == x.lba < to <= x.blocks
    ensures var p, s := ReadPipe(x, 0, mps, want), InStatusPlace(x, from, to - from);
            var told := ReadPipe(p.dev, p.taken, mps, CSW_LEN);
            && p.ok && p.data == Range(x, from, from + CHUNK_BLOCKS)
            && told.ok && told.data == s && told.dev.outX.OutNone?
  {
    FirstChunkGone(x, from, to);
    hide *;
    ReadPipeShort(x, mps, want);
    ChunkForStatus(Step(x, Sent(|InData(x)|)), mps, x.lba, to);
  }

  /** The first chunk delivered: the second is on its way. */
  lemma FirstChunkGone(x: Dev, from: nat, to: nat)
    requires Wf(x) && Sound(x) && Reading(x, from, to) && from + CHUNK_BLOCKS == x.lba < to <= x.blocks
    ensures !x.inX.InNone? && InData(x) == Range(x, from, from + CHUNK_BLOCKS) != []
            && |InData(x)| == At(x.bs, CHUNK_BLOCKS)
    ensures var d' := Step(x, Sent(|InData(x)|));
            && Sound(d') && Reading(d', x.lba, to) && !d'.inX.InNone? && InData(d') != []
            && InData(d')[..Min(|InData(d')|, CSW_LEN)] == InStatusPlace(x, from, to - from)
  {
    NextChunk(x, from, to);
    ReadingRange(x, from, to);
    var d' := Step(x, Sent(|InData(x)|));
    hide Wf, Sound, Range, Step, At;
    ReadingRange(d', x.lba, to);
    NextRange(x, d', x.lba, d'.lba);
  }

  /** A chunk where a status is read: its first bytes. */
  lemma ChunkForStatus(d: Dev, mps: nat, from: nat, to: nat)
    requires Reading(d, from, to) && Sound(d) && mps >= CSW_LEN && !d.inX.InNone? && InData(d) != []
    ensures var told, data := ReadPipe(d, 0, mps, CSW_LEN), InData(d);
            told.ok && told.data == data[..Min(|data|, CSW_LEN)] && told.dev.outX.OutNone?
  {
    var n := |InData(d)|;
    RoundUpOf(CSW_LEN, mps, 0, CSW_LEN);
    if d.left == 0 {
      LastChunk(d, from, to);
    } else {
      NextChunk(d, from, to);
      ReadingRange(Step(d, Sent(n)), d.lba, to);
    }
    ReadingRange(d, from, to);
    assert Step(d, Sent(n)).outX.OutNone?;
    if n <= mps {
      ReadOnNext(d, mps, mps, []);
      RoundUpIs(n, mps);
      assert !Short(n, mps) ==> n == mps by {
        RoundUpOf(n, mps, 0, n);
      }
      assert [] + InData(d) == InData(d);
    }
    hide Sound, Step, Short, RoundUp, Reading;
  }

  // ---- REQUEST SENSE

  const SENSE_LEN: nat := 18

  function SenseCommandBlock(): (r: seq<byte>)
    ensures |r| == 6
  {
    [REQUEST_SENSE, 0, 0, 0, 18, 0]
  }

  ghost function SenseOf(d: Dev, mps: nat, tag: u32, lun: byte, csw: seq<byte>): (r: Reply)
    requires Idle(d) && mps > 0 && |csw| == CSW_LEN
    ensures Sound(r.dev)
  {
    CommandOf(d, 0, mps, tag, lun, csw, SenseCommandBlock(), Inward(SENSE_LEN))
  }

  lemma StartsSense(d: Dev, tag: u32)
    requires Idle(d)
    ensures var x := Started(d, tag, SenseCommandBlock(), Inward(SENSE_LEN));
            && x.inX == Sending(SenseReply(d.sense), Data) && x.left == 0 && x.sense == (0, 0) && x.disk == d.disk
            && x.ejected == d.ejected && x.done == 0 && x.open && x.tag == tag && x.dlen == SENSE_LEN
  {
    var e := Told(d, tag, Inward(SENSE_LEN));
    assert Padded(SenseCommandBlock())[0] == REQUEST_SENSE;
    assert SenseReply(d.sense)[..SENSE_LEN] == SenseReply(d.sense);
    StartedSound(d, tag, SenseCommandBlock(), Inward(SENSE_LEN));
    hide Wf, Armed, Heard, Respects, Padded, SenseReply, Goes, SenseCommandBlock;
  }

  /** The reason of the last refusal, told once. */
  lemma SenseCommand(d: Dev, mps: nat, tag: u32, lun: byte, csw: seq<byte>)
    requires Idle(d) && mps > 0 && |csw| == CSW_LEN
    ensures var r := SenseOf(d, mps, tag, lun, csw);
            && Came(d, r, tag, 0, PASSED) && r.data == SenseReply(d.sense) && r.dev.disk == d.disk
            && r.dev.ejected == d.ejected && r.dev.sense == (0, 0)
  {
    var x := Started(d, tag, SenseCommandBlock(), Inward(SENSE_LEN));
    StartsSense(d, tag);
    var reply := SenseReply(d.sense);
    assert |reply| == SENSE_LEN;
    SoundInv(x);
    hide Idle, Told, Started, SenseCommandBlock, Goes, Short, SenseReply, Sound, PackCsw, Wf, Inv;
    AnswerRead(x, mps, reply);
    CommandAnswered(d, mps, tag, lun, csw, SenseCommandBlock(), Inward(SENSE_LEN), SENSE_LEN, PASSED);
  }

  lemma AnswerRead(x: Dev, mps: nat, reply: seq<byte>)
    requires Sound(x) && mps > 0 && x.inX == Sending(reply, Data) && x.left == 0 && x.done == 0 && reply != []
    ensures var p := ReadPipe(x, 0, mps, |reply|);
            p.ok && p.taken == 0 && p.data == reply && Answering(x, p.dev, |reply|, PASSED) && p.dev.disk == x.disk
  {
    SoundInv(x);
    ReadPipeWhole(x, mps);
    hide Wf, Armed, Heard, Respects, PackCsw, ReadPipe;
  }

  // ---- TEST UNIT READY and READ CAPACITY

  function ReadyBlock(): (r: seq<byte>)
    ensures |r| == 6
  {
    [TEST_UNIT_READY, 0, 0, 0, 0, 0]
  }

  function CapacityBlock(): (r: seq<byte>)
    ensures |r| == 10
  {
    [READ_CAPACITY_10] + Zeros(9)
  }

  /** The bytes of the commands without an address. */
  lemma CommandBytes()
    ensures ReadyBlock() == [0, 0, 0, 0, 0, 0] && SenseCommandBlock() == [0x03, 0, 0, 0, 18, 0]
    ensures CapacityBlock() == [0x25, 0, 0, 0, 0, 0, 0, 0, 0, 0]
  {
  }

  lemma StartsReady(d: Dev, tag: u32)
    requires Idle(d)
    ensures var x := Started(d, tag, ReadyBlock(), Nothing);
            && Answering(x, x, 0, if d.ejected then FAILED else PASSED) && x.disk == d.disk && x.ejected == d.ejected
            && x.sense == if d.ejected then (NOT_READY, MEDIUM_NOT_PRESENT) else d.sense
  {
    assert Padded(ReadyBlock())[0] == TEST_UNIT_READY;
    StartedSound(d, tag, ReadyBlock(), Nothing);
    hide Wf, Armed, Heard, Respects, Padded, Goes, ReadyBlock, PackCsw;
  }

  /** A drive is ready exactly while its medium is in. */
  lemma ReadyCommand(d: Dev, mps: nat, tag: u32, lun: byte, csw: seq<byte>)
    requires Idle(d) && Sound(d) && mps > 0 && |csw| == CSW_LEN
    ensures var r := CommandOf(d, 0, mps, tag, lun, csw, ReadyBlock(), Nothing);
            && Came(d, r, tag, 0, if d.ejected then FAILED else PASSED) && r.dev.disk == d.disk
            && r.dev.ejected == d.ejected
  {
    StartsReady(d, tag);
    hide Idle, Sound, Started, ReadyBlock, Goes, PackCsw, Wf, Answering;
    CommandAnswered(d, mps, tag, lun, csw, ReadyBlock(), Nothing, 0, if d.ejected then FAILED else PASSED);
  }

  function CapacityReply(d: Dev): (r: seq<byte>)
    requires Wf(d)
    ensures |r| == 8
  {
    BE32(d.blocks - 1) + BE32(d.bs)
  }

  lemma StartsCapacity(d: Dev, tag: u32)
    requires Idle(d) && Wf(d) && !d.ejected
    ensures var x := Started(d, tag, CapacityBlock(), Inward(8));
            && x.inX == Sending(CapacityReply(d), Data) && x.left == 0 && x.disk == d.disk && !x.ejected && x.done == 0
            && x.open && x.tag == tag && x.dlen == 8
  {
    assert Padded(CapacityBlock())[0] == READ_CAPACITY_10;
    assert CapacityReply(d)[..8] == CapacityReply(d);
    StartedSound(d, tag, CapacityBlock(), Inward(8));
    hide Wf, Armed, Heard, Respects, Padded, Goes, CapacityBlock, BE32;
  }

  /** The host reads the drive's own last block and block size. */
  lemma CapacityCommand(d: Dev, mps: nat, tag: u32, lun: byte, csw: seq<byte>)
    requires Idle(d) && Wf(d) && Sound(d) && mps > 0 && |csw| == CSW_LEN && !d.ejected
    ensures var r := CommandOf(d, 0, mps, tag, lun, csw, CapacityBlock(), Inward(8));
            && Came(d, r, tag, 0, PASSED) && r.dev.disk == d.disk && !r.dev.ejected
            && |r.data| == 8 && GetBE32(r.data, 0) == d.blocks - 1 && GetBE32(r.data, 4) == d.bs
  {
    var x, reply := Started(d, tag, CapacityBlock(), Inward(8)), CapacityReply(d);
    StartsCapacity(d, tag);
    SoundInv(x);
    CapacityFields(d);
    hide Idle, Told, Started, CapacityBlock, Goes, Short, CapacityReply, Sound, PackCsw, Wf, Inv, GetBE32;
    AnswerRead(x, mps, reply);
    CommandAnswered(d, mps, tag, lun, csw, CapacityBlock(), Inward(8), 8, PASSED);
  }

  lemma StartsCapacityOut(d: Dev, tag: u32)
    requires Idle(d) && d.ejected
    ensures Started(d, tag, CapacityBlock(), Inward(8)) == Fail(Told(d, tag, Inward(8)), NOT_READY, MEDIUM_NOT_PRESENT)
  {
    assert Padded(CapacityBlock())[0] == READ_CAPACITY_10;
    hide Padded, CapacityBlock, Sound, Wf, Goes, Fail;
  }

  /** With the medium out it is refused, and the host is told so. */
  lemma CapacityRefused(d: Dev, mps: nat, tag: u32, lun: byte, csw: seq<byte>)
    requires Idle(d) && Wf(d) && Sound(d) && mps > 0 && |csw| == CSW_LEN && d.ejected
    ensures var r := CommandOf(d, 0, mps, tag, lun, csw, CapacityBlock(), Inward(8));
            Came(d, r, tag, 0, FAILED) && r.dev.disk == d.disk && r.dev.ejected
  {
    var x := Started(d, tag, CapacityBlock(), Inward(8));
    StartsCapacityOut(d, tag);
    FailsInward(d, x, tag, 8, NOT_READY, MEDIUM_NOT_PRESENT);
    EightBytes(d.bs);
    hide Idle, Sound, Wf, Told, At, Started, CapacityBlock, PackCsw, Goes, Fail, Answering, Came, Short;
    ZerosRead(x, mps, 8);
    CommandAnswered(d, mps, tag, lun, csw, CapacityBlock(), Inward(8), 8, FAILED);
  }

  lemma EightBytes(bs: nat)
    requires bs > 0
    ensures At(bs, CHUNK_BLOCKS) >= 8
  {
  }

  lemma CapacityFields(d: Dev)
    requires Wf(d)
    ensures var r := CapacityReply(d);
            GetBE32(r, 0) == d.blocks - 1 && GetBE32(r, 4) == d.bs
  {
    var r := CapacityReply(d);
    assert r[0..4] == BE32(d.blocks - 1) && r[4..8] == BE32(d.bs);
    assert GetBE32(r, 0) == GetBE32(r[0..4], 0) && GetBE32(r, 4) == GetBE32(r[4..8], 0);
    hide BE32, GetBE32;
  }
}
