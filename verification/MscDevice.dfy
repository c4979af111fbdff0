/** packages/usb-device-msc/usb/device/msc.py as a state machine: what each completed
    transfer and each lifecycle call does to the drive. */
module MscDevice {
  import opened Bytes
  import opened BulkOnly

  const CHUNK_BLOCKS: nat := 8

  const NOT_READY: byte := 2
  const ILLEGAL_REQUEST: byte := 5
  const DATA_PROTECT: byte := 7
  const INVALID_COMMAND: byte := 0x20
  const LBA_OUT_OF_RANGE: byte := 0x21
  const WRITE_PROTECTED: byte := 0x27
  const MEDIUM_NOT_PRESENT: byte := 0x3A

  /** The data of a command carried out, or of one refused. */
  datatype Why = Data | Refused

  datatype InXfer = InNone | Sending(data: seq<byte>, why: Why) | SendingCsw(csw: seq<byte>)

  datatype OutXfer = OutNone | WaitingCbw | Receiving(len: nat, what: Why)

  /** What an onlooker on the bus and at the disk sees happen. */
  datatype Note =
    | Opened                                        // the wait for commands armed by on_open
    | Lost                                          // a transfer died with the bus
    | Asked(tag: u32, dlen: u32)                    // a valid command wrapper
    | Moved(n: nat)                                 // bytes of a data phase
    | Told(csw: seq<byte>)                          // a status wrapper
    | Touched(lba: nat, count: nat, write: bool)    // blocks read or written
    | Ejected
    | Inserted

  datatype Dev = Dev(bs: nat, blocks: nat, disk: seq<byte>, readonly: bool, inquiry: seq<byte>,
                     open: bool, ejected: bool, sense: (byte, byte),
                     tag: u32, dlen: u32, dirIn: bool, done: nat,
                     lba: nat, left: nat, chunk: nat, discardLeft: nat, buf: seq<byte>,
                     inX: InXfer, outX: OutXfer,
                     blocksRead: nat, blocksWritten: nat, commands: nat, errors: nat,
                     log: seq<Note>)

  // ---- block addresses

  function At(bs: nat, n: nat): nat {
    n * bs
  }

  lemma AtSum(bs: nat, a: nat, b: nat)
    ensures At(bs, a + b) == At(bs, a) + At(bs, b)
  {
  }

  lemma AtOrder(bs: nat, a: nat, b: nat)
    requires a <= b
    ensures At(bs, a) <= At(bs, b) && (bs > 0 && a < b ==> At(bs, a) < At(bs, b))
    ensures At(bs, 0) == 0
  {
    AtSum(bs, a, b - a);
  }

  ghost predicate Wf(d: Dev) {
    && 0 < d.bs < TWO32 && 0 < d.blocks < TWO32 && |d.disk| == At(d.bs, d.blocks)
    && |d.buf| == At(d.bs, CHUNK_BLOCKS) && |d.inquiry| == 36
  }

  /** Nothing outstanding on either endpoint, as when a completion is being handled. */
  ghost predicate Quiet(d: Dev) {
    Wf(d) && d.inX.InNone? && d.outX.OutNone?
  }

  // ---- status

  function Residue(dlen: u32, done: nat): u32 {
    if dlen > done then dlen - done else 0
  }

  function Status(d: Dev, status: byte): Dev {
    d.(inX := SendingCsw(PackCsw(d.tag, Residue(d.dlen, d.done), status)))
  }

  function Discard(d: Dev): Dev {
    d.(outX := Receiving(Min(d.discardLeft, |d.buf|), Refused))
  }

  /** A refused command still moves the data the host announced: outward data is
      taken and dropped, inward data is zeros, at most a buffer of them. */
  function Fail(d: Dev, key: byte, asc: byte): Dev {
    var e := d.(sense := (key, asc), errors := d.errors + 1);
    if d.dlen > 0 && !d.dirIn then Discard(e.(discardLeft := d.dlen))
    else if d.dlen > 0 then
      var n := Min(d.dlen, |d.buf|);
      e.(buf := Overwrite(d.buf, 0, Zeros(n)), left := 0, inX := Sending(Zeros(n), Refused))
    else Status(e, FAILED)
  }

  // ---- data phases

  function Send(d: Dev, data: seq<byte>): Dev {
    var n := Min(|data|, d.dlen);
    if n == 0 then Status(d, PASSED) else d.(left := 0, inX := Sending(data[..n], Data))
  }

  function ReadChunk(d: Dev): Dev
    requires Wf(d) && d.lba + d.left <= d.blocks
  {
    var k := Min(d.left, CHUNK_BLOCKS);
    ChunkInDisk(d, k);
    var data := d.disk[At(d.bs, d.lba)..At(d.bs, d.lba + k)];
    d.(buf := Overwrite(d.buf, 0, data), lba := d.lba + k, left := d.left - k, blocksRead := d.blocksRead + k,
       inX := Sending(data, Data), log := d.log + [Touched(d.lba, k, false)])
  }

  function WriteChunkArm(d: Dev): Dev {
    var k := Min(d.left, CHUNK_BLOCKS);
    d.(chunk := k, outX := Receiving(At(d.bs, k), Data))
  }

  lemma ChunkInDisk(d: Dev, k: nat)
    requires Wf(d) && k <= CHUNK_BLOCKS && d.lba + k <= d.blocks
    ensures At(d.bs, d.lba) <= At(d.bs, d.lba + k) == At(d.bs, d.lba) + At(d.bs, k) <= |d.disk|
    ensures At(d.bs, k) <= |d.buf|
  {
    AtSum(d.bs, d.lba, k);
    AtOrder(d.bs, d.lba + k, d.blocks);
    AtOrder(d.bs, k, CHUNK_BLOCKS);
  }

  /** The chunk now in the buffer put on the disk; a short transfer leaves what the
      buffer held before in the rest of it. */
  function WriteChunk(d: Dev, data: seq<byte>): Dev
    requires Wf(d) && d.chunk <= Min(d.left, CHUNK_BLOCKS) && d.lba + d.left <= d.blocks
    requires |data| <= At(d.bs, d.chunk)
  {
    ChunkInDisk(d, d.chunk);
    var buf := Overwrite(d.buf, 0, data);
    d.(buf := buf, disk := Overwrite(d.disk, At(d.bs, d.lba), buf[..At(d.bs, d.chunk)]),
       lba := d.lba + d.chunk, left := d.left - d.chunk, blocksWritten := d.blocksWritten + d.chunk,
       log := d.log + [Touched(d.lba, d.chunk, true)])
  }

  // ---- commands

  function SenseReply(sense: (byte, byte)): seq<byte> {
    [0x70, 0, sense.0, 0, 0, 0, 0, 10, 0, 0, 0, 0, sense.1, 0, 0, 0, 0, 0]
  }

  function FormatReply(d: Dev): seq<byte>
    requires Wf(d)
  {
    BE32(8) + BE32(d.blocks) + BE32(d.bs)[0 := 2]
  }

  function ProtectBit(d: Dev): byte {
    if d.readonly then 0x80 else 0
  }

  /** READ(10) and WRITE(10). */
  function Blocks(d: Dev, cb: seq<byte>): Dev
    requires Wf(d) && |cb| == 16
  {
    var lba, count := GetBE32(cb, 2), GetBE16(cb, 7);
    if cb[0] == WRITE_10 && d.readonly then Fail(d, DATA_PROTECT, WRITE_PROTECTED)
    else if lba + count > d.blocks then Fail(d, ILLEGAL_REQUEST, LBA_OUT_OF_RANGE)
    else if cb[0] == WRITE_10 then WriteChunkArm(d.(lba := lba, left := count))
    else ReadChunk(d.(lba := lba, left := count))
  }

  /** The commands answered from the device's own state. */
  function Answer(d: Dev, op: byte): Dev
    requires Wf(d)
  {
    if op == INQUIRY then Send(d, d.inquiry)
    else if op == REQUEST_SENSE then Send(d.(sense := (0, 0)), SenseReply(d.sense))
    else if op == READ_CAPACITY_10 then Send(d, BE32(d.blocks - 1) + BE32(d.bs))
    else if op == READ_FORMAT_CAPACITIES then Send(d, FormatReply(d))
    else if op == MODE_SENSE_6 then Send(d, [3, 0, ProtectBit(d), 0])
    else if op == MODE_SENSE_10 then Send(d, [0, 6, 0, ProtectBit(d), 0, 0, 0, 0])
    else Fail(d, ILLEGAL_REQUEST, INVALID_COMMAND)
  }

  predicate Ejects(cb: seq<byte>)
    requires |cb| == 16
  {
    cb[0] == START_STOP_UNIT && Bit(cb[4], 2) && !Bit(cb[4], 1)
  }

  function Dispatch(d: Dev, cb: seq<byte>): Dev
    requires Wf(d) && |cb| == 16
  {
    var op := cb[0];
    if op == START_STOP_UNIT then
      Status(if Ejects(cb) then d.(ejected := true, log := d.log + [Ejected]) else d, PASSED)
    else if d.ejected && op != INQUIRY && op != REQUEST_SENSE then Fail(d, NOT_READY, MEDIUM_NOT_PRESENT)
    else if op == TEST_UNIT_READY || op == PREVENT_ALLOW || op == SYNCHRONIZE_CACHE_10 || op == VERIFY_10 then
      Status(d, PASSED)
    else if op == READ_10 || op == WRITE_10 then Blocks(d, cb)
    else Answer(d, op)
  }

  // ---- completions

  function ArmCbw(d: Dev): Dev {
    if d.open && d.outX.OutNone? then d.(outX := WaitingCbw) else d
  }

  function CbwDone(d: Dev, data: seq<byte>): Dev
    requires Wf(d)
  {
    if !IsCbw(data) then ArmCbw(d.(errors := d.errors + 1))
    else
      var tag, dlen := Get32(data, 4), Get32(data, 8);
      Dispatch(d.(commands := d.commands + 1, tag := tag, dlen := dlen, dirIn := data[12] >= 0x80, done := 0,
                  log := d.log + [Asked(tag, dlen)]), data[15..31])
  }

  function InDone(d: Dev, n: nat): Dev
    requires Wf(d) && (d.left > 0 ==> d.lba + d.left <= d.blocks)
  {
    var e := d.(done := d.done + n, log := d.log + [Moved(n)]);
    if d.left > 0 then ReadChunk(e) else Status(e, PASSED)
  }

  function FailInDone(d: Dev, n: nat): Dev {
    Status(d.(done := d.done + n, log := d.log + [Moved(n)]), FAILED)
  }

  function OutDone(d: Dev, data: seq<byte>): Dev
    requires Wf(d) && d.chunk <= Min(d.left, CHUNK_BLOCKS) && d.lba + d.left <= d.blocks
    requires |data| <= At(d.bs, d.chunk)
  {
    var e := WriteChunk(d.(done := d.done + |data|, log := d.log + [Moved(|data|)]), data);
    if e.left > 0 then WriteChunkArm(e) else Status(e, PASSED)
  }

  function DiscardDone(d: Dev, data: seq<byte>): Dev
    requires |data| <= d.discardLeft && |data| <= |d.buf|
  {
    var n := |data|;
    var e := d.(discardLeft := d.discardLeft - n, done := d.done + n, buf := Overwrite(d.buf, 0, data),
                log := d.log + [Moved(n)]);
    if e.discardLeft > 0 && n > 0 then Discard(e) else Status(e, FAILED)
  }

  function CswDone(d: Dev, csw: seq<byte>): Dev {
    ArmCbw(d.(log := d.log + [Told(csw)]))
  }

  // ---- steps

  /** What can happen to the drive: a transfer completing with `n` or `data`, one
      dying, the bus going down and up, or up again after a transfer died, and the
      board putting the medium back. */
  datatype Event = Sent(n: nat) | Got(data: seq<byte>) | Died | Open | Reset | Insert

  /** What each outstanding transfer relies on when it completes. */
  ghost predicate Armed(d: Dev) {
    && (d.inX.Sending? && d.inX.why.Data? && d.left > 0 ==> d.lba + d.left <= d.blocks && !d.ejected)
    && (d.inX.SendingCsw? ==>
          exists st: byte :: st <= FAILED && d.inX.csw == PackCsw(d.tag, Residue(d.dlen, d.done), st))
    && (d.outX.Receiving? && d.outX.what.Data? ==>
          && d.chunk == Min(d.left, CHUNK_BLOCKS) && d.outX.len == At(d.bs, d.chunk)
          && d.lba + d.left <= d.blocks && !d.readonly && !d.ejected)
    && (d.outX.Receiving? && d.outX.what.Refused? ==> d.outX.len == Min(d.discardLeft, |d.buf|) && d.discardLeft > 0)
  }

  /** At most one transfer is outstanding, and none while the bus is down. */
  ghost predicate Inv(d: Dev) {
    && Wf(d) && Armed(d)
    && (d.inX.InNone? || d.outX.OutNone?)
    && (!d.open ==> d.inX.InNone? && d.outX.OutNone?)
  }

  /** An event the outstanding transfers do not allow changes nothing. */
  function Step(d: Dev, e: Event): Dev
    requires Inv(d)
  {
    var q := d.(inX := InNone, outX := OutNone);
    match e
    case Sent(n) =>
      (match d.inX
       case InNone => d
       case Sending(data, why) => if n > |data| then d else if why.Data? then InDone(q, n) else FailInDone(q, n)
       case SendingCsw(csw) => CswDone(q, csw))
    case Got(data) =>
      (match d.outX
       case OutNone => d
       case WaitingCbw => if |data| > CBW_LEN then d else CbwDone(q, data)
       case Receiving(len, why) =>
         if |data| > len then d else if why.Data? then OutDone(q, data) else DiscardDone(q, data))
    case Died => if d.inX.InNone? && d.outX.OutNone? then d else q.(log := d.log + [Lost])
    case Reset => q.(open := false, log := d.log + [Lost])
    case Open =>
      if !d.inX.InNone? || !d.outX.OutNone? then d
      else ArmCbw(d.(open := true, log := d.log + [Opened]))
    case Insert => d.(ejected := false, log := d.log + [Inserted])
  }
}
