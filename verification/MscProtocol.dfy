/** Every run of the mass storage device: one transfer outstanding, each command
    answered once, and the disk touched only where it may be. */
module MscProtocol {
  import opened Bytes
  import opened BulkOnly
  import opened MscDevice

  // ---- one command moving on

  /** A command is being carried out: exactly one transfer is outstanding, and it is
      not the wait for the next command. */
  ghost predicate Busy(d: Dev) {
    (d.inX.InNone? && d.outX.Receiving?) || (!d.inX.InNone? && d.outX.OutNone?)
  }

  ghost predicate SameDrive(d: Dev, d': Dev) {
    d'.bs == d.bs && d'.blocks == d.blocks && d'.readonly == d.readonly && d'.inquiry == d.inquiry
  }

  /** A note that only tells of the medium, and what it means for it. */
  ghost predicate Mild(note: Note, d: Dev, d': Dev) {
    || (note.Ejected? && d'.ejected)
    || (note.Touched? && note.lba + note.count <= d.blocks && !note.write && !d.ejected && !d'.ejected)
  }

  /** The next transfer of the command is outstanding; its tag, announced length and
      count of moved bytes stand, and the disk is as it was. */
  ghost predicate Goes(d: Dev, d': Dev) {
    && Wf(d') && Armed(d') && Busy(d') && SameDrive(d, d') && d'.disk == d.disk
    && d'.open == d.open && d'.tag == d.tag && d'.dlen == d.dlen && d'.done == d.done
    && ((d'.log == d.log && d'.ejected == d.ejected)
        || (d'.log != [] && d'.log == d.log + [d'.log[|d'.log| - 1]] && Mild(d'.log[|d'.log| - 1], d, d')))
  }

  lemma StatusGoes(d: Dev, st: byte)
    requires Quiet(d) && st <= FAILED
    ensures Goes(d, Status(d, st))
  {
    hide Wf, PackCsw;
    assert Wf(Status(d, st)) by { WfKept(d, Status(d, st)); }
  }

  lemma WfKept(d: Dev, d': Dev)
    requires Wf(d) && SameDrive(d, d') && |d'.disk| == |d.disk| && |d'.buf| == |d.buf|
    ensures Wf(d')
  {
  }

  lemma BufferHolds(d: Dev)
    requires Wf(d)
    ensures |d.buf| > 0
  {
    AtOrder(d.bs, 0, CHUNK_BLOCKS);
  }

  lemma FailGoes(d: Dev, key: byte, asc: byte)
    requires Quiet(d)
    ensures Goes(d, Fail(d, key, asc))
  {
    BufferHolds(d);
    var e := d.(sense := (key, asc), errors := d.errors + 1);
    WfKept(d, e);
    WfKept(d, Fail(d, key, asc));
    StatusGoes(e, FAILED);
    hide Wf, PackCsw;
  }

  lemma SendGoes(d: Dev, data: seq<byte>)
    requires Quiet(d)
    ensures Goes(d, Send(d, data))
  {
    StatusGoes(d, PASSED);
    WfKept(d, Send(d, data));
    hide Wf, Status;
  }

  lemma ReadChunkGoes(d: Dev)
    requires Quiet(d) && d.lba + d.left <= d.blocks && !d.ejected
    ensures Goes(d, ReadChunk(d))
  {
    ChunkInDisk(d, Min(d.left, CHUNK_BLOCKS));
    WfKept(d, ReadChunk(d));
    hide Wf, At;
  }

  lemma WriteArmGoes(d: Dev)
    requires Quiet(d) && d.lba + d.left <= d.blocks && !d.ejected && !d.readonly
    ensures Goes(d, WriteChunkArm(d))
  {
    WfKept(d, WriteChunkArm(d));
    hide Wf, At;
  }

  lemma GoesFrom(d: Dev, e: Dev, d': Dev)
    requires Goes(e, d') && SameDrive(d, e) && e.disk == d.disk && e.open == d.open && e.tag == d.tag
    requires e.dlen == d.dlen && e.done == d.done && e.log == d.log && e.ejected == d.ejected
    ensures Goes(d, d')
  {
    hide Wf, Armed;
  }

  lemma BlocksGoes(d: Dev, cb: seq<byte>)
    requires Quiet(d) && |cb| == 16 && !d.ejected
    ensures Goes(d, Blocks(d, cb))
  {
    var lba, count := GetBE32(cb, 2), GetBE16(cb, 7);
    FailGoes(d, DATA_PROTECT, WRITE_PROTECTED);
    FailGoes(d, ILLEGAL_REQUEST, LBA_OUT_OF_RANGE);
    if lba + count <= d.blocks {
      var e := d.(lba := lba, left := count);
      WfKept(d, e);
      hide Fail, Goes, Armed, Wf;
      if cb[0] != WRITE_10 {
        ReadChunkGoes(e);
        GoesFrom(d, e, ReadChunk(e));
      } else if !d.readonly {
        WriteArmGoes(e);
        GoesFrom(d, e, WriteChunkArm(e));
      }
    }
  }

  lemma SenseGoes(d: Dev)
    requires Quiet(d)
    ensures Goes(d, Send(d.(sense := (0, 0)), SenseReply(d.sense)))
  {
    var e := d.(sense := (0, 0));
    WfKept(d, e);
    SendGoes(e, SenseReply(d.sense));
    hide Send, Wf;
    GoesFrom(d, e, Send(e, SenseReply(d.sense)));
  }

  lemma CapacityGoes(d: Dev)
    requires Quiet(d)
    ensures Goes(d, Send(d, BE32(d.blocks - 1) + BE32(d.bs))) && Goes(d, Send(d, FormatReply(d)))
  {
    SendGoes(d, BE32(d.blocks - 1) + BE32(d.bs));
    SendGoes(d, FormatReply(d));
    hide Send, Goes, Wf;
  }

  lemma AnswerGoes(d: Dev, op: byte)
    requires Quiet(d)
    ensures Goes(d, Answer(d, op))
  {
    SenseGoes(d);
    CapacityGoes(d);
    SendGoes(d, d.inquiry);
    SendGoes(d, [3, 0, ProtectBit(d), 0]);
    SendGoes(d, [0, 6, 0, ProtectBit(d), 0, 0, 0, 0]);
    FailGoes(d, ILLEGAL_REQUEST, INVALID_COMMAND);
    hide Send, Fail, Goes, Wf, BE32, FormatReply, SenseReply;
  }

  lemma DispatchGoes(d: Dev, cb: seq<byte>)
    requires Quiet(d) && |cb| == 16
    ensures Goes(d, Dispatch(d, cb))
  {
    var e := d.(ejected := true, log := d.log + [Ejected]);
    WfKept(d, e);
    StatusGoes(d, PASSED);
    StatusGoes(e, PASSED);
    assert Goes(d, Status(e, PASSED)) by { hide Wf, Armed; }
    FailGoes(d, NOT_READY, MEDIUM_NOT_PRESENT);
    if !d.ejected {
      BlocksGoes(d, cb);
    }
    AnswerGoes(d, cb[0]);
    hide Status, Fail, Goes, Blocks, Answer, Wf;
  }

  // ---- what the onlooker hears

  /** The conversation so far: the bus down, the device ready for a command, or a
      command under way with so many bytes moved. */
  datatype Talk = Down | Ready | Command(tag: u32, dlen: u32, moved: nat) | Garbled

  /** Section 5.3 as an onlooker would check it: after an open, commands one at a
      time, each ended by one status of its own tag and with its residue. */
  ghost function Hear(t: Talk, note: Note): Talk {
    match note
    case Opened => if t.Down? then Ready else Garbled
    case Lost => Down
    case Asked(tag, dlen) => if t.Ready? then Command(tag, dlen, 0) else Garbled
    case Moved(n) => if t.Command? then t.(moved := t.moved + n) else Garbled
    case Told(csw) =>
      if t.Command? && exists st: byte :: st <= FAILED && csw == PackCsw(t.tag, Residue(t.dlen, t.moved), st)
      then Ready else Garbled
    case _ => t
  }

  ghost function Heard(log: seq<Note>): Talk {
    if log == [] then Down else Hear(Heard(log[..|log| - 1]), log[|log| - 1])
  }

  /** Whether the medium was in after these notes. */
  ghost predicate MediumIn(log: seq<Note>) {
    log == [] || var n := log[|log| - 1]; n.Inserted? || (!n.Ejected? && MediumIn(log[..|log| - 1]))
  }

  /** Every block touched is on the disk and was touched with the medium in, and a
      read-only disk was not written. */
  ghost predicate DiskRespected(log: seq<Note>, blocks: nat, readonly: bool) {
    log == [] ||
    var n, before := log[|log| - 1], log[..|log| - 1];
    DiskRespected(before, blocks, readonly) &&
    (n.Touched? ==> n.lba + n.count <= blocks && MediumIn(before) && !(n.write && readonly))
  }

  ghost predicate Respects(d: Dev) {
    DiskRespected(d.log, d.blocks, d.readonly) && MediumIn(d.log) == !d.ejected
  }

  lemma Snoc(log: seq<Note>, n: Note, blocks: nat, readonly: bool)
    ensures Heard(log + [n]) == Hear(Heard(log), n)
    ensures MediumIn(log + [n]) == (n.Inserted? || (!n.Ejected? && MediumIn(log)))
    ensures DiskRespected(log + [n], blocks, readonly) <==>
            DiskRespected(log, blocks, readonly) &&
            (n.Touched? ==> n.lba + n.count <= blocks && MediumIn(log) && !(n.write && readonly))
  {
    assert (log + [n])[..|log|] == log;
  }

  ghost function TalkOf(d: Dev): Talk {
    if d.outX.WaitingCbw? then Ready
    else if d.inX.InNone? && d.outX.OutNone? then Down
    else Command(d.tag, d.dlen, d.done)
  }

  /** The drive between two events. */
  ghost predicate Sound(d: Dev) {
    Inv(d) && Respects(d) && Heard(d.log) == TalkOf(d)
  }

  /** The drive inside a completion: the command under way, nothing outstanding. */
  ghost predicate Acting(d: Dev) {
    Quiet(d) && d.open && Respects(d) && Heard(d.log) == Command(d.tag, d.dlen, d.done)
  }

  lemma GoesSound(d: Dev, d': Dev)
    requires Acting(d) && Goes(d, d')
    ensures Sound(d')
  {
    hide Wf, Armed, Heard, MediumIn, DiskRespected;
    if d'.log != d.log {
      Snoc(d.log, d'.log[|d'.log| - 1], d.blocks, d.readonly);
    }
  }

  // ---- each completion

  /** The command a valid wrapper starts, before it is dispatched. */
  ghost function Begun(d: Dev, data: seq<byte>): Dev
    requires IsCbw(data)
  {
    var tag, dlen := Get32(data, 4), Get32(data, 8);
    d.(commands := d.commands + 1, tag := tag, dlen := dlen, dirIn := data[12] >= 0x80, done := 0,
       log := d.log + [Asked(tag, dlen)], inX := InNone, outX := OutNone)
  }

  lemma BegunActing(d: Dev, data: seq<byte>)
    requires Sound(d) && d.outX.WaitingCbw? && IsCbw(data)
    ensures Acting(Begun(d, data))
  {
    Snoc(d.log, Asked(Get32(data, 4), Get32(data, 8)), d.blocks, d.readonly);
    WfKept(d, Begun(d, data));
    hide Wf, Armed, Heard, MediumIn, DiskRespected, IsCbw;
  }

  lemma BadCbwSound(d: Dev, data: seq<byte>)
    requires Sound(d) && d.outX.WaitingCbw? && !IsCbw(data)
    ensures Sound(CbwDone(d.(inX := InNone, outX := OutNone), data))
  {
    WfKept(d, CbwDone(d.(inX := InNone, outX := OutNone), data));
    hide Wf, Heard, MediumIn, DiskRespected, IsCbw;
  }

  lemma CbwSound(d: Dev, data: seq<byte>)
    requires Sound(d) && d.outX.WaitingCbw?
    ensures Sound(CbwDone(d.(inX := InNone, outX := OutNone), data))
  {
    if IsCbw(data) {
      GoodCbwSound(d, data);
    } else {
      BadCbwSound(d, data);
    }
  }

  lemma BegunIs(d: Dev, data: seq<byte>)
    requires Wf(d) && IsCbw(data)
    ensures CbwDone(d.(inX := InNone, outX := OutNone), data) == Dispatch(Begun(d, data), data[15..31])
  {
    hide Wf, Dispatch, IsCbw, Get32;
    WfKept(d, d.(inX := InNone, outX := OutNone));
    WfKept(d, Begun(d, data));
  }

  lemma GoodCbwSound(d: Dev, data: seq<byte>)
    requires Sound(d) && Wf(d) && d.outX.WaitingCbw? && IsCbw(data)
    ensures Sound(CbwDone(d.(inX := InNone, outX := OutNone), data))
  {
    var e, cb := Begun(d, data), data[15..31];
    hide *;
    BegunActing(d, data);
    BegunIs(d, data);
    ActingQuiet(e);
    DispatchGoes(e, cb);
    GoesSound(e, Dispatch(e, cb));
  }

  lemma MovedActing(d: Dev, e: Dev, n: nat)
    requires Sound(d) && TalkOf(d).Command?
    requires Wf(e) && SameDrive(d, e) && e.inX.InNone? && e.outX.OutNone? && e.open == d.open && e.ejected == d.ejected
    requires e.tag == d.tag && e.dlen == d.dlen && e.done == d.done + n && e.log == d.log + [Moved(n)]
    ensures Acting(e)
  {
    Snoc(d.log, Moved(n), d.blocks, d.readonly);
    hide Wf, Armed, Heard, MediumIn, DiskRespected;
  }

  lemma InSound(d: Dev, n: nat)
    requires Sound(d) && d.inX.Sending? && d.inX.why.Data?
    ensures Sound(InDone(d.(inX := InNone, outX := OutNone), n))
  {
    var q := d.(inX := InNone, outX := OutNone);
    var e := q.(done := q.done + n, log := q.log + [Moved(n)]);
    WfKept(d, e);
    MovedActing(d, e, n);
    if d.left > 0 {
      ReadChunkGoes(e);
      GoesSound(e, ReadChunk(e));
    } else {
      StatusGoes(e, PASSED);
      GoesSound(e, Status(e, PASSED));
    }
    hide Sound;
  }

  lemma FailInSound(d: Dev, n: nat)
    requires Sound(d) && d.inX.Sending?
    ensures Sound(FailInDone(d.(inX := InNone, outX := OutNone), n))
  {
    var q := d.(inX := InNone, outX := OutNone);
    var e := q.(done := q.done + n, log := q.log + [Moved(n)]);
    WfKept(d, e);
    MovedActing(d, e, n);
    StatusGoes(e, FAILED);
    GoesSound(e, Status(e, FAILED));
    hide Sound;
  }

  lemma WriteChunkActing(d: Dev, data: seq<byte>)
    requires Acting(d) && !d.ejected && !d.readonly && d.lba + d.left <= d.blocks
    requires d.chunk <= Min(d.left, CHUNK_BLOCKS) && |data| <= At(d.bs, d.chunk)
    ensures var e := WriteChunk(d, data);
            Acting(e) && !e.ejected && !e.readonly && e.lba + e.left <= e.blocks && SameDrive(d, e)
  {
    ChunkInDisk(d, d.chunk);
    var e := WriteChunk(d, data);
    WfKept(d, e);
    Snoc(d.log, Touched(d.lba, d.chunk, true), d.blocks, d.readonly);
    hide Wf, At, Heard, MediumIn, DiskRespected;
  }

  lemma OutSound(d: Dev, data: seq<byte>)
    requires Sound(d) && d.outX.Receiving? && d.outX.what.Data? && |data| <= d.outX.len
    ensures Sound(OutDone(d.(inX := InNone, outX := OutNone), data))
  {
    var q := d.(inX := InNone, outX := OutNone);
    var c := q.(done := q.done + |data|, log := q.log + [Moved(|data|)]);
    WfKept(d, c);
    MovedActing(d, c, |data|);
    WriteChunkActing(c, data);
    var e := WriteChunk(c, data);
    hide WriteChunk, Respects, Heard;
    if e.left > 0 {
      WriteArmGoes(e);
      GoesSound(e, WriteChunkArm(e));
    } else {
      StatusGoes(e, PASSED);
      GoesSound(e, Status(e, PASSED));
    }
    hide Sound;
  }

  /** A discarded transfer counted, before what follows it. */
  ghost function Dropped(d: Dev, data: seq<byte>): Dev
    requires |data| <= d.discardLeft && |data| <= |d.buf|
  {
    d.(discardLeft := d.discardLeft - |data|, done := d.done + |data|, buf := Overwrite(d.buf, 0, data),
       log := d.log + [Moved(|data|)], inX := InNone, outX := OutNone)
  }

  lemma DroppedIs(d: Dev, data: seq<byte>)
    requires |data| <= d.discardLeft && |data| <= |d.buf|
    ensures var e := Dropped(d, data);
            DiscardDone(d.(inX := InNone, outX := OutNone), data)
            == if e.discardLeft > 0 && |data| > 0 then Discard(e) else Status(e, FAILED)
  {
    hide Discard, Status;
  }

  lemma DiscardSound(d: Dev, data: seq<byte>)
    requires Sound(d) && d.outX.Receiving? && d.outX.what.Refused? && |data| <= d.outX.len
    ensures Sound(DiscardDone(d.(inX := InNone, outX := OutNone), data))
  {
    var e := Dropped(d, data);
    WfKept(d, e);
    MovedActing(d, e, |data|);
    hide *;
    DroppedIs(d, data);
    ActingQuiet(e);
    if e.discardLeft > 0 && |data| > 0 {
      DiscardGoes(e);
      GoesSound(e, Discard(e));
    } else {
      StatusGoes(e, FAILED);
      GoesSound(e, Status(e, FAILED));
    }
  }

  lemma ActingQuiet(d: Dev)
    requires Acting(d)
    ensures Quiet(d)
  {
  }

  lemma DiscardGoes(d: Dev)
    requires Acting(d) && d.discardLeft > 0
    ensures Goes(d, Discard(d))
  {
    WfKept(d, Discard(d));
    hide Wf, Heard, Respects;
  }

  lemma CswSound(d: Dev)
    requires Sound(d) && d.inX.SendingCsw?
    ensures Sound(CswDone(d.(inX := InNone, outX := OutNone), d.inX.csw))
  {
    Snoc(d.log, Told(d.inX.csw), d.blocks, d.readonly);
    WfKept(d, CswDone(d.(inX := InNone, outX := OutNone), d.inX.csw));
    hide Wf, PackCsw, MediumIn, DiskRespected, Heard;
  }

  lemma LifecycleSound(d: Dev, e: Event)
    requires Sound(d) && (e.Died? || e.Reset? || e.Open? || e.Insert?)
    ensures Sound(Step(d, e))
  {
    hide Wf, MediumIn, DiskRespected, Heard, PackCsw;
    WfKept(d, Step(d, e));
    match e
    case Died => Snoc(d.log, Lost, d.blocks, d.readonly);
    case Reset => Snoc(d.log, Lost, d.blocks, d.readonly);
    case Open => Snoc(d.log, Opened, d.blocks, d.readonly);
    case Insert => InsertSound(d);
    case _ =>
  }

  lemma InsertSound(d: Dev)
    requires Sound(d)
    ensures Sound(Step(d, Insert))
  {
    hide Wf, MediumIn, DiskRespected, Heard, PackCsw;
    WfKept(d, Step(d, Insert));
    Snoc(d.log, Inserted, d.blocks, d.readonly);
  }

  /** Every event keeps the drive sound. */
  lemma StepSound(d: Dev, e: Event)
    requires Sound(d)
    ensures Sound(Step(d, e))
  {
    match e
    case Sent(n) =>
      if d.inX.Sending? && n <= |d.inX.data| {
        InOrFail(d, n);
      } else if d.inX.SendingCsw? {
        CswSound(d);
      }
      hide Sound;
    case Got(data) =>
      if d.outX.WaitingCbw? && |data| <= CBW_LEN {
        CbwSound(d, data);
      } else if d.outX.Receiving? && |data| <= d.outX.len {
        if d.outX.what.Data? {
          OutSound(d, data);
        } else {
          DiscardSound(d, data);
        }
      }
      hide Sound;
    case _ => LifecycleSound(d, e);
  }

  lemma InOrFail(d: Dev, n: nat)
    requires Sound(d) && d.inX.Sending?
    ensures d.inX.why.Data? ==> Sound(InDone(d.(inX := InNone, outX := OutNone), n))
    ensures d.inX.why.Refused? ==> Sound(FailInDone(d.(inX := InNone, outX := OutNone), n))
  {
    if d.inX.why.Data? {
      InSound(d, n);
    } else {
      FailInSound(d, n);
    }
  }

  // ---- whole runs

  /** The drive as plugged in: nothing outstanding, nothing yet seen. */
  ghost predicate Fresh(d: Dev) {
    Quiet(d) && !d.open && !d.ejected && d.log == []
  }

  ghost function After(d: Dev, es: seq<Event>): (r: Dev)
    requires Fresh(d)
    ensures Sound(r)
  {
    if es == [] then (FreshSound(d); d)
    else
      var before := After(d, es[..|es| - 1]);
      (StepSound(before, es[|es| - 1]); Step(before, es[|es| - 1]))
  }

  lemma FreshSound(d: Dev)
    requires Fresh(d)
    ensures Sound(d)
  {
    hide Wf;
  }

  /** Over any run: what was heard is a proper conversation, exactly one transfer is
      outstanding while the bus is up and none while it is down, and every block
      touched is on the disk, with the medium in, and not written if read-only. */
  lemma OneAnswerEach(d: Dev, es: seq<Event>)
    requires Fresh(d)
    ensures var r := After(d, es);
            && Heard(r.log) != Garbled
            && (Heard(r.log).Down? <==> r.inX.InNone? && r.outX.OutNone?)
            && (Heard(r.log).Ready? <==> r.inX.InNone? && r.outX.WaitingCbw?)
            && (Heard(r.log).Command? <==> Busy(r))
            && DiskRespected(r.log, r.blocks, r.readonly)
  {
    hide Wf, Armed, Heard, MediumIn, DiskRespected;
    var r := After(d, es);
  }

  /** The tags of the commands asked, and of the statuses told. */
  ghost function Asks(log: seq<Note>): seq<u32> {
    if log == [] then []
    else
      var n := log[|log| - 1];
      Asks(log[..|log| - 1]) + if n.Asked? then [n.tag] else []
  }

  ghost function Tells(log: seq<Note>): seq<u32> {
    if log == [] then []
    else
      var n := log[|log| - 1];
      Tells(log[..|log| - 1]) + if n.Told? && |n.csw| == CSW_LEN then [Get32(n.csw, 4)] else []
  }

  /** What a proper conversation is: with nothing lost, the statuses answer the
      commands one for one and in order, but for the command under way. */
  lemma {:induction false} ProperAnswers(log: seq<Note>)
    requires !Heard(log).Garbled? && forall n | n in log :: !n.Lost?
    ensures Asks(log) == Tells(log) + if Heard(log).Command? then [Heard(log).tag] else []
  {
    if log != [] {
      var before, n := log[..|log| - 1], log[|log| - 1];
      ProperAnswers(before);
      if n.Told? {
        var t := Heard(before);
        var st: byte :| st <= FAILED && n.csw == PackCsw(t.tag, Residue(t.dlen, t.moved), st);
        CswRoundTrip(t.tag, Residue(t.dlen, t.moved), st);
        hide PackCsw, Get32;
      }
    }
  }

  /** Over any run that loses no transfer: one status for each command, of its tag and
      in its order, the last still owing exactly while a command is under way. */
  lemma EachCommandAnswered(d: Dev, es: seq<Event>)
    requires Fresh(d) && forall n | n in After(d, es).log :: !n.Lost?
    ensures var r := After(d, es);
            Asks(r.log) == Tells(r.log) + if Busy(r) then [r.tag] else []
  {
    OneAnswerEach(d, es);
    ProperAnswers(After(d, es).log);
  }

  // ---- the disk

  ghost predicate Unwritten(log: seq<Note>, b: nat) {
    forall i | 0 <= i < |log| && log[i].Touched? && log[i].write :: !(log[i].lba <= b < log[i].lba + log[i].count)
  }

  ghost function Block(d: Dev, b: nat): seq<byte>
    requires Wf(d) && b < d.blocks
  {
    AtSum(d.bs, b, 1);
    AtOrder(d.bs, b + 1, d.blocks);
    d.disk[At(d.bs, b)..At(d.bs, b + 1)]
  }

  /** The notes only grow, and a block no new note says was written keeps its bytes. */
  ghost predicate Keeps(d: Dev, d': Dev, b: nat)
    requires Wf(d) && Wf(d') && b < d.blocks
  {
    SameDrive(d, d') && d.log <= d'.log && (Unwritten(d'.log, b) ==> Block(d', b) == Block(d, b))
  }

  lemma WriteKeeps(d: Dev, data: seq<byte>, b: nat)
    requires Quiet(d) && d.lba + d.left <= d.blocks && b < d.blocks
    requires d.chunk <= Min(d.left, CHUNK_BLOCKS) && |data| <= At(d.bs, d.chunk)
    ensures Wf(WriteChunk(d, data)) && Keeps(d, WriteChunk(d, data), b)
  {
    ChunkInDisk(d, d.chunk);
    var e, k := WriteChunk(d, data), d.chunk;
    WfKept(d, e);
    assert e.log[|d.log|] == Touched(d.lba, k, true);
    AtSum(d.bs, b, 1);
    AtOrder(d.bs, b + 1, d.blocks);
    if b + 1 <= d.lba {
      AtOrder(d.bs, b + 1, d.lba);
    } else if d.lba + k <= b {
      AtOrder(d.bs, d.lba + k, b);
    }
    hide At, WriteChunk, Wf;
    OutsideKept(d.disk, e.disk, At(d.bs, d.lba), At(d.bs, d.lba + k), At(d.bs, b), At(d.bs, b + 1));
  }

  lemma OutsideKept(was: seq<byte>, now: seq<byte>, from: nat, to: nat, a: nat, b: nat)
    requires from <= to <= |was| == |now| && a <= b <= |was|
    requires now[..from] == was[..from] && now[to..] == was[to..]
    ensures b <= from || to <= a ==> now[a..b] == was[a..b]
  {
    if b <= from {
      forall i | a <= i < b ensures now[i] == was[i] {
        assert now[..from][i] == was[..from][i];
      }
    } else if to <= a {
      forall i | a <= i < b ensures now[i] == was[i] {
        assert now[to..][i - to] == was[to..][i - to];
      }
    }
  }

  lemma OutKeeps(d: Dev, data: seq<byte>, b: nat)
    requires Inv(d) && d.outX.Receiving? && d.outX.what.Data? && |data| <= d.outX.len && b < d.blocks
    ensures var d' := OutDone(d.(inX := InNone, outX := OutNone), data);
            Wf(d') && Keeps(d, d', b)
  {
    var q := d.(inX := InNone, outX := OutNone);
    var c := q.(done := q.done + |data|, log := q.log + [Moved(|data|)]);
    WfKept(d, c);
    WriteKeeps(c, data, b);
    var e := WriteChunk(c, data);
    hide WriteChunk, At;
    var d' := OutDone(q, data);
    WfKept(e, d');
    hide Wf, OutDone;
    if Unwritten(d'.log, b) {
      UnwrittenPrefix(e.log, d'.log, b);
    }
  }

  lemma UnwrittenPrefix(log: seq<Note>, log': seq<Note>, b: nat)
    requires log <= log' && Unwritten(log', b)
    ensures Unwritten(log, b)
  {
    assert forall i | 0 <= i < |log| :: log'[i] == log[i];
  }

  /** The disk is as it was, and the notes have only grown. */
  ghost predicate Grows(d: Dev, d': Dev) {
    SameDrive(d, d') && d'.disk == d.disk && d.log <= d'.log
  }

  lemma GoesGrows(d: Dev, e: Dev, d': Dev)
    requires Grows(d, e) && Goes(e, d')
    ensures Grows(d, d')
  {
    hide Wf, Armed;
  }

  lemma SentGrows(d: Dev, n: nat)
    requires Inv(d) && d.inX.Sending?
    ensures d.inX.why.Data? ==> Grows(d, InDone(d.(inX := InNone, outX := OutNone), n))
    ensures d.inX.why.Refused? ==> Grows(d, FailInDone(d.(inX := InNone, outX := OutNone), n))
  {
    var q := d.(inX := InNone, outX := OutNone);
    var e := q.(done := q.done + n, log := q.log + [Moved(n)]);
    WfKept(d, e);
    if d.inX.why.Data? && d.left > 0 {
      ReadChunkGoes(e);
      GoesGrows(d, e, ReadChunk(e));
    }
    hide ReadChunk, Wf, PackCsw;
  }

  lemma GotGrows(d: Dev, data: seq<byte>)
    requires Inv(d) && d.outX.Receiving? && d.outX.what.Refused? && |data| <= d.outX.len
    ensures Grows(d, DiscardDone(d.(inX := InNone, outX := OutNone), data))
  {
    DroppedIs(d, data);
    hide DiscardDone, Wf, PackCsw;
  }

  lemma CbwGrows(d: Dev, data: seq<byte>)
    requires Inv(d) && d.outX.WaitingCbw?
    ensures Grows(d, CbwDone(d.(inX := InNone, outX := OutNone), data))
  {
    hide Get32, Dispatch, Armed, Goes, At;
    if IsCbw(data) {
      var e, cb := Begun(d, data), data[15..31];
      WfKept(d, e);
      BegunIs(d, data);
      DispatchGoes(e, cb);
      hide Wf, CbwDone;
      GoesGrows(d, e, Dispatch(e, cb));
    }
  }

  /** Nothing but a completed data transfer of a write reaches the disk. */
  lemma OtherEventsGrow(d: Dev, e: Event)
    requires Inv(d) && !(e.Got? && d.outX.Receiving? && d.outX.what.Data?)
    ensures Grows(d, Step(d, e))
  {
    if e.Sent? && d.inX.Sending? {
      SentGrows(d, e.n);
    } else if e.Got? && d.outX.WaitingCbw? {
      CbwGrows(d, e.data);
    } else if e.Got? && d.outX.Receiving? && |e.data| <= d.outX.len {
      GotGrows(d, e.data);
    }
    hide InDone, FailInDone, DiscardDone, CbwDone, Wf, Armed;
  }

  lemma StepKeeps(d: Dev, e: Event, b: nat)
    requires Inv(d) && b < d.blocks
    ensures Inv(Step(d, e)) ==> Keeps(d, Step(d, e), b)
  {
    if e.Got? && d.outX.Receiving? && d.outX.what.Data? {
      if |e.data| <= d.outX.len {
        OutKeeps(d, e.data, b);
      }
      hide OutDone, Armed, Wf;
    } else {
      OtherEventsGrow(d, e);
      hide Step, Armed;
    }
  }

  /** Over any run, a block no write note covers is as it was at the start. */
  lemma {:induction false} UnwrittenBlocksStay(d: Dev, es: seq<Event>, b: nat)
    requires Fresh(d) && b < d.blocks
    ensures Keeps(d, After(d, es), b)
  {
    if es != [] {
      var before := After(d, es[..|es| - 1]);
      UnwrittenBlocksStay(d, es[..|es| - 1], b);
      StepKeeps(before, es[|es| - 1], b);
      hide Step, Wf, Armed, Block, Respects, Heard;
      if Unwritten(After(d, es).log, b) {
        UnwrittenPrefix(before.log, After(d, es).log, b);
      }
    }
  }

  // ---- progress

  /** How many completions a command still takes at most. */
  function Rank(d: Dev): nat {
    match d.inX
    case Sending(_, Data) => d.left + 2
    case Sending(_, Refused) => 2
    case SendingCsw(_) => 1
    case InNone =>
      (match d.outX
       case Receiving(_, Data) => d.left + 2
       case Receiving(_, Refused) => d.discardLeft + 2
       case _ => 0)
  }

  /** A transfer of the command completing, with as much as it moved. */
  predicate Completes(d: Dev, e: Event) {
    || (e.Sent? && (d.inX.SendingCsw? || (d.inX.Sending? && e.n <= |d.inX.data|)))
    || (e.Got? && d.outX.Receiving? && |e.data| <= d.outX.len)
  }

  lemma CompletionProgress(d: Dev, e: Event)
    requires Inv(d) && Busy(d) && Completes(d, e)
    ensures Rank(Step(d, e)) < Rank(d)
  {
    hide PackCsw, At, Wf;
  }

  /** The command under way has still not been answered after these completions. */
  ghost predicate Unanswered(d: Dev, es: seq<Event>)
    requires Sound(d)
    decreases |es|
  {
    Busy(d) && (es == [] || (Completes(d, es[0]) && (StepSound(d, es[0]); Unanswered(Step(d, es[0]), es[1..]))))
  }

  /** So however its transfers complete, a command is answered within that many. */
  lemma {:induction false} AnsweredInTime(d: Dev, es: seq<Event>)
    requires Sound(d) && Unanswered(d, es)
    ensures |es| < Rank(d)
    decreases |es|
  {
    if es == [] {
      assert Rank(d) > 0;
    } else {
      StepSound(d, es[0]);
      CompletionProgress(d, es[0]);
      AnsweredInTime(Step(d, es[0]), es[1..]);
    }
  }
}
