/** The bulk pipes between the drive's host and the device: one host transfer is
    carried by as many device transfers as it takes. */
module MscPipes {
  import opened Bytes
  import opened BulkOnly
  import opened MscDevice
  import opened MscProtocol

  /** A host transfer: the device after it, how much of the device's outstanding inward
      transfer is already across, the bytes an inward one brought, and whether it
      ended, rather than timing out or failing. */
  datatype Pipe = Pipe(dev: Dev, taken: nat, data: seq<byte>, ok: bool)

  /** A device transfer that ends in a short packet. */
  predicate Short(n: nat, mps: nat)
    requires mps > 0
  {
    n == 0 || n % mps != 0
  }

  function InData(d: Dev): seq<byte>
    requires !d.inX.InNone?
  {
    if d.inX.Sending? then d.inX.data else d.inX.csw
  }

  /** What the device has outstanding inward, in bytes. */
  function Outstanding(d: Dev): nat {
    if d.inX.InNone? then 0 else |InData(d)|
  }

  /** Whole packets for `n` bytes, and one for none. */
  function RoundUp(n: nat, mps: nat): nat
    requires mps > 0
  {
    if n == 0 then mps else (n + mps - 1) / mps * mps
  }

  /** An inward host transfer with room for `room` more bytes, `acc` of them in: it
      ends full, on a short packet, or, with nothing more to come, when its time is up,
      handing over what there is. Full, it may leave the rest of the device's transfer
      for the next one. */
  function ReadOn(d: Dev, taken: nat, mps: nat, room: nat, acc: seq<byte>): (p: Pipe)
    requires Sound(d) && mps > 0 && taken <= Outstanding(d)
    ensures Sound(p.dev) && p.taken <= Outstanding(p.dev) && acc <= p.data && |p.data| <= |acc| + room
    decreases Rank(d)
  {
    if room == 0 then Pipe(d, taken, acc, true)
    else if d.inX.InNone? then Pipe(d, 0, acc, acc != [])
    else
      var rest := InData(d)[taken..];
      if |rest| > room then Pipe(d, taken + room, acc + rest[..room], true)
      else
        var n := |InData(d)|;
        (StepSound(d, Sent(n)); CompletionProgress(d, Sent(n));
         var d' := Step(d, Sent(n));
         if Short(n, mps) then Pipe(d', 0, acc + rest, true) else ReadOn(d', 0, mps, room - |rest|, acc + rest))
  }

  /** The host's read of `want` bytes: a transfer of whole packets, of which it keeps
      what it wants. */
  function ReadPipe(d: Dev, taken: nat, mps: nat, want: nat): (p: Pipe)
    requires Sound(d) && mps > 0 && taken <= Outstanding(d)
    ensures Sound(p.dev) && p.taken <= Outstanding(p.dev) && |p.data| <= want
  {
    var p := ReadOn(d, taken, mps, RoundUp(want, mps), []);
    p.(data := p.data[..Min(|p.data|, want)])
  }

  /** An outward host transfer: it fills device transfers, and what is left must end
      the last of them. One that runs past a device transfer of less than whole packets
      is not followed further: what a controller does with such a packet is its affair. */
  function WritePipe(d: Dev, mps: nat, data: seq<byte>): (p: Pipe)
    requires Sound(d) && mps > 0
    ensures Sound(p.dev) && p.data == [] && Outstanding(d) <= Outstanding(p.dev)
    ensures d.outX.OutNone? && data != [] ==> p == Pipe(d, 0, [], false)
    decreases |data|
  {
    if data == [] then Pipe(d, 0, [], true)
    else if d.outX.OutNone? then Pipe(d, 0, [], false)
    else
      var len := if d.outX.WaitingCbw? then CBW_LEN else d.outX.len;
      if |data| < len && !Short(|data|, mps) then Pipe(d, 0, [], false)
      else if |data| <= len then (StepSound(d, Got(data)); Pipe(Step(d, Got(data)), 0, [], true))
      else if Short(len, mps) then Pipe(d, 0, [], false)
      else (StepSound(d, Got(data[..len])); WritePipe(Step(d, Got(data[..len])), mps, data[len..]))
  }

  // ---- rounding up

  lemma RoundUpOf(n: nat, mps: nat, q: nat, r: nat)
    requires mps > 0 && n == q * mps + r && 0 < r <= mps
    ensures RoundUp(n, mps) == q * mps + mps
  {
    DivModOf(n + mps - 1, mps, q + 1, r - 1);
  }

  /** As many packets as it takes: all of `n`, and less than a packet more. */
  lemma RoundUpIs(n: nat, mps: nat)
    requires mps > 0 && n > 0
    ensures n <= RoundUp(n, mps) < n + mps && (RoundUp(n, mps) == n <==> !Short(n, mps))
  {
    var q, r := n / mps, n % mps;
    if r == 0 {
      NonzeroMultiple(q, mps);
      RoundUpOf(n, mps, q - 1, mps);
    } else {
      RoundUpOf(n, mps, q, r);
    }
    hide RoundUp;
  }

  /** Whole packets taken off leave what the rest rounds up to. */
  lemma RoundUpAfter(m: nat, n: nat, mps: nat)
    requires mps > 0 && n > 0 && !Short(m, mps)
    ensures RoundUp(m + n, mps) == m + RoundUp(n, mps)
    ensures Short(m + n, mps) == Short(n, mps)
  {
    hide RoundUp;
    var k, q, r := m / mps, n / mps, n % mps;
    Distribute(k, q, mps);
    DivModOf(m + n, mps, k + q, r);
    if r == 0 {
      RoundUpIs(n, mps);
      RoundUpIs(m + n, mps);
    } else {
      RoundUpOf(n, mps, q, r);
      RoundUpOf(m + n, mps, k + q, r);
    }
  }

  lemma Distribute(a: nat, b: nat, c: nat)
    ensures (a + b) * c == a * c + b * c
  {
  }

  // ---- one device transfer of a read

  /** The device's next transfer, whole, in a read with room for it. */
  lemma ReadOnNext(d: Dev, mps: nat, room: nat, acc: seq<byte>)
    requires Sound(d) && mps > 0 && room > 0 && !d.inX.InNone? && |InData(d)| <= room
    ensures var data, d' := InData(d), Step(d, Sent(|InData(d)|));
            && Sound(d')
            && ReadOn(d, 0, mps, room, acc)
               == if Short(|data|, mps) then Pipe(d', 0, acc + data, true)
                  else ReadOn(d', 0, mps, room - |data|, acc + data)
  {
    StepSound(d, Sent(|InData(d)|));
    assert InData(d)[0..] == InData(d);
    hide Step, Sound;
  }

  /** What is left of it, in a read with room for that. */
  lemma ReadOnRest(d: Dev, taken: nat, mps: nat, room: nat, acc: seq<byte>)
    requires Sound(d) && mps > 0 && room > 0 && !d.inX.InNone? && taken <= |InData(d)| <= taken + room
    ensures var data, d' := InData(d), Step(d, Sent(|InData(d)|));
            && Sound(d')
            && ReadOn(d, taken, mps, room, acc)
               == if Short(|data|, mps) then Pipe(d', 0, acc + data[taken..], true)
                  else ReadOn(d', 0, mps, room + taken - |data|, acc + data[taken..])
  {
    StepSound(d, Sent(|InData(d)|));
    hide Step, Sound;
  }

  /** Nothing outstanding: what came before is handed over. */
  lemma ReadOnNothing(d: Dev, mps: nat, room: nat, acc: seq<byte>)
    requires Sound(d) && mps > 0 && room > 0 && d.inX.InNone?
    ensures ReadOn(d, 0, mps, room, acc) == Pipe(d, 0, acc, acc != [])
  {
  }

  lemma ReadOnFull(d: Dev, mps: nat, acc: seq<byte>)
    requires Sound(d) && mps > 0
    ensures ReadOn(d, 0, mps, 0, acc) == Pipe(d, 0, acc, true)
  {
  }

  /** The last of what is wanted: full or on a short packet, the read ends with it. */
  lemma ReadOnLast(d: Dev, mps: nat, acc: seq<byte>)
    requires Sound(d) && mps > 0 && !d.inX.InNone? && InData(d) != []
    ensures var data, d' := InData(d), Step(d, Sent(|InData(d)|));
            Sound(d') && ReadOn(d, 0, mps, RoundUp(|data|, mps), acc) == Pipe(d', 0, acc + data, true)
  {
    var n := |InData(d)|;
    RoundUpIs(n, mps);
    hide Sound, Step, Short, RoundUp;
    ReadOnNext(d, mps, RoundUp(n, mps), acc);
    if !Short(n, mps) {
      ReadOnFull(Step(d, Sent(n)), mps, acc + InData(d));
    }
  }

  /** A read of exactly the device's next transfer. */
  lemma ReadPipeWhole(d: Dev, mps: nat)
    requires Sound(d) && mps > 0 && !d.inX.InNone? && InData(d) != []
    ensures var data, d' := InData(d), Step(d, Sent(|InData(d)|));
            Sound(d') && ReadPipe(d, 0, mps, |data|) == Pipe(d', 0, data, true)
  {
    hide Sound, Step, RoundUp, ReadOn;
    ReadOnLast(d, mps, []);
    assert [] + InData(d) == InData(d) && InData(d)[..|InData(d)|] == InData(d);
  }

  /** A read of more than that, when it ends in a short packet. */
  lemma ReadPipeShort(d: Dev, mps: nat, want: nat)
    requires Sound(d) && mps > 0 && !d.inX.InNone? && InData(d) != []
    requires |InData(d)| < want && Short(|InData(d)|, mps)
    ensures var data, d' := InData(d), Step(d, Sent(|InData(d)|));
            Sound(d') && ReadPipe(d, 0, mps, want) == Pipe(d', 0, data, true)
  {
    RoundUpIs(want, mps);
    hide Sound, Step, RoundUp, Short;
    ReadOnNext(d, mps, RoundUp(want, mps), []);
    assert [] + InData(d) == InData(d) && InData(d)[..|InData(d)|] == InData(d);
  }

  // ---- a read's data phase

  /** The same drive, with the same command under way. */
  ghost predicate SameCommand(d: Dev, d': Dev) {
    SameDrive(d, d') && d'.open == d.open && d'.ejected == d.ejected && d'.tag == d.tag && d'.dlen == d.dlen
    && d'.sense == d.sense
  }

  /** The status wrapper of the command is on its way, with so many bytes moved. */
  ghost predicate Answering(d: Dev, d': Dev, moved: nat, status: byte) {
    SameCommand(d, d') && d'.inX == SendingCsw(PackCsw(d.tag, Residue(d.dlen, moved), status)) && d'.outX.OutNone?
  }

  ghost function Range(d: Dev, from: nat, to: nat): (r: seq<byte>)
    requires Wf(d) && from <= to <= d.blocks
    ensures |r| == At(d.bs, to) - At(d.bs, from)
  {
    AtOrder(d.bs, from, to);
    AtOrder(d.bs, to, d.blocks);
    d.disk[At(d.bs, from)..At(d.bs, to)]
  }

  lemma RangeSplit(d: Dev, from: nat, mid: nat, to: nat)
    requires Wf(d) && from <= mid <= to <= d.blocks
    ensures Range(d, from, to) == Range(d, from, mid) + Range(d, mid, to)
  {
    AtOrder(d.bs, from, mid);
    AtOrder(d.bs, mid, to);
    AtOrder(d.bs, to, d.blocks);
    hide At, Wf;
  }

  /** Blocks `from` to the current one are on their way, and those up to `to` follow. */
  ghost predicate Reading(d: Dev, from: nat, to: nat) {
    && Sound(d) && from < d.lba && to == d.lba + d.left <= d.blocks
    && d.inX == Sending(Range(d, from, d.lba), Data)
    && (d.left > 0 ==> d.lba == from + CHUNK_BLOCKS)
  }

  /** A chunk delivered with none to follow: the status comes next. */
  lemma LastChunk(d: Dev, from: nat, to: nat)
    requires Reading(d, from, to) && d.left == 0
    ensures var n := |InData(d)|;
            && Answering(d, Step(d, Sent(n)), d.done + n, PASSED) && Step(d, Sent(n)).disk == d.disk
  {
    hide Wf, Armed, Heard, Respects, Range, PackCsw;
  }

  /** A chunk delivered with more to follow: the next chunk comes next. */
  lemma NextChunk(d: Dev, from: nat, to: nat)
    requires Reading(d, from, to) && d.left > 0
    ensures var n := |InData(d)|;
            var d' := Step(d, Sent(n));
            && n == At(d.bs, CHUNK_BLOCKS) && Reading(d', d.lba, to) && SameCommand(d, d') && d'.disk == d.disk
            && d'.done == d.done + n && d'.left < d.left && Wf(d') && SameDrive(d, d')
  {
    AtSum(d.bs, from, CHUNK_BLOCKS);
    var n := |InData(d)|;
    StepSound(d, Sent(n));
    var e := d.(inX := InNone, outX := OutNone, done := d.done + n, log := d.log + [Moved(n)]);
    WfKept(d, e);
    assert Step(d, Sent(n)) == ReadChunk(e);
    ChunkRange(e);
    hide Wf, Armed, Heard, Respects, At, Step;
  }

  lemma ChunkRange(d: Dev)
    requires Wf(d) && d.left > 0 && d.lba + d.left <= d.blocks
    ensures var k, d' := Min(d.left, CHUNK_BLOCKS), ReadChunk(d);
            && Wf(d') && d'.inX == Sending(Range(d', d.lba, d.lba + k), Data)
            && d'.lba == d.lba + k && d'.left == d.left - k
  {
    ChunkInDisk(d, Min(d.left, CHUNK_BLOCKS));
    WfKept(d, ReadChunk(d));
  }

  /** The host has read just these bytes on top of `acc`, and the status is next. */
  ghost predicate HasRead(d: Dev, p: Pipe, acc: seq<byte>, data: seq<byte>) {
    p.ok && p.data == acc + data && p.taken == 0 && Answering(d, p.dev, d.done + |data|, PASSED) && p.dev.disk == d.disk
  }

  lemma HasReadMore(d: Dev, d': Dev, p: Pipe, acc: seq<byte>, a: seq<byte>, b: seq<byte>)
    requires SameCommand(d, d') && d'.disk == d.disk && d'.done == d.done + |a| && HasRead(d', p, acc + a, b)
    ensures HasRead(d, p, acc, a + b)
  {
    hide PackCsw;
    assert acc + a + b == acc + (a + b);
  }

  /** A host read of exactly the blocks asked for gets exactly them, through however
      many chunks, and the status wrapper is next. */
  lemma {:induction false} ReadsThrough(d: Dev, mps: nat, from: nat, to: nat, acc: seq<byte>)
    requires Wf(d) && from <= to <= d.blocks && Sound(d) && Reading(d, from, to) && mps > 0
    requires d.left > 0 ==> !Short(At(d.bs, CHUNK_BLOCKS), mps)
    ensures HasRead(d, ReadOn(d, 0, mps, RoundUp(|Range(d, from, to)|, mps), acc), acc, Range(d, from, to))
    decreases d.left
  {
    hide Sound, Wf, At, Range, ReadOn, RoundUp, Step, Short, Answering, SameCommand, PackCsw;
    ReadingRange(d, from, to);
    var data, rest := InData(d), Range(d, d.lba, to);
    var d' := Step(d, Sent(|data|));
    if d.left == 0 {
      LastChunk(d, from, to);
      ReadOnLast(d, mps, acc);
    } else {
      NextChunk(d, from, to);
      ReadingRange(d', d.lba, to);
      NextRange(d, d', d.lba, to);
      RoundUpAfter(|data|, |rest|, mps);
      RoundUpIs(|rest|, mps);
      hide Reading;
      ReadOnNext(d, mps, RoundUp(|data| + |rest|, mps), acc);
      hide HasRead, InData;
      ReadsThrough(d', mps, d.lba, to, acc + data);
      HasReadMore(d, d', ReadOn(d', 0, mps, RoundUp(|rest|, mps), acc + data), acc, data, rest);
    }
  }

  /** As the host's read of them. */
  lemma ReadsRange(d: Dev, mps: nat, from: nat, to: nat)
    requires Wf(d) && from <= to <= d.blocks && Sound(d) && Reading(d, from, to) && mps > 0
    requires d.left > 0 ==> !Short(At(d.bs, CHUNK_BLOCKS), mps)
    ensures HasRead(d, ReadPipe(d, 0, mps, |Range(d, from, to)|), [], Range(d, from, to))
  {
    ReadsThrough(d, mps, from, to, []);
    hide Sound, Wf, At, Range, ReadOn, RoundUp, Reading, Short, Answering, SameCommand;
    assert [] + Range(d, from, to) == Range(d, from, to);
    assert Range(d, from, to)[..|Range(d, from, to)|] == Range(d, from, to);
  }

  /** The chunk under way is the first of what is wanted, and not nothing. */
  lemma ReadingRange(d: Dev, from: nat, to: nat)
    requires Reading(d, from, to)
    ensures Wf(d) && Inv(d) && from < d.lba <= to <= d.blocks && Sound(d) && d.inX.Sending?
    ensures Range(d, from, to) == InData(d) + Range(d, d.lba, to) && InData(d) != []
    ensures d.left == 0 ==> Range(d, from, to) == InData(d)
  {
    RangeSplit(d, from, d.lba, to);
    AtOrder(d.bs, from, d.lba);
    hide At, Armed, Respects, Heard;
  }

  lemma NextRange(d: Dev, d': Dev, from: nat, to: nat)
    requires Wf(d) && Wf(d') && SameDrive(d, d') && d'.disk == d.disk && from <= to <= d.blocks
    ensures Range(d', from, to) == Range(d, from, to)
  {
  }

  // ---- a write's data phase

  lemma WritePipeNext(d: Dev, mps: nat, data: seq<byte>, len: nat)
    requires Sound(d) && mps > 0 && data != [] && d.outX.Receiving? && len == d.outX.len
    ensures |data| == len ==>
              Sound(Step(d, Got(data))) && WritePipe(d, mps, data) == Pipe(Step(d, Got(data)), 0, [], true)
    ensures |data| > len && !Short(len, mps) ==>
              Sound(Step(d, Got(data[..len])))
              && WritePipe(d, mps, data) == WritePipe(Step(d, Got(data[..len])), mps, data[len..])
  {
    if |data| == len {
      StepSound(d, Got(data));
    } else if |data| > len {
      StepSound(d, Got(data[..len]));
    }
    hide Step, Sound, Short;
  }

  /** The drive waits for the next chunk of the blocks from the current one to `to`. */
  ghost predicate Writing(d: Dev, to: nat) {
    && Sound(d) && d.lba < to == d.lba + d.left <= d.blocks
    && d.outX.Receiving? && d.outX.what.Data?
  }

  /** What a chunk is when it has arrived whole. */
  lemma WholeChunk(d: Dev, data: seq<byte>)
    requires Wf(d) && d.chunk == Min(d.left, CHUNK_BLOCKS) && d.lba + d.left <= d.blocks && |data| == At(d.bs, d.chunk)
    ensures At(d.bs, d.lba) + |data| <= |d.disk|
    ensures WriteChunk(d, data).disk == Overwrite(d.disk, At(d.bs, d.lba), data)
  {
    ChunkInDisk(d, d.chunk);
    assert Overwrite(d.buf, 0, data)[..|data|] == data;
  }

  lemma WholeChunkStep(d: Dev, to: nat, data: seq<byte>)
    requires Writing(d, to) && |data| == d.outX.len
    ensures At(d.bs, d.lba) + |data| <= |d.disk| && d.chunk == Min(d.left, CHUNK_BLOCKS) && |data| == At(d.bs, d.chunk)
    ensures var d' := Step(d, Got(data));
            && d'.disk == Overwrite(d.disk, At(d.bs, d.lba), data) && SameCommand(d, d')
            && d'.done == d.done + |data| && d'.lba == d.lba + d.chunk && d'.left == d.left - d.chunk
            && if d'.left > 0
               then d'.inX.InNone? && d'.outX.Receiving? && d'.outX.what.Data?
               else Answering(d, d', d.done + |data|, PASSED)
  {
    var q := d.(inX := InNone, outX := OutNone);
    var c := q.(done := q.done + |data|, log := q.log + [Moved(|data|)]);
    WfKept(d, c);
    WholeChunk(c, data);
    hide Wf, Respects, Heard, Overwrite, At, PackCsw;
  }

  lemma OverwriteTwice(s: seq<byte>, at: nat, a: seq<byte>, b: seq<byte>)
    requires at + |a| + |b| <= |s|
    ensures Overwrite(Overwrite(s, at, a), at + |a|, b) == Overwrite(s, at, a + b)
  {
  }

  /** These bytes are on the disk from `at`, and the status is next. */
  ghost predicate HasWritten(d: Dev, p: Pipe, at: nat, data: seq<byte>) {
    && p.ok && Answering(d, p.dev, d.done + |data|, PASSED)
    && at + |data| <= |d.disk| && p.dev.disk == Overwrite(d.disk, at, data)
  }

  lemma HasWrittenMore(d: Dev, d': Dev, p: Pipe, at: nat, a: seq<byte>, b: seq<byte>)
    requires SameCommand(d, d') && at + |a| <= |d.disk| && d'.disk == Overwrite(d.disk, at, a)
             && d'.done == d.done + |a|
    requires HasWritten(d', p, at + |a|, b)
    ensures HasWritten(d, p, at, a + b)
  {
    OverwriteTwice(d.disk, at, a, b);
    hide PackCsw;
  }

  /** A host write of exactly the blocks announced puts exactly them on the disk,
      through however many chunks, and the status wrapper is next. */
  lemma {:induction false} WritesThrough(d: Dev, mps: nat, to: nat, data: seq<byte>)
    requires Sound(d) && Inv(d) && Writing(d, to) && mps > 0 && |data| == At(d.bs, to) - At(d.bs, d.lba)
    requires d.left > CHUNK_BLOCKS ==> !Short(At(d.bs, CHUNK_BLOCKS), mps)
    ensures HasWritten(d, WritePipe(d, mps, data), At(d.bs, d.lba), data)
    decreases d.left
  {
    hide Sound, Inv, Wf, At, WritePipe, Step, Short, Answering, SameCommand, PackCsw, Overwrite;
    WritingRange(d, to);
    var len := d.outX.len;
    WritePipeNext(d, mps, data, len);
    if d.left <= CHUNK_BLOCKS {
      WholeChunkStep(d, to, data);
    } else {
      var a, b := data[..len], data[len..];
      WholeChunkStep(d, to, a);
      var d' := Step(d, Got(a));
      StillWriting(d, d', to);
      assert a + b == data;
      hide HasWritten, Writing;
      WritesThrough(d', mps, to, b);
      HasWrittenMore(d, d', WritePipe(d', mps, b), At(d.bs, d.lba), a, b);
    }
  }

  lemma StillWriting(d: Dev, d': Dev, to: nat)
    requires Sound(d') && SameCommand(d, d') && d'.outX.Receiving? && d'.outX.what.Data?
             && d'.lba < to == d'.lba + d'.left
    requires to <= d.blocks
    ensures Writing(d', to) && Inv(d') && d'.bs == d.bs
  {
    hide Inv, Respects, Heard;
  }

  lemma WritingRange(d: Dev, to: nat)
    requires Writing(d, to)
    ensures Inv(d) && Sound(d) && At(d.bs, to) <= |d.disk| && At(d.bs, d.lba) < At(d.bs, to)
    ensures d.chunk == Min(d.left, CHUNK_BLOCKS) && d.outX.len == At(d.bs, d.chunk)
    ensures d.left <= CHUNK_BLOCKS ==> At(d.bs, to) == At(d.bs, d.lba) + d.outX.len
    ensures d.left > CHUNK_BLOCKS ==> d.chunk == CHUNK_BLOCKS
                                      && At(d.bs, d.lba + CHUNK_BLOCKS) == At(d.bs, d.lba) + d.outX.len
                                      && At(d.bs, d.lba + CHUNK_BLOCKS) < At(d.bs, to)
  {
    AtOrder(d.bs, to, d.blocks);
    AtOrder(d.bs, d.lba, to);
    AtSum(d.bs, d.lba, d.chunk);
    if d.left > CHUNK_BLOCKS {
      AtOrder(d.bs, d.lba + CHUNK_BLOCKS, to);
    }
    hide At, Respects, Heard;
  }

  // ---- a refused command's data phase

  /** What is being dropped has arrived: more of it, or the status, comes next. */
  lemma DroppedStep(d: Dev, data: seq<byte>)
    requires Sound(d) && d.outX.Receiving? && d.outX.what.Refused? && |data| == d.outX.len
    ensures var d' := Step(d, Got(data));
            && d'.disk == d.disk && SameCommand(d, d') && d'.done == d.done + |data| && |d'.buf| == |d.buf|
            && d'.discardLeft == d.discardLeft - |data| && 0 < |data|
            && if d'.discardLeft > 0 then d'.outX.Receiving? && d'.outX.what.Refused?
               else Answering(d, d', d.done + |data|, FAILED)
  {
    BufferHolds(d);
    DroppedIs(d, data);
    hide Wf, Respects, Heard, Overwrite, PackCsw, DiscardDone;
  }

  ghost predicate HasDropped(d: Dev, p: Pipe, n: nat) {
    p.ok && Answering(d, p.dev, d.done + n, FAILED) && p.dev.disk == d.disk
  }

  /** All the data of a refused write is taken and dropped, and the disk stays. */
  lemma {:induction false} DropsThrough(d: Dev, mps: nat, data: seq<byte>)
    requires Sound(d) && Inv(d) && d.outX.Receiving? && d.outX.what.Refused? && |data| == d.discardLeft && mps > 0
    requires |data| > |d.buf| ==> !Short(|d.buf|, mps)
    ensures HasDropped(d, WritePipe(d, mps, data), |data|)
    decreases |data|
  {
    BufferHolds(d);
    var len := d.outX.len;
    assert len == Min(|data|, |d.buf|);
    hide Sound, Wf, At, WritePipe, Step, Short, Answering, SameCommand, PackCsw, HasDropped, Inv;
    WritePipeNext(d, mps, data, len);
    if |data| == len {
      DroppedStep(d, data);
      DroppedAll(d, WritePipe(d, mps, data), |data|);
    } else {
      var a, b := data[..len], data[len..];
      DroppedStep(d, a);
      var d' := Step(d, Got(a));
      SoundInv(d');
      DropsThrough(d', mps, b);
      HasDroppedMore(d, d', WritePipe(d', mps, b), len, |b|);
    }
  }

  lemma DroppedAll(d: Dev, p: Pipe, n: nat)
    requires p.ok && Answering(d, p.dev, d.done + n, FAILED) && p.dev.disk == d.disk
    ensures HasDropped(d, p, n)
  {
  }

  lemma HasDroppedMore(d: Dev, d': Dev, p: Pipe, a: nat, b: nat)
    requires SameCommand(d, d') && d'.disk == d.disk && d'.done == d.done + a && HasDropped(d', p, b)
    ensures HasDropped(d, p, a + b)
  {
    hide PackCsw;
  }

  lemma SoundInv(d: Dev)
    requires Sound(d)
    ensures Inv(d)
  {
  }

  /** The zeros of a refused read, delivered. */
  lemma ZerosStep(d: Dev)
    requires Sound(d) && d.inX.Sending? && d.inX.why.Refused?
    ensures var n := |InData(d)|;
            var d' := Step(d, Sent(n));
            Answering(d, d', d.done + n, FAILED) && d'.disk == d.disk
  {
    hide Wf, Armed, Heard, Respects, PackCsw;
  }
}
