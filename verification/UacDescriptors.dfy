/** The UAC2 descriptors of packages/usb-device-audio against the parser of
    packages/usb-host-audio/usb/host/_uac.py. */
module UacDescriptors {
  import opened Bytes
  import opened Descriptors

  const CLASS_AUDIO: byte := 0x01
  const AUDIOCONTROL: byte := 0x01
  const AUDIOSTREAMING: byte := 0x02
  const AC_HEADER: byte := 0x01
  const AC_INPUT_TERMINAL: byte := 0x02
  const AC_OUTPUT_TERMINAL: byte := 0x03
  const AC_CLOCK_SOURCE: byte := 0x0A
  const AS_GENERAL: byte := 0x01
  const AS_FORMAT_TYPE: byte := 0x02

  datatype Sync = NoSync | Async | Adaptive | Sync

  /** One streaming alternate; `endpoint` is None until one that carries audio is seen. */
  datatype Stream = Stream(itf: byte, alt: byte, endpoint: Option<byte>, rates: seq<nat>, channels: nat, bits: nat,
                           subslot: nat, maxPacket: nat, interval: nat, sync: Sync, terminal: Option<byte>,
                           clock: byte, control: byte)

  predicate IsOut(s: Stream) {
    s.endpoint.Some? && s.endpoint.value < 0x80
  }

  // ---- the parser

  datatype Scan = Scan(itf: byte, alt: byte, pending: Option<Stream>, control: byte, inControl: bool, uac2: bool,
                       clocks: seq<byte>, terminals: map<byte, byte>, found: seq<Stream>)

  function Fresh(): Scan {
    Scan(0, 0, None, 0, false, false, [], map[], [])
  }

  predicate IsAudio(d: seq<byte>, subclass: byte)
    requires IsInterface(d)
  {
    d[5] == CLASS_AUDIO && d[6] == subclass
  }

  /** What was pending is found once another interface begins, or the blob ends. */
  function Flushed(s: Scan): Scan {
    if s.pending.Some? then s.(found := s.found + [s.pending.value], pending := None) else s
  }

  function InterfaceStep(s: Scan, d: seq<byte>): Scan
    requires IsInterface(d)
  {
    var f := Flushed(s);
    var control := if IsAudio(d, AUDIOCONTROL) then d[2] else f.control;
    f.(itf := d[2], alt := d[3], inControl := IsAudio(d, AUDIOCONTROL), control := control,
       pending := if IsAudio(d, AUDIOSTREAMING) && d[3] != 0
                  then Some(Stream(d[2], d[3], None, [], 0, 0, 0, 0, 0, NoSync, None, 0, control))
                  else None)
  }

  function ControlStep(s: Scan, d: seq<byte>): Scan
    requires |d| >= 3
  {
    if d[2] == AC_HEADER && |d| >= 5 then s.(uac2 := d[4] == 2)
    else if s.uac2 && d[2] == AC_CLOCK_SOURCE && |d| >= 4 then s.(clocks := s.clocks + [d[3]])
    else if s.uac2 && d[2] == AC_INPUT_TERMINAL && |d| >= 8 then s.(terminals := s.terminals[d[3] := d[7]])
    else if s.uac2 && d[2] == AC_OUTPUT_TERMINAL && |d| >= 9 then s.(terminals := s.terminals[d[3] := d[8]])
    else s
  }

  /** _rates: three-byte rates of a 1.0 FORMAT_TYPE. */
  function Rates(d: seq<byte>, at: nat, left: nat): seq<nat>
    decreases left
  {
    if left == 0 || at + 3 > |d| then []
    else [d[at] as int + d[at + 1] as int * 256 + d[at + 2] as int * 0x1_0000] + Rates(d, at + 3, left - 1)
  }

  function FormatStep(s: Stream, uac2: bool, d: seq<byte>): Stream
    requires |d| >= 3
  {
    if d[2] == AS_GENERAL then
      if uac2 && |d| >= 16 then s.(terminal := Some(d[3]), channels := d[10])
      else if |d| >= 7 then s.(terminal := Some(d[3]))
      else s
    else if d[2] == AS_FORMAT_TYPE then
      if uac2 && |d| >= 6 then s.(subslot := d[4], bits := d[5])
      else if |d| >= 8 then
        s.(channels := d[4], subslot := d[5], bits := d[6],
           rates := Rates(d, 8, if d[7] == 0 then 2 else d[7]))
      else s
    else s
  }

  /** An isochronous endpoint that is not feedback is the stream's. */
  function EndpointStep(s: Stream, d: seq<byte>): Stream
    requires |d| >= 7
  {
    if d[3] as int % 4 != 1 || d[3] as int / 16 % 4 == 1 then s
    else
      var sync := d[3] as int / 4 % 4;
      s.(endpoint := Some(d[2]), maxPacket := Get16(d, 4), interval := d[6],
         sync := if sync == 1 then Async else if sync == 2 then Adaptive else if sync == 3 then Sync else NoSync)
  }

  function Step(s: Scan, d: seq<byte>): Scan
    requires |d| >= 2
  {
    if IsInterface(d) then InterfaceStep(s, d)
    else if s.inControl && d[1] == DT_CS_INTERFACE && |d| >= 3 then ControlStep(s, d)
    else if s.pending.None? then s
    else if d[1] == DT_CS_INTERFACE && |d| >= 3 then s.(pending := Some(FormatStep(s.pending.value, s.uac2, d)))
    else if d[1] == DT_ENDPOINT && |d| >= 7 then s.(pending := Some(EndpointStep(s.pending.value, d)))
    else s
  }

  function ScanAll(s: Scan, ds: seq<seq<byte>>): Scan
    requires forall d | d in ds :: Wellformed(d)
    decreases |ds|
  {
    if ds == [] then s else (assert Wellformed(ds[0]); ScanAll(Step(s, ds[0]), ds[1..]))
  }

  /** The clock a 2.0 stream's terminal names, or else the first there is. */
  function ClockOf(s: Scan, stream: Stream): byte {
    if stream.terminal.Some? && stream.terminal.value in s.terminals && s.terminals[stream.terminal.value] != 0
    then s.terminals[stream.terminal.value]
    else if s.clocks != [] then s.clocks[0] else 0
  }

  /** The alternates that carry audio, each with its clock. */
  function Carrying(s: Scan, found: seq<Stream>): seq<Stream> {
    if found == [] then []
    else
      var stream := found[|found| - 1];
      Carrying(s, found[..|found| - 1])
      + if stream.endpoint.None? then [] else [if s.uac2 then stream.(clock := ClockOf(s, stream)) else stream]
  }

  function StreamsOf(blob: seq<byte>): seq<Stream> {
    var s := Flushed(ScanAll(Fresh(), Walk(blob)));
    Carrying(s, s.found)
  }

  /** streams(). */
  method Streams(blob: seq<byte>) returns (r: seq<Stream>)
    ensures r == StreamsOf(blob)
  {
    hide Step, Carrying, Flushed;
    var s := Fresh();
    var offset := 0;
    assert blob[0..] == blob;
    var more := true;
    while more && offset + 2 <= |blob|
      invariant 0 <= offset <= |blob|
      invariant ScanAll(s, Walk(blob[offset..])) == ScanAll(Fresh(), Walk(blob))
      invariant !more ==> Walk(blob[offset..]) == []
      decreases |blob| - offset + if more then 1 else 0
    {
      var len := blob[offset] as int;
      if len < 2 || offset + len > |blob| {
        more := false;
      } else {
        WalkNext(blob, offset);
        s := Step(s, blob[offset..offset + len]);
        offset := offset + len;
      }
    }
    assert Walk(blob[offset..]) == [];
    s := Flushed(s);
    r := FillClocks(s);
  }

  method FillClocks(s: Scan) returns (r: seq<Stream>)
    ensures r == Carrying(s, s.found)
  {
    hide ClockOf;
    r := [];
    var i := 0;
    while i < |s.found|
      invariant 0 <= i <= |s.found| && r == Carrying(s, s.found[..i])
    {
      assert s.found[..i + 1][..i] == s.found[..i];
      var stream := s.found[i];
      if stream.endpoint.Some? {
        r := r + [if s.uac2 then stream.(clock := ClockOf(s, stream)) else stream];
      }
      i := i + 1;
    }
    assert s.found[..i] == s.found;
  }

  // ---- the printer

  const INPUT_ID: byte := 1
  const FEATURE_ID: byte := 2
  const OUTPUT_ID: byte := 3
  const CLOCK_ID: byte := 4

  datatype Speaker = Speaker(rate: nat, channels: nat, sampleBytes: nat, highSpeed: bool, packet: nat)

  /** What fits the descriptors' fields. */
  predicate Printable(k: Speaker) {
    0 < k.channels <= 61 && 0 < k.sampleBytes <= 31 && k.packet < 0x1_0000 && 0 < k.rate < TWO32
  }

  /** One frame's worth of samples and one sample more. */
  function PacketOf(rate: nat, channels: nat, sampleBytes: nat, highSpeed: bool): nat {
    (rate / (if highSpeed then 8000 else 1000) + 1) * (channels * sampleBytes)
  }

  /** It holds the frames a slot of the bus brings, however they fall: slots are 125 us
      at high speed and 1 ms at full speed. */
  lemma PacketHolds(rate: nat, channels: nat, sampleBytes: nat, highSpeed: bool, frames: nat)
    requires var slots := if highSpeed then 8000 else 1000;
             frames > 0 && (frames - 1) * slots <= rate < frames * slots
    ensures PacketOf(rate, channels, sampleBytes, highSpeed) == frames * (channels * sampleBytes)
  {
    var slots := if highSpeed then 8000 else 1000;
    assert rate / slots == frames - 1;
  }

  function Controls(n: nat): (r: seq<byte>)
    ensures |r| == 4 * n
  {
    if n == 0 then [] else LE32(0x0F) + Controls(n - 1)
  }

  function FeatureUnit(k: Speaker): (d: seq<byte>)
    requires Printable(k)
    ensures Wellformed(d) && |d| >= 3 && d[1] == DT_CS_INTERFACE && d[2] == 0x06
  {
    [6 + 4 * (k.channels + 1), DT_CS_INTERFACE, 0x06, FEATURE_ID, INPUT_ID] + Controls(k.channels + 1) + [0]
  }

  /** The association and the control interface with its clock and terminals. */
  function ControlDescs(k: Speaker, itf: byte, istr: byte): (ds: seq<seq<byte>>)
    requires Printable(k) && itf < 255
    ensures forall d | d in ds :: Wellformed(d)
  {
    [[8, DT_IAD, itf, 2, 0x01, 0x00, 0x20, 0],
     [9, DT_INTERFACE, itf, 0, 0, CLASS_AUDIO, AUDIOCONTROL, 0x20, istr],
     [9, DT_CS_INTERFACE, AC_HEADER] + LE16(0x0200) + [0x01] + LE16(64) + [0],
     [8, DT_CS_INTERFACE, AC_CLOCK_SOURCE, CLOCK_ID, 0x03, 0x07, INPUT_ID, 0],
     [17, DT_CS_INTERFACE, AC_INPUT_TERMINAL, INPUT_ID] + LE16(0x0101)
       + [0, CLOCK_ID, k.channels, 0, 0, 0, 0, 0, 0, 0, 0],
     [12, DT_CS_INTERFACE, AC_OUTPUT_TERMINAL, OUTPUT_ID] + LE16(0x0304) + [INPUT_ID, FEATURE_ID, CLOCK_ID, 0, 0, 0],
     FeatureUnit(k)]
  }

  /** The streaming interface: the silent alternate and the one with the audio and its
      feedback. */
  function StreamingDescs(k: Speaker, itf: byte, ep: byte): (ds: seq<seq<byte>>)
    requires Printable(k) && itf < 255 && ep < 0x80
    ensures forall d | d in ds :: Wellformed(d)
  {
    [[9, DT_INTERFACE, itf + 1, 0, 0, CLASS_AUDIO, AUDIOSTREAMING, 0x20, 0],
     [9, DT_INTERFACE, itf + 1, 1, 2, CLASS_AUDIO, AUDIOSTREAMING, 0x20, 0],
     [16, DT_CS_INTERFACE, AS_GENERAL, INPUT_ID, 0, 0x01, 1, 0, 0, 0, k.channels, 0, 0, 0, 0, 0],
     [6, DT_CS_INTERFACE, AS_FORMAT_TYPE, 0x01, k.sampleBytes, k.sampleBytes * 8],
     [7, DT_ENDPOINT, ep, 0x05] + LE16(k.packet) + [1],
     [8, DT_CS_ENDPOINT, 0x01, 0x00, 0x00, 0x01, 0x01, 0x00],
     [7, DT_ENDPOINT, ep + 0x80, 0x11] + LE16(if k.highSpeed then 4 else 3) + [if k.highSpeed then 4 else 1]]
  }

  function SpeakerDescs(k: Speaker, itf: byte, ep: byte, istr: byte): (ds: seq<seq<byte>>)
    requires Printable(k) && itf < 255 && ep < 0x80
    ensures forall d | d in ds :: Wellformed(d)
  {
    ControlDescs(k, itf, istr) + StreamingDescs(k, itf, ep)
  }

  // ---- the round trip

  /** The one stream a speaker is: outward, with its channels, bits, packet and clock. */
  function StreamInfo(k: Speaker, itf: byte, ep: byte): Stream
    requires Printable(k) && itf < 255
  {
    Stream(itf + 1, 1, Some(ep), [], k.channels, k.sampleBytes * 8, k.sampleBytes, k.packet, 1, Async,
           Some(INPUT_ID), CLOCK_ID, itf)
  }

  lemma {:induction false} ScanAppend(s: Scan, a: seq<seq<byte>>, b: seq<seq<byte>>)
    requires (forall d | d in a :: Wellformed(d)) && forall d | d in b :: Wellformed(d)
    ensures forall d | d in a + b :: Wellformed(d)
    ensures ScanAll(s, a + b) == ScanAll(ScanAll(s, a), b)
    decreases |a|
  {
    hide Step;
    if a == [] {
      assert a + b == b;
    } else {
      assert Wellformed(a[0]);
      assert (a + b)[1..] == a[1..] + b;
      ScanAppend(Step(s, a[0]), a[1..], b);
    }
  }

  lemma Next(s: Scan, ds: seq<seq<byte>>)
    requires (forall d | d in ds :: Wellformed(d)) && ds != []
    ensures Wellformed(ds[0]) && ScanAll(s, ds) == ScanAll(Step(s, ds[0]), ds[1..])
  {
    assert Wellformed(ds[0]);
  }

  /** No descriptor here begins an audio interface. */
  ghost predicate NoAudio(ds: seq<seq<byte>>) {
    forall d | d in ds :: Wellformed(d) && (IsInterface(d) ==> !IsAudio(d, AUDIOCONTROL) && !IsAudio(d, AUDIOSTREAMING))
  }

  /** What follows another function begins an interface before anything of its own. */
  ghost predicate Apart(ds: seq<seq<byte>>)
    decreases |ds|
  {
    ds == [] || (|ds[0]| >= 2 &&
                 (IsInterface(ds[0]) || (ds[0][1] != DT_ENDPOINT && ds[0][1] != DT_CS_INTERFACE && Apart(ds[1..]))))
  }

  /** Other functions leave the audio found as it is. */
  lemma {:induction false} Quiet(s: Scan, ds: seq<seq<byte>>)
    requires NoAudio(ds) && ((s.pending.None? && !s.inControl) || (!s.inControl && Apart(ds)))
    ensures var e := ScanAll(s, ds);
            && Flushed(e).found == Flushed(s).found && !e.inControl && (s.pending.None? ==> e.pending.None?)
            && e.uac2 == s.uac2 && e.clocks == s.clocks && e.terminals == s.terminals
    decreases |ds|
  {
    if ds != [] {
      assert ds[0] in ds;
      hide ControlStep, FormatStep, EndpointStep;
      Quiet(Step(s, ds[0]), ds[1..]);
    }
  }

  /** The topology as the parser keeps it: UAC2, one clock, and both terminals on it. */
  ghost function Topology(s: Scan, itf: byte): Scan {
    Scan(itf, 0, None, itf, true, true, s.clocks + [CLOCK_ID],
         s.terminals[INPUT_ID := CLOCK_ID][OUTPUT_ID := CLOCK_ID], s.found)
  }

  lemma ControlScan(s: Scan, k: Speaker, itf: byte, istr: byte)
    requires Printable(k) && itf < 255 && s.pending.None? && !s.inControl
    ensures ScanAll(s, ControlDescs(k, itf, istr)) == Topology(s, itf)
  {
    var ds := ControlDescs(k, itf, istr);
    hide FeatureUnit;
    var s1 := s.(itf := itf, alt := 0, control := itf, inControl := true);
    var s2 := s1.(uac2 := true);
    var s3 := s2.(clocks := s.clocks + [CLOCK_ID]);
    var s4 := s3.(terminals := s.terminals[INPUT_ID := CLOCK_ID]);
    assert ds[2][4] == 2 && ds[4][7] == CLOCK_ID && ds[5][8] == CLOCK_ID;
    assert Step(s, ds[0]) == s && Step(s, ds[1]) == s1 && Step(s1, ds[2]) == s2 && Step(s2, ds[3]) == s3;
    assert Step(s3, ds[4]) == s4 && Step(s4, ds[5]) == Topology(s, itf);
    assert Step(Topology(s, itf), ds[6]) == Topology(s, itf);
    hide Step, ControlDescs, LE16;
    SevenSteps(s, s, s1, s2, s3, s4, Topology(s, itf), Topology(s, itf), ds);
  }

  lemma SevenSteps(s0: Scan, s1: Scan, s2: Scan, s3: Scan, s4: Scan, s5: Scan, s6: Scan, s7: Scan, ds: seq<seq<byte>>)
    requires |ds| == 7 && (forall d | d in ds :: Wellformed(d)) && forall i | 0 <= i < 7 :: |ds[i]| >= 2
    requires Step(s0, ds[0]) == s1 && Step(s1, ds[1]) == s2 && Step(s2, ds[2]) == s3 && Step(s3, ds[3]) == s4
    requires Step(s4, ds[4]) == s5 && Step(s5, ds[5]) == s6 && Step(s6, ds[6]) == s7
    ensures ScanAll(s0, ds) == s7
  {
    hide Step, ScanAll, Wellformed;
    Next(s0, ds);
    Next(s1, ds[1..]);
    Next(s2, ds[2..]);
    Next(s3, ds[3..]);
    Next(s4, ds[4..]);
    Next(s5, ds[5..]);
    Next(s6, ds[6..]);
    Nothing(s7);
    assert ds[1..][1..] == ds[2..] && ds[2..][1..] == ds[3..] && ds[3..][1..] == ds[4..] && ds[4..][1..] == ds[5..];
    assert ds[5..][1..] == ds[6..] && ds[7..] == ds[6..][1..] && |ds[7..]| == 0;
  }

  lemma Nothing(s: Scan)
    ensures ScanAll(s, []) == s
  {
  }

  /** The silent alternate and the feedback endpoint add nothing; the other alternate
      and its endpoint are the stream. */
  lemma StreamingScan(s: Scan, k: Speaker, itf: byte, ep: byte)
    requires Printable(k) && itf < 255 && ep < 0x80 && s.pending.None? && s.uac2 && s.control == itf
    ensures ScanAll(s, StreamingDescs(k, itf, ep))
         == s.(itf := itf + 1, alt := 1, inControl := false, pending := Some(StreamInfo(k, itf, ep).(clock := 0)))
  {
    var ds := StreamingDescs(k, itf, ep);
    var s1 := s.(itf := itf + 1, alt := 0, inControl := false);
    var p2 := Stream(itf + 1, 1, None, [], 0, 0, 0, 0, 0, NoSync, None, 0, itf);
    var s2 := s1.(alt := 1, pending := Some(p2));
    var p3 := p2.(terminal := Some(INPUT_ID), channels := k.channels);
    var s3 := s2.(pending := Some(p3));
    var p4 := p3.(subslot := k.sampleBytes, bits := k.sampleBytes * 8);
    var s4 := s2.(pending := Some(p4));
    var s5 := s2.(pending := Some(StreamInfo(k, itf, ep).(clock := 0)));
    assert Step(s, ds[0]) == s1 && Step(s1, ds[1]) == s2;
    assert Step(s2, ds[2]) == s3 && Step(s3, ds[3]) == s4;
    AudioEndpoint(s4, k, itf, ep);
    FeedbackIgnored(s5, k, ep);
    assert Step(s5, ds[5]) == s5;
    assert ds[4] == [7, DT_ENDPOINT, ep, 0x05] + LE16(k.packet) + [1];
    hide Step, StreamingDescs, StreamInfo;
    SevenSteps(s, s1, s2, s3, s4, s5, s5, s5, ds);
  }

  lemma AudioEndpoint(s: Scan, k: Speaker, itf: byte, ep: byte)
    requires Printable(k) && itf < 255 && s.pending.Some? && !s.inControl
    requires s.pending.value
             == StreamInfo(k, itf, ep).(endpoint := None, maxPacket := 0, interval := 0, sync := NoSync, clock := 0)
    ensures Step(s, [7, DT_ENDPOINT, ep, 0x05] + LE16(k.packet) + [1])
            == s.(pending := Some(StreamInfo(k, itf, ep).(clock := 0)))
  {
    var d: seq<byte> := [7, DT_ENDPOINT, ep, 0x05] + LE16(k.packet) + [1];
    assert d[4..6] == LE16(k.packet) && Get16(d, 4) == Get16(d[4..6], 0);
    hide LE16, Get16;
  }

  lemma FeedbackIgnored(s: Scan, k: Speaker, ep: byte)
    requires s.pending.Some? && !s.inControl && ep < 0x80
    ensures Step(s, [7, DT_ENDPOINT, ep + 0x80, 0x11] + LE16(if k.highSpeed then 4 else 3)
                    + [if k.highSpeed then 4 else 1]) == s
  {
    hide LE16;
  }

  /** Parsing what a speaker prints, among any other functions' descriptors, gives
      exactly one stream: outward, with its channels, bits, packet and clock. */
  lemma SpeakerRoundTrip(before: seq<seq<byte>>, k: Speaker, itf: byte, ep: byte, istr: byte, after: seq<seq<byte>>)
    requires Printable(k) && itf < 255 && ep < 0x80 && NoAudio(before) && NoAudio(after) && Apart(after)
    ensures StreamsOf(Join(before + SpeakerDescs(k, itf, ep, istr) + after)) == [StreamInfo(k, itf, ep)]
    ensures IsOut(StreamInfo(k, itf, ep))
  {
    var speaker, a, b := SpeakerDescs(k, itf, ep, istr), ControlDescs(k, itf, istr), StreamingDescs(k, itf, ep);
    hide ControlDescs, StreamingDescs, Step, StreamInfo, Carrying;
    AllWellformed(before, speaker, after);
    WalkInverts(before + speaker + after);
    Quiet(Fresh(), before);
    var s0 := ScanAll(Fresh(), before);
    ControlScan(s0, k, itf, istr);
    StreamingScan(Topology(s0, itf), k, itf, ep);
    var s2 := ScanAll(Topology(s0, itf), b);
    Quiet(s2, after);
    ScanAppend(s0, a, b);
    ScanAppend(Fresh(), before, speaker);
    ScanAppend(Fresh(), before + speaker, after);
    OneStream(Flushed(ScanAll(s2, after)), k, itf, ep);
    SpeakerIsOut(k, itf, ep);
  }

  lemma SpeakerIsOut(k: Speaker, itf: byte, ep: byte)
    requires Printable(k) && itf < 255 && ep < 0x80
    ensures IsOut(StreamInfo(k, itf, ep))
  {
  }

  lemma AllWellformed(before: seq<seq<byte>>, speaker: seq<seq<byte>>, after: seq<seq<byte>>)
    requires NoAudio(before) && NoAudio(after) && forall d | d in speaker :: Wellformed(d)
    ensures forall d | d in before + speaker + after :: Wellformed(d)
    ensures (forall d | d in before :: Wellformed(d)) && forall d | d in after :: Wellformed(d)
  {
  }

  lemma OneStream(s: Scan, k: Speaker, itf: byte, ep: byte)
    requires Printable(k) && itf < 255 && s.uac2 && INPUT_ID in s.terminals && s.terminals[INPUT_ID] == CLOCK_ID
    requires s.found == [StreamInfo(k, itf, ep).(clock := 0)]
    ensures Carrying(s, s.found) == [StreamInfo(k, itf, ep)]
  {
    assert s.found[..0] == [] && Carrying(s, s.found[..0]) == [];
  }
}
