/** USB Audio descriptors byte for byte: any Audio 1.0 device's streams (Audio 1.0,
    sections 4.3 and 4.5; Data Formats 1.0, section 2.2.5) as the host reads them, and the
    bytes of the Audio 2.0 speaker. */
module UacWire {
  import opened Bytes
  import opened Wire
  import opened Descriptors
  import opened UacDescriptors

  function Three(n: nat): (r: seq<byte>)
    requires n < 0x100_0000
    ensures |r| == 3
  {
    var b2: byte := n / 256 / 256;
    [n % 256, n / 256 % 256, b2]
  }

  // ---- rates

  /** The count a format gives, 0 for a continuous range with its two ends; the rates that
      are there, as many, or fewer if it was cut short; and what follows them. */
  datatype Rates1 = Rates1(count: byte, values: seq<nat>, rest: seq<byte>)

  predicate RatesFit(r: Rates1) {
    var most := if r.count == 0 then 2 else r.count as int;
    && 8 + 3 * |r.values| + |r.rest| < 256 && |r.values| <= most && (|r.values| == most || |r.rest| < 3)
    && forall i | 0 <= i < |r.values| :: r.values[i] < 0x100_0000
  }

  function Threes(values: seq<nat>): (r: seq<byte>)
    requires forall i | 0 <= i < |values| :: values[i] < 0x100_0000
    ensures |r| == 3 * |values|
  {
    if values == [] then [] else Three(values[0]) + Threes(values[1..])
  }

  lemma {:induction false} ThreesRead(d: seq<byte>, at: nat, values: seq<nat>, rest: seq<byte>, count: nat)
    requires (forall i | 0 <= i < |values| :: values[i] < 0x100_0000) && at <= |d| && d[at..] == Threes(values) + rest
    requires |values| <= count && (|values| == count || |rest| < 3)
    ensures Rates(d, at, count) == values
    decreases |values|
  {
    if values != [] {
      var first, more := Three(values[0]), Threes(values[1..]);
      ThreeIs(first, values[0]);
      Unroll(values);
      hide Three, Threes;
      Grouped(first, more, rest);
      Behind(d, at, first, more + rest);
      ThreesRead(d, at + 3, values[1..], rest, count - 1);
      assert values == [values[0]] + values[1..];
    }
  }

  lemma Unroll(values: seq<nat>)
    requires values != [] && forall i | 0 <= i < |values| :: values[i] < 0x100_0000
    ensures Threes(values) == Three(values[0]) + Threes(values[1..])
  {
    hide Three;
  }

  lemma Behind(d: seq<byte>, at: nat, first: seq<byte>, rest: seq<byte>)
    requires at <= |d| && d[at..] == first + rest && |first| == 3
    ensures at + 3 <= |d| && d[at] == first[0] && d[at + 1] == first[1] && d[at + 2] == first[2]
    ensures d[at + 3..] == rest
  {
    var tail := d[at..];
    assert tail[0] == first[0] && tail[1] == first[1] && tail[2] == first[2];
    assert d[at + 3..] == tail[3..];
  }

  lemma ThreeIs(r: seq<byte>, v: nat)
    requires v < 0x100_0000 && r == Three(v)
    ensures r[0] as int + r[1] as int * 256 + r[2] as int * 0x1_0000 == v
  {
  }

  // ---- one stream

  /** An alternate that carries audio, as an Audio 1.0 device lists it. */
  datatype Alternate = Alternate(itf: byte, silentEps: byte, alt: byte, eps: byte, terminal: byte, delay: byte,
                                 tag: nat, channels: byte, subframe: byte, bits: byte, rates: Rates1,
                                 endpoint: byte, attrs: byte, packet: nat, interval: byte, refresh: byte, synch: byte)

  /** Its endpoint is isochronous and not for feedback. */
  predicate AlternateFits(a: Alternate) {
    && a.alt != 0 && a.tag < 0x1_0000 && a.packet < 0x1_0000 && RatesFit(a.rates)
    && a.attrs as int % 4 == 1 && a.attrs as int / 16 % 4 != 1
  }

  function StreamingInterface(itf: byte, alt: byte, eps: byte): (d: seq<byte>)
    ensures Wellformed(d)
  {
    [9, 0x04, itf, alt, eps, 0x01, 0x02, 0x00, 0x00]
  }

  function General(a: Alternate): (d: seq<byte>)
    requires AlternateFits(a)
    ensures Wellformed(d)
  {
    [7, 0x24, 0x01, a.terminal, a.delay] + Two(a.tag)
  }

  function FormatType(a: Alternate): (d: seq<byte>)
    requires AlternateFits(a)
    ensures Wellformed(d)
  {
    var r := a.rates;
    [8 + 3 * |r.values| + |r.rest|, 0x24, 0x02, 0x01, a.channels, a.subframe, a.bits, r.count]
    + (Threes(r.values) + r.rest)
  }

  function Endpoint(a: Alternate): (d: seq<byte>)
    requires AlternateFits(a)
    ensures Wellformed(d)
  {
    [9, 0x05, a.endpoint, a.attrs] + Two(a.packet) + [a.interval, a.refresh, a.synch]
  }

  /** The silent alternate, then the one with audio. */
  function PrintStream(a: Alternate): (ds: seq<seq<byte>>)
    requires AlternateFits(a)
    ensures forall d | d in ds :: Wellformed(d)
  {
    [StreamingInterface(a.itf, 0, a.silentEps), StreamingInterface(a.itf, a.alt, a.eps), General(a), FormatType(a),
     Endpoint(a), [7, 0x25, 0x01, 0x00, 0x00, 0x00, 0x00]]
  }

  /** What the host reads of it: its fields in their own places, and its synchronisation
      from bits 2 and 3 of the endpoint's attributes. */
  function ReadStream(a: Alternate, control: byte): Stream {
    var sync := a.attrs as int / 4 % 4;
    Stream(a.itf, a.alt, Some(a.endpoint), a.rates.values, a.channels, a.bits, a.subframe, a.packet, a.interval,
           if sync == 1 then Async else if sync == 2 then Adaptive else if sync == 3 then Sync else NoSync,
           Some(a.terminal), 0, control)
  }

  lemma RatesRead(a: Alternate)
    requires AlternateFits(a)
    ensures var d := FormatType(a);
            |d| >= 8 && d[1] == 0x24 && d[2] == 0x02 && d[4] == a.channels && d[5] == a.subframe && d[6] == a.bits
            && Rates(d, 8, if d[7] == 0 then 2 else d[7]) == a.rates.values
  {
    var d, r := FormatType(a), a.rates;
    assert d[8..] == Threes(r.values) + r.rest;
    ThreesRead(d, 8, r.values, r.rest, if r.count == 0 then 2 else r.count);
  }

  lemma FormatStepReads(s: Stream, a: Alternate)
    requires AlternateFits(a)
    ensures FormatStep(s, false, FormatType(a))
            == s.(channels := a.channels, subslot := a.subframe, bits := a.bits, rates := a.rates.values)
    ensures FormatStep(s, false, General(a)) == s.(terminal := Some(a.terminal))
  {
    RatesRead(a);
    hide FormatType, Rates, Two;
  }

  lemma EndpointReads(s: Stream, a: Alternate)
    requires AlternateFits(a)
    ensures var sync := a.attrs as int / 4 % 4;
            EndpointStep(s, Endpoint(a))
            == s.(endpoint := Some(a.endpoint), maxPacket := a.packet, interval := a.interval,
                  sync := if sync == 1 then Async else if sync == 2 then Adaptive
                          else if sync == 3 then Sync else NoSync)
  {
    var d := Endpoint(a);
    assert d[4..6] == Two(a.packet);
    TwoAt(d, 4, a.packet);
    hide Two, Get16;
  }

  /** A walk outside the control interface of an Audio 1.0 device. */
  ghost predicate Walking(s: Scan, control: byte) {
    !s.uac2 && s.control == control
  }

  lemma ScanCons(s: Scan, d: seq<byte>, ds: seq<seq<byte>>)
    requires Wellformed(d) && forall x | x in ds :: Wellformed(x)
    ensures (forall x | x in [d] + ds :: Wellformed(x)) && ScanAll(s, [d] + ds) == ScanAll(Step(s, d), ds)
  {
    assert ([d] + ds)[1..] == ds && ([d] + ds)[0] == d;
    hide Step;
    Next(s, [d] + ds);
  }

  lemma StreamReads(s: Scan, a: Alternate)
    requires AlternateFits(a) && !s.uac2
    ensures ScanAll(s, PrintStream(a))
            == Flushed(s).(itf := a.itf, alt := a.alt, inControl := false, pending := Some(ReadStream(a, s.control)))
  {
    var f := Flushed(s);
    var empty := Stream(a.itf, a.alt, None, [], 0, 0, 0, 0, 0, NoSync, None, 0, s.control);
    var s1 := f.(itf := a.itf, alt := 0, inControl := false, pending := None);
    var s2 := s1.(alt := a.alt, pending := Some(empty));
    var p3 := empty.(terminal := Some(a.terminal));
    var p4 := p3.(channels := a.channels, subslot := a.subframe, bits := a.bits, rates := a.rates.values);
    FormatStepReads(empty, a);
    FormatStepReads(p3, a);
    EndpointReads(p4, a);
    hide FormatStep, EndpointStep, FormatType, General, Endpoint, ControlStep;
    var s3, s4 := s2.(pending := Some(p3)), s2.(pending := Some(p4));
    var s5 := s2.(pending := Some(ReadStream(a, s.control)));
    assert Step(s, StreamingInterface(a.itf, 0, a.silentEps)) == s1;
    assert Step(s1, StreamingInterface(a.itf, a.alt, a.eps)) == s2;
    StreamSteps(s2, a, empty, p3, p4, ReadStream(a, s.control));
    hide Step, ScanAll, General, FormatType, Endpoint, StreamingInterface, ReadStream;
    var last: seq<byte> := [7, 0x25, 0x01, 0x00, 0x00, 0x00, 0x00];
    SixSteps(s, s1, s2, s3, s4, s5, s5, StreamingInterface(a.itf, 0, a.silentEps),
             StreamingInterface(a.itf, a.alt, a.eps), General(a), FormatType(a), Endpoint(a), last);
  }

  lemma StreamSteps(s: Scan, a: Alternate, p2: Stream, p3: Stream, p4: Stream, p5: Stream)
    requires AlternateFits(a) && !s.uac2 && !s.inControl && s.pending == Some(p2)
    requires FormatStep(p2, false, General(a)) == p3 && FormatStep(p3, false, FormatType(a)) == p4
    requires EndpointStep(p4, Endpoint(a)) == p5
    ensures Step(s, General(a)) == s.(pending := Some(p3))
    ensures Step(s.(pending := Some(p3)), FormatType(a)) == s.(pending := Some(p4))
    ensures Step(s.(pending := Some(p4)), Endpoint(a)) == s.(pending := Some(p5))
    ensures Step(s.(pending := Some(p5)), [7, 0x25, 0x01, 0x00, 0x00, 0x00, 0x00]) == s.(pending := Some(p5))
  {
    RatesRead(a);
    hide FormatStep, EndpointStep, FormatType, Two, Rates;
  }

  lemma SixSteps(s0: Scan, s1: Scan, s2: Scan, s3: Scan, s4: Scan, s5: Scan, s6: Scan,
                 d0: seq<byte>, d1: seq<byte>, d2: seq<byte>, d3: seq<byte>, d4: seq<byte>, d5: seq<byte>)
    requires Wellformed(d0) && Wellformed(d1) && Wellformed(d2) && Wellformed(d3) && Wellformed(d4) && Wellformed(d5)
    requires Step(s0, d0) == s1 && Step(s1, d1) == s2 && Step(s2, d2) == s3
    requires Step(s3, d3) == s4 && Step(s4, d4) == s5 && Step(s5, d5) == s6
    ensures (forall d | d in [d0, d1, d2, d3, d4, d5] :: Wellformed(d)) && ScanAll(s0, [d0, d1, d2, d3, d4, d5]) == s6
  {
    hide Step, ScanAll, Wellformed;
    ScanCons(s0, d0, [d1, d2, d3, d4, d5]);
    ScanCons(s1, d1, [d2, d3, d4, d5]);
    ScanCons(s2, d2, [d3, d4, d5]);
    ScanCons(s3, d3, [d4, d5]);
    ScanCons(s4, d4, [d5]);
    ScanCons(s5, d5, []);
    Nothing(s6);
    assert [d0] + [d1, d2, d3, d4, d5] == [d0, d1, d2, d3, d4, d5] && [d1] + [d2, d3, d4, d5] == [d1, d2, d3, d4, d5];
    assert [d2] + [d3, d4, d5] == [d2, d3, d4, d5] && [d3] + [d4, d5] == [d3, d4, d5] && [d4] + [d5] == [d4, d5];
    assert [d5] + [] == [d5];
  }

  // ---- a whole device

  function PrintStreams(alts: seq<Alternate>): (ds: seq<seq<byte>>)
    requires forall a | a in alts :: AlternateFits(a)
    ensures forall d | d in ds :: Wellformed(d)
  {
    if alts == [] then [] else PrintStream(alts[0]) + PrintStreams(alts[1..])
  }

  function ReadStreams(alts: seq<Alternate>, control: byte): (r: seq<Stream>)
    ensures |r| == |alts| && forall i | 0 <= i < |alts| :: r[i] == ReadStream(alts[i], control)
  {
    if alts == [] then [] else [ReadStream(alts[0], control)] + ReadStreams(alts[1..], control)
  }

  /** One stream's alternates, scanned, are one stream more. */
  lemma OneMore(s: Scan, a: Alternate)
    requires AlternateFits(a) && !s.uac2
    ensures var e := ScanAll(s, PrintStream(a));
            && Flushed(e).found == Flushed(s).found + [ReadStream(a, s.control)]
            && e.control == s.control && !e.uac2 && !e.inControl
  {
    StreamReads(s, a);
    hide PrintStream, ReadStream, AlternateFits, ScanAll;
  }

  lemma {:induction false} StreamsRead(s: Scan, alts: seq<Alternate>)
    requires !s.uac2 && forall a | a in alts :: AlternateFits(a)
    ensures var e := ScanAll(s, PrintStreams(alts));
            && Flushed(e).found == Flushed(s).found + ReadStreams(alts, s.control)
            && e.uac2 == s.uac2 && (alts == [] ==> e == s) && (alts != [] ==> !e.inControl)
    decreases |alts|
  {
    hide PrintStream, ReadStream, AlternateFits, ScanAll, Flushed, Step;
    if alts == [] {
      Nothing(s);
      assert Flushed(s).found + [] == Flushed(s).found;
    } else {
      var a, rest := alts[0], alts[1..];
      OneMore(s, a);
      var s1 := ScanAll(s, PrintStream(a));
      ScanAppend(s, PrintStream(a), PrintStreams(rest));
      StreamsRead(s1, rest);
      assert Flushed(s1).found + ReadStreams(rest, s.control)
          == Flushed(s).found + ([ReadStream(a, s.control)] + ReadStreams(rest, s.control));
      StreamsEnd(s1, rest);
    }
  }

  lemma StreamsEnd(s: Scan, alts: seq<Alternate>)
    requires !s.inControl && forall a | a in alts :: AlternateFits(a)
    requires alts == [] || !ScanAll(s, PrintStreams(alts)).inControl
    ensures !ScanAll(s, PrintStreams(alts)).inControl
  {
    hide Step;
  }

  /** Units of the control interface: anything but a header. */
  ghost predicate Units(us: seq<seq<byte>>) {
    forall d | d in us :: Wellformed(d) && |d| >= 3 && d[1] == 0x24 && d[2] != 0x01
  }

  /** The control interface of an Audio 1.0 device: its header, with anything behind its
      version, says 1.00; and its units. */
  ghost function Control(itf: byte, rest: seq<byte>, us: seq<seq<byte>>): (ds: seq<seq<byte>>)
    requires |rest| <= 250 && Units(us)
    ensures forall d | d in ds :: Wellformed(d)
  {
    [[9, 0x04, itf, 0, 0, 0x01, 0x01, 0x00, 0x00]] + ([[5 + |rest|, 0x24, 0x01, 0x00, 0x01] + rest] + us)
  }

  lemma {:induction false} UnitsIgnored(s: Scan, us: seq<seq<byte>>)
    requires Units(us) && s.inControl && !s.uac2
    ensures ScanAll(s, us) == s
    decreases |us|
  {
    if us != [] {
      assert us[0] in us;
      UnitsIgnored(s, us[1..]);
    }
  }

  lemma ControlReads(s: Scan, itf: byte, rest: seq<byte>, us: seq<seq<byte>>)
    requires s.pending.None? && |rest| <= 250 && Units(us)
    ensures ScanAll(s, Control(itf, rest, us))
            == s.(itf := itf, alt := 0, control := itf, inControl := true, uac2 := false)
  {
    var d0: seq<byte> := [9, 0x04, itf, 0, 0, 0x01, 0x01, 0x00, 0x00];
    var d1: seq<byte> := [5 + |rest|, 0x24, 0x01, 0x00, 0x01] + rest;
    var s1 := s.(itf := itf, alt := 0, control := itf, inControl := true);
    assert Step(s, d0) == s1 && Step(s1, d1) == s1.(uac2 := false);
    UnitsIgnored(s1.(uac2 := false), us);
    hide Step, ScanAll;
    ScanCons(s1, d1, us);
    ScanCons(s, d0, [d1] + us);
  }

  lemma FourParts(a: seq<seq<byte>>, b: seq<seq<byte>>, c: seq<seq<byte>>, d: seq<seq<byte>>)
    requires forall x | x in a + (b + c) + d :: Wellformed(x)
    ensures ScanAll(Fresh(), a + (b + c) + d) == ScanAll(ScanAll(ScanAll(ScanAll(Fresh(), a), b), c), d)
  {
    hide Wellformed, ScanAll;
    AllParts(a, b, c, d);
    ScanAppend(ScanAll(Fresh(), a), b, c);
    ScanAppend(Fresh(), a, b + c);
    ScanAppend(Fresh(), a + (b + c), d);
  }

  lemma AllParts(a: seq<seq<byte>>, b: seq<seq<byte>>, c: seq<seq<byte>>, d: seq<seq<byte>>)
    requires forall x | x in a + (b + c) + d :: Wellformed(x)
    ensures (forall x | x in a :: Wellformed(x)) && (forall x | x in b :: Wellformed(x))
    ensures (forall x | x in c :: Wellformed(x)) && (forall x | x in d :: Wellformed(x))
  {
    hide Wellformed;
    forall x | x in a ensures Wellformed(x) { assert x in a + (b + c) + d; }
    forall x | x in b ensures Wellformed(x) { assert x in a + (b + c) + d; }
    forall x | x in c ensures Wellformed(x) { assert x in a + (b + c) + d; }
    forall x | x in d ensures Wellformed(x) { assert x in a + (b + c) + d; }
  }

  lemma DeviceScan(before: seq<seq<byte>>, itf: byte, rest: seq<byte>, us: seq<seq<byte>>,
                   alts: seq<Alternate>, after: seq<seq<byte>>)
    requires NoAudio(before) && NoAudio(after) && Apart(after) && |rest| <= 250 && Units(us)
    requires alts != [] && forall a | a in alts :: AlternateFits(a)
    ensures var ds := before + (Control(itf, rest, us) + PrintStreams(alts)) + after;
            (forall d | d in ds :: Wellformed(d))
            && var e := Flushed(ScanAll(Fresh(), ds));
               e.found == ReadStreams(alts, itf) && !e.uac2
  {
    var control, streams := Control(itf, rest, us), PrintStreams(alts);
    hide Control, PrintStreams, AlternateFits, Step, ReadStreams, Units;
    AllWellformed(before, control + streams, after);
    Quiet(Fresh(), before);
    var s0 := ScanAll(Fresh(), before);
    ControlReads(s0, itf, rest, us);
    var s1 := ScanAll(s0, control);
    StreamsRead(s1, alts);
    var s2 := ScanAll(s1, streams);
    hide ScanAll;
    Quiet(s2, after);
    FourParts(before, control, streams, after);
    assert [] + ReadStreams(alts, itf) == ReadStreams(alts, itf);
  }

  /** What the host finds of it, behind and in front of any other functions: exactly its
      streams, with their channels, bits, rates and endpoints. */
  lemma AnyStreamsRoundTrip(before: seq<seq<byte>>, itf: byte, rest: seq<byte>, us: seq<seq<byte>>,
                            alts: seq<Alternate>, after: seq<seq<byte>>)
    requires NoAudio(before) && NoAudio(after) && Apart(after) && |rest| <= 250 && Units(us)
    requires alts != [] && forall a | a in alts :: AlternateFits(a)
    ensures StreamsOf(Join(before + (Control(itf, rest, us) + PrintStreams(alts)) + after)) == ReadStreams(alts, itf)
    ensures forall i | 0 <= i < |alts| :: IsOut(ReadStreams(alts, itf)[i]) <==> alts[i].endpoint < 0x80
  {
    var mine := Control(itf, rest, us) + PrintStreams(alts);
    var e := Flushed(ScanAll(Fresh(), before + mine + after));
    Directions(alts, itf);
    DeviceScan(before, itf, rest, us, alts, after);
    hide Control, PrintStreams, AlternateFits, Carrying, ScanAll, IsOut, ReadStream, Units;
    AllWellformed(before, mine, after);
    WalkInverts(before + mine + after);
    AllCarry(e, ReadStreams(alts, itf));
  }

  lemma Directions(alts: seq<Alternate>, control: byte)
    ensures forall i | 0 <= i < |alts| ::
              var r := ReadStreams(alts, control)[i];
              r.endpoint.Some? && (IsOut(r) <==> alts[i].endpoint < 0x80)
  {
  }

  lemma {:induction false} AllCarry(s: Scan, found: seq<Stream>)
    requires !s.uac2 && forall i | 0 <= i < |found| :: found[i].endpoint.Some?
    ensures Carrying(s, found) == found
    decreases |found|
  {
    if found != [] {
      AllCarry(s, found[..|found| - 1]);
    }
  }

  // ---- the Audio 2.0 speaker

  /** The bytes of a speaker's association and control interface. */
  lemma ControlBytes(k: Speaker, itf: byte, istr: byte)
    requires UacDescriptors.Printable(k) && itf < 255
    ensures ControlDescs(k, itf, istr)
         == [[8, 0x0B, itf, 2, 0x01, 0x00, 0x20, 0],
             [9, 0x04, itf, 0, 0, 0x01, 0x01, 0x20, istr],
             [9, 0x24, 0x01, 0x00, 0x02, 0x01, 64, 0, 0],
             [8, 0x24, 0x0A, 4, 0x03, 0x07, 1, 0],
             [17, 0x24, 0x02, 1, 0x01, 0x01, 0, 4, k.channels, 0, 0, 0, 0, 0, 0, 0, 0],
             [12, 0x24, 0x03, 3, 0x04, 0x03, 1, 2, 4, 0, 0, 0],
             FeatureUnit(k)]
  {
    TwoIs(0x0200);
    TwoIs(64);
    TwoIs(0x0101);
    TwoIs(0x0304);
    assert Two(0x0200) == [0, 2] && Two(64) == [64, 0] && Two(0x0101) == [1, 1] && Two(0x0304) == [4, 3];
    hide FeatureUnit, Two, LE16;
    var ds := ControlDescs(k, itf, istr);
    assert ds[2] == [9, 0x24, 0x01, 0x00, 0x02, 0x01, 64, 0, 0];
    assert ds[4] == [17, 0x24, 0x02, 1, 0x01, 0x01, 0, 4, k.channels, 0, 0, 0, 0, 0, 0, 0, 0];
    assert ds[5] == [12, 0x24, 0x03, 3, 0x04, 0x03, 1, 2, 4, 0, 0, 0];
  }

  /** And of its streaming interface. */
  lemma StreamingBytes(k: Speaker, itf: byte, ep: byte)
    requires UacDescriptors.Printable(k) && itf < 255 && ep < 0x80
    ensures StreamingDescs(k, itf, ep)
         == [[9, 0x04, itf + 1, 0, 0, 0x01, 0x02, 0x20, 0],
             [9, 0x04, itf + 1, 1, 2, 0x01, 0x02, 0x20, 0],
             [16, 0x24, 0x01, 1, 0, 0x01, 1, 0, 0, 0, k.channels, 0, 0, 0, 0, 0],
             [6, 0x24, 0x02, 0x01, k.sampleBytes, k.sampleBytes * 8],
             [7, 0x05, ep, 0x05] + Two(k.packet) + [1],
             [8, 0x25, 0x01, 0x00, 0x00, 0x01, 0x01, 0x00],
             [7, 0x05, ep + 0x80, 0x11, if k.highSpeed then 4 else 3, 0, if k.highSpeed then 4 else 1]]
  {
    TwoIs(k.packet);
    TwoIs(4);
    TwoIs(3);
    assert Two(4) == [4, 0] && Two(3) == [3, 0];
    hide Two, LE16;
    var ds := StreamingDescs(k, itf, ep);
    assert ds[6] == [7, 0x05, ep + 0x80, 0x11, if k.highSpeed then 4 else 3, 0, if k.highSpeed then 4 else 1];
  }

  /** The feature unit: mute and volume, readable and settable, of the master channel
      and of each other. */
  lemma FeatureBytes(k: Speaker)
    requires UacDescriptors.Printable(k)
    ensures var d, n := FeatureUnit(k), k.channels + 1;
            |d| == 6 + 4 * n && d[..5] == [6 + 4 * n, 0x24, 0x06, 2, 1] && d[|d| - 1] == 0
            && forall j | 5 <= j < 5 + 4 * n :: d[j] == if j % 4 == 1 then 0x0F else 0
  {
    var d, n := FeatureUnit(k), k.channels + 1;
    var c := Controls(n);
    ControlsAre(n);
    hide Controls;
    forall j | 5 <= j < 5 + 4 * n ensures d[j] == if j % 4 == 1 then 0x0F else 0 {
      assert d[j] == c[j - 5];
    }
  }

  lemma {:induction false} ControlsAre(n: nat)
    ensures forall j | 0 <= j < 4 * n :: Controls(n)[j] == if j % 4 == 0 then 0x0F else 0
  {
    if n > 0 {
      ControlsAre(n - 1);
      FourIs(0x0F);
      assert LE32(0x0F) == [0x0F, 0, 0, 0];
      var c, rest := Controls(n), Controls(n - 1);
      hide LE32, Four, Controls;
      forall j | 0 <= j < 4 * n ensures c[j] == if j % 4 == 0 then 0x0F else 0 {
        if j >= 4 {
          assert c[j] == rest[j - 4];
        }
      }
    }
  }
}
