/** Any Audio 2.0 device, byte for byte (Audio 2.0, sections 4.7 and 4.9; Data Formats
    2.0, section 2.3.1.6), and the streams the host reads of it: each with the clock its
    terminal names, or else the device's first. */
module Uac2Wire {
  import opened Bytes
  import opened Wire
  import opened Descriptors
  import opened UacDescriptors
  import opened UacWire

  // ---- the control interface

  /** A unit of the control interface; `rest` is what follows the fields read. */
  datatype Unit =
    | Clock(id: byte, rest: seq<byte>)
    | Input(id: byte, kind: nat, assoc: byte, clock: byte, rest: seq<byte>)
    | Output(id: byte, kind: nat, assoc: byte, source: byte, clock: byte, rest: seq<byte>)
    | Other(subtype: byte, rest: seq<byte>)

  predicate UnitFits(u: Unit) {
    && |u.rest| < 247
    && (u.Input? || u.Output? ==> u.kind < 0x1_0000)
    && (u.Other? ==> u.subtype != 1 && u.subtype != 2 && u.subtype != 3 && u.subtype != 0x0A)
  }

  function PrintUnit(u: Unit): (d: seq<byte>)
    requires UnitFits(u)
    ensures Wellformed(d)
  {
    match u
    case Clock(id, rest) => [4 + |rest|, 0x24, 0x0A, id] + rest
    case Input(id, kind, assoc, clock, rest) => [8 + |rest|, 0x24, 0x02, id] + Two(kind) + [assoc, clock] + rest
    case Output(id, kind, assoc, source, clock, rest) =>
      [9 + |rest|, 0x24, 0x03, id] + Two(kind) + [assoc, source, clock] + rest
    case Other(subtype, rest) => [3 + |rest|, 0x24, subtype] + rest
  }

  function PrintUnits(us: seq<Unit>): (ds: seq<seq<byte>>)
    requires forall i | 0 <= i < |us| :: UnitFits(us[i])
    ensures forall d | d in ds :: Wellformed(d)
  {
    if us == [] then [] else [PrintUnit(us[0])] + PrintUnits(us[1..])
  }

  /** The clock sources, in order. */
  function ClocksOf(us: seq<Unit>): seq<byte> {
    if us == [] then [] else (if us[0].Clock? then [us[0].id] else []) + ClocksOf(us[1..])
  }

  /** The clock of the terminal with this number, of the last if several have it. */
  function TerminalClock(us: seq<Unit>, id: byte): Option<byte> {
    if us == [] then None
    else if TerminalClock(us[1..], id).Some? then TerminalClock(us[1..], id)
    else if (us[0].Input? || us[0].Output?) && us[0].id == id then Some(us[0].clock)
    else None
  }

  /** A stream's clock. */
  function ClockFor(us: seq<Unit>, terminal: byte): byte {
    var named := TerminalClock(us, terminal);
    if named.Some? && named.value != 0 then named.value else if ClocksOf(us) != [] then ClocksOf(us)[0] else 0
  }

  /** The parser's map holds these terminals' clocks, over those it held before. */
  ghost predicate Maps(was: map<byte, byte>, now: map<byte, byte>, us: seq<Unit>) {
    forall id: byte :: Found(now, id) == if TerminalClock(us, id).Some? then TerminalClock(us, id) else Found(was, id)
  }

  function Found(m: map<byte, byte>, id: byte): Option<byte> {
    if id in m then Some(m[id]) else None
  }

  lemma UnitStep(s: Scan, u: Unit)
    requires UnitFits(u) && s.inControl && s.uac2
    ensures Step(s, PrintUnit(u))
            == match u
               case Clock(id, _) => s.(clocks := s.clocks + [id])
               case Input(id, _, _, clock, _) => s.(terminals := s.terminals[id := clock])
               case Output(id, _, _, _, clock, _) => s.(terminals := s.terminals[id := clock])
               case Other(_, _) => s
  {
    hide Two;
  }

  lemma {:induction false} UnitsRead(s: Scan, us: seq<Unit>)
    requires (forall i | 0 <= i < |us| :: UnitFits(us[i])) && s.inControl && s.uac2
    ensures var e := ScanAll(s, PrintUnits(us));
            && e == s.(clocks := s.clocks + ClocksOf(us), terminals := e.terminals)
            && Maps(s.terminals, e.terminals, us)
    decreases |us|
  {
    hide Step;
    if us == [] {
      assert s.clocks + [] == s.clocks;
    } else {
      var u, rest := us[0], us[1..];
      var s1 := Step(s, PrintUnit(u));
      UnitStep(s, u);
      UnitsRead(s1, rest);
      hide PrintUnit, ScanAll;
      ScanCons(s, PrintUnit(u), PrintUnits(rest));
      Grouped(s.clocks, if u.Clock? then [u.id] else [], ClocksOf(rest));
      assert u.Clock? || s1.clocks == s.clocks + [];
      MapsMore(s.terminals, s1.terminals, ScanAll(s1, PrintUnits(rest)).terminals, us);
    }
  }

  lemma MapsMore(was: map<byte, byte>, then1: map<byte, byte>, now: map<byte, byte>, us: seq<Unit>)
    requires us != [] && Maps(then1, now, us[1..])
    requires then1 == if us[0].Input? || us[0].Output? then was[us[0].id := us[0].clock] else was
    ensures Maps(was, now, us)
  {
  }

  /** The control interface: its header, with anything behind its version, says 2.00. */
  function Control2(itf: byte, rest: seq<byte>, us: seq<Unit>): (ds: seq<seq<byte>>)
    requires |rest| <= 250 && forall i | 0 <= i < |us| :: UnitFits(us[i])
    ensures forall d | d in ds :: Wellformed(d)
  {
    [[9, 0x04, itf, 0, 0, 0x01, 0x01, 0x20, 0x00]]
    + ([[5 + |rest|, 0x24, 0x01, 0x00, 0x02] + rest] + PrintUnits(us))
  }

  lemma Control2Reads(s: Scan, itf: byte, rest: seq<byte>, us: seq<Unit>)
    requires s.pending.None? && |rest| <= 250 && forall i | 0 <= i < |us| :: UnitFits(us[i])
    ensures var e := ScanAll(s, Control2(itf, rest, us));
            && e == s.(itf := itf, alt := 0, control := itf, inControl := true, uac2 := true,
                       clocks := s.clocks + ClocksOf(us), terminals := e.terminals)
            && Maps(s.terminals, e.terminals, us)
  {
    var d0: seq<byte> := [9, 0x04, itf, 0, 0, 0x01, 0x01, 0x20, 0x00];
    var d1: seq<byte> := [5 + |rest|, 0x24, 0x01, 0x00, 0x02] + rest;
    var s1 := s.(itf := itf, alt := 0, control := itf, inControl := true);
    assert Step(s, d0) == s1 && Step(s1, d1) == s1.(uac2 := true);
    hide Step, Maps;
    UnitsRead(s1.(uac2 := true), us);
    hide PrintUnits, ScanAll, ClocksOf;
    ScanCons(s1, d1, PrintUnits(us));
    ScanCons(s, d0, [d1] + PrintUnits(us));
  }

  // ---- the streams

  datatype Alternate2 = Alternate2(itf: byte, silentEps: byte, alt: byte, eps: byte, terminal: byte, controls: byte,
                                   channels: byte, subslot: byte, bits: byte, endpoint: byte, attrs: byte,
                                   packet: nat, interval: byte)

  /** Its endpoint is isochronous and not for feedback. */
  predicate Alternate2Fits(a: Alternate2) {
    a.alt != 0 && a.packet < 0x1_0000 && a.attrs as int % 4 == 1 && a.attrs as int / 16 % 4 != 1
  }

  function Interface2(itf: byte, alt: byte, eps: byte): (d: seq<byte>)
    ensures Wellformed(d)
  {
    [9, 0x04, itf, alt, eps, 0x01, 0x02, 0x20, 0x00]
  }

  function General2(a: Alternate2): (d: seq<byte>)
    ensures Wellformed(d)
  {
    [16, 0x24, 0x01, a.terminal, a.controls, 0x01, 0x01, 0, 0, 0, a.channels, 0, 0, 0, 0, 0]
  }

  function FormatType2(a: Alternate2): (d: seq<byte>)
    ensures Wellformed(d)
  {
    [6, 0x24, 0x02, 0x01, a.subslot, a.bits]
  }

  function Endpoint2(a: Alternate2): (d: seq<byte>)
    requires Alternate2Fits(a)
    ensures Wellformed(d)
  {
    [7, 0x05, a.endpoint, a.attrs] + Two(a.packet) + [a.interval]
  }

  /** The silent alternate, then the one with audio. */
  function PrintStream2(a: Alternate2): (ds: seq<seq<byte>>)
    requires Alternate2Fits(a)
    ensures forall d | d in ds :: Wellformed(d)
  {
    [Interface2(a.itf, 0, a.silentEps), Interface2(a.itf, a.alt, a.eps), General2(a), FormatType2(a), Endpoint2(a),
     [8, 0x25, 0x01, 0x00, 0x00, 0x00, 0x00, 0x00]]
  }

  function ReadStream2(a: Alternate2, control: byte, clock: byte): Stream {
    var sync := a.attrs as int / 4 % 4;
    Stream(a.itf, a.alt, Some(a.endpoint), [], a.channels, a.bits, a.subslot, a.packet, a.interval,
           if sync == 1 then Async else if sync == 2 then Adaptive else if sync == 3 then Sync else NoSync,
           Some(a.terminal), clock, control)
  }

  lemma Endpoint2Reads(s: Stream, a: Alternate2)
    requires Alternate2Fits(a)
    ensures var sync := a.attrs as int / 4 % 4;
            EndpointStep(s, Endpoint2(a))
            == s.(endpoint := Some(a.endpoint), maxPacket := a.packet, interval := a.interval,
                  sync := if sync == 1 then Async else if sync == 2 then Adaptive
                          else if sync == 3 then Sync else NoSync)
  {
    var d := Endpoint2(a);
    assert d[4..6] == Two(a.packet);
    TwoAt(d, 4, a.packet);
    hide Two, Get16;
  }

  lemma Stream2Reads(s: Scan, a: Alternate2)
    requires Alternate2Fits(a) && s.uac2
    ensures ScanAll(s, PrintStream2(a))
            == Flushed(s).(itf := a.itf, alt := a.alt, inControl := false,
                           pending := Some(ReadStream2(a, s.control, 0)))
  {
    var p2 := Stream(a.itf, a.alt, None, [], 0, 0, 0, 0, 0, NoSync, None, 0, s.control);
    var s1 := Flushed(s).(itf := a.itf, alt := 0, inControl := false, pending := None);
    var s2 := s1.(alt := a.alt, pending := Some(p2));
    var p3 := p2.(terminal := Some(a.terminal), channels := a.channels);
    var p4 := p3.(subslot := a.subslot, bits := a.bits);
    var s3, s4 := s2.(pending := Some(p3)), s2.(pending := Some(p4));
    var s5 := s2.(pending := Some(ReadStream2(a, s.control, 0)));
    assert Step(s, Interface2(a.itf, 0, a.silentEps)) == s1 && Step(s1, Interface2(a.itf, a.alt, a.eps)) == s2;
    Stream2Steps(s2, a, p2, p3, p4);
    hide Step, ScanAll, General2, FormatType2, Endpoint2, Interface2, ReadStream2;
    var last: seq<byte> := [8, 0x25, 0x01, 0x00, 0x00, 0x00, 0x00, 0x00];
    SixSteps(s, s1, s2, s3, s4, s5, s5, Interface2(a.itf, 0, a.silentEps), Interface2(a.itf, a.alt, a.eps),
             General2(a), FormatType2(a), Endpoint2(a), last);
  }

  lemma Stream2Steps(s: Scan, a: Alternate2, p2: Stream, p3: Stream, p4: Stream)
    requires Alternate2Fits(a) && s.uac2 && !s.inControl && s.pending == Some(p2)
    requires p2 == Stream(a.itf, a.alt, None, [], 0, 0, 0, 0, 0, NoSync, None, 0, s.control)
    requires p3 == p2.(terminal := Some(a.terminal), channels := a.channels)
    requires p4 == p3.(subslot := a.subslot, bits := a.bits)
    ensures Step(s, General2(a)) == s.(pending := Some(p3))
    ensures Step(s.(pending := Some(p3)), FormatType2(a)) == s.(pending := Some(p4))
    ensures var s5 := s.(pending := Some(ReadStream2(a, s.control, 0)));
            && Step(s.(pending := Some(p4)), Endpoint2(a)) == s5
            && Step(s5, [8, 0x25, 0x01, 0x00, 0x00, 0x00, 0x00, 0x00]) == s5
  {
    Endpoint2Reads(p4, a);
    hide EndpointStep, Two;
  }

  function PrintStreams2(alts: seq<Alternate2>): (ds: seq<seq<byte>>)
    requires forall i | 0 <= i < |alts| :: Alternate2Fits(alts[i])
    ensures forall d | d in ds :: Wellformed(d)
  {
    if alts == [] then [] else PrintStream2(alts[0]) + PrintStreams2(alts[1..])
  }

  /** The streams before their clocks are filled in. */
  function Unclocked(alts: seq<Alternate2>, control: byte): (r: seq<Stream>)
    ensures |r| == |alts| && forall i | 0 <= i < |alts| :: r[i] == ReadStream2(alts[i], control, 0)
  {
    if alts == [] then [] else [ReadStream2(alts[0], control, 0)] + Unclocked(alts[1..], control)
  }

  lemma OneMore2(s: Scan, a: Alternate2)
    requires Alternate2Fits(a) && s.uac2
    ensures var e := ScanAll(s, PrintStream2(a));
            && Flushed(e).found == Flushed(s).found + [ReadStream2(a, s.control, 0)]
            && e.control == s.control && e.uac2 && !e.inControl && e.clocks == s.clocks && e.terminals == s.terminals
  {
    Stream2Reads(s, a);
    hide PrintStream2, ReadStream2, Alternate2Fits, ScanAll;
  }

  lemma {:induction false} Streams2Read(s: Scan, alts: seq<Alternate2>)
    requires s.uac2 && forall i | 0 <= i < |alts| :: Alternate2Fits(alts[i])
    ensures var e := ScanAll(s, PrintStreams2(alts));
            && Flushed(e).found == Flushed(s).found + Unclocked(alts, s.control)
            && e.uac2 && e.clocks == s.clocks && e.terminals == s.terminals
            && (!s.inControl || alts != [] ==> !e.inControl)
    decreases |alts|
  {
    hide PrintStream2, ReadStream2, Alternate2Fits, ScanAll, Flushed, Step;
    if alts == [] {
      Nothing(s);
      assert Flushed(s).found + [] == Flushed(s).found;
    } else {
      var a, rest := alts[0], alts[1..];
      OneMore2(s, a);
      Streams2Read(ScanAll(s, PrintStream2(a)), rest);
      ScanAppend(s, PrintStream2(a), PrintStreams2(rest));
      Grouped(Flushed(s).found, [ReadStream2(a, s.control, 0)], Unclocked(rest, s.control));
    }
  }

  // ---- a whole device

  /** What the host finds of it, behind and in front of any other functions: exactly its
      streams, with their channels, bits, endpoints and clocks. */
  lemma AnyTopologyRoundTrip(before: seq<seq<byte>>, itf: byte, rest: seq<byte>, us: seq<Unit>,
                             alts: seq<Alternate2>, after: seq<seq<byte>>)
    requires NoAudio(before) && NoAudio(after) && Apart(after) && alts != [] && |rest| <= 250
    requires (forall i | 0 <= i < |us| :: UnitFits(us[i])) && forall i | 0 <= i < |alts| :: Alternate2Fits(alts[i])
    ensures var r := StreamsOf(Join(before + (Control2(itf, rest, us) + PrintStreams2(alts)) + after));
            && |r| == |alts|
            && forall i | 0 <= i < |alts| ::
                 && r[i] == ReadStream2(alts[i], itf, ClockFor(us, alts[i].terminal))
                 && (IsOut(r[i]) <==> alts[i].endpoint < 0x80)
  {
    var e := Flushed(ScanAll(Fresh(), before + (Control2(itf, rest, us) + PrintStreams2(alts)) + after));
    DeviceScan(before, itf, rest, us, alts, after);
    var mine := Control2(itf, rest, us) + PrintStreams2(alts);
    hide Control2, PrintStreams2, UnitFits, Alternate2Fits, Carrying, ScanAll, ClockFor;
    AllWellformed(before, mine, after);
    WalkInverts(before + mine + after);
    AllClocked(e, Unclocked(alts, itf));
    forall i | 0 <= i < |alts| ensures ClockOf(e, ReadStream2(alts[i], itf, 0)) == ClockFor(us, alts[i].terminal) {
      ClockIs(e, us, ReadStream2(alts[i], itf, 0), alts[i].terminal);
    }
  }

  lemma DeviceScan(before: seq<seq<byte>>, itf: byte, rest: seq<byte>, us: seq<Unit>,
                   alts: seq<Alternate2>, after: seq<seq<byte>>)
    requires NoAudio(before) && NoAudio(after) && Apart(after) && alts != [] && |rest| <= 250
    requires (forall i | 0 <= i < |us| :: UnitFits(us[i])) && forall i | 0 <= i < |alts| :: Alternate2Fits(alts[i])
    ensures var ds := before + (Control2(itf, rest, us) + PrintStreams2(alts)) + after;
            (forall d | d in ds :: Wellformed(d))
            && var e := Flushed(ScanAll(Fresh(), ds));
               && e.found == Unclocked(alts, itf) && e.uac2
               && e.clocks == ClocksOf(us) && Maps(map[], e.terminals, us)
  {
    var control, streams := Control2(itf, rest, us), PrintStreams2(alts);
    hide Control2, PrintStreams2, UnitFits, Alternate2Fits, Step, Maps, ClocksOf, Unclocked;
    AllWellformed(before, control + streams, after);
    Quiet(Fresh(), before);
    var s0 := ScanAll(Fresh(), before);
    Control2Reads(s0, itf, rest, us);
    var s1 := ScanAll(s0, control);
    Streams2Read(s1, alts);
    var s2 := ScanAll(s1, streams);
    hide ScanAll;
    Quiet(s2, after);
    FourParts(before, control, streams, after);
    assert [] + Unclocked(alts, itf) == Unclocked(alts, itf) && [] + ClocksOf(us) == ClocksOf(us);
  }

  lemma {:induction false} AllClocked(s: Scan, found: seq<Stream>)
    requires s.uac2 && forall i | 0 <= i < |found| :: found[i].endpoint.Some?
    ensures var r := Carrying(s, found);
            |r| == |found| && forall i | 0 <= i < |found| :: r[i] == found[i].(clock := ClockOf(s, found[i]))
    decreases |found|
  {
    hide ClockOf;
    if found != [] {
      AllClocked(s, found[..|found| - 1]);
    }
  }

  lemma ClockIs(s: Scan, us: seq<Unit>, stream: Stream, terminal: byte)
    requires stream.terminal == Some(terminal) && s.clocks == ClocksOf(us) && Maps(map[], s.terminals, us)
    ensures ClockOf(s, stream) == ClockFor(us, terminal)
  {
    assert Found(s.terminals, terminal)
           == if TerminalClock(us, terminal).Some? then TerminalClock(us, terminal) else Found(map[], terminal);
    hide TerminalClock, ClocksOf;
  }
}
