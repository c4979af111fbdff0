/** Any camera's streaming descriptors, byte for byte (UVC 1.1, sections 3.9.2 and 3.10;
    the payload formats' documents), and what the host's parser reads of them. */
module UvcWire {
  import opened Bytes
  import opened Wire
  import opened Descriptors
  import opened UvcDescriptors

  // ---- intervals

  lemma {:induction false} IntervalsFrom(d: seq<byte>, i: nat)
    requires |d| >= 26 && i <= d[25]
    ensures var r, n := Intervals(d, i), Min(d[25], (|d| - 26) / 4);
            && |r| == (if n > i then n - i else 0)
            && forall j | 0 <= j < |r| :: IntervalAt(d, i + j, r[j])
    decreases d[25] as int - i
  {
    if i < d[25] as int && 26 + i * 4 + 4 <= |d| {
      IntervalsFrom(d, i + 1);
      ValueIs(d, 26 + i * 4);
      hide Value, Get32;
      var rest := Intervals(d, i + 1);
      var r := [Get32(d, 26 + i * 4)] + rest;
      assert IntervalAt(d, i, r[0]);
      forall j | 1 <= j < |r| ensures IntervalAt(d, i + j, r[j]) {
        assert IntervalAt(d, i + 1 + (j - 1), rest[j - 1]);
      }
    }
  }

  /** `v` is the four bytes at the `j`-th place. */
  predicate IntervalAt(d: seq<byte>, j: nat, v: u32) {
    26 + 4 * j + 4 <= |d| && v == Value(d, 26 + 4 * j)
  }

  /** A frame descriptor's list of intervals: as many as its 26th byte says and its length
      holds, each the four bytes in its own place; or for a continuous range its two
      ends, if they and the step are there. */
  lemma IntervalsAre(d: seq<byte>)
    requires |d| >= 26
    ensures |FrameOf(d)| == 1
    ensures var r := FrameOf(d)[0].intervals;
            if d[25] == 0 then r == if |d| >= 38 then [Value(d, 26), Value(d, 30)] else []
            else && |r| == Min(d[25], (|d| - 26) / 4)
                 && forall j | 0 <= j < |r| :: 26 + 4 * j + 4 <= |d| && r[j] == Value(d, 26 + 4 * j)
  {
    if d[25] != 0 {
      IntervalsFrom(d, 0);
      hide Intervals, Value, Get32, Get16;
      assert forall j | 0 <= j < |Intervals(d, 0)| :: IntervalAt(d, 0 + j, Intervals(d, 0)[j]);
    } else if |d| >= 38 {
      ValueIs(d, 26);
      ValueIs(d, 30);
    }
  }

  // ---- what a device prints

  datatype Rates = Listed(values: seq<u32>) | Continuous(low: u32, high: u32, step: u32)

  datatype Frame = Frame(index: byte, caps: byte, width: nat, height: nat, minBits: u32, maxBits: u32,
                         maxBytes: u32, default: u32, rates: Rates)

  /** A format and its frames; `rest` is what a descriptor has behind the fields named, for
      an uncompressed one the bits per pixel and the default frame, if it has them. */
  datatype Format =
    | Jpeg(index: byte, flags: byte, default: byte, rest: seq<byte>, frames: seq<Frame>)
    | Plain(index: byte, guid: seq<byte>, rest: seq<byte>, frames: seq<Frame>)
    | Based(index: byte, rest: seq<byte>)

  predicate FrameFits(f: Frame) {
    f.width < 0x1_0000 && f.height < 0x1_0000 && (f.rates.Listed? ==> 0 < |f.rates.values| <= 57)
  }

  predicate Fits(f: Format) {
    && |f.rest| <= 200 && (f.Plain? ==> |f.guid| == 16)
    && (f.Jpeg? || f.Plain? ==> |f.frames| <= 255 && forall x | x in f.frames :: FrameFits(x))
  }

  function Fours(values: seq<u32>): (r: seq<byte>)
    ensures |r| == 4 * |values|
  {
    if values == [] then [] else Four(values[0]) + Fours(values[1..])
  }

  function PrintRates(r: Rates): seq<byte>
    requires r.Listed? ==> |r.values| <= 57
  {
    match r
    case Listed(values) => [|values|] + Fours(values)
    case Continuous(low, high, step) => [0] + Four(low) + Four(high) + Four(step)
  }

  function PrintFrame(f: Frame, sub: byte): (d: seq<byte>)
    requires FrameFits(f)
    ensures Wellformed(d)
  {
    [25 + |PrintRates(f.rates)|, 0x24, sub, f.index, f.caps] + Two(f.width) + Two(f.height)
    + Four(f.minBits) + Four(f.maxBits) + Four(f.maxBytes) + Four(f.default) + PrintRates(f.rates)
  }

  function PrintFrames(fs: seq<Frame>, sub: byte): (ds: seq<seq<byte>>)
    requires forall f | f in fs :: FrameFits(f)
    ensures forall d | d in ds :: Wellformed(d)
  {
    if fs == [] then [] else [PrintFrame(fs[0], sub)] + PrintFrames(fs[1..], sub)
  }

  function PrintFormat(f: Format): (ds: seq<seq<byte>>)
    requires Fits(f)
    ensures forall d | d in ds :: Wellformed(d)
  {
    match f
    case Jpeg(index, flags, default, rest, frames) =>
      [[7 + |rest|, 0x24, 0x06, index, |frames|, flags, default] + rest] + PrintFrames(frames, 0x07)
    case Plain(index, guid, rest, frames) =>
      [[21 + |rest|, 0x24, 0x04, index, |frames|] + guid + rest] + PrintFrames(frames, 0x05)
    case Based(index, rest) => [[4 + |rest|, 0x24, 0x10, index] + rest]
  }

  function PrintFormats(fs: seq<Format>): (ds: seq<seq<byte>>)
    requires forall f | f in fs :: Fits(f)
    ensures forall d | d in ds :: Wellformed(d)
  {
    if fs == [] then [] else PrintFormat(fs[0]) + PrintFormats(fs[1..])
  }

  /** A video streaming interface's descriptor. */
  function StreamingInterface(itf: byte, alt: byte, eps: byte, istr: byte): (d: seq<byte>)
    ensures Wellformed(d)
  {
    [9, 0x04, itf, alt, eps, 0x0E, 0x02, 0x00, istr]
  }

  // ---- what the host reads

  function ReadFrame(f: Frame): UvcFrame {
    UvcFrame(f.index, f.width, f.height, if f.rates.Listed? then f.rates.values else [f.rates.low, f.rates.high],
             f.maxBytes, f.default)
  }

  function ReadFrames(fs: seq<Frame>): (r: seq<UvcFrame>)
    ensures |r| == |fs| && forall i | 0 <= i < |fs| :: r[i] == ReadFrame(fs[i])
  {
    if fs == [] then [] else [ReadFrame(fs[0])] + ReadFrames(fs[1..])
  }

  function ReadFormat(f: Format, itf: byte): UvcFormat
    requires Fits(f)
  {
    match f
    case Jpeg(index, _, default, _, frames) => UvcFormat(itf, index, Mjpeg, 0, default, ReadFrames(frames))
    case Plain(index, guid, rest, frames) =>
      UvcFormat(itf, index, Uncompressed(guid[..4]), if rest != [] then rest[0] else 0,
                if |rest| > 1 then rest[1] else 1, ReadFrames(frames))
    case Based(index, _) => UvcFormat(itf, index, FrameBased, 0, 0, [])
  }

  function ReadFormats(fs: seq<Format>, itf: byte): (r: seq<UvcFormat>)
    requires forall f | f in fs :: Fits(f)
    ensures |r| == |fs| && forall i | 0 <= i < |fs| :: r[i] == ReadFormat(fs[i], itf)
  {
    if fs == [] then [] else [ReadFormat(fs[0], itf)] + ReadFormats(fs[1..], itf)
  }

  // ---- frames

  lemma {:induction false} FoursRead(d: seq<byte>, values: seq<u32>, i: nat)
    requires |d| >= 26 && i <= |values| && d[25] as int == |values| && |d| == 26 + 4 * |values|
    requires d[26 + 4 * i..] == Fours(values[i..])
    ensures Intervals(d, i) == values[i..]
    decreases |values| - i
  {
    if i < |values| {
      FoursNext(d, values, i);
      hide Four, Fours;
      FourAt(d, 26 + 4 * i, values[i]);
      FoursRead(d, values, i + 1);
      assert values[i..] == [values[i]] + values[i + 1..];
    }
  }

  lemma FoursNext(d: seq<byte>, values: seq<u32>, i: nat)
    requires i < |values| && |d| == 26 + 4 * |values| && d[26 + 4 * i..] == Fours(values[i..])
    ensures d[26 + 4 * i..26 + 4 * i + 4] == Four(values[i]) && d[26 + 4 * (i + 1)..] == Fours(values[i + 1..])
  {
    var four, rest := Four(values[i]), Fours(values[i + 1..]);
    assert values[i..][0] == values[i] && values[i..][1..] == values[i + 1..];
    assert d[26 + 4 * i..] == four + rest;
    hide Four, Fours;
    var tail := d[26 + 4 * i..];
    assert tail[..4] == four && tail[4..] == rest;
    assert d[26 + 4 * i..26 + 4 * i + 4] == tail[..4] && d[26 + 4 * (i + 1)..] == tail[4..];
  }

  lemma FrameFields(f: Frame, sub: byte)
    requires FrameFits(f)
    ensures var d := PrintFrame(f, sub);
            && |d| == 25 + |PrintRates(f.rates)| >= 26 && d[1] == 0x24 && d[2] == sub && d[3] == f.index
            && d[5..7] == Two(f.width) && d[7..9] == Two(f.height) && d[17..21] == Four(f.maxBytes)
            && d[21..25] == Four(f.default) && d[25..] == PrintRates(f.rates)
  {
    hide Two, Four, PrintRates, Wellformed;
    assert |PrintRates(f.rates)| >= 1 by { RatesSize(f.rates); }
  }

  lemma RatesSize(r: Rates)
    requires r.Listed? ==> |r.values| <= 57
    ensures |PrintRates(r)| == if r.Listed? then 1 + 4 * |r.values| else 13
  {
  }

  lemma FrameReads(f: Frame, sub: byte)
    requires FrameFits(f)
    ensures FrameOf(PrintFrame(f, sub)) == [ReadFrame(f)]
  {
    var d := PrintFrame(f, sub);
    FrameFields(f, sub);
    RatesSize(f.rates);
    RatesRead(d, f.rates);
    hide PrintFrame, PrintRates, Two, Four, Get16, Get32, Intervals;
    TwoAt(d, 5, f.width);
    TwoAt(d, 7, f.height);
    FourAt(d, 17, f.maxBytes);
    FourAt(d, 21, f.default);
  }

  lemma RatesRead(d: seq<byte>, r: Rates)
    requires (r.Listed? ==> 0 < |r.values| <= 57) && |d| == 25 + |PrintRates(r)| && d[25..] == PrintRates(r)
    ensures |d| >= 26
    ensures r.Listed? ==> d[25] != 0 && Intervals(d, 0) == r.values
    ensures r.Continuous? ==> d[25] == 0 && |d| == 38 && Get32(d, 26) == r.low && Get32(d, 30) == r.high
  {
    RatesSize(r);
    assert d[25] == d[25..][0];
    match r
    case Listed(values) =>
      assert d[26..] == d[25..][1..] == Fours(values);
      assert values[0..] == values;
      FoursRead(d, values, 0);
    case Continuous(low, high, step) =>
      assert d[26..30] == d[25..][1..5] == Four(low) && d[30..34] == d[25..][5..9] == Four(high);
      hide Four;
      FourAt(d, 26, low);
      FourAt(d, 30, high);
  }

  /** A walk that waits for the frames of the format it found last. */
  ghost predicate Waiting(s: Scan) {
    !s.failed && s.isVs && s.alt == 0 && s.pending && s.found != []
  }

  lemma {:induction false} FramesRead(s: Scan, fs: seq<Frame>, sub: byte)
    requires Waiting(s) && (forall f | f in fs :: FrameFits(f)) && (sub == 0x05 || sub == 0x07)
    ensures FormatScan(s, PrintFrames(fs, sub)) == s.(found := WithFrames(s.found, ReadFrames(fs)))
    decreases |fs|
  {
    if fs == [] {
      WithFramesMore(s.found, [], []);
    } else {
      var ds, one := PrintFrames(fs, sub), [ReadFrame(fs[0])];
      assert FrameFits(fs[0]) && ds[0] == PrintFrame(fs[0], sub) && ds[1..] == PrintFrames(fs[1..], sub);
      assert ReadFrames(fs) == one + ReadFrames(fs[1..]);
      FrameStep(s, fs[0], sub);
      var s' := s.(found := WithFrames(s.found, one));
      WithFramesMore(s.found, one, ReadFrames(fs[1..]));
      FormatScanNext(s, ds);
      hide FormatScan, FormatStep, WithFrames, PrintFrame, PrintFrames, ReadFrames, ReadFrame, FrameFits;
      FramesRead(s', fs[1..], sub);
    }
  }

  /** One frame's descriptor. */
  lemma FrameStep(s: Scan, f: Frame, sub: byte)
    requires Waiting(s) && FrameFits(f) && (sub == 0x05 || sub == 0x07)
    ensures FormatStep(s, PrintFrame(f, sub)) == s.(found := WithFrames(s.found, [ReadFrame(f)]))
  {
    FrameReads(f, sub);
    FrameFields(f, sub);
    hide WithFrames, FrameOf, PrintFrame, ReadFrame;
  }

  // ---- formats

  /** The format's own descriptor. */
  lemma FormatHeads(s: Scan, f: Format)
    requires !s.failed && s.isVs && s.alt == 0 && Fits(f)
    ensures FormatStep(s, PrintFormat(f)[0])
            == s.(pending := true, found := s.found + [ReadFormat(f, s.itf).(frames := [])])
  {
    if f.Plain? {
      PlainHeads(s, f);
      hide *;
    } else {
      hide PrintFrames, ReadFrames;
    }
  }

  lemma PlainHeads(s: Scan, f: Format)
    requires !s.failed && s.isVs && s.alt == 0 && Fits(f) && f.Plain?
    ensures FormatStep(s, PrintFormat(f)[0])
            == s.(pending := true, found := s.found + [ReadFormat(f, s.itf).(frames := [])])
  {
    var d: seq<byte> := [21 + |f.rest|, 0x24, 0x04, f.index, |f.frames|] + f.guid + f.rest;
    assert PrintFormat(f)[0] == d && ReadFormat(f, s.itf).(frames := []) == UvcFormat(s.itf, f.index,
      Uncompressed(f.guid[..4]), if f.rest != [] then f.rest[0] else 0, if |f.rest| > 1 then f.rest[1] else 1, []);
    hide PrintFormat, ReadFormat;
    assert d[5..9] == f.guid[..4] && |d| == 21 + |f.rest| && d[1] == 0x24 && d[2] == 0x04 && d[3] == f.index;
    assert forall k | 0 <= k < |f.rest| :: d[21 + k] == f.rest[k];
    PlainStep(s, d);
  }

  lemma PlainStep(s: Scan, d: seq<byte>)
    requires !s.failed && s.isVs && s.alt == 0 && |d| >= 21 && d[1] == 0x24 && d[2] == 0x04
    ensures FormatStep(s, d)
            == s.(pending := true, found := s.found + [UvcFormat(s.itf, d[3], Uncompressed(d[5..9]),
                                                                 if |d| > 21 then d[21] else 0,
                                                                 if |d| > 22 then d[22] else 1, [])])
  {
  }

  lemma FormatReads(s: Scan, f: Format)
    requires !s.failed && s.isVs && s.alt == 0 && Fits(f)
    ensures FormatScan(s, PrintFormat(f)) == s.(pending := true, found := s.found + [ReadFormat(f, s.itf)])
  {
    var ds := PrintFormat(f);
    FormatHeads(s, f);
    FormatScanNext(s, ds);
    var head := ReadFormat(f, s.itf).(frames := []);
    var s1 := s.(pending := true, found := s.found + [head]);
    if f.Based? {
      assert ds[1..] == [];
    } else {
      var sub: byte := if f.Jpeg? then 0x07 else 0x05;
      assert ds[1..] == PrintFrames(f.frames, sub);
      hide FormatStep, PrintFormat, PrintFrames;
      FramesRead(s1, f.frames, sub);
      assert s1.found[..|s.found|] == s.found && [] + ReadFrames(f.frames) == ReadFrames(f.frames);
    }
  }

  lemma {:induction false} FormatsRead(s: Scan, fs: seq<Format>)
    requires !s.failed && s.isVs && s.alt == 0 && forall f | f in fs :: Fits(f)
    ensures var e := FormatScan(s, PrintFormats(fs));
            e == s.(pending := e.pending, found := s.found + ReadFormats(fs, s.itf))
    decreases |fs|
  {
    if fs == [] {
      assert s.found + [] == s.found;
    } else {
      var f, rest := fs[0], fs[1..];
      assert Fits(f);
      FormatReads(s, f);
      var s1 := s.(pending := true, found := s.found + [ReadFormat(f, s.itf)]);
      FormatsMore(s, fs);
      hide *;
      FormatsRead(s1, rest);
      Grouped(s.found, [ReadFormat(f, s.itf)], ReadFormats(rest, s.itf));
    }
  }

  lemma FormatsMore(s: Scan, fs: seq<Format>)
    requires fs != [] && forall f | f in fs :: Fits(f)
    ensures Fits(fs[0])
    ensures FormatScan(s, PrintFormats(fs))
            == FormatScan(FormatScan(s, PrintFormat(fs[0])), PrintFormats(fs[1..]))
    ensures ReadFormats(fs, s.itf) == [ReadFormat(fs[0], s.itf)] + ReadFormats(fs[1..], s.itf)
  {
    hide FormatScan, PrintFormat, ReadFormat, Fits;
    FormatScanAppend(s, PrintFormat(fs[0]), PrintFormats(fs[1..]));
  }

  /** Whatever formats and frames a device lists in its streaming interface, among any
      other functions' descriptors, the host reads exactly those, with every interval. */
  lemma AnyFormatsRoundTrip(before: seq<seq<byte>>, itf: byte, istr: byte, fs: seq<Format>, after: seq<seq<byte>>)
    requires NoVideo(before) && NoVideo(after) && forall f | f in fs :: Fits(f)
    ensures var ds := before + ([StreamingInterface(itf, 0, 0, istr)] + PrintFormats(fs))
                      + ([StreamingInterface(itf, 1, 1, istr)] + after);
            && (forall d | d in ds :: Wellformed(d))
            && FormatScan(Fresh(), Walk(Join(ds))).found == ReadFormats(fs, itf)
            && !FormatScan(Fresh(), Walk(Join(ds))).failed
  {
    var mine := [StreamingInterface(itf, 0, 0, istr)] + PrintFormats(fs);
    var theirs := [StreamingInterface(itf, 1, 1, istr)] + after;
    var ds := before + mine + theirs;
    hide PrintFormats, ReadFormats, Fits;
    assert forall d | d in ds :: Wellformed(d);
    WalkInverts(ds);
    FormatsQuiet(Fresh(), before);
    var s0 := FormatScan(Fresh(), before);
    FormatScanAppend(Fresh(), before + mine, theirs);
    FormatScanAppend(Fresh(), before, mine);
    InterfaceThen(s0, itf, 0, 0, istr, PrintFormats(fs));
    var s1 := s0.(itf := itf, alt := 0, isVs := true, pending := false);
    FormatsRead(s1, fs);
    var s2 := FormatScan(s1, PrintFormats(fs));
    InterfaceThen(s2, itf, 1, 1, istr, after);
    FormatsQuiet(s2.(itf := itf, alt := 1, isVs := true, pending := false), after);
    assert [] + ReadFormats(fs, itf) == ReadFormats(fs, itf);
  }

  lemma InterfaceThen(s: Scan, itf: byte, alt: byte, eps: byte, istr: byte, ds: seq<seq<byte>>)
    requires !s.failed && forall d | d in ds :: Wellformed(d)
    ensures FormatScan(s, [StreamingInterface(itf, alt, eps, istr)] + ds)
         == FormatScan(s.(itf := itf, alt := alt, isVs := true, pending := false), ds)
  {
    var all := [StreamingInterface(itf, alt, eps, istr)] + ds;
    assert all[1..] == ds && all[0] == StreamingInterface(itf, alt, eps, istr);
    assert FormatStep(s, all[0]) == s.(itf := itf, alt := alt, isVs := true, pending := false);
    hide FormatStep, FormatScan, StreamingInterface;
    FormatScanNext(s, all);
  }

  // ---- the alternates

  /** An alternate of the interface with its endpoint. */
  datatype Alternate = Alternate(itf: byte, alt: byte, endpoint: byte, attrs: byte, size: nat, interval: byte)

  function PrintAlternates(alts: seq<Alternate>): (ds: seq<seq<byte>>)
    requires forall a | a in alts :: a.size < 0x1_0000
    ensures forall d | d in ds :: Wellformed(d)
  {
    if alts == [] then []
    else
      var a := alts[0];
      assert a in alts;
      [StreamingInterface(a.itf, a.alt, 1, 0), [7, 0x05, a.endpoint, a.attrs] + Two(a.size) + [a.interval]]
      + PrintAlternates(alts[1..])
  }

  /** The packet is the low eleven bits of its size, and there are as many to a microframe
      as the next two say and one more; it is isochronous if its attributes' low two
      bits are 1, and bulk if they are 2. */
  function ReadAlternates(alts: seq<Alternate>): seq<UvcAlt> {
    if alts == [] then []
    else
      var a := alts[0];
      [UvcAlt(a.itf, a.alt, a.endpoint, a.size % 2048, a.size / 2048 % 4 + 1, a.interval,
              if a.attrs as int % 4 == 1 then Isoc else if a.attrs as int % 4 == 2 then Bulk else OtherTransfer)]
      + ReadAlternates(alts[1..])
  }

  lemma {:induction false} AlternatesRead(s: AltScan, alts: seq<Alternate>)
    requires forall a | a in alts :: a.size < 0x1_0000
    ensures AltsScan(s, PrintAlternates(alts)).found == s.found + ReadAlternates(alts)
    decreases |alts|
  {
    if alts == [] {
      assert s.found + [] == s.found;
    } else {
      var a, ds := alts[0], PrintAlternates(alts);
      assert a in alts;
      var s1 := AltStep(s, ds[0]);
      TwoAt(ds[1], 4, a.size);
      var s2 := AltStep(s1, ds[1]);
      assert s1 == s.(itf := a.itf, alt := a.alt, isVs := true);
      AlternateReads(s1, a);
      hide AltStep;
      AltsScanTwo(s, ds);
      assert ds[2..] == PrintAlternates(alts[1..]);
      AlternatesRead(s2, alts[1..]);
      assert s2.found + ReadAlternates(alts[1..]) == s.found + ReadAlternates(alts);
    }
  }

  lemma AlternateReads(s: AltScan, a: Alternate)
    requires s.isVs && s.itf == a.itf && s.alt == a.alt && a.size < 0x1_0000
    ensures var d: seq<byte> := [7, 0x05, a.endpoint, a.attrs] + Two(a.size) + [a.interval];
            AltStep(s, d).found
            == s.found + [UvcAlt(a.itf, a.alt, a.endpoint, a.size % 2048, a.size / 2048 % 4 + 1, a.interval,
                                 if a.attrs as int % 4 == 1 then Isoc
                                 else if a.attrs as int % 4 == 2 then Bulk else OtherTransfer)]
  {
    var d: seq<byte> := [7, 0x05, a.endpoint, a.attrs] + Two(a.size) + [a.interval];
    assert d[4..6] == Two(a.size);
    TwoAt(d, 4, a.size);
    hide Two, Get16;
  }

  lemma AltsScanTwo(s: AltScan, ds: seq<seq<byte>>)
    requires |ds| >= 2 && forall d | d in ds :: Wellformed(d)
    ensures Wellformed(ds[0]) && Wellformed(ds[1])
    ensures AltsScan(s, ds) == AltsScan(AltStep(AltStep(s, ds[0]), ds[1]), ds[2..])
  {
    assert ds[1] in ds && ds[1..][0] == ds[1] && ds[1..][1..] == ds[2..];
    hide AltStep;
  }

  /** Whatever alternates with an endpoint a device lists, the host reads exactly those. */
  lemma AnyAlternatesRoundTrip(before: seq<seq<byte>>, alts: seq<Alternate>)
    requires NoVideo(before) && forall a | a in alts :: a.size < 0x1_0000
    ensures AltsScan(AltScan(0, 0, false, []), Walk(Join(before + PrintAlternates(alts)))).found == ReadAlternates(alts)
  {
    var mine := PrintAlternates(alts);
    hide PrintAlternates, ReadAlternates;
    AltsScanAppend(AltScan(0, 0, false, []), before, mine);
    WalkInverts(before + mine);
    AltsQuiet(AltScan(0, 0, false, []), before);
    var s := AltsScan(AltScan(0, 0, false, []), before);
    AlternatesRead(s, alts);
    assert [] + ReadAlternates(alts) == ReadAlternates(alts);
  }

  // ---- the camera

  /** The bytes of a camera's association, its control interface with the camera and
      output terminals, and the head of its streaming interface. */
  lemma OpeningBytes(m: Modes, itf: byte, ep: byte, istr: byte)
    requires UvcDescriptors.Printable(m) && itf < 255
    ensures Opening(m, itf, ep, istr)
         == [[8, 0x0B, itf, 2, 0x0E, 0x03, 0x00, istr],
             [9, 0x04, itf, 0, 0, 0x0E, 0x01, 0x00, istr],
             [13, 0x24, 0x01, 0x10, 0x01, 40, 0, 0x00, 0x6C, 0xDC, 0x02, 1, itf + 1],
             [18, 0x24, 0x02, 1, 0x01, 0x02, 0, 0, 0, 0, 0, 0, 0, 0, 3, 0, 0, 0],
             [9, 0x24, 0x03, 2, 0x01, 0x01, 0, 1, 0],
             [9, 0x04, itf + 1, 0, 0, 0x0E, 0x02, 0x00, 0],
             [14, 0x24, 0x01, 1] + Two(14 + (if m.mjpeg then 11 else 27) + 30 * |m.sizes| + 6)
               + [ep, 0, 2, 0, 0, 0, 1, 0],
             FormatDesc(m)]
  {
    OpeningFields();
    TwoIs(14 + (if m.mjpeg then 11 else 27) + 30 * |m.sizes| + 6);
    hide Two, Four, LE16, LE32, FormatDesc;
    var ds := Opening(m, itf, ep, istr);
    assert ds[2] == [13, 0x24, 0x01, 0x10, 0x01, 40, 0, 0x00, 0x6C, 0xDC, 0x02, 1, itf + 1];
    assert ds[3] == [18, 0x24, 0x02, 1, 0x01, 0x02, 0, 0, 0, 0, 0, 0, 0, 0, 3, 0, 0, 0];
    assert ds[4] == [9, 0x24, 0x03, 2, 0x01, 0x01, 0, 1, 0];
  }

  lemma OpeningFields()
    ensures LE16(0x0110) == [0x10, 1] && LE16(40) == [40, 0] && LE16(0x0201) == [1, 2] && LE16(0x0101) == [1, 1]
    ensures LE32(48_000_000) == [0x00, 0x6C, 0xDC, 0x02]
  {
    TwoIs(0x0110);
    TwoIs(40);
    TwoIs(0x0201);
    TwoIs(0x0101);
    FourIs(48_000_000);
  }

  /** Its format and one of its sizes: the bit rate is the frame's bits times the frames
      a second, as far as 32 bits hold it. */
  lemma FormatBytes(m: Modes, i: nat)
    requires UvcDescriptors.Printable(m) && i < |m.sizes|
    ensures FormatDesc(m)
         == if m.mjpeg then [11, 0x24, 0x06, 1, |m.sizes|, 0, 1, 0, 0, 0, 0]
            else [27, 0x24, 0x04, 1, |m.sizes|, 0x59, 0x55, 0x59, 0x32, 0x00, 0x00, 0x10, 0x00, 0x80, 0x00, 0x00,
                  0xAA, 0x00, 0x38, 0x9B, 0x71, 16, 1, 0, 0, 0, 0]
    ensures var rate := Four(m.frameBytes[i] * 8 * m.fps % 0x1_0000_0000);
            FrameDesc(m, i) ==
            [30, 0x24, if m.mjpeg then 0x07 else 0x05, i + 1, 0] + Two(m.sizes[i].0) + Two(m.sizes[i].1)
            + rate + rate + Four(m.frameBytes[i]) + Four(m.interval) + [1] + Four(m.interval)
  {
    var rate := m.frameBytes[i] * 8 * m.fps % 0x1_0000_0000;
    assert Rate(m, i) == rate;
    TwoIs(m.sizes[i].0);
    TwoIs(m.sizes[i].1);
    FourIs(rate);
    FourIs(m.frameBytes[i]);
    FourIs(m.interval);
    hide Two, Four, LE16, LE32, Rate;
  }

  /** The colours, and the streaming interface's other alternate with its endpoint. */
  lemma ClosingBytes(m: Modes, itf: byte, ep: byte)
    requires UvcDescriptors.Printable(m) && itf < 255
    ensures Closing(m, itf, ep)
         == [[6, 0x24, 0x0D, 1, 1, 4],
             [9, 0x04, itf + 1, 1, 1, 0x0E, 0x02, 0x00, 0],
             [7, 0x05, ep, 0x05] + Two(m.packet) + [1]]
  {
    TwoIs(m.packet);
    hide Two, LE16;
  }
}
