/** The descriptors of packages/usb-device-video against the parser of
    packages/usb-host-video/usb/host/_uvc.py. */
module UvcDescriptors {
  import opened Bytes
  import opened Descriptors

  const CLASS_VIDEO: byte := 0x0E
  const SUBCLASS_VIDEOSTREAMING: byte := 0x02
  const VS_FORMAT_UNCOMPRESSED: byte := 0x04
  const VS_FRAME_UNCOMPRESSED: byte := 0x05
  const VS_FORMAT_MJPEG: byte := 0x06
  const VS_FRAME_MJPEG: byte := 0x07
  const VS_FORMAT_FRAME_BASED: byte := 0x10

  // ---- what the parser reports

  datatype Encoding = Mjpeg | Uncompressed(fourcc: seq<byte>) | FrameBased

  datatype UvcFrame = UvcFrame(index: byte, width: nat, height: nat, intervals: seq<u32>,
                               maxFrameBytes: u32, defaultInterval: u32)

  datatype UvcFormat = UvcFormat(itf: byte, index: byte, encoding: Encoding, bitsPerPixel: byte,
                                 defaultFrame: byte, frames: seq<UvcFrame>)

  datatype Transfer = Isoc | Bulk | OtherTransfer

  datatype UvcAlt = UvcAlt(itf: byte, alt: byte, endpoint: byte, maxPacket: nat, perFrame: nat,
                           interval: byte, transfer: Transfer)

  // ---- the parser

  function Intervals(d: seq<byte>, i: nat): seq<u32>
    requires |d| >= 26
    decreases d[25] as int - i
  {
    if i >= d[25] as int || 26 + i * 4 + 4 > |d| then [] else [Get32(d, 26 + i * 4)] + Intervals(d, i + 1)
  }

  /** _frame: one frame descriptor, unless it is too short. */
  function FrameOf(d: seq<byte>): seq<UvcFrame> {
    if |d| < 26 then []
    else
      var intervals :=
        if d[25] == 0 then (if |d| >= 38 then [Get32(d, 26), Get32(d, 30)] else []) else Intervals(d, 0);
      [UvcFrame(d[3], Get16(d, 5), Get16(d, 7), intervals, Get32(d, 17), Get32(d, 21))]
  }

  /** The walk's state: the interface and alternate it is in, whether a format is
      waiting for its frames, and the formats found. `failed`: a descriptor was
      shorter than what is read of it. */
  datatype Scan = Scan(itf: byte, alt: byte, isVs: bool, pending: bool, found: seq<UvcFormat>, failed: bool)

  function Fresh(): Scan {
    Scan(0, 0, false, false, [], false)
  }

  predicate IsVideoStreaming(d: seq<byte>)
    requires IsInterface(d)
  {
    d[5] == CLASS_VIDEO && d[6] == SUBCLASS_VIDEOSTREAMING
  }

  function FormatOf(s: Scan, d: seq<byte>): Scan
    requires |d| >= 3
  {
    if |d| < 4 || (d[2] == VS_FORMAT_MJPEG && |d| < 7) then s.(failed := true)
    else
      var f :=
        if d[2] == VS_FORMAT_MJPEG then UvcFormat(s.itf, d[3], Mjpeg, 0, d[6], [])
        else if d[2] == VS_FORMAT_UNCOMPRESSED then
          UvcFormat(s.itf, d[3], Uncompressed(d[Min(5, |d|)..Min(9, |d|)]), if |d| > 21 then d[21] else 0,
                    if |d| > 22 then d[22] else 1, [])
        else UvcFormat(s.itf, d[3], FrameBased, 0, 0, []);
      s.(pending := true, found := s.found + [f])
  }

  function WithFrames(fs: seq<UvcFormat>, more: seq<UvcFrame>): seq<UvcFormat> {
    if fs == [] then []
    else
      var last := fs[|fs| - 1];
      fs[..|fs| - 1] + [last.(frames := last.frames + more)]
  }

  /** One descriptor of formats()'s walk. */
  function FormatStep(s: Scan, d: seq<byte>): Scan
    requires |d| >= 2
  {
    if s.failed then s
    else if IsInterface(d) then s.(itf := d[2], alt := d[3], isVs := IsVideoStreaming(d), pending := false)
    else if d[1] != DT_CS_INTERFACE || |d| < 3 || !s.isVs || s.alt != 0 then s
    else if d[2] == VS_FORMAT_MJPEG || d[2] == VS_FORMAT_UNCOMPRESSED || d[2] == VS_FORMAT_FRAME_BASED then
      FormatOf(s, d)
    else if (d[2] == VS_FRAME_MJPEG || d[2] == VS_FRAME_UNCOMPRESSED) && s.pending then
      s.(found := WithFrames(s.found, FrameOf(d)))
    else s
  }

  function FormatScan(s: Scan, ds: seq<seq<byte>>): Scan
    requires forall d | d in ds :: Wellformed(d)
    decreases |ds|
  {
    if ds == [] then s else (assert Wellformed(ds[0]); FormatScan(FormatStep(s, ds[0]), ds[1..]))
  }

  /** alt_settings()'s walk: the endpoint of each streaming alternate. */
  datatype AltScan = AltScan(itf: byte, alt: byte, isVs: bool, found: seq<UvcAlt>)

  function AltStep(s: AltScan, d: seq<byte>): AltScan
    requires |d| >= 2
  {
    if IsInterface(d) then s.(itf := d[2], alt := d[3], isVs := IsVideoStreaming(d))
    else if !s.isVs || d[1] != DT_ENDPOINT || |d| < 7 then s
    else
      var raw, kind := Get16(d, 4), d[3] as int % 4;
      s.(found := s.found + [UvcAlt(s.itf, s.alt, d[2], raw % 2048, raw / 2048 % 4 + 1, d[6],
                                    if kind == 1 then Isoc else if kind == 2 then Bulk else OtherTransfer)])
  }

  function AltsScan(s: AltScan, ds: seq<seq<byte>>): AltScan
    requires forall d | d in ds :: Wellformed(d)
    decreases |ds|
  {
    if ds == [] then s else (assert Wellformed(ds[0]); AltsScan(AltStep(s, ds[0]), ds[1..]))
  }

  /** formats(): the walk, over the bytes. */
  method Formats(blob: seq<byte>) returns (s: Scan)
    ensures s == FormatScan(Fresh(), Walk(blob))
  {
    hide FormatStep;
    s := Fresh();
    var offset := 0;
    assert blob[0..] == blob;
    while offset + 2 <= |blob|
      invariant 0 <= offset <= |blob|
      invariant FormatScan(s, Walk(blob[offset..])) == FormatScan(Fresh(), Walk(blob))
    {
      var len := blob[offset] as int;
      if len < 2 || offset + len > |blob| {
        return;
      }
      WalkNext(blob, offset);
      s := FormatStep(s, blob[offset..offset + len]);
      offset := offset + len;
    }
  }

  method AltSettings(blob: seq<byte>) returns (s: AltScan)
    ensures s == AltsScan(AltScan(0, 0, false, []), Walk(blob))
  {
    hide AltStep;
    s := AltScan(0, 0, false, []);
    var offset := 0;
    assert blob[0..] == blob;
    while offset + 2 <= |blob|
      invariant 0 <= offset <= |blob|
      invariant AltsScan(s, Walk(blob[offset..])) == AltsScan(AltScan(0, 0, false, []), Walk(blob))
    {
      var len := blob[offset] as int;
      if len < 2 || offset + len > |blob| {
        return;
      }
      WalkNext(blob, offset);
      s := AltStep(s, blob[offset..offset + len]);
      offset := offset + len;
    }
  }

  lemma {:induction false} FormatScanAppend(s: Scan, a: seq<seq<byte>>, b: seq<seq<byte>>)
    requires (forall d | d in a :: Wellformed(d)) && forall d | d in b :: Wellformed(d)
    ensures forall d | d in a + b :: Wellformed(d)
    ensures FormatScan(s, a + b) == FormatScan(FormatScan(s, a), b)
    decreases |a|
  {
    hide FormatStep;
    if a == [] {
      assert a + b == b;
    } else {
      assert Wellformed(a[0]);
      assert (a + b)[1..] == a[1..] + b;
      FormatScanAppend(FormatStep(s, a[0]), a[1..], b);
    }
  }

  lemma {:induction false} AltsScanAppend(s: AltScan, a: seq<seq<byte>>, b: seq<seq<byte>>)
    requires (forall d | d in a :: Wellformed(d)) && forall d | d in b :: Wellformed(d)
    ensures forall d | d in a + b :: Wellformed(d)
    ensures AltsScan(s, a + b) == AltsScan(AltsScan(s, a), b)
    decreases |a|
  {
    hide AltStep;
    if a == [] {
      assert a + b == b;
    } else {
      assert Wellformed(a[0]);
      assert (a + b)[1..] == a[1..] + b;
      AltsScanAppend(AltStep(s, a[0]), a[1..], b);
    }
  }

  // ---- the printer

  const YUY2: seq<byte> := [0x59, 0x55, 0x59, 0x32]

  /** What a camera offers: its sizes with their frame bytes, one rate, one packet. */
  datatype Modes = Modes(sizes: seq<(nat, nat)>, frameBytes: seq<nat>, mjpeg: bool, fps: nat, interval: nat,
                         packet: nat)

  /** Every field fits the place it is printed in. */
  predicate Printable(m: Modes) {
    && 0 < |m.sizes| == |m.frameBytes| <= 255 && m.interval < TWO32 && m.packet < 0x1_0000
    && (forall i | 0 <= i < |m.sizes| :: m.sizes[i].0 < 0x1_0000 && m.sizes[i].1 < 0x1_0000)
    && (forall i | 0 <= i < |m.frameBytes| :: m.frameBytes[i] < TWO32)
  }

  function Rate(m: Modes, i: nat): u32
    requires i < |m.frameBytes|
  {
    m.frameBytes[i] * 8 * m.fps % TWO32
  }

  function FrameDesc(m: Modes, i: nat): (d: seq<byte>)
    requires Printable(m) && i < |m.sizes|
    ensures Wellformed(d) && |d| == 30
  {
    var sub: byte := if m.mjpeg then VS_FRAME_MJPEG else VS_FRAME_UNCOMPRESSED;
    [30, DT_CS_INTERFACE, sub, i + 1, 0] + LE16(m.sizes[i].0) + LE16(m.sizes[i].1) + LE32(Rate(m, i)) + LE32(Rate(m, i))
    + LE32(m.frameBytes[i]) + LE32(m.interval) + [1] + LE32(m.interval)
  }

  function FrameDescs(m: Modes, i: nat): (ds: seq<seq<byte>>)
    requires Printable(m) && i <= |m.sizes|
    ensures forall d | d in ds :: Wellformed(d)
    decreases |m.sizes| - i
  {
    if i == |m.sizes| then [] else [FrameDesc(m, i)] + FrameDescs(m, i + 1)
  }

  function FormatDesc(m: Modes): (d: seq<byte>)
    requires Printable(m)
    ensures Wellformed(d)
  {
    if m.mjpeg then [11, DT_CS_INTERFACE, VS_FORMAT_MJPEG, 1, |m.sizes|, 0, 1, 0, 0, 0, 0]
    else
      [27, DT_CS_INTERFACE, VS_FORMAT_UNCOMPRESSED, 1, |m.sizes|] + YUY2
      + [0x00, 0x00, 0x10, 0x00, 0x80, 0x00, 0x00, 0xaa, 0x00, 0x38, 0x9b, 0x71] + [16, 1, 0, 0, 0, 0]
  }

  /** The video function's descriptors before its frames: the association, the
      control interface with its two terminals, and streaming alternate 0. */
  function Opening(m: Modes, itf: byte, ep: byte, istr: byte): (ds: seq<seq<byte>>)
    requires Printable(m) && itf < 255
    ensures forall d | d in ds :: Wellformed(d)
  {
    var total := 14 + (if m.mjpeg then 11 else 27) + 30 * |m.sizes| + 6;
    [[8, DT_IAD, itf, 2, CLASS_VIDEO, 0x03, 0x00, istr],
     [9, DT_INTERFACE, itf, 0, 0, CLASS_VIDEO, 0x01, 0x00, istr],
     [13, DT_CS_INTERFACE, 0x01] + LE16(0x0110) + LE16(40) + LE32(48_000_000) + [1, itf + 1],
     [18, DT_CS_INTERFACE, 0x02, 1] + LE16(0x0201) + [0, 0, 0, 0, 0, 0, 0, 0, 3] + [0, 0, 0],
     [9, DT_CS_INTERFACE, 0x03, 2] + LE16(0x0101) + [0, 1, 0],
     [9, DT_INTERFACE, itf + 1, 0, 0, CLASS_VIDEO, SUBCLASS_VIDEOSTREAMING, 0x00, 0],
     [14, DT_CS_INTERFACE, 0x01, 1] + LE16(total) + [ep, 0, 2, 0, 0, 0, 1, 0],
     FormatDesc(m)]
  }

  /** And those after: the colours, and alternate 1 with its isochronous endpoint. */
  function Closing(m: Modes, itf: byte, ep: byte): (ds: seq<seq<byte>>)
    requires Printable(m) && itf < 255
    ensures forall d | d in ds :: Wellformed(d)
  {
    [[6, DT_CS_INTERFACE, 0x0D, 1, 1, 4],
     [9, DT_INTERFACE, itf + 1, 1, 1, CLASS_VIDEO, SUBCLASS_VIDEOSTREAMING, 0x00, 0],
     [7, DT_ENDPOINT, ep, 0x05] + LE16(m.packet) + [1]]
  }

  function CameraDescs(m: Modes, itf: byte, ep: byte, istr: byte): (ds: seq<seq<byte>>)
    requires Printable(m) && itf < 255
    ensures forall d | d in ds :: Wellformed(d)
  {
    Opening(m, itf, ep, istr) + FrameDescs(m, 0) + Closing(m, itf, ep)
  }

  // ---- the round trip

  function FrameInfo(m: Modes, i: nat): UvcFrame
    requires Printable(m) && i < |m.sizes|
  {
    UvcFrame(i + 1, m.sizes[i].0, m.sizes[i].1, [m.interval], m.frameBytes[i], m.interval)
  }

  function FrameInfos(m: Modes, i: nat): (r: seq<UvcFrame>)
    requires Printable(m) && i <= |m.sizes|
    ensures |r| == |m.sizes| - i && forall k | 0 <= k < |r| :: r[k] == FrameInfo(m, i + k)
    decreases |m.sizes| - i
  {
    if i == |m.sizes| then [] else [FrameInfo(m, i)] + FrameInfos(m, i + 1)
  }

  /** The one format of a camera, with all its sizes. */
  function FormatInfo(m: Modes, itf: byte): UvcFormat
    requires Printable(m) && itf < 255
  {
    UvcFormat(itf + 1, 1, if m.mjpeg then Mjpeg else Uncompressed(YUY2), if m.mjpeg then 0 else 16, 1, FrameInfos(m, 0))
  }

  lemma FrameFields(m: Modes, i: nat)
    requires Printable(m) && i < |m.sizes|
    ensures var d := FrameDesc(m, i);
            && d[5..7] == LE16(m.sizes[i].0) && d[7..9] == LE16(m.sizes[i].1)
            && d[17..21] == LE32(m.frameBytes[i]) && d[21..25] == LE32(m.interval) && d[26..30] == LE32(m.interval)
            && d[3] == i + 1 && d[25] == 1
  {
    hide LE16, LE32, Get16, Get32, Rate, Wellformed;
  }

  lemma FrameParses(m: Modes, i: nat)
    requires Printable(m) && i < |m.sizes|
    ensures FrameOf(FrameDesc(m, i)) == [FrameInfo(m, i)]
  {
    var d := FrameDesc(m, i);
    FrameFields(m, i);
    hide FrameDesc, LE16, LE32, Get16, Get32;
    FieldAt(d, 5);
    FieldAt(d, 7);
    FieldAt(d, 17);
    FieldAt(d, 21);
    FieldAt(d, 26);
    OneInterval(d);
  }

  lemma OneInterval(d: seq<byte>)
    requires |d| == 30 && d[25] == 1
    ensures Intervals(d, 0) == [Get32(d, 26)]
  {
    assert Intervals(d, 1) == [];
  }

  lemma WithFramesMore(fs: seq<UvcFormat>, a: seq<UvcFrame>, b: seq<UvcFrame>)
    requires fs != []
    ensures WithFrames(WithFrames(fs, a), b) == WithFrames(fs, a + b)
    ensures WithFrames(fs, []) == fs && WithFrames(fs, a) != []
  {
    var last := fs[|fs| - 1];
    assert last.frames + a + b == last.frames + (a + b) && last.frames + [] == last.frames;
  }

  /** Each frame descriptor adds its frame to the format in front of it. */
  lemma {:induction false} FramesScan(m: Modes, s: Scan, i: nat)
    requires Printable(m) && i <= |m.sizes| && !s.failed && s.isVs && s.alt == 0 && s.pending && s.found != []
    ensures FormatScan(s, FrameDescs(m, i)) == s.(found := WithFrames(s.found, FrameInfos(m, i)))
    decreases |m.sizes| - i
  {
    if i == |m.sizes| {
      WithFramesMore(s.found, [], []);
    } else {
      var d := FrameDesc(m, i);
      FrameParses(m, i);
      var s' := s.(found := WithFrames(s.found, [FrameInfo(m, i)]));
      assert FormatStep(s, d) == s' by {
        hide WithFrames, FrameOf, FrameInfo;
      }
      WithFramesMore(s.found, [FrameInfo(m, i)], FrameInfos(m, i + 1));
      hide FormatStep, WithFrames, FrameDesc;
      FramesScan(m, s', i + 1);
      assert FrameDescs(m, i)[0] == d && FrameDescs(m, i)[1..] == FrameDescs(m, i + 1);
    }
  }

  /** No descriptor here begins a video streaming interface. */
  ghost predicate NoVideo(ds: seq<seq<byte>>) {
    forall d | d in ds :: Wellformed(d) && (IsInterface(d) ==> !IsVideoStreaming(d))
  }

  /** What follows another function begins an interface before any endpoint. */
  ghost predicate Apart(ds: seq<seq<byte>>)
    decreases |ds|
  {
    ds == [] || (|ds[0]| >= 2 && (IsInterface(ds[0]) || (ds[0][1] != DT_ENDPOINT && Apart(ds[1..]))))
  }

  lemma {:induction false} FormatsQuiet(s: Scan, ds: seq<seq<byte>>)
    requires NoVideo(ds) && !s.failed && (s.isVs ==> s.alt != 0)
    ensures FormatScan(s, ds).found == s.found && !FormatScan(s, ds).failed
    decreases |ds|
  {
    if ds != [] {
      assert ds[0] in ds;
      hide WithFrames, FrameOf, FormatOf;
      FormatsQuiet(FormatStep(s, ds[0]), ds[1..]);
    }
  }

  lemma {:induction false} AltsQuiet(s: AltScan, ds: seq<seq<byte>>)
    requires NoVideo(ds) && (s.isVs ==> Apart(ds))
    ensures AltsScan(s, ds).found == s.found
    decreases |ds|
  {
    if ds != [] {
      assert ds[0] in ds;
      AltsQuiet(AltStep(s, ds[0]), ds[1..]);
    }
  }

  lemma FormatScanNext(s: Scan, ds: seq<seq<byte>>)
    requires (forall d | d in ds :: Wellformed(d)) && ds != []
    ensures Wellformed(ds[0]) && FormatScan(s, ds) == FormatScan(FormatStep(s, ds[0]), ds[1..])
  {
    assert Wellformed(ds[0]);
  }

  /** The control interface's descriptors, whose subtypes would read as formats, are
      passed over; then comes the one format. */
  lemma OpeningScan(s: Scan, m: Modes, itf: byte, ep: byte, istr: byte)
    requires Printable(m) && itf < 255 && !s.failed
    ensures var f := FormatInfo(m, itf).(frames := []);
            FormatScan(s, Opening(m, itf, ep, istr)) == Scan(itf + 1, 0, true, true, s.found + [f], false)
  {
    var ds := Opening(m, itf, ep, istr);
    var s1 := s.(itf := itf, alt := 0, isVs := false, pending := false);
    var s5 := Scan(itf + 1, 0, true, false, s.found, false);
    FormatDescParses(s5, m, itf);
    hide FormatDesc, FormatInfo, WithFrames, FormatOf;
    assert FormatStep(s, ds[0]) == s && FormatStep(s, ds[1]) == s1;
    assert FormatStep(s1, ds[2]) == s1 && FormatStep(s1, ds[3]) == s1 && FormatStep(s1, ds[4]) == s1;
    assert FormatStep(s1, ds[5]) == s5 && FormatStep(s5, ds[6]) == s5 && ds[7] == FormatDesc(m);
    hide FormatStep, Opening, LE16, LE32;
    EightSteps(s, s1, s5, ds);
  }

  lemma EightSteps(s: Scan, s1: Scan, s5: Scan, ds: seq<seq<byte>>)
    requires |ds| == 8 && forall d | d in ds :: Wellformed(d)
    requires forall i | 0 <= i < 8 :: |ds[i]| >= 2
    requires FormatStep(s, ds[0]) == s && FormatStep(s, ds[1]) == s1
    requires FormatStep(s1, ds[2]) == s1 && FormatStep(s1, ds[3]) == s1 && FormatStep(s1, ds[4]) == s1
    requires FormatStep(s1, ds[5]) == s5 && FormatStep(s5, ds[6]) == s5
    ensures FormatScan(s, ds) == FormatStep(s5, ds[7])
  {
    hide FormatStep, FormatScan, Wellformed;
    FormatScanNext(s, ds);
    FormatScanNext(s, ds[1..]);
    FormatScanNext(s1, ds[2..]);
    FormatScanNext(s1, ds[3..]);
    FormatScanNext(s1, ds[4..]);
    FormatScanNext(s1, ds[5..]);
    FormatScanNext(s5, ds[6..]);
    FormatScanNext(s5, ds[7..]);
    NothingLeft(FormatStep(s5, ds[7]));
    assert ds[1..][1..] == ds[2..] && ds[2..][1..] == ds[3..] && ds[3..][1..] == ds[4..] && ds[4..][1..] == ds[5..];
    assert ds[5..][1..] == ds[6..] && ds[6..][1..] == ds[7..] && ds[8..] == ds[7..][1..] && |ds[8..]| == 0;
  }

  lemma NothingLeft(s: Scan)
    ensures FormatScan(s, []) == s
  {
  }

  lemma FormatDescParses(s: Scan, m: Modes, itf: byte)
    requires Printable(m) && itf < 255 && s.itf == itf + 1 && s.alt == 0 && s.isVs && !s.failed
    ensures FormatStep(s, FormatDesc(m)) == s.(pending := true, found := s.found + [FormatInfo(m, itf).(frames := [])])
  {
    var d := FormatDesc(m);
    if !m.mjpeg {
      assert d[5..9] == YUY2 && d[21] == 16 && d[22] == 1;
    }
    assert FormatStep(s, d) == FormatOf(s, d) by {
      hide FormatOf, WithFrames, FrameOf;
    }
  }

  /** Parsing what a camera prints, among any other functions' descriptors, gives back
      one format, with exactly its sizes, frame bytes and interval. */
  lemma FormatsRoundTrip(before: seq<seq<byte>>, m: Modes, itf: byte, ep: byte, istr: byte, after: seq<seq<byte>>)
    requires Printable(m) && itf < 255 && NoVideo(before) && NoVideo(after)
    ensures var s := FormatScan(Fresh(), Walk(Join(before + CameraDescs(m, itf, ep, istr) + after)));
            !s.failed && s.found == [FormatInfo(m, itf)]
  {
    var camera := CameraDescs(m, itf, ep, istr);
    var a, b, c := Opening(m, itf, ep, istr), FrameDescs(m, 0), Closing(m, itf, ep);
    hide Opening, Closing, FrameDescs, FormatInfo, WithFrames, FormatStep;
    AllWellformed(before, camera, after);
    WalkInverts(before + camera + after);
    FormatsQuiet(Fresh(), before);
    var s0 := FormatScan(Fresh(), before);
    OpeningScan(s0, m, itf, ep, istr);
    var s1 := FormatScan(s0, a);
    FramesScan(m, s1, 0);
    var s2 := FormatScan(s1, b);
    ClosingScan(s2, m, itf, ep);
    var s3 := FormatScan(s2, c);
    FormatsQuiet(s3, after);
    FormatScanAppend(s0, a, b);
    FormatScanAppend(s0, a + b, c);
    FormatScanAppend(Fresh(), before, camera);
    FormatScanAppend(Fresh(), before + camera, after);
    OneFormat(m, itf, s0.found);
  }

  lemma AllWellformed(before: seq<seq<byte>>, camera: seq<seq<byte>>, after: seq<seq<byte>>)
    requires NoVideo(before) && NoVideo(after) && forall d | d in camera :: Wellformed(d)
    ensures forall d | d in before + camera + after :: Wellformed(d)
    ensures (forall d | d in before :: Wellformed(d)) && forall d | d in after :: Wellformed(d)
  {
  }

  lemma OneFormat(m: Modes, itf: byte, found: seq<UvcFormat>)
    requires Printable(m) && itf < 255 && found == []
    ensures WithFrames(found + [FormatInfo(m, itf).(frames := [])], FrameInfos(m, 0)) == [FormatInfo(m, itf)]
  {
    var none: seq<UvcFrame> := [];
    assert none + FrameInfos(m, 0) == FrameInfos(m, 0);
  }

  lemma ClosingScan(s: Scan, m: Modes, itf: byte, ep: byte)
    requires Printable(m) && itf < 255 && !s.failed && s.isVs && s.alt == 0
    ensures FormatScan(s, Closing(m, itf, ep)) == s.(itf := itf + 1, alt := 1, pending := false)
  {
    var ds := Closing(m, itf, ep);
    var s1 := s.(itf := itf + 1, alt := 1, pending := false);
    assert FormatStep(s, ds[0]) == s && FormatStep(s, ds[1]) == s1 && FormatStep(s1, ds[2]) == s1;
    hide FormatStep, Closing;
    FormatScanNext(s, ds);
    FormatScanNext(s, ds[1..]);
    FormatScanNext(s1, ds[2..]);
    NothingLeft(s1);
    assert ds[1..][1..] == ds[2..] && ds[3..] == ds[2..][1..] && |ds[3..]| == 0;
  }

  // ---- the bandwidth tier

  ghost predicate NoEndpoints(ds: seq<seq<byte>>) {
    forall d | d in ds :: Wellformed(d) && d[1] != DT_ENDPOINT
  }

  lemma {:induction false} NoEndpointsNoTiers(s: AltScan, ds: seq<seq<byte>>)
    requires NoEndpoints(ds)
    ensures AltsScan(s, ds).found == s.found
    decreases |ds|
  {
    if ds != [] {
      assert ds[0] in ds;
      NoEndpointsNoTiers(AltStep(s, ds[0]), ds[1..]);
    }
  }

  lemma {:induction false} FramesNoEndpoints(m: Modes, i: nat)
    requires Printable(m) && i <= |m.sizes|
    ensures NoEndpoints(FrameDescs(m, i))
    decreases |m.sizes| - i
  {
    if i < |m.sizes| {
      FramesNoEndpoints(m, i + 1);
      assert FrameDesc(m, i)[1] == DT_CS_INTERFACE;
      hide FrameDesc;
    }
  }

  /** The camera's one tier: its endpoint, with the packet as the parser splits it. */
  function TierInfo(m: Modes, itf: byte, ep: byte): UvcAlt
    requires itf < 255
  {
    UvcAlt(itf + 1, 1, ep, m.packet % 2048, m.packet / 2048 % 4 + 1, 1, Isoc)
  }

  lemma ClosingTier(s: AltScan, m: Modes, itf: byte, ep: byte)
    requires Printable(m) && itf < 255
    ensures AltsScan(s, Closing(m, itf, ep)) == AltScan(itf + 1, 1, true, s.found + [TierInfo(m, itf, ep)])
  {
    var ds := Closing(m, itf, ep);
    var s1 := s.(itf := itf + 1, alt := 1, isVs := true);
    var e := ds[2];
    assert e[4..6] == LE16(m.packet) && Get16(e, 4) == Get16(e[4..6], 0);
    assert AltStep(s, ds[0]) == s && AltStep(s, ds[1]) == s1;
    assert AltStep(s1, e) == s1.(found := s1.found + [TierInfo(m, itf, ep)]);
    hide AltStep, Closing;
    AltsNext(s, ds);
    AltsNext(s, ds[1..]);
    AltsNext(s1, ds[2..]);
    assert ds[1..][1..] == ds[2..] && ds[3..] == ds[2..][1..] && |ds[3..]| == 0;
  }

  lemma AltsNext(s: AltScan, ds: seq<seq<byte>>)
    requires (forall d | d in ds :: Wellformed(d)) && ds != []
    ensures Wellformed(ds[0]) && AltsScan(s, ds) == AltsScan(AltStep(s, ds[0]), ds[1..])
  {
    assert Wellformed(ds[0]);
  }

  lemma OpeningNoEndpoints(m: Modes, itf: byte, ep: byte, istr: byte)
    requires Printable(m) && itf < 255
    ensures NoEndpoints(Opening(m, itf, ep, istr))
  {
  }

  /** And exactly one tier: the camera's endpoint, at alternate 1. */
  lemma TierRoundTrip(before: seq<seq<byte>>, m: Modes, itf: byte, ep: byte, istr: byte, after: seq<seq<byte>>)
    requires Printable(m) && itf < 255 && NoVideo(before) && NoVideo(after) && Apart(after)
    ensures AltsScan(AltScan(0, 0, false, []), Walk(Join(before + CameraDescs(m, itf, ep, istr) + after))).found
            == [TierInfo(m, itf, ep)]
  {
    var camera, s := CameraDescs(m, itf, ep, istr), AltScan(0, 0, false, []);
    var a, b, c := Opening(m, itf, ep, istr), FrameDescs(m, 0), Closing(m, itf, ep);
    OpeningNoEndpoints(m, itf, ep, istr);
    FramesNoEndpoints(m, 0);
    hide Opening, Closing, FrameDescs, AltStep, Apart;
    AllWellformed(before, camera, after);
    WalkInverts(before + camera + after);
    AltsQuiet(s, before);
    var s0 := AltsScan(s, before);
    NoEndpointsNoTiers(s0, a);
    NoEndpointsNoTiers(AltsScan(s0, a), b);
    var s2 := AltsScan(AltsScan(s0, a), b);
    ClosingTier(s2, m, itf, ep);
    AltsQuiet(AltsScan(s2, c), after);
    AltsScanAppend(s0, a, b);
    AltsScanAppend(s0, a + b, c);
    AltsScanAppend(s, before, camera);
    AltsScanAppend(s, before + camera, after);
  }
}
