/** Camera._negotiate of packages/usb-host-video/usb/host/video.py against the camera
    of packages/usb-device-video: the host's pick and the device's choice agree,
    however many modes were proposed and refused on the way. */
module UvcNegotiate {
  import opened Bytes
  import opened Wire
  import opened Descriptors
  import opened UvcDescriptors
  import opened UvcCamera

  datatype Want = Any | Only(encoding: Encoding)

  datatype Candidate = Candidate(area: nat, rank: nat, format: UvcFormat, frame: UvcFrame)

  datatype Pick = Pick(format: UvcFormat, frame: UvcFrame, interval: u32, payload: u32, frameBytes: u32, alt: UvcAlt)

  // ---- the alternate setting

  predicate Carries(a: UvcAlt, payload: nat) {
    a.transfer.Isoc? && a.maxPacket * a.perFrame >= payload
  }

  function Size(a: UvcAlt): nat {
    a.maxPacket * a.perFrame
  }

  /** alt_for_payload: the smallest isochronous alternate that carries the payload. */
  method AltForPayload(alts: seq<UvcAlt>, payload: nat) returns (r: Option<UvcAlt>)
    ensures r.None? <==> forall a | a in alts :: !Carries(a, payload)
    ensures r.Some? ==> r.value in alts && Carries(r.value, payload)
                        && forall a | a in alts && Carries(a, payload) :: Size(r.value) <= Size(a)
    ensures r.None? <==> forall a | a in alts :: !(a.transfer.Isoc? && a.maxPacket * a.perFrame >= payload)
    ensures r.Some? ==> r.value.transfer.Isoc? && r.value.maxPacket * r.value.perFrame >= payload
                        && forall a | a in alts && a.transfer.Isoc? && a.maxPacket * a.perFrame >= payload ::
                             r.value.maxPacket * r.value.perFrame <= a.maxPacket * a.perFrame
  {
    r := None;
    var i := 0;
    while i < |alts|
      invariant 0 <= i <= |alts|
      invariant r.None? <==> forall k | 0 <= k < i :: !Carries(alts[k], payload)
      invariant r.Some? ==> r.value in alts && Carries(r.value, payload)
                            && forall k | 0 <= k < i && Carries(alts[k], payload) :: Size(r.value) <= Size(alts[k])
    {
      hide Size, Carries;
      if Carries(alts[i], payload) && (r.None? || Size(alts[i]) < Size(r.value)) {
        r := Some(alts[i]);
      }
      i := i + 1;
    }
  }

  // ---- the candidates, largest first

  predicate Wanted(w: Want, f: UvcFormat) {
    w.Any? || w.encoding == f.encoding
  }

  predicate WithinSize(frame: UvcFrame, maxW: nat, maxH: nat) {
    frame.width <= maxW && frame.height <= maxH
  }

  function CandidateOf(f: UvcFormat, frame: UvcFrame): Candidate {
    Candidate(frame.width * frame.height, if f.encoding.Mjpeg? then 1 else 0, f, frame)
  }

  /** No later candidate than this one, in the order they are tried. */
  predicate Before(a: Candidate, b: Candidate) {
    a.area > b.area || (a.area == b.area && a.rank >= b.rank)
  }

  predicate InOrder(cs: seq<Candidate>) {
    forall i, j | 0 <= i < j < |cs| :: Before(cs[i], cs[j])
  }

  ghost function Members(cs: seq<Candidate>): set<Candidate> {
    set c | c in cs
  }

  lemma MembersAppend(a: seq<Candidate>, b: seq<Candidate>)
    ensures Members(a + b) == Members(a) + Members(b)
    ensures Members([]) == {}
    ensures |b| == 1 ==> Members(b) == {b[0]}
  {
  }

  /** The place of a new candidate: behind those it does not outrank, as a stable
      descending sort would have it. */
  method Insert(cs: seq<Candidate>, c: Candidate) returns (r: seq<Candidate>)
    requires InOrder(cs)
    ensures InOrder(r) && Members(r) == Members(cs) + {c}
  {
    var i := |cs|;
    while i > 0 && !Before(cs[i - 1], c)
      invariant 0 <= i <= |cs| && forall k | i <= k < |cs| :: !Before(cs[k], c)
    {
      i := i - 1;
    }
    r := cs[..i] + [c] + cs[i..];
    Inserted(cs, i, c);
  }

  lemma Inserted(cs: seq<Candidate>, i: nat, c: Candidate)
    requires InOrder(cs) && i <= |cs| && (i > 0 ==> Before(cs[i - 1], c))
    requires forall k | i <= k < |cs| :: !Before(cs[k], c)
    ensures var r := cs[..i] + [c] + cs[i..];
            InOrder(r) && Members(r) == Members(cs) + {c}
  {
    var r := cs[..i] + [c] + cs[i..];
    MembersAppend(cs[..i], [c]);
    MembersAppend(cs[..i] + [c], cs[i..]);
    MembersAppend(cs[..i], cs[i..]);
    assert cs == cs[..i] + cs[i..];
    hide Members;
    forall a, b | 0 <= a < b < |r| ensures Before(r[a], r[b]) {
      InsertedPair(cs, i, c, a, b);
    }
  }

  lemma InsertedPair(cs: seq<Candidate>, i: nat, c: Candidate, a: nat, b: nat)
    requires InOrder(cs) && i <= |cs| && (i > 0 ==> Before(cs[i - 1], c))
    requires forall k | i <= k < |cs| :: !Before(cs[k], c)
    requires a < b < |cs| + 1
    ensures var r := cs[..i] + [c] + cs[i..];
            Before(r[a], r[b])
  {
    if a < i && b == i {
      assert Before(cs[a], cs[i - 1]) || a == i - 1;
    }
  }

  /** The first `k` sizes of a format that are within the limit, as it lists them. */
  function OfFormat(f: UvcFormat, k: nat, maxW: nat, maxH: nat): seq<Candidate>
    requires k <= |f.frames|
  {
    if k == 0 then []
    else
      var frame := f.frames[k - 1];
      OfFormat(f, k - 1, maxW, maxH) + if WithinSize(frame, maxW, maxH) then [CandidateOf(f, frame)] else []
  }

  function Offered(formats: seq<UvcFormat>, i: nat, want: Want, maxW: nat, maxH: nat): seq<Candidate>
    requires i <= |formats|
  {
    if i == 0 then []
    else
      var f := formats[i - 1];
      Offered(formats, i - 1, want, maxW, maxH) + if Wanted(want, f) then OfFormat(f, |f.frames|, maxW, maxH) else []
  }

  /** The sizes of the wanted formats within the limit, ordered for trying. */
  method Candidates(formats: seq<UvcFormat>, want: Want, maxW: nat, maxH: nat) returns (found: seq<Candidate>)
    ensures InOrder(found)
            && forall i, j | 0 <= i < j < |found| ::
                 || found[i].area > found[j].area
                 || (found[i].area == found[j].area && found[i].rank >= found[j].rank)
    ensures Members(found) == Members(Offered(formats, |formats|, want, maxW, maxH))
  {
    hide WithinSize, CandidateOf, InOrder, Wanted;
    found := [];
    OneInOrder();
    var i := 0;
    while i < |formats|
      invariant 0 <= i <= |formats| && InOrder(found)
      invariant Members(found) == Members(Offered(formats, i, want, maxW, maxH))
    {
      var f := formats[i];
      MembersAppend(Offered(formats, i, want, maxW, maxH), OfFormat(f, |f.frames|, maxW, maxH));
      MembersAppend(Offered(formats, i, want, maxW, maxH), []);
      hide Members;
      if Wanted(want, f) {
        found := AddFormat(found, f, maxW, maxH);
      }
      i := i + 1;
    }
    ThatOrder(found);
  }

  lemma ThatOrder(cs: seq<Candidate>)
    requires InOrder(cs)
    ensures forall i, j | 0 <= i < j < |cs| ::
              cs[i].area > cs[j].area || (cs[i].area == cs[j].area && cs[i].rank >= cs[j].rank)
  {
  }

  /** What is offered: every size within the limit of every format that is wanted, with
      its area and, as a tie is broken, whether it is compressed. */
  ghost predicate OfferOf(c: Candidate, f: UvcFormat, k: nat, want: Want, maxW: nat, maxH: nat) {
    && k < |f.frames| && (want.Any? || want.encoding == f.encoding)
    && f.frames[k].width <= maxW && f.frames[k].height <= maxH
    && c == Candidate(f.frames[k].width * f.frames[k].height, if f.encoding.Mjpeg? then 1 else 0, f, f.frames[k])
  }

  ghost predicate Offers(c: Candidate, f: UvcFormat, k: nat, want: Want, maxW: nat, maxH: nat) {
    exists j | 0 <= j < k :: OfferOf(c, f, j, want, maxW, maxH)
  }

  lemma {:induction false} OffersOfFormat(f: UvcFormat, k: nat, want: Want, maxW: nat, maxH: nat, c: Candidate)
    requires k <= |f.frames| && (want.Any? || want.encoding == f.encoding)
    ensures c in OfFormat(f, k, maxW, maxH) <==> Offers(c, f, k, want, maxW, maxH)
  {
    if k > 0 {
      OffersOfFormat(f, k - 1, want, maxW, maxH, c);
      var here := OfferOf(c, f, k - 1, want, maxW, maxH);
      assert c in OfFormat(f, k, maxW, maxH) <==> c in OfFormat(f, k - 1, maxW, maxH) || here;
      hide OfFormat, OfferOf;
      assert forall j | 0 <= j < k && OfferOf(c, f, j, want, maxW, maxH) :: j == k - 1 || j < k - 1;
    }
  }

  ghost predicate OffersAt(c: Candidate, formats: seq<UvcFormat>, i: nat, want: Want, maxW: nat, maxH: nat) {
    i < |formats| && Offers(c, formats[i], |formats[i].frames|, want, maxW, maxH)
  }

  lemma {:induction false} OfferedIs(formats: seq<UvcFormat>, n: nat, want: Want, maxW: nat, maxH: nat, c: Candidate)
    requires n <= |formats|
    ensures c in Offered(formats, n, want, maxW, maxH)
            <==> exists i | 0 <= i < n :: OffersAt(c, formats, i, want, maxW, maxH)
  {
    NoneOffered(formats, want, maxW, maxH);
    hide *;
    if n > 0 {
      OfferedIs(formats, n - 1, want, maxW, maxH, c);
      LastFormat(formats, n, formats[n - 1], want, maxW, maxH, c);
      assert forall i | 0 <= i < n && OffersAt(c, formats, i, want, maxW, maxH) :: i == n - 1 || i < n - 1;
    }
  }

  lemma NoneOffered(formats: seq<UvcFormat>, want: Want, maxW: nat, maxH: nat)
    ensures Offered(formats, 0, want, maxW, maxH) == []
  {
  }

  lemma LastFormat(formats: seq<UvcFormat>, n: nat, f: UvcFormat, want: Want, maxW: nat, maxH: nat, c: Candidate)
    requires 0 < n <= |formats| && f == formats[n - 1]
    ensures c in Offered(formats, n, want, maxW, maxH)
            <==> c in Offered(formats, n - 1, want, maxW, maxH) || OffersAt(c, formats, n - 1, want, maxW, maxH)
  {
    if Wanted(want, f) {
      OffersOfFormat(f, |f.frames|, want, maxW, maxH, c);
      hide Offers, OfFormat;
    }
  }

  lemma OneInOrder()
    ensures InOrder([]) && Members([]) == {}
  {
  }

  method AddFormat(cs: seq<Candidate>, f: UvcFormat, maxW: nat, maxH: nat) returns (found: seq<Candidate>)
    requires InOrder(cs)
    ensures InOrder(found) && Members(found) == Members(cs) + Members(OfFormat(f, |f.frames|, maxW, maxH))
  {
    hide WithinSize, CandidateOf, InOrder;
    found := cs;
    var k := 0;
    while k < |f.frames|
      invariant 0 <= k <= |f.frames| && InOrder(found)
      invariant Members(found) == Members(cs) + Members(OfFormat(f, k, maxW, maxH))
    {
      var frame := f.frames[k];
      MembersAppend(OfFormat(f, k, maxW, maxH), [CandidateOf(f, frame)]);
      MembersAppend(OfFormat(f, k, maxW, maxH), []);
      hide Members;
      if WithinSize(frame, maxW, maxH) {
        found := Insert(found, CandidateOf(f, frame));
      }
      k := k + 1;
    }
  }

  // ---- one proposal

  /** The size a frame index names on the device: out of range, it is the first. */
  function Named(m: Modes, index: byte): (r: nat)
    requires Printable(m)
    ensures 1 <= r <= |m.sizes|
  {
    if 1 <= index as int <= |m.sizes| then index else 1
  }

  function Probe(formatIndex: byte, frameIndex: byte, interval: u32): (r: seq<byte>)
    ensures |r| == PROBE_LEN && r[3] == frameIndex
  {
    [0, 0, formatIndex, frameIndex] + LE32(interval) + Zeros(26)
  }

  lemma ProbeIs(formatIndex: byte, frameIndex: byte, interval: u32)
    ensures var r := Probe(formatIndex, frameIndex, interval);
            && |r| == 34 && r[..8] == [0, 0, formatIndex, frameIndex] + Four(interval)
            && forall i | 8 <= i < 34 :: r[i] == 0
  {
    FourIs(interval);
    hide LE32, Four;
  }

  /** What a commit of size `told` leaves as the device's size. */
  function Committed(alt: nat, index: nat, told: nat): nat {
    if alt == 0 then told else index
  }

  /** PROBE, read back, COMMIT that verbatim. The device has taken the size proposed,
      and answered with what that size costs. Its current size is the one the host was
      told exactly if it was idle or had that size already, and its frame bytes are
      exactly if it was idle or its size's are the same. */
  method Negotiate(cam: CameraInterface, formatIndex: byte, frameIndex: byte, interval: u32)
    returns (payload: u32, frameBytes: u32)
    requires cam.Valid()
    modifies cam`pending, cam`probeIndex, cam`index, cam`width, cam`height, cam`frameBytes
    ensures cam.Valid() && cam.probeIndex == Named(cam.modes, frameIndex)
    ensures cam.index == Committed(cam.alt, old(cam.index), Named(cam.modes, frameIndex))
    ensures cam.index == Named(cam.modes, frameIndex)
            <==> cam.alt == 0 || old(cam.index) == Named(cam.modes, frameIndex)
    ensures cam.frameBytes == frameBytes <==> cam.alt == 0 || old(cam.frameBytes) == frameBytes
    ensures payload == cam.modes.packet && frameBytes == cam.modes.frameBytes[Named(cam.modes, frameIndex) - 1]
  {
    cam.SetCur(VS_PROBE, Probe(formatIndex, frameIndex, interval));
    ProbeFields(cam.modes, cam.probeIndex);
    hide ProbeValues, Get32, Probe;
    var got := cam.GetCur(VS_PROBE);
    cam.SetCur(VS_COMMIT, got);
    payload, frameBytes := Get32(got, 22), Get32(got, 18);
  }

  /** A camera streaming its first size, in another's negotiation: the host is told
      of the second size's 2048 frame bytes, and the first size's 512 go on streaming. */
  method StreamingKeepsItsSize() returns (told: u32, streamed: nat)
    ensures told == 2048 && streamed == 512
  {
    var cam := new CameraInterface(Modes([(16, 16), (32, 32)], [512, 2048], false, 30, 333333, 512), 0);
    cam.SetAlt(1);
    var payload;
    payload, told := Negotiate(cam, 1, 2, 333333);
    streamed := cam.frameBytes;
  }

  // ---- trying the modes in order

  /** What the intervals are ordered by: themselves, or with a rate asked for how
      far the interval's rate is from it. A rate of 0 is none. */
  function TrialKey(fps: real, interval: u32): real {
    if fps == 0.0 then interval as real
    else if interval == 0 then 0.0
    else
      var off := 10_000_000.0 / interval as real - fps;
      if off < 0.0 then -off else off
  }

  ghost predicate Rising(fps: real, s: seq<u32>) {
    forall i, j | 0 <= i < j < |s| :: TrialKey(fps, s[i]) <= TrialKey(fps, s[j])
  }

  /** The interval tried first: of those with the least key the first listed, as a
      stable sort leaves them. */
  function FirstTried(fps: real, s: seq<u32>): (r: u32)
    requires s != []
  {
    var last := s[|s| - 1];
    if |s| == 1 then last
    else
      var before := FirstTried(fps, s[..|s| - 1]);
      if TrialKey(fps, last) < TrialKey(fps, before) then last else before
  }

  lemma {:induction false} FirstTriedIs(fps: real, s: seq<u32>)
    requires s != []
    ensures var r := FirstTried(fps, s);
            && (forall i | i in s :: TrialKey(fps, r) <= TrialKey(fps, i))
            && exists k :: FirstAt(fps, s, k, r)
  {
    hide TrialKey;
    var last := |s| - 1;
    if last == 0 {
      assert FirstAt(fps, s, 0, s[0]);
    } else {
      var most := s[..last];
      FirstTriedIs(fps, most);
      var before := FirstTried(fps, most);
      var k :| FirstAt(fps, most, k, before);
      assert s == most + [s[last]];
      assert forall j | 0 <= j < last :: s[j] == most[j] && most[j] in most;
      assert TrialKey(fps, s[last]) < TrialKey(fps, before) ==> FirstAt(fps, s, last, s[last]);
      assert FirstAt(fps, s, k, before);
    }
  }

  /** `x` is listed at `k`, and those before it would be tried later. */
  ghost predicate FirstAt(fps: real, s: seq<u32>, k: int, x: u32) {
    0 <= k < |s| && s[k] == x && forall j | 0 <= j < k :: TrialKey(fps, x) < TrialKey(fps, s[j])
  }

  /** That is: with no rate asked for the shortest; otherwise the one whose rate is
      nearest to the rate asked for, a 0 counting as just right. */
  lemma FirstTriedMeans(fps: real, s: seq<u32>)
    requires s != []
    ensures var r := FirstTried(fps, s);
            && r in s
            && (fps == 0.0 ==> forall i | i in s :: r <= i)
            && (fps != 0.0 && 0 in s ==> r == 0 || 10_000_000.0 / r as real == fps)
            && (fps != 0.0 && 0 !in s ==> forall i | i in s && i != 0 ::
                  var mine, other := 10_000_000.0 / r as real - fps, 10_000_000.0 / i as real - fps;
                  (if mine < 0.0 then -mine else mine) <= if other < 0.0 then -other else other)
  {
    FirstTriedIs(fps, s);
    var r := FirstTried(fps, s);
    var k :| FirstAt(fps, s, k, r);
    hide FirstTried;
    assert fps != 0.0 && 0 in s ==> TrialKey(fps, r) <= TrialKey(fps, 0) == 0.0;
  }

  method InsertInterval(fps: real, s: seq<u32>, x: u32) returns (r: seq<u32>)
    requires Rising(fps, s)
    ensures Rising(fps, r) && r != [] && forall y :: y in r <==> y in s || y == x
    ensures r[0] == if s == [] || TrialKey(fps, x) < TrialKey(fps, s[0]) then x else s[0]
  {
    hide TrialKey;
    var at := |s|;
    while at > 0 && TrialKey(fps, s[at - 1]) > TrialKey(fps, x)
      invariant 0 <= at <= |s| && forall k | at <= k < |s| :: TrialKey(fps, s[k]) > TrialKey(fps, x)
    {
      at := at - 1;
    }
    r := s[..at] + [x] + s[at..];
    assert at > 0 ==> TrialKey(fps, s[0]) <= TrialKey(fps, s[at - 1]);
    InsertedInterval(fps, s, at, x);
    InsertedMembers(s, at, x);
  }

  /** `x` may stand at `at`: behind all that are tried no later. */
  ghost predicate Slot(fps: real, s: seq<u32>, at: nat, x: u32) {
    && Rising(fps, s) && at <= |s| && (at > 0 ==> TrialKey(fps, s[at - 1]) <= TrialKey(fps, x))
    && forall k | at <= k < |s| :: TrialKey(fps, s[k]) > TrialKey(fps, x)
  }

  lemma InsertedInterval(fps: real, s: seq<u32>, at: nat, x: u32)
    requires Slot(fps, s, at, x)
    ensures Rising(fps, s[..at] + [x] + s[at..])
  {
    hide TrialKey;
    var r := s[..at] + [x] + s[at..];
    forall i, j | 0 <= i < j < |r| ensures TrialKey(fps, r[i]) <= TrialKey(fps, r[j]) {
      RisingPair(fps, s, at, x, i, j);
    }
  }

  lemma InsertedMembers(s: seq<u32>, at: nat, x: u32)
    requires at <= |s|
    ensures forall y :: y in s[..at] + [x] + s[at..] <==> y in s || y == x
  {
    assert s == s[..at] + s[at..];
  }

  lemma RisingPair(fps: real, s: seq<u32>, at: nat, x: u32, i: nat, j: nat)
    requires Slot(fps, s, at, x) && i < j < |s| + 1
    ensures var r := s[..at] + [x] + s[at..];
            TrialKey(fps, r[i]) <= TrialKey(fps, r[j])
  {
    hide TrialKey;
  }

  /** The intervals in the order they are tried: the shortest first, or the nearest
      to the rate asked for; a frame that lists none is asked for as 0. */
  method InTrialOrder(intervals: seq<u32>, fps: real) returns (r: seq<u32>)
    ensures r != [] && Rising(fps, r)
    ensures intervals == [] ==> r == [0]
    ensures intervals != [] ==> r[0] == FirstTried(fps, intervals) && forall x :: x in r <==> x in intervals
  {
    if intervals == [] {
      return [0];
    }
    r := [];
    var i := 0;
    while i < |intervals|
      invariant 0 <= i <= |intervals| && Rising(fps, r) && (i > 0 <==> r != [])
      invariant i > 0 ==> r[0] == FirstTried(fps, intervals[..i])
      invariant forall x :: x in r <==> x in intervals[..i]
    {
      hide Rising, TrialKey;
      assert intervals[..i + 1] == intervals[..i] + [intervals[i]];
      assert intervals[..i + 1][..i] == intervals[..i];
      r := InsertInterval(fps, r, intervals[i]);
      i := i + 1;
    }
    assert intervals[..i] == intervals;
  }

  /** Whether what the device asks of the bus can be had. */
  ghost predicate Affordable(cam: CameraInterface, alts: seq<UvcAlt>, inLimit: nat) {
    (inLimit == 0 || cam.modes.packet <= inLimit) && exists a :: a in alts && Carries(a, cam.modes.packet)
  }

  /** What both sides hold once a mode is picked: the host has what the device
      answered, the smallest alternate that carries it, and the first interval in the
      order of trial; and the device, if it was idle, the size the host picked, or
      otherwise still the size it had, `was`. */
  ghost predicate Agreed(cam: CameraInterface, was: nat, p: Pick, c: Candidate, alts: seq<UvcAlt>, fps: real)
    reads cam
  {
    && Settled(cam, was, p, c, alts)
    && p.interval == if c.frame.intervals == [] then 0 else FirstTried(fps, c.frame.intervals)
  }

  /** Agreed but for the choice of interval. */
  ghost predicate Settled(cam: CameraInterface, was: nat, p: Pick, c: Candidate, alts: seq<UvcAlt>)
    reads cam
  {
    Printable(cam.modes) &&
    var index := Named(cam.modes, p.frame.index);
    && p.format == c.format && p.frame == c.frame
    && p.payload == cam.modes.packet && p.frameBytes == cam.modes.frameBytes[index - 1]
    && p.alt in alts && Carries(p.alt, p.payload)
    && (forall a | a in alts && Carries(a, p.payload) :: Size(p.alt) <= Size(a))
    && cam.probeIndex == index && cam.index == Committed(cam.alt, was, index)
  }

  /** A camera that is streaming keeps its size. */
  ghost predicate Kept(cam: CameraInterface, was: nat)
    reads cam
  {
    cam.alt != 0 ==> cam.index == was
  }

  /** One size, at each of its intervals in turn; `over`: the smallest payload the
      limit refused. */
  method TryFrame(cam: CameraInterface, c: Candidate, alts: seq<UvcAlt>, fps: real, inLimit: nat, over: Option<nat>)
    returns (r: Option<Pick>, over': Option<nat>)
    requires cam.Valid()
    modifies cam`pending, cam`probeIndex, cam`index, cam`width, cam`height, cam`frameBytes
    ensures cam.Valid() && Kept(cam, old(cam.index)) && (r.Some? <==> Affordable(cam, alts, inLimit))
    ensures r.Some? ==> Agreed(cam, old(cam.index), r.value, c, alts, fps)
    ensures r.None? && inLimit > 0 && cam.modes.packet > inLimit ==> over'.Some? && over'.value <= cam.modes.packet
  {
    var intervals := InTrialOrder(c.frame.intervals, fps);
    r, over' := None, over;
    var i := 0;
    while i < |intervals|
      invariant 0 <= i <= |intervals| && cam.Valid() && Kept(cam, old(cam.index)) && r.None?
      invariant i == 0 ==> cam.index == old(cam.index)
      invariant i > 0 ==> !Affordable(cam, alts, inLimit)
      invariant i > 0 && inLimit > 0 && cam.modes.packet > inLimit ==> over'.Some? && over'.value <= cam.modes.packet
    {
      hide CameraInterface.Valid, Carries, Size, TrialKey, FirstTried;
      r, over' := TryOne(cam, c, alts, inLimit, over', intervals[i]);
      if r.Some? {
        assert i == 0;
        return;
      }
      i := i + 1;
    }
  }

  /** One size at one interval. */
  method TryOne(cam: CameraInterface, c: Candidate, alts: seq<UvcAlt>, inLimit: nat, over: Option<nat>, interval: u32)
    returns (r: Option<Pick>, over': Option<nat>)
    requires cam.Valid()
    modifies cam`pending, cam`probeIndex, cam`index, cam`width, cam`height, cam`frameBytes
    ensures cam.Valid() && Kept(cam, old(cam.index)) && (r.Some? <==> Affordable(cam, alts, inLimit))
    ensures r.Some? ==> r.value.interval == interval && Settled(cam, old(cam.index), r.value, c, alts)
    ensures r.None? && inLimit > 0 && cam.modes.packet > inLimit ==> over'.Some? && over'.value <= cam.modes.packet
  {
    hide Carries, Size;
    r, over' := None, over;
    var payload, frameBytes := Negotiate(cam, c.format.index, c.frame.index, interval);
    if inLimit > 0 && payload > inLimit {
      if over.None? || payload < over.value {
        over' := Some(payload);
      }
      return;
    }
    var alt := AltForPayload(alts, payload);
    if alt.Some? {
      r := Some(Pick(c.format, c.frame, interval, payload, frameBytes, alt.value));
    }
  }

  /** Camera._negotiate: the sizes in order, until one can be had. */
  method PickMode(cam: CameraInterface, formats: seq<UvcFormat>, alts: seq<UvcAlt>, want: Want,
                  maxW: nat, maxH: nat, fps: real, inLimit: nat)
    returns (r: Option<Pick>, over: Option<nat>)
    requires cam.Valid()
    modifies cam`pending, cam`probeIndex, cam`index, cam`width, cam`height, cam`frameBytes
    ensures cam.Valid()
    ensures var offered := Offered(formats, |formats|, want, maxW, maxH);
            && (r.Some? <==> offered != [] && Affordable(cam, alts, inLimit))
            && (r.Some? ==> exists c :: c in offered && Agreed(cam, old(cam.index), r.value, c, alts, fps)
                                        && forall o | o in offered :: Before(c, o))
            && (r.None? && offered != [] && inLimit > 0 && cam.modes.packet > inLimit ==>
                  over.Some? && over.value <= cam.modes.packet)
  {
    var found := Candidates(formats, want, maxW, maxH);
    SameMembers(found, Offered(formats, |formats|, want, maxW, maxH));
    hide CameraInterface.Valid, Carries, Size, Members, Offered, Affordable, Agreed, Before;
    r, over := None, None;
    var i := 0;
    while i < |found|
      invariant 0 <= i <= |found| && cam.Valid() && r.None?
      invariant i == 0 ==> cam.index == old(cam.index)
      invariant i > 0 ==> !Affordable(cam, alts, inLimit)
      invariant i > 0 && inLimit > 0 && cam.modes.packet > inLimit ==> over.Some? && over.value <= cam.modes.packet
    {
      r, over := TryFrame(cam, found[i], alts, fps, inLimit, over);
      if r.Some? {
        FirstIsBest(found);
        return;
      }
      i := i + 1;
    }
  }

  lemma EmptyMembers(a: seq<Candidate>)
    ensures Members(a) == {} <==> a == []
  {
    if a != [] {
      assert a[0] in Members(a);
    }
  }

  lemma SameMembers(a: seq<Candidate>, b: seq<Candidate>)
    requires Members(a) == Members(b)
    ensures (forall c :: c in a <==> c in b) && (a == [] <==> b == [])
  {
    forall c ensures c in a <==> c in b {
      assert c in a <==> c in Members(a);
      assert c in b <==> c in Members(b);
    }
    EmptyMembers(a);
    EmptyMembers(b);
    hide Members;
  }

  lemma FirstIsBest(found: seq<Candidate>)
    requires InOrder(found) && found != []
    ensures forall o | o in found :: Before(found[0], o)
  {
  }
}
