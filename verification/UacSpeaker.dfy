/** The speaker's control side: packages/usb-device-audio answering, and the rates a
    host makes of a clock's RANGE (packages/usb-host-audio). */
module UacSpeaker {
  import opened Bytes
  import opened Wire
  import opened Descriptors
  import opened UacDescriptors

  const CUR: byte := 1
  const RANGE: byte := 2
  const SAM_FREQ: nat := 1
  const CLOCK_VALID: nat := 2
  const MUTE: nat := 1
  const VOLUME: nat := 2
  const MAX_SUBRANGES: nat := 8

  /** A 16-bit two's complement field. */
  function I16(v: int): seq<byte>
    requires -0x8000 <= v < 0x8000
  {
    LE16(v % 0x1_0000)
  }

  function GetI16(s: seq<byte>): int
    requires |s| >= 2
  {
    var n := Get16(s, 0);
    if n >= 0x8000 then n - 0x1_0000 else n
  }

  lemma I16RoundTrip(v: int)
    requires -0x8000 <= v < 0x8000
    ensures |I16(v)| == 2 && GetI16(I16(v)) == v
  {
    hide Get16, LE16;
  }

  /** The two bytes of it. */
  lemma I16Is(v: int)
    requires -0x8000 <= v < 0x8000
    ensures I16(v) == Two(if v < 0 then v + 0x1_0000 else v)
  {
    TwoIs(v % 0x1_0000);
  }

  /** The answers to RANGE: one rate; and -50 dB to 0 dB by 1 dB, in 256ths. */
  lemma RangeBytes(rate: u32)
    ensures LE16(1) + LE32(rate) + LE32(rate) + LE32(0) == [1, 0] + Four(rate) + Four(rate) + [0, 0, 0, 0]
    ensures LE32(rate) == Four(rate)
    ensures LE16(1) + I16(-50 * 256) + I16(0) + I16(256) == [1, 0, 0x00, 0xCE, 0x00, 0x00, 0x00, 0x01]
  {
    TwoIs(1);
    FourIs(rate);
    FourIs(0);
    I16Is(-50 * 256);
    I16Is(0);
    I16Is(256);
    assert Four(0) == [0, 0, 0, 0] && Two(1) == [1, 0];
    assert Two(0xCE00) == [0x00, 0xCE] && Two(0) == [0, 0] && Two(256) == [0, 1];
    hide LE16, LE32, Four, Two, I16;
  }

  // ---- the device

  datatype Pending = NoPending | Pending(entity: byte, control: nat, data: seq<byte>)

  class SpeakerInterface {
    const k: Speaker
    const itf: byte
    var mute: bool
    var volume: int
    var pending: Pending

    ghost predicate Valid()
      reads this
    {
      Printable(k) && itf < 255 && -0x8000 <= volume < 0x8000
    }

    constructor (rate: nat, channels: nat, sampleBytes: nat, highSpeed: bool, number: byte)
      requires Printable(Speaker(rate, channels, sampleBytes, highSpeed,
                                 PacketOf(rate, channels, sampleBytes, highSpeed)))
      requires number < 255
      ensures Valid() && k == Speaker(rate, channels, sampleBytes, highSpeed,
                                      PacketOf(rate, channels, sampleBytes, highSpeed))
      ensures itf == number && !mute && volume == 0 && pending == NoPending
    {
      k := Speaker(rate, channels, sampleBytes, highSpeed, PacketOf(rate, channels, sampleBytes, highSpeed));
      itf, mute, volume, pending := number, false, 0, NoPending;
    }

    /** desc_cfg: the descriptors appended one after another. */
    method DescCfg(desc: seq<byte>, ep: byte, istr: byte) returns (out: seq<byte>)
      requires Valid() && ep < 0x80
      ensures out == desc + Join(SpeakerDescs(k, itf, ep, istr))
    {
      out := Append(desc, SpeakerDescs(k, itf, ep, istr));
    }

    /** _class_request: the data of a GET, or the buffer a SET's data lands in; None
        stalls. */
    method ClassRequest(entity: byte, control: nat, request: byte, toHost: bool) returns (r: Option<seq<byte>>)
      requires Valid()
      ensures r == if entity == 4 then
                     if control == 1 && request == 1 then Some(if toHost then Four(k.rate) else [0, 0, 0, 0])
                     else if control == 1 && request == 2 && toHost then
                       Some([1, 0] + Four(k.rate) + Four(k.rate) + [0, 0, 0, 0])
                     else if control == 2 && request == 1 && toHost then Some([1])
                     else None
                   else if entity == 2 then
                     if control == 1 && request == 1 then Some([if toHost && mute then 1 else 0])
                     else if control == 2 && request == 1 then Some(if toHost then I16(volume) else [0, 0])
                     else if control == 2 && request == 2 && toHost then
                       Some([1, 0, 0x00, 0xCE, 0x00, 0x00, 0x00, 0x01])
                     else None
                   else None
    {
      RangeBytes(k.rate);
      hide LE16, LE32, I16, Four;
      var muted: byte := if mute then 1 else 0;
      if entity == CLOCK_ID {
        if control == SAM_FREQ && request == CUR {
          return Some(if toHost then LE32(k.rate) else [0, 0, 0, 0]);
        }
        if control == SAM_FREQ && request == RANGE && toHost {
          return Some(LE16(1) + LE32(k.rate) + LE32(k.rate) + LE32(0));
        }
        return if control == CLOCK_VALID && request == CUR && toHost then Some([1]) else None;
      }
      if entity == FEATURE_ID {
        if control == MUTE && request == CUR {
          return Some(if toHost then [muted] else [0]);
        }
        if control == VOLUME && request == CUR {
          return Some(if toHost then I16(volume) else [0, 0]);
        }
        return if control == VOLUME && request == RANGE && toHost
               then Some(LE16(1) + I16(-50 * 256) + I16(0) + I16(256)) else None;
      }
      return None;
    }

    method Setup(entity: byte, control: nat, request: byte, toHost: bool) returns (r: Option<seq<byte>>)
      requires Valid()
      modifies `pending
      ensures Valid()
      ensures pending == if r.Some? && !toHost then Pending(entity, control, r.value) else old(pending)
      ensures entity == 2 && (control == 1 || control == 2) && request == 1 && !toHost
              ==> r.Some? && |r.value| == control
      ensures entity == 2 && control == 1 && request == 1 && toHost ==> r == Some([if mute then 1 else 0])
      ensures entity == 2 && control == 2 && request == 1 && toHost ==> r == Some(I16(volume))
    {
      hide LE16, LE32, I16;
      r := ClassRequest(entity, control, request, toHost);
      if r.Some? && !toHost {
        pending := Pending(entity, control, r.value);
      }
    }

    method Ack(toHost: bool)
      requires Valid()
      modifies `pending, `mute, `volume
      ensures Valid()
      ensures toHost || old(pending).NoPending? ==>
                mute == old(mute) && volume == old(volume) && pending == old(pending)
      ensures !toHost && old(pending).Pending? ==>
                var p := old(pending);
                && pending == NoPending
                && mute == (if p.entity == 2 && p.control == 1 && |p.data| >= 1 then p.data[0] != 0 else old(mute))
                && volume == if p.entity == 2 && p.control == 2 && |p.data| >= 2 then GetI16(p.data) else old(volume)
    {
      if !toHost && pending.Pending? {
        var entity, control, data := pending.entity, pending.control, pending.data;
        pending := NoPending;
        if entity == FEATURE_ID && control == MUTE && |data| >= 1 {
          mute := data[0] != 0;
        } else if entity == FEATURE_ID && control == VOLUME && |data| >= 2 {
          volume := GetI16(data);
        }
      }
    }

    /** A host setting the volume, and reading it back. */
    method SetVolume(v: int) returns (back: seq<byte>)
      requires Valid() && -0x8000 <= v < 0x8000
      modifies this
      ensures Valid() && volume == v && mute == old(mute) && |back| == 2 && GetI16(back) == v
    {
      I16RoundTrip(v);
      hide I16, GetI16;
      var buffer := Setup(FEATURE_ID, VOLUME, CUR, false);
      pending := Pending(FEATURE_ID, VOLUME, I16(v));
      Ack(false);
      var got := Setup(FEATURE_ID, VOLUME, CUR, true);
      back := got.value;
    }
  }

  // ---- the host's rates

  function TripletAt(answer: seq<byte>, at: nat): seq<nat>
    requires at + 12 <= |answer|
  {
    [Get32(answer, at), Get32(answer, at + 4), Get32(answer, at + 8)]
  }

  /** The triplets of a RANGE answer, at most eight, as far as it goes. */
  function Triplets(answer: seq<byte>, i: nat): seq<nat>
    requires |answer| >= 2
    decreases MAX_SUBRANGES - i
  {
    if i >= Min(Get16(answer, 0), MAX_SUBRANGES) || 2 + 12 * i + 12 > |answer| then []
    else
      TripletAt(answer, 2 + 12 * i) + Triplets(answer, i + 1)
  }

  /** What they are: as many as the answer counts, but no more than eight or than its
      length holds, each number the four bytes in its own place. */
  lemma {:induction false} TripletsFrom(answer: seq<byte>, i: nat)
    requires |answer| >= 2 && i <= Min(answer[0] as int + answer[1] as int * 256, 8)
    ensures var r, count := Triplets(answer, i), Min(answer[0] as int + answer[1] as int * 256, 8);
            var n := Min(count, (|answer| - 2) / 12);
            && |r| == (if n > i then 3 * (n - i) else 0)
            && forall j | 0 <= j < |r| :: NumberAt(answer, 3 * i + j, r[j])
    decreases 8 - i
  {
    if i < Min(Get16(answer, 0), MAX_SUBRANGES) && 2 + 12 * i + 12 <= |answer| {
      TripletsFrom(answer, i + 1);
      TripletIs(answer, i);
      hide TripletAt, Get16, Value, Get32;
      var first, rest := TripletAt(answer, 2 + 12 * i), Triplets(answer, i + 1);
      assert Triplets(answer, i) == first + rest;
      hide Triplets;
      NumbersJoin(answer, i, first, rest);
    }
  }

  lemma NumbersJoin(answer: seq<byte>, i: nat, first: seq<nat>, rest: seq<nat>)
    requires |first| == 3 && NumberAt(answer, 3 * i + 0, first[0])
    requires NumberAt(answer, 3 * i + 1, first[1]) && NumberAt(answer, 3 * i + 2, first[2])
    requires forall j | 0 <= j < |rest| :: NumberAt(answer, 3 * (i + 1) + j, rest[j])
    ensures forall j | 0 <= j < |first + rest| :: NumberAt(answer, 3 * i + j, (first + rest)[j])
  {
    hide NumberAt;
    forall j | 0 <= j < |first + rest| ensures NumberAt(answer, 3 * i + j, (first + rest)[j]) {
      if j >= 3 {
        assert NumberAt(answer, 3 * (i + 1) + (j - 3), rest[j - 3]);
      }
    }
  }

  lemma TripletIs(answer: seq<byte>, i: nat)
    requires 2 + 12 * i + 12 <= |answer|
    ensures var t := TripletAt(answer, 2 + 12 * i);
            && |t| == 3 && NumberAt(answer, 3 * i + 0, t[0])
            && NumberAt(answer, 3 * i + 1, t[1]) && NumberAt(answer, 3 * i + 2, t[2])
  {
    ValueIs(answer, 2 + 12 * i);
    ValueIs(answer, 2 + 12 * i + 4);
    ValueIs(answer, 2 + 12 * i + 8);
    hide Value, Get32;
  }

  /** `v` is the `j`-th number of the triplets. */
  predicate NumberAt(answer: seq<byte>, j: nat, v: nat) {
    2 + 4 * j + 4 <= |answer| && v == Value(answer, 2 + 4 * j)
  }

  /** The loop of _clock_ranges, over as many subranges as it will read. */
  method ReadTriplets(answer: seq<byte>, count: nat) returns (out: seq<nat>)
    requires |answer| >= 2 && count == Min(Get16(answer, 0), MAX_SUBRANGES)
    ensures out == Triplets(answer, 0)
  {
    hide Get16, Triplets, TripletAt, Min;
    out := [];
    var i, at := 0, 2;
    assert out + Triplets(answer, 0) == Triplets(answer, 0);
    while i < count && at + 12 <= |answer|
      invariant at == 2 + 12 * i && out + Triplets(answer, i) == Triplets(answer, 0)
    {
      NextTriplet(answer, i, out);
      out := out + TripletAt(answer, at);
      i, at := i + 1, at + 12;
    }
    NoMoreTriplets(answer, i, out);
  }

  /** _clock_ranges: None for an answer too short to count. */
  method ClockRanges(answer: seq<byte>) returns (r: Option<seq<nat>>)
    ensures r == if |answer| < 2 then None else Some(Triplets(answer, 0))
    ensures |answer| >= 2 ==>
              var n := answer[0] as int + answer[1] as int * 256;
              && |r.value| == 3 * Min(Min(n, 8), (|answer| - 2) / 12)
              && forall j | 0 <= j < |r.value| ::
                   2 + 4 * j + 4 <= |answer| && r.value[j] == Value(answer, 2 + 4 * j)
  {
    if |answer| < 2 {
      return None;
    }
    TripletsFrom(answer, 0);
    hide Get16, Triplets, Value;
    var out := ReadTriplets(answer, Min(Get16(answer, 0), MAX_SUBRANGES));
    r := Some(out);
    assert forall j | 0 <= j < |out| :: NumberAt(answer, 3 * 0 + j, out[j]);
  }

  lemma NoMoreTriplets(answer: seq<byte>, i: nat, out: seq<nat>)
    requires |answer| >= 2 && (i >= Min(Get16(answer, 0), MAX_SUBRANGES) || 2 + 12 * i + 12 > |answer|)
    ensures out + Triplets(answer, i) == out
  {
  }

  lemma NextTriplet(answer: seq<byte>, i: nat, out: seq<nat>)
    requires |answer| >= 2 && i < Min(Get16(answer, 0), MAX_SUBRANGES) && 2 + 12 * i + 12 <= |answer|
    ensures out + Triplets(answer, i) == (out + TripletAt(answer, 2 + 12 * i)) + Triplets(answer, i + 1)
  {
    hide Get16, TripletAt;
  }

  const STANDARD_RATES: seq<nat> :=
    [8000, 11025, 16000, 22050, 24000, 32000, 44100, 48000, 88200, 96000, 176400, 192000]

  /** The rates one (min, max, res) stands for. */
  predicate StandsFor(lo: nat, hi: nat, res: nat, r: nat) {
    if res == 0 || lo == hi then r == lo && lo > 0
    else r in STANDARD_RATES && lo <= r <= hi && (r - lo) % res == 0
  }

  /** A triplet of one rate stands for it, if it is not 0; any other for the rates in
      common use that its steps reach. */
  lemma StandsForIs(lo: nat, hi: nat, res: nat, r: nat)
    ensures StandsFor(lo, hi, res, r) <==>
            if res == 0 || lo == hi then r == lo && r != 0
            else (|| r == 8000 || r == 11025 || r == 16000 || r == 22050 || r == 24000 || r == 32000 || r == 44100
                  || r == 48000 || r == 88200 || r == 96000 || r == 176400 || r == 192000)
                 && lo <= r <= hi && (r - lo) % res == 0
  {
    var all := STANDARD_RATES;
    assert r in all <==> exists i | 0 <= i < 12 :: all[i] == r;
  }

  /** The first `k` triplets offer this rate. */
  ghost predicate Offered(t: seq<nat>, k: nat, r: nat) {
    exists i :: 0 <= i < k && 3 * i + 2 < |t| && StandsFor(t[3 * i], t[3 * i + 1], t[3 * i + 2], r)
  }

  ghost predicate Rising(s: seq<nat>) {
    forall i, j | 0 <= i < j < |s| :: s[i] < s[j]
  }

  /** One more rate, in its place, unless it is there already. */
  method Add(s: seq<nat>, x: nat) returns (r: seq<nat>)
    requires Rising(s)
    ensures Rising(r) && forall y :: y in r <==> y in s || y == x
  {
    if x in s {
      return s;
    }
    var at := |s|;
    while at > 0 && s[at - 1] > x
      invariant 0 <= at <= |s| && forall j | at <= j < |s| :: s[j] > x
    {
      at := at - 1;
    }
    r := s[..at] + [x] + s[at..];
    Placed(s, at, x);
    PlacedMembers(s, at, x);
  }

  lemma Placed(s: seq<nat>, at: nat, x: nat)
    requires Rising(s) && at <= |s| && (at > 0 ==> s[at - 1] < x) && forall j | at <= j < |s| :: s[j] > x
    ensures Rising(s[..at] + [x] + s[at..])
  {
    var r := s[..at] + [x] + s[at..];
    forall i, j | 0 <= i < j < |r| ensures r[i] < r[j] {
      PlacedPair(s, at, x, i, j);
    }
  }

  lemma PlacedPair(s: seq<nat>, at: nat, x: nat, i: nat, j: nat)
    requires Rising(s) && at <= |s| && (at > 0 ==> s[at - 1] < x) && (forall j | at <= j < |s| :: s[j] > x)
    requires i < j < |s| + 1
    ensures var r := s[..at] + [x] + s[at..];
            r[i] < r[j]
  {
  }

  lemma PlacedMembers(s: seq<nat>, at: nat, x: nat)
    requires at <= |s|
    ensures forall y :: y in s[..at] + [x] + s[at..] <==> y in s || y == x
  {
    assert s == s[..at] + s[at..];
  }

  /** The rates of one triplet added. */
  method AddTriplet(s: seq<nat>, lo: nat, hi: nat, res: nat) returns (r: seq<nat>)
    requires Rising(s)
    ensures Rising(r) && forall y :: y in r <==> y in s || StandsFor(lo, hi, res, y)
  {
    r := s;
    if res == 0 || lo == hi {
      if lo > 0 {
        r := Add(s, lo);
      }
      return;
    }
    var j := 0;
    while j < |STANDARD_RATES|
      invariant 0 <= j <= |STANDARD_RATES| && Rising(r)
      invariant forall y :: y in r <==> y in s || (y in STANDARD_RATES[..j] && lo <= y <= hi && (y - lo) % res == 0)
    {
      hide Rising;
      var x := STANDARD_RATES[j];
      assert STANDARD_RATES[..j + 1] == STANDARD_RATES[..j] + [x];
      if lo <= x <= hi && (x - lo) % res == 0 {
        r := Add(r, x);
      }
      j := j + 1;
    }
    assert STANDARD_RATES[..j] == STANDARD_RATES;
  }

  /** rates_from_ranges: exactly the rates the triplets stand for, each once, rising. */
  method RatesFromRanges(t: seq<nat>) returns (r: seq<nat>)
    ensures Rising(r) && forall y :: y in r <==> Offered(t, |t|, y)
  {
    r := [];
    var i := 0;
    while 3 * i + 2 < |t|
      invariant 0 <= i && 3 * i <= |t| && Rising(r)
      invariant forall y :: y in r <==> Offered(t, i, y)
    {
      hide Rising, StandsFor;
      r := AddTriplet(r, t[3 * i], t[3 * i + 1], t[3 * i + 2]);
      i := i + 1;
    }
    hide StandsFor;
  }

  lemma RangeFields(rate: u32)
    ensures var a := LE16(1) + LE32(rate) + LE32(rate) + LE32(0);
            |a| == 14 && Get16(a, 0) == 1 && Get32(a, 2) == rate && Get32(a, 6) == rate && Get32(a, 10) == 0
  {
    var a := LE16(1) + LE32(rate) + LE32(rate) + LE32(0);
    assert a[0..2] == LE16(1) && a[2..6] == LE32(rate) && a[6..10] == LE32(rate) && a[10..14] == LE32(0);
    assert Get16(a, 0) == Get16(a[0..2], 0) && Get32(a, 2) == Get32(a[2..6], 0);
    assert Get32(a, 6) == Get32(a[6..10], 0) && Get32(a, 10) == Get32(a[10..14], 0);
    hide LE16, LE32, Get16, Get32;
  }

  /** The speaker's clock, asked for its range, has exactly its one rate. */
  method RatesOfSpeaker(s: SpeakerInterface) returns (rates: seq<nat>)
    requires s.Valid()
    ensures rates == [s.k.rate]
  {
    RangeBytes(s.k.rate);
    hide LE16, LE32, Get16, Get32, I16, Four;
    RangeFields(s.k.rate);
    var answer := s.ClassRequest(CLOCK_ID, SAM_FREQ, RANGE, true);
    var triplets := ClockRanges(answer.value);
    OneTriplet(answer.value, s.k.rate);
    rates := RatesFromRanges(triplets.value);
    OnlyRate(rates, s.k.rate);
  }

  lemma OneTriplet(a: seq<byte>, rate: u32)
    requires |a| == 14 && Get16(a, 0) == 1 && Get32(a, 2) == rate && Get32(a, 6) == rate && Get32(a, 10) == 0
    ensures Triplets(a, 0) == [rate, rate, 0]
  {
    assert Triplets(a, 1) == [];
  }

  lemma OnlyRate(rates: seq<nat>, rate: nat)
    requires rate > 0 && Rising(rates) && forall y :: y in rates <==> Offered([rate, rate, 0], 3, y)
    ensures rates == [rate]
  {
    var t := [rate, rate, 0];
    assert StandsFor(t[3 * 0], t[3 * 0 + 1], t[3 * 0 + 2], rate);
    assert rate in rates;
    forall y | y in rates ensures y == rate {
      var i :| 0 <= i < 3 && 3 * i + 2 < |t| && StandsFor(t[3 * i], t[3 * i + 1], t[3 * i + 2], y);
      assert i == 0;
    }
    if |rates| > 1 {
      TwoDiffer(rates);
    }
  }

  lemma TwoDiffer(s: seq<nat>)
    requires Rising(s) && |s| > 1
    ensures exists x, y :: x in s && y in s && x != y
  {
    assert s[0] < s[1] && s[0] in s && s[1] in s;
  }
}
