/** packages/usb-device-video/usb/device/video.py: the camera the device shows, its
    descriptors as desc_cfg prints them, and its side of PROBE and COMMIT (UVC 1.1,
    section 4.3.1.1). */
module UvcCamera {
  import opened Bytes
  import opened Wire
  import opened Descriptors
  import opened UvcDescriptors

  const SET_CUR: byte := 0x01
  const GET_CUR: byte := 0x81
  const GET_MIN: byte := 0x82
  const GET_MAX: byte := 0x83
  const GET_RES: byte := 0x84
  const GET_LEN: byte := 0x85
  const GET_INFO: byte := 0x86
  const GET_DEF: byte := 0x87
  const VS_PROBE: nat := 1
  const VS_COMMIT: nat := 2
  const PROBE_LEN: nat := 34

  // ---- frame sizes

  /** A size's frame bytes: all of it in YUY2; for a JPEG its share of the largest
      size's cap, and at least 4096. */
  function FrameBytes(size: (nat, nat), mjpeg: bool, cap: nat, big: nat): nat
    requires big > 0
  {
    if mjpeg then (if cap * size.0 * size.1 / big > 4096 then cap * size.0 * size.1 / big else 4096)
    else size.0 * size.1 * 2
  }

  lemma FrameBytesAre(size: (nat, nat), mjpeg: bool, cap: nat, big: nat)
    requires big > 0
    ensures var share := cap * size.0 * size.1 / big;
            FrameBytes(size, mjpeg, cap, big)
            == if !mjpeg then size.0 * size.1 * 2 else if share > 4096 then share else 4096
  {
  }

  // ---- the negotiation block

  /** struct "<HBBIHHHHHIIIBBBB". */
  function ProbeValues(m: Modes, index: nat): (r: seq<byte>)
    requires Printable(m) && 1 <= index <= |m.sizes|
    ensures |r| == PROBE_LEN
  {
    LE16(1) + [1, index] + LE32(m.interval) + [0, 0, 0, 0, 0, 0, 0, 0, 0, 0]
    + LE32(m.frameBytes[index - 1]) + LE32(m.packet) + LE32(48_000_000) + [0, 0, 0, 0]
  }

  /** The block's bytes: only the fixed interval is a hint, one format, and the clock is
      48 MHz. */
  lemma ProbeBytes(m: Modes, index: nat)
    requires Printable(m) && 1 <= index <= |m.sizes|
    ensures ProbeValues(m, index)
         == [1, 0, 1, index] + Four(m.interval) + [0, 0, 0, 0, 0, 0, 0, 0, 0, 0]
            + Four(m.frameBytes[index - 1]) + Four(m.packet) + [0x00, 0x6C, 0xDC, 0x02] + [0, 0, 0, 0]
  {
    TwoIs(1);
    FourIs(m.interval);
    FourIs(m.frameBytes[index - 1]);
    FourIs(m.packet);
    FourIs(48_000_000);
    assert Two(1) == [1, 0] && Four(48_000_000) == [0x00, 0x6C, 0xDC, 0x02];
    hide Two, Four, LE16, LE32;
  }

  lemma ProbeFields(m: Modes, index: nat)
    requires Printable(m) && 1 <= index <= |m.sizes|
    ensures var r := ProbeValues(m, index);
            r[3] == index && Get32(r, 18) == m.frameBytes[index - 1] && Get32(r, 22) == m.packet
            && Get32(r, 4) == m.interval
  {
    var r := ProbeValues(m, index);
    ProbeSlices(m, index);
    hide ProbeValues, LE32, Get32, Get16;
    FieldAt(r, 4);
    FieldAt(r, 18);
    FieldAt(r, 22);
  }

  lemma ProbeSlices(m: Modes, index: nat)
    requires Printable(m) && 1 <= index <= |m.sizes|
    ensures var r := ProbeValues(m, index);
            && r[3] == index && r[18..22] == LE32(m.frameBytes[index - 1]) && r[22..26] == LE32(m.packet)
            && r[4..8] == LE32(m.interval)
  {
    hide LE32, LE16;
  }

  /** The size a proposal names: its fourth byte, if that is one of them. */
  function Proposed(m: Modes, data: seq<byte>): (index: nat)
    requires Printable(m)
    ensures 1 <= index <= |m.sizes|
  {
    if |data| > 3 && 1 <= data[3] as int <= |m.sizes| then data[3] else 1
  }

  datatype Pending = NoPending | Pending(control: nat, data: seq<byte>)

  /** What a control request is answered with: refused, accepted, a buffer for the
      host's data, or data. */
  datatype Reply = Refuse | Accept | Receive | Give(data: seq<byte>)

  class CameraInterface {
    const modes: Modes
    const itf: byte
    var alt: nat
    var probeIndex: nat
    var index: nat
    var width: nat
    var height: nat
    var frameBytes: nat
    var pending: Pending

    ghost predicate Valid()
      reads this
    {
      && Printable(modes) && itf < 255
      && 1 <= probeIndex <= |modes.sizes| && 1 <= index <= |modes.sizes|
      && (width, height) == modes.sizes[index - 1] && frameBytes == modes.frameBytes[index - 1]
    }

    constructor (m: Modes, number: byte)
      requires Printable(m) && number < 255
      ensures Valid() && modes == m && itf == number && alt == 0 && index == 1 && probeIndex == 1
              && pending == NoPending
    {
      modes, itf, alt, probeIndex, index, pending := m, number, 0, 1, 1, NoPending;
      width, height, frameBytes := m.sizes[0].0, m.sizes[0].1, m.frameBytes[0];
    }

    /** Makes size `i` the current one. */
    method Choose(i: nat)
      requires Printable(modes) && 1 <= i <= |modes.sizes|
      modifies `index, `width, `height, `frameBytes
      ensures index == i && (width, height) == modes.sizes[i - 1] && frameBytes == modes.frameBytes[i - 1]
    {
      index := i;
      width, height := modes.sizes[i - 1].0, modes.sizes[i - 1].1;
      frameBytes := modes.frameBytes[i - 1];
    }

    /** desc_cfg: the descriptors appended one after another. */
    method DescCfg(desc: seq<byte>, ep: byte, istr: byte) returns (out: seq<byte>)
      requires Valid()
      ensures out == desc + Join(CameraDescs(modes, itf, ep, istr))
    {
      hide Opening, Closing, FrameDesc;
      var opening := Append(desc, Opening(modes, itf, ep, istr));
      out := opening;
      var i := 0;
      while i < |modes.sizes|
        invariant 0 <= i <= |modes.sizes|
        invariant out + Join(FrameDescs(modes, i)) == opening + Join(FrameDescs(modes, 0))
      {
        FramesNext(out, i);
        out := out + FrameDesc(modes, i);
        i := i + 1;
      }
      assert FrameDescs(modes, |modes.sizes|) == [] && out + [] == out;
      hide FrameDescs;
      out := Append(out, Closing(modes, itf, ep));
      Assembled(desc, ep, istr);
    }

    lemma FramesNext(out: seq<byte>, i: nat)
      requires Printable(modes) && i < |modes.sizes|
      ensures out + Join(FrameDescs(modes, i)) == (out + FrameDesc(modes, i)) + Join(FrameDescs(modes, i + 1))
    {
      hide FrameDesc;
      var ds := FrameDescs(modes, i);
      assert ds[0] == FrameDesc(modes, i) && ds[1..] == FrameDescs(modes, i + 1);
      assert Join(ds) == ds[0] + Join(ds[1..]);
    }

    lemma Assembled(desc: seq<byte>, ep: byte, istr: byte)
      requires Printable(modes) && itf < 255
      ensures ((desc + Join(Opening(modes, itf, ep, istr))) + Join(FrameDescs(modes, 0)))
              + Join(Closing(modes, itf, ep))
           == desc + Join(CameraDescs(modes, itf, ep, istr))
    {
      var a, b, c := Opening(modes, itf, ep, istr), FrameDescs(modes, 0), Closing(modes, itf, ep);
      hide Opening, FrameDescs, Closing;
      JoinAppend(a, b);
      JoinAppend(a + b, c);
      assert ((desc + Join(a)) + Join(b)) + Join(c) == desc + ((Join(a) + Join(b)) + Join(c));
    }

    /** A class request on the streaming interface, its set-up stage. */
    method Setup(request: byte, control: nat, wLength: nat) returns (r: Reply)
      requires Valid()
      modifies `pending
      ensures Valid()
      ensures pending == if (control == 1 || control == 2) && request == 0x01 then Pending(control, Zeros(wLength))
                         else old(pending)
      ensures r == if control != 1 && control != 2 then Refuse
                   else if request == 0x01 then Receive
                   else if request == 0x81 then Give(ProbeValues(modes, if control == 1 then probeIndex else index))
                   else if request == 0x82 || request == 0x87 then Give(ProbeValues(modes, 1))
                   else if request == 0x83 then Give(ProbeValues(modes, |modes.sizes|))
                   else if request == 0x84 then Give(Zeros(34))
                   else if request == 0x85 then Give([34, 0])
                   else if request == 0x86 then Give([3])
                   else Refuse
    {
      hide ProbeValues, Printable;
      if control != VS_PROBE && control != VS_COMMIT {
        return Refuse;
      }
      if request == SET_CUR {
        pending := Pending(control, Zeros(wLength));
        return Receive;
      }
      if request == GET_CUR {
        return Give(ProbeValues(modes, if control == VS_PROBE then probeIndex else index));
      }
      r := Others(request);
    }

    /** The fixed answers. */
    method Others(request: byte) returns (r: Reply)
      requires Printable(modes)
      ensures r == if request == 0x82 || request == 0x87 then Give(ProbeValues(modes, 1))
                   else if request == 0x83 then Give(ProbeValues(modes, |modes.sizes|))
                   else if request == 0x84 then Give(Zeros(34))
                   else if request == 0x85 then Give([34, 0])
                   else if request == 0x86 then Give([3])
                   else Refuse
    {
      hide ProbeValues;
      if request == GET_MIN || request == GET_DEF {
        return Give(ProbeValues(modes, 1));
      }
      if request == GET_MAX {
        return Give(ProbeValues(modes, |modes.sizes|));
      }
      if request == GET_LEN {
        TwoIs(PROBE_LEN);
        return Give(LE16(PROBE_LEN));
      }
      if request == GET_INFO {
        return Give([3]);
      }
      if request == GET_RES {
        return Give(Zeros(PROBE_LEN));
      }
      return Refuse;
    }

    /** The acknowledgement: a proposal received is taken as far as it can be, and a
        commit makes its size current unless a session is streaming. */
    method Ack()
      requires Valid()
      modifies `pending, `probeIndex, `index, `width, `height, `frameBytes
      ensures Valid() && pending == NoPending
      ensures old(pending).Pending? ==>
                var data := old(pending).data;
                && probeIndex == Proposed(modes, data)
                && probeIndex == if |data| > 3 && 1 <= data[3] as int <= |modes.sizes| then data[3] as int else 1
      ensures old(pending).NoPending? ==> probeIndex == old(probeIndex)
      ensures index == if old(pending).Pending? && old(pending).control == VS_COMMIT && alt == 0
                       then Proposed(modes, old(pending).data) else old(index)
    {
      if pending.Pending? {
        var which, data := pending.control, pending.data;
        pending := NoPending;
        var i := if |data| > 3 then data[3] as int else 1;
        if !(1 <= i <= |modes.sizes|) {
          i := 1;
        }
        probeIndex := i;
        if which == VS_COMMIT && alt == 0 {
          Choose(i);
        }
      }
    }

    method SetAlt(a: nat)
      requires Valid()
      modifies `alt
      ensures Valid() && alt == a
    {
      alt := a;
    }

    // ---- whole control transfers, as the host makes them

    /** SET_CUR: the data lands in the buffer the set-up stage gave. */
    method SetCur(control: nat, data: seq<byte>)
      requires Valid() && (control == VS_PROBE || control == VS_COMMIT)
      modifies `pending, `probeIndex, `index, `width, `height, `frameBytes
      ensures Valid() && probeIndex == Proposed(modes, data)
      ensures index == if control == VS_COMMIT && alt == 0 then Proposed(modes, data) else old(index)
    {
      hide ProbeValues, Printable;
      var r := Setup(SET_CUR, control, |data|);
      pending := Pending(control, data);
      Ack();
    }

    method GetCur(control: nat) returns (data: seq<byte>)
      requires Valid() && (control == VS_PROBE || control == VS_COMMIT)
      modifies `pending
      ensures Valid() && data == ProbeValues(modes, if control == VS_PROBE then probeIndex else index)
    {
      hide ProbeValues, Printable;
      var r := Setup(GET_CUR, control, PROBE_LEN);
      data := if r.Give? then r.data else [];
    }
  }

  /** The modes of a CameraInterface(...): frame bytes worked out size by size. */
  method ModesOf(sizes: seq<(nat, nat)>, mjpeg: bool, fps: nat, maxFrame: nat, packet: nat) returns (m: Modes)
    requires sizes != [] && fps > 0 && sizes[0].0 * sizes[0].1 > 0
    ensures m.sizes == sizes && m.mjpeg == mjpeg && m.packet == packet && m.interval == 10_000_000 / fps
    ensures var big := sizes[0].0 * sizes[0].1;
            var cap := if maxFrame > 0 then maxFrame else big / 2;
            && |m.frameBytes| == |sizes|
            && forall i | 0 <= i < |sizes| ::
                 var share := cap * sizes[i].0 * sizes[i].1 / big;
                 m.frameBytes[i] == if !mjpeg then sizes[i].0 * sizes[i].1 * 2 else if share > 4096 then share else 4096
  {
    hide FrameBytes;
    var big := sizes[0].0 * sizes[0].1;
    var cap := if maxFrame > 0 then maxFrame else big / 2;
    var bytes: seq<nat> := [];
    var i := 0;
    while i < |sizes|
      invariant 0 <= i <= |sizes| && |bytes| == i
      invariant forall k | 0 <= k < i :: bytes[k] == FrameBytes(sizes[k], mjpeg, cap, big)
    {
      bytes := bytes + [FrameBytes(sizes[i], mjpeg, cap, big)];
      i := i + 1;
    }
    m := Modes(sizes, bytes, mjpeg, fps, 10_000_000 / fps, packet);
    forall k | 0 <= k < |sizes|
      ensures var share := cap * sizes[k].0 * sizes[k].1 / big;
              bytes[k] == if !mjpeg then sizes[k].0 * sizes[k].1 * 2 else if share > 4096 then share else 4096
    {
      FrameBytesAre(sizes[k], mjpeg, cap, big);
    }
  }
}
