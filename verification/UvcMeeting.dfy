/** Both ends of a camera together: the host parses what the device prints, probes it,
    and they hold the same mode. */
module UvcMeeting {
  import opened Bytes
  import opened Descriptors
  import opened UvcDescriptors
  import opened UvcCamera
  import opened UvcNegotiate

  /** Size `i` of the camera is within the limit. */
  ghost predicate Fits(m: Modes, i: nat, maxW: nat, maxH: nat)
    requires i < |m.sizes|
  {
    m.sizes[i].0 <= maxW && m.sizes[i].1 <= maxH
  }

  ghost function Area(m: Modes, i: nat): nat
    requires i < |m.sizes|
  {
    m.sizes[i].0 * m.sizes[i].1
  }

  ghost function SizeCandidate(m: Modes, itf: byte, i: nat): Candidate
    requires Printable(m) && itf < 255 && i < |m.sizes|
  {
    CandidateOf(FormatInfo(m, itf), FrameInfo(m, i))
  }

  /** The candidates of a parsed camera are its sizes within the limit. */
  lemma {:induction false} OfferedAreSizes(m: Modes, itf: byte, k: nat, maxW: nat, maxH: nat)
    requires Printable(m) && itf < 255 && k <= |m.sizes|
    ensures |FormatInfo(m, itf).frames| == |m.sizes|
    ensures forall c | c in OfFormat(FormatInfo(m, itf), k, maxW, maxH) ::
              exists i :: 0 <= i < k && Fits(m, i, maxW, maxH) && c == SizeCandidate(m, itf, i)
    ensures forall i | 0 <= i < k && Fits(m, i, maxW, maxH) ::
              SizeCandidate(m, itf, i) in OfFormat(FormatInfo(m, itf), k, maxW, maxH)
  {
    var f := FormatInfo(m, itf);
    if k > 0 {
      OfferedAreSizes(m, itf, k - 1, maxW, maxH);
      assert f.frames[k - 1] == FrameInfo(m, k - 1);
      assert WithinSize(f.frames[k - 1], maxW, maxH) == Fits(m, k - 1, maxW, maxH);
      hide FormatInfo, FrameInfo, CandidateOf, WithinSize, Fits, FrameInfos;
    }
  }

  /** The host holds size `i` as the camera has it. */
  ghost predicate HostHas(m: Modes, p: Pick, i: nat) {
    && i < |m.sizes| == |m.frameBytes| && (p.frame.width, p.frame.height) == m.sizes[i]
    && p.frameBytes == p.frame.maxFrameBytes == m.frameBytes[i] && p.interval == m.interval && p.payload == m.packet
  }

  /** The camera has it as its current size. */
  ghost predicate DeviceHas(cam: CameraInterface, i: nat)
    requires Printable(cam.modes)
    reads cam
  {
    i < |cam.modes.sizes| && cam.index == i + 1
    && (cam.width, cam.height) == cam.modes.sizes[i] && cam.frameBytes == cam.modes.frameBytes[i]
  }

  /** The host has size `i`, within its limit and the largest that is. The camera, of
      size `was` before, has it too exactly if it was idle or had it already, and
      streams frames of the bytes the host was told exactly if it was idle or size
      `was` has as many. */
  ghost predicate Met(cam: CameraInterface, was: nat, p: Pick, i: nat, maxW: nat, maxH: nat)
    requires Printable(cam.modes) && 1 <= was <= |cam.modes.sizes|
    reads cam
  {
    var m := cam.modes;
    && i < |m.sizes| && Fits(m, i, maxW, maxH) && HostHas(m, p, i)
    && (forall k | 0 <= k < |m.sizes| && Fits(m, k, maxW, maxH) :: Area(m, k) <= Area(m, i))
    && (DeviceHas(cam, i) <==> cam.alt == 0 || was == i + 1)
    && (cam.frameBytes == p.frameBytes <==> cam.alt == 0 || m.frameBytes[was - 1] == m.frameBytes[i])
  }

  lemma CandidateFields(m: Modes, itf: byte, i: nat)
    requires Printable(m) && itf < 255 && i < |m.sizes|
    ensures var c := SizeCandidate(m, itf, i);
            && c.frame == FrameInfo(m, i) && Named(m, c.frame.index) == i + 1 && c.area == Area(m, i)
            && c.frame.intervals == [m.interval] && (c.frame.width, c.frame.height) == m.sizes[i]
            && c.frame.maxFrameBytes == m.frameBytes[i] && c.rank == if m.mjpeg then 1 else 0
  {
  }

  lemma PickedSize(cam: CameraInterface, was: nat, p: Pick, c: Candidate, alts: seq<UvcAlt>, fps: real, i: nat)
    requires cam.Valid() && i < |cam.modes.sizes| && c == SizeCandidate(cam.modes, cam.itf, i)
    requires 1 <= was <= |cam.modes.sizes| && Agreed(cam, was, p, c, alts, fps)
    ensures HostHas(cam.modes, p, i) && (DeviceHas(cam, i) <==> cam.alt == 0 || was == i + 1)
    ensures cam.frameBytes == p.frameBytes <==> cam.alt == 0 || cam.modes.frameBytes[was - 1] == cam.modes.frameBytes[i]
  {
    CandidateFields(cam.modes, cam.itf, i);
    hide SizeCandidate, Named, FrameInfo, TrialKey;
    assert p.interval == cam.modes.interval;
  }

  /** A camera, idle or streaming, anywhere in a device's descriptors. The host gets a
      mode exactly when some size is within its limit and the bus can carry the
      packets; it then holds the largest there is, and the device exactly when Met says. */
  method Meet(cam: CameraInterface, before: seq<seq<byte>>, after: seq<seq<byte>>, ep: byte, istr: byte,
              maxW: nat, maxH: nat, fps: real, inLimit: nat)
    returns (r: Option<Pick>)
    requires cam.Valid() && NoVideo(before) && NoVideo(after) && Apart(after)
    modifies cam`pending, cam`probeIndex, cam`index, cam`width, cam`height, cam`frameBytes
    ensures cam.Valid()
    ensures r.Some? <==> (exists i :: 0 <= i < |cam.modes.sizes| && Fits(cam.modes, i, maxW, maxH))
                         && (inLimit == 0 || cam.modes.packet <= inLimit)
                         && Carries(TierInfo(cam.modes, cam.itf, ep), cam.modes.packet)
    ensures r.Some? ==> exists i :: Met(cam, old(cam.index), r.value, i, maxW, maxH)
  {
    var m := cam.modes;
    var front := Append([], before);
    var printed := cam.DescCfg(front, ep, istr);
    var blob := Append(printed, after);
    BlobIs(before, CameraDescs(m, cam.itf, ep, istr), after, blob);
    var formats := Formats(blob);
    var alts := AltSettings(blob);
    FormatsRoundTrip(before, m, cam.itf, ep, istr, after);
    TierRoundTrip(before, m, cam.itf, ep, istr, after);
    OfferedAreSizes(m, cam.itf, |m.sizes|, maxW, maxH);
    var f := FormatInfo(m, cam.itf);
    OneOffered(f, maxW, maxH);
    hide FormatInfo, TierInfo, SizeCandidate, OfFormat, Offered, CameraDescs, Before, Agreed, Carries;
    var over;
    r, over := PickMode(cam, formats.found, alts.found, Any, maxW, maxH, fps, inLimit);
    if r.Some? {
      ghost var c :| c in OfFormat(f, |f.frames|, maxW, maxH)
                     && Agreed(cam, old(cam.index), r.value, c, alts.found, fps)
                     && forall o | o in OfFormat(f, |f.frames|, maxW, maxH) :: Before(c, o);
      PickedIsLargest(cam, old(cam.index), r.value, c, alts.found, fps, maxW, maxH);
    }
  }

  lemma PickedIsLargest(cam: CameraInterface, was: nat, p: Pick, c: Candidate, alts: seq<UvcAlt>, fps: real,
                        maxW: nat, maxH: nat)
    requires cam.Valid() && 1 <= was <= |cam.modes.sizes|
    requires |FormatInfo(cam.modes, cam.itf).frames| == |cam.modes.sizes|
    requires var offered := OfFormat(FormatInfo(cam.modes, cam.itf), |cam.modes.sizes|, maxW, maxH);
             c in offered && Agreed(cam, was, p, c, alts, fps) && forall o | o in offered :: Before(c, o)
    ensures exists i :: Met(cam, was, p, i, maxW, maxH)
  {
    var m, itf := cam.modes, cam.itf;
    OfferedAreSizes(m, itf, |m.sizes|, maxW, maxH);
    hide FormatInfo, SizeCandidate, OfFormat, Agreed, HostHas, DeviceHas, Fits, Area;
    var i :| 0 <= i < |m.sizes| && Fits(m, i, maxW, maxH) && c == SizeCandidate(m, itf, i);
    PickedSize(cam, was, p, c, alts, fps, i);
    CandidateFields(m, itf, i);
    forall k | 0 <= k < |m.sizes| && Fits(m, k, maxW, maxH) ensures Area(m, k) <= Area(m, i) {
      CandidateFields(m, itf, k);
      assert Before(c, SizeCandidate(m, itf, k));
    }
    assert Met(cam, was, p, i, maxW, maxH);
  }

  lemma BlobIs(before: seq<seq<byte>>, camera: seq<seq<byte>>, after: seq<seq<byte>>, blob: seq<byte>)
    requires blob == (([] + Join(before)) + Join(camera)) + Join(after)
    ensures blob == Join(before + camera + after)
  {
    JoinAppend(before, camera);
    JoinAppend(before + camera, after);
  }

  lemma OneOffered(f: UvcFormat, maxW: nat, maxH: nat)
    ensures Offered([f], 1, Any, maxW, maxH) == OfFormat(f, |f.frames|, maxW, maxH)
  {
  }
}
