/** Camera.read in packages/usb-host-video/usb/host/video.py: records parsed back
    off the ring while the assembler goes on publishing. */
module CameraRead {
  import opened Bytes
  import opened UvcSpec
  import A = UvcAssembler

  // ---- records on the wire

  lemma {:induction false} RecordsAppend(a: seq<seq<byte>>, b: seq<seq<byte>>)
    requires Sized(a) && Sized(b)
    ensures Sized(a + b) && Records(a + b) == Records(a) + Records(b)
  {
    if b == [] {
      assert a + b == a;
    } else {
      RecordsAppend(a, b[..|b| - 1]);
      assert (a + b)[..|a + b| - 1] == a + b[..|b| - 1];
    }
  }

  lemma RecordsFirst(fs: seq<seq<byte>>)
    requires Sized(fs) && fs != []
    ensures Records(fs) == Record(fs[0]) + Records(fs[1..])
  {
    assert fs[..1][..0] == [];
    assert Records(fs[..1]) == Record(fs[0]);
    hide Records, Record;
    RecordsAppend(fs[..1], fs[1..]);
    assert fs[..1] + fs[1..] == fs;
  }

  lemma FirstRecord(fs: seq<seq<byte>>)
    requires Sized(fs) && fs != []
    ensures var q := Records(fs);
            && |q| >= LEN_BYTES + |fs[0]| && Get32(q, 0) == |fs[0]|
            && q[LEN_BYTES..LEN_BYTES + |fs[0]|] == fs[0] && q[LEN_BYTES + |fs[0]|..] == Records(fs[1..])
  {
    RecordsFirst(fs);
  }

  lemma NoRecord(fs: seq<seq<byte>>)
    requires Sized(fs)
    ensures |Records(fs)| < LEN_BYTES <==> fs == []
    ensures fs == [] ==> Records(fs) == []
  {
    if fs != [] {
      RecordsFirst(fs);
    }
  }

  /** The newest of the frames that is no larger than `cap`. */
  function NewestFitting(fs: seq<seq<byte>>, cap: nat): seq<byte> {
    if fs == [] then []
    else if |fs[|fs| - 1]| <= cap then fs[|fs| - 1]
    else NewestFitting(fs[..|fs| - 1], cap)
  }

  /** What is asked of it: it is one of the frames, it fits, and no later one does. */
  lemma {:induction false} NewestFittingIs(fs: seq<seq<byte>>, cap: nat)
    ensures var f := NewestFitting(fs, cap);
            if exists j :: 0 <= j < |fs| && |fs[j]| <= cap
            then exists i :: 0 <= i < |fs| && fs[i] == f && |f| <= cap && forall j | i < j < |fs| :: |fs[j]| > cap
            else f == []
  {
    if fs != [] && |fs[|fs| - 1]| > cap {
      var before := fs[..|fs| - 1];
      NewestFittingIs(before, cap);
      assert NewestFitting(fs, cap) == NewestFitting(before, cap);
      assert forall j | 0 <= j < |fs| - 1 :: before[j] == fs[j];
      hide NewestFitting;
    }
  }

  lemma NewestFittingSnoc(fs: seq<seq<byte>>, f: seq<byte>, cap: nat)
    ensures NewestFitting(fs + [f], cap) == if |f| <= cap then f else NewestFitting(fs, cap)
  {
    assert (fs + [f])[..|fs|] == fs;
  }

  // ---- the ring as the reader sees it

  /** The ring between the assembler, which commits whole records to it at any
      moment, and the reader. `later` holds the records it will commit, a batch
      before each look the reader takes; `frames` is what is queued. */
  class Feed {
    var bytes: seq<byte>
    var later: seq<seq<seq<byte>>>
    ghost var frames: seq<seq<byte>>

    ghost predicate Valid()
      reads this
    {
      Sized(frames) && bytes == Records(frames) && forall i | 0 <= i < |later| :: Sized(later[i])
    }

    method RecordsOf(fs: seq<seq<byte>>) returns (r: seq<byte>)
      requires Sized(fs)
      ensures r == Records(fs)
    {
      r := [];
      var i := 0;
      while i < |fs|
        invariant 0 <= i <= |fs| && Sized(fs[..i]) && r == Records(fs[..i])
      {
        assert fs[..i + 1][..i] == fs[..i];
        r := r + Record(fs[i]);
        i := i + 1;
      }
      assert fs[..|fs|] == fs;
    }

    /** any(), after whatever the assembler commits before it looks. */
    method Any() returns (n: nat)
      requires Valid()
      modifies this
      ensures Valid() && n == |bytes|
      ensures old(later) == [] ==> later == [] && frames == old(frames)
      ensures old(later) != [] ==> later == old(later)[1..] && frames == old(frames) + old(later)[0]
    {
      if later != [] {
        RecordsAppend(frames, later[0]);
        var more := RecordsOf(later[0]);
        bytes, frames := bytes + more, frames + later[0];
        later := later[1..];
      }
      n := |bytes|;
    }

    method ReadInto(max: nat) returns (out: seq<byte>)
      modifies this`bytes
      ensures |out| == Min(max, |old(bytes)|) && old(bytes) == out + bytes
    {
      var n := Min(max, |bytes|);
      out := bytes[..n];
      bytes := bytes[n..];
    }
  }

  ghost function Arrivals(later: seq<seq<seq<byte>>>): seq<seq<byte>> {
    if later == [] then [] else later[0] + Arrivals(later[1..])
  }

  class Camera {
    const ring: Feed

    constructor (r: Feed)
      ensures ring == r
    {
      ring := r;
    }

    /** _skip: `size` bytes off the ring, 512 at a time. */
    method Skip(size: nat)
      requires size <= |ring.bytes|
      modifies ring`bytes
      ensures ring.bytes == old(ring.bytes)[size..]
    {
      var left := size;
      while left > 0
        invariant 0 <= left <= size && left <= |ring.bytes| && ring.bytes == old(ring.bytes)[size - left..]
      {
        var out := ring.ReadInto(Min(left, 512));
        left := left - |out|;
      }
    }

    /** One record off the ring: into `buf` if it fits. */
    method ReadOne(buf: array<byte>) returns (n: int)
      requires ring.Valid() && ring.frames != []
      modifies ring`bytes, ring`frames, buf
      ensures ring.Valid() && ring.frames == old(ring.frames)[1..] && |ring.bytes| < old(|ring.bytes|)
      ensures var f := old(ring.frames)[0];
              if |f| <= buf.Length then n == |f| && buf[..n] == f else n == -1 && buf[..] == old(buf[..])
    {
      FirstRecord(ring.frames);
      ghost var q, fs := ring.bytes, ring.frames;
      var hdr := ring.ReadInto(LEN_BYTES);
      assert Get32(hdr, 0) == Get32(q, 0);
      var size := Get32(hdr, 0);
      assert ring.bytes[..size] == fs[0] && ring.bytes[size..] == Records(fs[1..]);
      if size <= buf.Length {
        var body := ring.ReadInto(size);
        forall i | 0 <= i < size {
          buf[i] := body[i];
        }
        n := size;
      } else {
        Skip(size);
        n := -1;
      }
      ring.frames := ring.frames[1..];
    }

    /** One turn of the loop: a record read, then another look. */
    method ReadNext(buf: array<byte>, n: nat) returns (m: nat, waiting: nat)
      requires ring.Valid() && ring.frames != [] && n <= buf.Length
      modifies ring, buf
      ensures ring.Valid() && waiting == |ring.bytes| && m <= buf.Length
      ensures old(ring.later) == [] ==> ring.later == [] && |ring.bytes| < old(|ring.bytes|)
      ensures old(ring.later) != [] ==> ring.later == old(ring.later)[1..]
      ensures old(ring.later) == [] ==> ring.frames == old(ring.frames)[1..]
      ensures old(ring.later) != [] ==> ring.frames == old(ring.frames)[1..] + old(ring.later)[0]
      ensures var f := old(ring.frames)[0];
              buf[..m] == if |f| <= buf.Length then f else old(buf[..n])
    {
      hide Records;
      var got := ReadOne(buf);
      m := if got >= 0 then got else n;
      waiting := ring.Any();
    }

    /** The same turn, in the books of the loop. */
    method ReadOn(buf: array<byte>, n: nat, ghost fs: seq<seq<byte>>, ghost later: seq<seq<seq<byte>>>,
                  ghost seen: nat, ghost done: seq<seq<byte>>)
      returns (m: nat, waiting: nat, ghost seen': nat, ghost done': seq<seq<byte>>)
      requires ring.Valid() && |ring.bytes| >= LEN_BYTES && n <= buf.Length
      requires Books(fs, later, seen, done, ring.frames, ring.later) && buf[..n] == NewestFitting(done, buf.Length)
      modifies ring, buf
      ensures ring.Valid() && waiting == |ring.bytes| && m <= buf.Length
      ensures Books(fs, later, seen', done', ring.frames, ring.later) && buf[..m] == NewestFitting(done', buf.Length)
      ensures |ring.later| < |old(ring.later)|
              || (ring.later == old(ring.later) == [] && |ring.bytes| < |old(ring.bytes)|)
    {
      hide *;
      SomeFrame(ring);
      ghost var queued, rest := ring.frames, ring.later;
      NewestFittingSnoc(done, queued[0], buf.Length);
      Turn(fs, later, seen, done, queued, rest);
      done' := done + [queued[0]];
      Look(fs, later, seen, done', queued[1..], rest);
      seen' := if rest == [] then seen else seen + 1;
      m, waiting := ReadNext(buf, n);
    }

    /** The newest whole frame that fits into `buf`, of those queued and those that
        arrived meanwhile; 0 if there is none. The ring is left empty, never in
        the middle of a record. */
    method Read(buf: array<byte>) returns (n: nat, ghost seen: nat)
      requires ring.Valid()
      modifies ring, buf
      ensures ring.Valid() && ring.frames == [] && ring.bytes == []
      ensures seen <= |old(ring.later)| && ring.later == old(ring.later)[seen..] && n <= buf.Length
      ensures buf[..n] == NewestFitting(old(ring.frames) + Arrivals(old(ring.later)[..seen]), buf.Length)
    {
      hide *;
      ghost var fs, later := ring.frames, ring.later;
      ghost var done: seq<seq<byte>> := [];
      n, seen := 0, 0;
      Start(fs, later, buf.Length);
      Look(fs, later, seen, done, fs, later);
      var waiting := ring.Any();
      seen := if later == [] then 0 else 1;
      while waiting >= LEN_BYTES
        invariant ring.Valid() && waiting == |ring.bytes| && n <= buf.Length
        invariant Books(fs, later, seen, done, ring.frames, ring.later)
        invariant buf[..n] == NewestFitting(done, buf.Length)
        decreases |ring.later|, |ring.bytes|
      {
        n, waiting, seen, done := ReadOn(buf, n, fs, later, seen, done);
      }
      NoFrame(ring);
      Closed(fs, later, seen, done, ring.later);
    }
  }

  lemma SomeFrame(ring: Feed)
    requires ring.Valid() && |ring.bytes| >= LEN_BYTES
    ensures ring.frames != []
  {
    NoRecord(ring.frames);
  }

  lemma NoFrame(ring: Feed)
    requires ring.Valid() && |ring.bytes| < LEN_BYTES
    ensures ring.frames == [] && ring.bytes == []
  {
    NoRecord(ring.frames);
  }

  // ---- the books over the loop

  /** `done` was delivered and `queued` waits: together they are the frames at the
      start and the first `seen` batches of arrivals; `rest` is still to arrive. */
  ghost predicate Books(fs: seq<seq<byte>>, later: seq<seq<seq<byte>>>, seen: nat,
                        done: seq<seq<byte>>, queued: seq<seq<byte>>, rest: seq<seq<seq<byte>>>) {
    seen <= |later| && rest == later[seen..] && done + queued == fs + Arrivals(later[..seen])
  }

  lemma Start(fs: seq<seq<byte>>, later: seq<seq<seq<byte>>>, cap: nat)
    ensures Books(fs, later, 0, [], fs, later) && NewestFitting([], cap) == []
  {
    assert later[..0] == [] && later[0..] == later && [] + fs == fs + [];
  }

  lemma Look(fs: seq<seq<byte>>, later: seq<seq<seq<byte>>>, seen: nat,
             done: seq<seq<byte>>, queued: seq<seq<byte>>, rest: seq<seq<seq<byte>>>)
    requires Books(fs, later, seen, done, queued, rest)
    ensures rest != [] ==> Books(fs, later, seen + 1, done, queued + rest[0], rest[1..])
  {
    if rest != [] {
      ArrivalsNext(later, seen);
      assert later[seen..][1..] == later[seen + 1..];
      assert done + (queued + rest[0]) == (done + queued) + rest[0];
    }
  }

  lemma Turn(fs: seq<seq<byte>>, later: seq<seq<seq<byte>>>, seen: nat,
             done: seq<seq<byte>>, queued: seq<seq<byte>>, rest: seq<seq<seq<byte>>>)
    requires Books(fs, later, seen, done, queued, rest) && queued != []
    ensures Books(fs, later, seen, done + [queued[0]], queued[1..], rest)
  {
    assert done + [queued[0]] + queued[1..] == done + queued;
  }

  lemma Closed(fs: seq<seq<byte>>, later: seq<seq<seq<byte>>>, seen: nat,
               done: seq<seq<byte>>, rest: seq<seq<seq<byte>>>)
    requires Books(fs, later, seen, done, [], rest)
    ensures seen <= |later| && rest == later[seen..] && done == fs + Arrivals(later[..seen])
  {
    assert done + [] == done;
  }

  lemma {:induction false} ArrivalsNext(later: seq<seq<seq<byte>>>, seen: nat)
    requires seen < |later|
    ensures Arrivals(later[..seen + 1]) == Arrivals(later[..seen]) + later[seen]
  {
    if seen == 0 {
      assert later[..1][1..] == [] && later[..0] == [];
    } else {
      ArrivalsNext(later[1..], seen - 1);
      assert later[..seen + 1][1..] == later[1..][..seen] && later[..seen][1..] == later[1..][..seen - 1];
    }
  }
}
