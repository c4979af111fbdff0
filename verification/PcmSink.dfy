/** src/shared/usbif_pcm_sink.c as the object one caller at a time sees: its
    fields, and what each call does to them and to the ring. Calls that overlap
    are the subject of SinkGate. */
module PcmSink {
  import opened Bytes
  import ByteRing
  import SinkGate

  class Sink {
    const ring: ByteRing.Ring
    var frame: nat
    var live: u32
    var users: nat
    var busy: bool
    var lastGen: u32

    /** Between calls: nobody inside, nobody pushing. */
    ghost predicate Valid()
      reads this, ring, ring.buf
    {
      ring.Valid() && users == 0 && !busy && (live != 0 ==> live == lastGen)
    }

    constructor (r: ByteRing.Ring)
      requires r.Valid()
      ensures Valid() && ring == r && live == 0 && lastGen == 0
    {
      ring, frame, live, users, busy, lastGen := r, 0, 0, 0, false, 0;
    }

    method Open(frameBytes: nat) returns (gen: u32)
      requires Valid()
      modifies this`frame, this`live, this`lastGen
      ensures Valid() && live == gen != 0 && frame == frameBytes
      ensures gen == lastGen == SinkGate.NextGen(old(lastGen))
      ensures old(lastGen) < TWO32 - 1 ==> gen > old(lastGen)
    {
      gen := SinkGate.NextGen(lastGen);
      lastGen := gen;
      frame := frameBytes;
      live := gen;
    }

    method Close()
      requires Valid()
      modifies this`live
      ensures Valid() && live == 0
    {
      live := 0;
    }

    method Enter(gen: u32) returns (ok: bool)
      requires Valid()
      modifies this`users
      ensures ok == (gen != 0 && live == gen)
      ensures users == if ok then 1 else 0
    {
      users := users + 1;
      ok := gen != 0 && live == gen;
      if !ok {
        users := users - 1;
      }
    }

    /** -1 for any sink but the open stream's; otherwise the whole frames of
        `data` that fit, which is exactly what the ring gains. */
    method Write(gen: u32, data: seq<byte>) returns (taken: int)
      requires Valid()
      modifies this`users, this`busy, ring`head, ring`contents, ring.buf
      ensures Valid()
      ensures taken == -1 <==> gen == 0 || live != gen
      ensures taken == -1 ==> ring.contents == old(ring.contents)
      ensures taken >= 0 ==>
                && taken == Whole(Min(|data|, ring.buf.Length - |old(ring.contents)|), frame)
                && ring.contents == old(ring.contents) + data[..taken]
    {
      var ok := Enter(gen);
      if !ok {
        return -1;
      }
      taken := 0;
      var was := busy;
      busy := true;
      if !was {
        var room := ring.Free();
        var n := Whole(Min(|data|, room), frame);
        if n > 0 {
          taken := ring.Push(data[..n]);
        }
        assert data[..n][..n] == data[..n] && data[..0] == [];
        busy := false;
      }
      users := users - 1;
    }

    method Space(gen: u32) returns (room: int)
      requires Valid()
      modifies this`users
      ensures Valid()
      ensures room == if gen == 0 || live != gen then -1 else Whole(ring.buf.Length - |ring.contents|, frame)
    {
      var ok := Enter(gen);
      if !ok {
        return -1;
      }
      room := ring.Free();
      room := Whole(room, frame);
      users := users - 1;
    }
  }
}
