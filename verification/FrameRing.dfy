/** The ring a video stream builds frames in: the stage, commit and read calls of
    src/usbif_host_stream.h and tests/test_iso_stream.c, on the two-lap indices of
    the byte ring. */
module FrameRing {
  import opened Bytes
  import opened ByteRing

  /** The storage after `src` is laid `offset` bytes past the head, in two spans. */
  function Staged(buf: seq<byte>, head: nat, offset: nat, src: seq<byte>): (r: seq<byte>)
    requires |buf| > 0 && IndexOk(|buf|, head) && offset + |src| <= |buf|
    ensures |r| == |buf|
  {
    AdvanceOk(|buf|, head, offset);
    var idx := Advance(|buf|, head, offset);
    var first := First(|buf|, idx, |src|);
    Overwrite(Overwrite(buf, At(|buf|, idx), src[..first]), 0, src[first..])
  }

  lemma AdvanceOk(size: nat, idx: nat, n: nat)
    requires size > 0 && IndexOk(size, idx) && n <= size
    ensures Advance(size, idx, n) >= 0 && IndexOk(size, Advance(size, idx, n))
  {
  }

  lemma StagedCells(buf: seq<byte>, head: nat, offset: nat, src: seq<byte>)
    requires |buf| > 0 && IndexOk(|buf|, head) && offset + |src| <= |buf|
    ensures forall i: nat | i < |buf| ::
              Staged(buf, head, offset, src)[Cell(|buf|, head, i)] ==
              if offset <= i < offset + |src| then src[i - offset] else buf[Cell(|buf|, head, i)]
  {
    forall i: nat | i < |buf|
      ensures Staged(buf, head, offset, src)[Cell(|buf|, head, i)] ==
              if offset <= i < offset + |src| then src[i - offset] else buf[Cell(|buf|, head, i)]
    {
      StagedCell(buf, head, offset, src, i);
    }
  }

  lemma StagedCell(buf: seq<byte>, head: nat, offset: nat, src: seq<byte>, i: nat)
    requires |buf| > 0 && IndexOk(|buf|, head) && offset + |src| <= |buf| && i < |buf|
    ensures Staged(buf, head, offset, src)[Cell(|buf|, head, i)] ==
            if offset <= i < offset + |src| then src[i - offset] else buf[Cell(|buf|, head, i)]
  {
    SpanCell(|buf|, head, offset, |src|, i);
    var idx := Advance(|buf|, head, offset);
    TwoSpans(buf, At(|buf|, idx), First(|buf|, idx, |src|), src, Cell(|buf|, head, i));
    hide Overwrite, Advance, At, First, Cell;
  }

  /** Staging writes the free bytes only: those it is told to, and no queued one. */
  lemma StageWindows(buf: seq<byte>, head: nat, tail: nat, used: nat, offset: nat, src: seq<byte>)
    requires |buf| > 0 && IndexOk(|buf|, tail) && used <= |buf| && head == Advance(|buf|, tail, used)
    requires offset + |src| <= |buf| - used
    ensures IndexOk(|buf|, head)
    ensures var buf' := Staged(buf, head, offset, src);
            && Window(buf', tail, used) == Window(buf, tail, used)
            && Window(buf', head, |buf| - used) == Overwrite(Window(buf, head, |buf| - used), offset, src)
  {
    StagedCells(buf, head, offset, src);
    var buf', size := Staged(buf, head, offset, src), |buf|;
    hide Staged;
    forall i: nat | i < used
      ensures buf'[Cell(size, tail, i)] == buf[Cell(size, tail, i)]
    {
      BehindHead(size, tail, used, i);
    }
    assert Window(buf', tail, used) == Window(buf, tail, used);
  }

  /** A queued byte is, counted from the head, past all the free ones. */
  lemma BehindHead(size: nat, tail: nat, used: nat, i: nat)
    requires size > 0 && IndexOk(size, tail) && i < used <= size
    ensures Advance(size, tail, used) >= 0 && Advance(size, tail, used) < 2 * size
    ensures Cell(size, Advance(size, tail, used), size - used + i) == Cell(size, tail, i)
  {
  }

  class Ring {
    const buf: array<byte>
    var head: nat
    var tail: nat
    var overflows: nat
    /** What is published and not yet read, and what lies in the free bytes past it. */
    ghost var contents: seq<byte>
    ghost var ahead: seq<byte>

    ghost predicate Valid()
      reads `head, `tail, `contents, `ahead, buf
    {
      && buf.Length > 0 && IndexOk(buf.Length, tail) && |contents| <= buf.Length
      && head == Advance(buf.Length, tail, |contents|) && Span(buf.Length, head, tail) == |contents|
      && contents == Window(buf[..], tail, |contents|)
      && ahead == Window(buf[..], head, buf.Length - |contents|)
    }

    constructor (storage: array<byte>)
      requires storage.Length > 0
      ensures Valid() && buf == storage && contents == []
    {
      buf, head, tail, overflows, contents := storage, 0, 0, 0, [];
      ahead := Window(storage[..], 0, storage.Length);
    }

    method Any() returns (n: nat)
      requires Valid()
      ensures n == |contents|
    {
      n := Span(buf.Length, head, tail);
    }

    method CopyIn(at: nat, src: seq<byte>)
      requires at + |src| <= buf.Length
      modifies buf
      ensures buf[..] == Overwrite(old(buf[..]), at, src)
    {
      forall i | 0 <= i < |src| {
        buf[at + i] := src[i];
      }
    }

    method CopySpans(offset: nat, src: seq<byte>)
      requires buf.Length > 0 && IndexOk(buf.Length, head) && offset + |src| <= buf.Length
      modifies buf
      ensures buf[..] == Staged(old(buf[..]), head, offset, src)
    {
      AdvanceOk(buf.Length, head, offset);
      var idx := Advance(buf.Length, head, offset);
      var first := First(buf.Length, idx, |src|);
      CopyIn(At(buf.Length, idx), src[..first]);
      CopyIn(0, src[first..]);
    }

    /** The bytes laid past the head without publishing them, if there is room. */
    method Stage(offset: nat, src: seq<byte>) returns (ok: bool)
      requires Valid()
      modifies buf, this`ahead
      ensures Valid() && ok == (offset + |src| <= |ahead|)
      ensures ahead == if ok then Overwrite(old(ahead), offset, src) else old(ahead)
    {
      var used := Span(buf.Length, head, tail);
      ok := offset + |src| <= buf.Length - used;
      if ok {
        StageWindows(buf[..], head, tail, used, offset, src);
        hide Window, Staged, Overwrite;
        CopySpans(offset, src);
        ahead := Overwrite(ahead, offset, src);
      }
    }

    /** The first `n` staged bytes published. */
    method Commit(n: nat)
      requires Valid() && n <= |ahead|
      modifies this`head, this`contents, this`ahead
      ensures Valid() && contents == old(contents) + old(ahead)[..n] && ahead == old(ahead)[n..]
    {
      AdvanceShifts(buf.Length, tail, |contents|);
      AdvanceShifts(buf.Length, head, n);
      CommitWindows(buf[..], tail, |contents|, n);
      hide Window;
      head := Advance(buf.Length, head, n);
      contents, ahead := contents + ahead[..n], ahead[n..];
    }

    method CopyOut(n: nat) returns (out: seq<byte>)
      requires Valid() && n <= |contents|
      ensures out == contents[..n]
    {
      var at, first := At(buf.Length, tail), First(buf.Length, tail, n);
      ghost var b := buf[..];
      PopWindow(b, tail, |contents|, n);
      out := buf[at..at + first];
      assert out == b[at..at + first] && buf[..n - first] == b[..n - first];
      out := out + buf[..n - first];
    }

    /** readinto: the consumer only frees bytes, behind everything staged. */
    method ReadInto(max: nat) returns (out: seq<byte>)
      requires Valid()
      modifies this`tail, this`contents, this`ahead
      ensures Valid() && |out| == Min(max, |old(contents)|)
      ensures old(contents) == out + contents && ahead == old(ahead) + out
    {
      var n := Min(max, Span(buf.Length, head, tail));
      out := CopyOut(n);
      ReadWindows(buf[..], tail, |contents|, n);
      AdvanceShifts(buf.Length, tail, n);
      hide Window;
      tail := Advance(buf.Length, tail, n);
      contents, ahead := contents[n..], ahead + contents[..n];
    }
  }

  lemma CommitWindows(buf: seq<byte>, tail: nat, used: nat, n: nat)
    requires |buf| > 0 && IndexOk(|buf|, tail) && used + n <= |buf|
    ensures var head := Advance(|buf|, tail, used);
            && IndexOk(|buf|, head) && Advance(|buf|, head, n) == Advance(|buf|, tail, used + n) >= 0
            && IndexOk(|buf|, Advance(|buf|, head, n))
            && Window(buf, tail, used + n) == Window(buf, tail, used) + Window(buf, head, |buf| - used)[..n]
            && Window(buf, Advance(|buf|, head, n), |buf| - used - n) == Window(buf, head, |buf| - used)[n..]
  {
    AdvanceShifts(|buf|, tail, used);
    AdvanceShifts(|buf|, Advance(|buf|, tail, used), n);
  }

  lemma ReadWindows(buf: seq<byte>, tail: nat, used: nat, n: nat)
    requires |buf| > 0 && IndexOk(|buf|, tail) && n <= used <= |buf|
    ensures var tail', head := Advance(|buf|, tail, n), Advance(|buf|, tail, used);
            && tail' >= 0 && IndexOk(|buf|, tail') && IndexOk(|buf|, head) && Advance(|buf|, tail', used - n) == head
            && Window(buf, tail', used - n) == Window(buf, tail, used)[n..]
            && Window(buf, head, |buf| - (used - n)) == Window(buf, head, |buf| - used) + Window(buf, tail, used)[..n]
  {
    PopWindow(buf, tail, used, n);
    forall i: nat | i < n
      ensures buf[Cell(|buf|, Advance(|buf|, tail, used), |buf| - used + i)] == buf[Cell(|buf|, tail, i)]
    {
      BehindHead(|buf|, tail, used, i);
    }
  }
}
