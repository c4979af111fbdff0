/** src/shared/usbif_byte_ring.c: the two-lap index arithmetic, the ring as the
    object one side at a time calls, and the 32-bit range in which the arithmetic
    is exact. */
module ByteRing {
  import opened Bytes

  /** Bytes between the two indices, which run over [0, 2 * size). */
  function Span(size: nat, head: nat, tail: nat): int {
    if head >= tail then head - tail else head + 2 * size - tail
  }

  function Advance(size: nat, idx: nat, n: nat): int {
    if idx + n >= 2 * size then idx + n - 2 * size else idx + n
  }

  /** The storage cell `i` bytes past a two-lap index: where the first span or,
      once that has reached the end of the storage, the second span puts it. */
  function Cell(size: nat, idx: nat, i: nat): nat
    requires idx < 2 * size && i < size
    ensures Cell(size, idx, i) < size
  {
    var at := if idx < size then idx else idx - size;
    var first := size - at;
    if i < first then at + i else i - first
  }

  ghost predicate IndexOk(size: nat, idx: nat) {
    if size == 0 then idx == 0 else idx < 2 * size
  }

  /** Different offsets of one lap are different cells. */
  lemma CellInjective(size: nat, idx: nat, i: nat, j: nat)
    requires idx < 2 * size && i < size && j < size && i != j
    ensures Cell(size, idx, i) != Cell(size, idx, j)
  {
  }

  /** Moving the index on by `n` renumbers the cells by `n`, and lengthens or
      shortens the span by exactly `n`. */
  lemma AdvanceShifts(size: nat, idx: nat, n: nat)
    requires idx < 2 * size && n <= size
    ensures 0 <= Advance(size, idx, n) < 2 * size
    ensures forall i: nat | i < size - n :: Cell(size, Advance(size, idx, n), i) == Cell(size, idx, n + i)
    ensures forall h: nat | h < 2 * size && Span(size, h, idx) + n <= size ::
              Span(size, Advance(size, h, n), idx) == Span(size, h, idx) + n
    ensures forall h: nat | h < 2 * size && n <= Span(size, h, idx) <= size ::
              Span(size, h, Advance(size, idx, n)) == Span(size, h, idx) - n
  {
  }

  /** An index is a count of bytes over two laps: advancing it counts on, and the
      span of two of them is the difference of their counts over two laps. */
  lemma AdvanceCounts(size: nat, count: nat, n: nat)
    requires 0 < size && n <= size
    ensures Advance(size, count % (2 * size), n) == (count + n) % (2 * size)
  {
    var lap := 2 * size;
    var at := count % lap;
    if at + n >= lap {
      DivModOf(count + n, lap, count / lap + 1, at + n - lap);
    } else {
      DivModOf(count + n, lap, count / lap, at + n);
    }
  }

  lemma SpanOfCounts(size: nat, p: nat, c: nat)
    requires 0 < size
    ensures Span(size, p % (2 * size), c % (2 * size)) == (p - c) % (2 * size)
  {
    var lap := 2 * size;
    var span := Span(size, p % lap, c % lap);
    if p % lap >= c % lap {
      DivModOf(p - c, lap, p / lap - c / lap, span);
    } else {
      DivModOf(p - c, lap, p / lap - c / lap - 1, span);
    }
  }

  // ---- the same arithmetic in uint32_t

  function Advance32(size: nat, idx: nat, n: nat): int {
    var sum := (idx + n) % TWO32;
    var lap := (2 * size) % TWO32;
    if sum >= lap then sum - lap else sum
  }

  function Span32(size: nat, head: nat, tail: nat): int {
    if head >= tail then head - tail else (head + 2 * size - tail) % TWO32
  }

  /** The header promises any size up to 2 GB. In 32-bit arithmetic the index
      step is exact for every index and count exactly up to a third of the
      range, and at 2 GB itself, where twice the size wraps to 0 and the index
      wraps by itself. */
  lemma Advance32Exact(size: nat)
    requires size <= TWO32 / 2
    ensures (forall idx: nat, n: nat | idx < 2 * size && n <= size ::
               Advance32(size, idx, n) == Advance(size, idx, n))
            <==> (3 * size <= TWO32 || size == TWO32 / 2)
  {
    if 3 * size > TWO32 && size != TWO32 / 2 {
      assert Advance32(size, 2 * size - 1, size) == 3 * size - 1 - TWO32;
      assert Advance(size, 2 * size - 1, size) == size - 1;
    }
  }

  lemma Span32Exact(size: nat, head: nat, tail: nat)
    requires size <= TWO32 / 2 && head < 2 * size && tail < 2 * size
    ensures Span32(size, head, tail) == Span(size, head, tail)
  {
  }

  // ---- what the storage holds

  /** The `n` bytes from two-lap index `idx` on. */
  ghost function Window(buf: seq<byte>, idx: nat, n: nat): (q: seq<byte>)
    requires n <= |buf| && IndexOk(|buf|, idx)
    ensures |q| == n && forall i | 0 <= i < n :: q[i] == buf[Cell(|buf|, idx, i)]
  {
    seq(n, i requires 0 <= i < n => buf[Cell(|buf|, idx, i)])
  }

  /** Where the index falls in the storage, and how much of `n` fits before its end. */
  function At(size: nat, idx: nat): nat
    requires IndexOk(size, idx)
  {
    if idx < size then idx else idx - size
  }

  function First(size: nat, idx: nat, n: nat): nat
    requires IndexOk(size, idx)
  {
    Min(size - At(size, idx), n)
  }

  /** The two spans laid down past `tail + used` append to the window. */
  lemma PushWindow(buf: seq<byte>, tail: nat, used: nat, d: seq<byte>)
    requires |buf| > 0 && IndexOk(|buf|, tail) && used + |d| <= |buf|
    ensures var head := Advance(|buf|, tail, used);
            var first := First(|buf|, head, |d|);
            var one := Overwrite(buf, At(|buf|, head), d[..first]);
            Window(Overwrite(one, 0, d[first..]), tail, used + |d|) == Window(buf, tail, used) + d
  {
    var head := Advance(|buf|, tail, used);
    var first := First(|buf|, head, |d|);
    var both := Overwrite(Overwrite(buf, At(|buf|, head), d[..first]), 0, d[first..]);
    forall i: nat | i < used + |d|
      ensures both[Cell(|buf|, tail, i)] == if i < used then buf[Cell(|buf|, tail, i)] else d[i - used]
    {
      PushCell(buf, tail, used, d, i);
    }
    hide Cell, Overwrite, First, At, Advance;
  }

  lemma PushCell(buf: seq<byte>, tail: nat, used: nat, d: seq<byte>, i: nat)
    requires |buf| > 0 && IndexOk(|buf|, tail) && used + |d| <= |buf| && i < used + |d|
    ensures var head := Advance(|buf|, tail, used);
            var first := First(|buf|, head, |d|);
            var both := Overwrite(Overwrite(buf, At(|buf|, head), d[..first]), 0, d[first..]);
            both[Cell(|buf|, tail, i)] == if i < used then buf[Cell(|buf|, tail, i)] else d[i - used]
  {
    SpanCell(|buf|, tail, used, |d|, i);
    var head := Advance(|buf|, tail, used);
    TwoSpans(buf, At(|buf|, head), First(|buf|, head, |d|), d, Cell(|buf|, tail, i));
    hide Overwrite, Advance, At, First, Cell;
  }

  /** Where the cell `i` past an index lies in the two spans of `n` bytes that begin
      `offset` past it. */
  lemma SpanCell(size: nat, idx: nat, offset: nat, n: nat, i: nat)
    requires size > 0 && IndexOk(size, idx) && offset + n <= size && i < size
    ensures Advance(size, idx, offset) >= 0 && IndexOk(size, Advance(size, idx, offset))
    ensures var to := Advance(size, idx, offset);
            var at, first, k := At(size, to), First(size, to, n), Cell(size, idx, i);
            && first <= n && at + first <= size && n - first <= at && k < size
            && if offset <= i < offset + n
               then (if i - offset < first then k == at + (i - offset) else k == i - offset - first)
               else !(at <= k < at + first) && k >= n - first
  {
  }

  /** What a cell holds once bytes are laid from `at` to the end and on from 0. */
  lemma TwoSpans(buf: seq<byte>, at: nat, first: nat, d: seq<byte>, k: nat)
    requires first <= |d| && at + first <= |buf| && |d| - first <= at && k < |buf|
    ensures Overwrite(Overwrite(buf, at, d[..first]), 0, d[first..])[k] ==
            if at <= k < at + first then d[k - at] else if k < |d| - first then d[first + k] else buf[k]
  {
  }

  /** The two spans read from the window are its first bytes, and leave the rest. */
  lemma PopWindow(buf: seq<byte>, tail: nat, used: nat, n: nat)
    requires |buf| > 0 && IndexOk(|buf|, tail) && n <= used <= |buf|
    ensures var at, first := At(|buf|, tail), First(|buf|, tail, n);
            buf[at..at + first] + buf[..n - first] == Window(buf, tail, used)[..n]
    ensures Window(buf, Advance(|buf|, tail, n), used - n) == Window(buf, tail, used)[n..]
  {
    AdvanceShifts(|buf|, tail, n);
    var at, first := At(|buf|, tail), First(|buf|, tail, n);
    var out := buf[at..at + first] + buf[..n - first];
    assert forall i | 0 <= i < n :: out[i] == buf[Cell(|buf|, tail, i)];
  }

  // ---- the object

  class Ring {
    const buf: array<byte>
    var head: nat
    var tail: nat
    /** What is queued. */
    ghost var contents: seq<byte>

    ghost predicate Valid()
      reads this, buf
    {
      && IndexOk(buf.Length, head) && IndexOk(buf.Length, tail) && 0 <= Span(buf.Length, head, tail) <= buf.Length
      && contents == Window(buf[..], tail, Span(buf.Length, head, tail))
    }

    constructor (storage: array<byte>)
      ensures Valid() && buf == storage && contents == []
    {
      buf, head, tail, contents := storage, 0, 0, [];
    }

    method Used() returns (n: nat)
      requires Valid()
      ensures n == |contents|
    {
      n := Span(buf.Length, head, tail);
    }

    method Free() returns (n: nat)
      requires Valid()
      ensures n == buf.Length - |contents|
    {
      n := buf.Length - Span(buf.Length, head, tail);
    }

    method CopyIn(at: nat, src: seq<byte>)
      requires at + |src| <= buf.Length
      modifies buf
      ensures buf[..] == Overwrite(old(buf[..]), at, src)
    {
      forall i | 0 <= i < |src| {
        buf[at + i] := src[i];
      }
    }

    /** The push's copy, in its one or two spans. */
    method CopySpans(data: seq<byte>)
      requires IndexOk(buf.Length, head) && 0 < |data| <= buf.Length
      modifies buf
      ensures var first := First(buf.Length, head, |data|);
              buf[..] == Overwrite(Overwrite(old(buf[..]), At(buf.Length, head), data[..first]), 0, data[first..])
    {
      var at, first := At(buf.Length, head), First(buf.Length, head, |data|);
      CopyIn(at, data[..first]);
      if |data| > first {
        CopyIn(0, data[first..]);
      }
      assert |data| == first ==> Overwrite(buf[..], 0, []) == buf[..];
    }

    /** Takes as much of `data` as there is room for: all of the storage is
        usable, whatever its size. */
    method Push(data: seq<byte>) returns (n: nat)
      requires Valid()
      modifies this`head, this`contents, buf
      ensures Valid() && n == Min(|data|, buf.Length - |old(contents)|)
      ensures contents == old(contents) + data[..n]
    {
      var room := buf.Length - Span(buf.Length, head, tail);
      n := Min(|data|, room);
      if n == 0 {
        return;
      }
      hide Window, Overwrite, First, At;
      ghost var used := Span(buf.Length, head, tail);
      assert head == Advance(buf.Length, tail, used);
      PushWindow(buf[..], tail, used, data[..n]);
      AdvanceShifts(buf.Length, tail, used);
      AdvanceShifts(buf.Length, head, n);
      CopySpans(data[..n]);
      head := Advance(buf.Length, head, n);
      contents := contents + data[..n];
    }

    method CopyOut(n: nat) returns (out: seq<byte>)
      requires Valid() && 0 < n <= |contents|
      ensures out == contents[..n]
    {
      var at, first := At(buf.Length, tail), First(buf.Length, tail, n);
      ghost var b := buf[..];
      PopWindow(b, tail, Span(buf.Length, head, tail), n);
      out := buf[at..at + first];
      assert out == b[at..at + first];
      if n > first {
        assert buf[..n - first] == b[..n - first];
        out := out + buf[..n - first];
      }
    }

    method Pop(max: nat) returns (out: seq<byte>)
      requires Valid()
      modifies this`tail, this`contents
      ensures Valid() && |out| == Min(max, |old(contents)|)
      ensures old(contents) == out + contents
    {
      var have := Span(buf.Length, head, tail);
      var n := Min(max, have);
      if n == 0 {
        return [];
      }
      out := CopyOut(n);
      PopWindow(buf[..], tail, have, n);
      AdvanceShifts(buf.Length, tail, n);
      tail := Advance(buf.Length, tail, n);
      contents := contents[n..];
    }
  }
}
