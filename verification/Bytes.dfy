/** Bytes, and the little-endian fields every wire format here is made of. */
module Bytes {
  type byte = x: int | 0 <= x < 256

  const TWO32: int := 0x1_0000_0000

  type u32 = x: int | 0 <= x < TWO32

  function Min(a: nat, b: nat): nat {
    if a < b then a else b
  }

  datatype Option<T> = None | Some(value: T)

  function Zeros(n: nat): (z: seq<byte>)
    ensures |z| == n
  {
    seq(n, _ => 0)
  }

  // ---- little-endian fields

  function LE16(n: nat): (r: seq<byte>)
    requires n < 0x1_0000
    ensures |r| == 2 && Get16(r, 0) == n
  {
    var high: byte := n / 256;
    [n % 256, high]
  }

  function LE32(n: u32): (r: seq<byte>)
    ensures |r| == 4 && Get32(r, 0) == n
  {
    var b1, b2, b3 := n / 256, n / 0x1_0000, n / 0x100_0000;
    assert b3 < 256 && b1 / 256 == b2 && b2 / 256 == b3;
    [n % 256, b1 % 256, b2 % 256, b3]
  }

  function Get16(s: seq<byte>, at: nat): (n: nat)
    requires at + 2 <= |s|
    ensures n < 0x1_0000
  {
    s[at] as int + s[at + 1] as int * 256
  }

  function Get32(s: seq<byte>, at: nat): (n: u32)
    requires at + 4 <= |s|
  {
    s[at] as int + s[at + 1] as int * 256 + s[at + 2] as int * 0x1_0000 + s[at + 3] as int * 0x100_0000
  }

  /** A field is what its own bytes are. */
  lemma FieldAt(s: seq<byte>, at: nat)
    requires at + 4 <= |s|
    ensures Get32(s, at) == Get32(s[at..at + 4], 0) && Get16(s, at) == Get16(s[at..at + 2], 0)
  {
  }

  predicate Bit(b: byte, weight: nat)
    requires weight > 0
  {
    b as int / weight % 2 == 1
  }

  function Overwrite(buf: seq<byte>, at: nat, src: seq<byte>): (r: seq<byte>)
    requires at + |src| <= |buf|
    ensures |r| == |buf|
    ensures forall i | 0 <= i < |buf| :: r[i] == if at <= i < at + |src| then src[i - at] else buf[i]
  {
    buf[..at] + src + buf[at + |src|..]
  }

  // ---- division by a variable

  /** A dividend written as quotient and remainder has them as its quotient and
      remainder. */
  lemma DivModOf(x: int, m: int, q: int, r: int)
    requires m > 0 && x == q * m + r && 0 <= r < m
    ensures x / m == q && x % m == r
  {
    var d := x / m - q;
    assert d * m == r - x % m;
    NonzeroMultiple(d, m);
  }

  lemma NonzeroMultiple(d: int, m: int)
    requires m > 0
    ensures d >= 1 ==> d * m >= m
    ensures d <= -1 ==> d * m <= -m
  {
  }

  predicate Multiple(n: int, m: int) {
    m > 0 ==> n % m == 0
  }

  lemma MultipleOf(q: int, m: int)
    ensures Multiple(q * m, m)
  {
    if m > 0 {
      DivModOf(q * m, m, q, 0);
    }
  }

  lemma MultipleSum(a: int, b: int, m: int)
    requires Multiple(a, m) && Multiple(b, m)
    ensures Multiple(a + b, m) && Multiple(a - b, m)
  {
    if m > 0 {
      DivModOf(a + b, m, a / m + b / m, 0);
      DivModOf(a - b, m, a / m - b / m, 0);
    }
  }

  /** `n` cut to a multiple of `frame`; all of it when there is no frame size. */
  function Whole(n: nat, frame: nat): (r: nat)
    ensures r <= n && Multiple(r, frame)
    ensures frame > 0 ==> n - r < frame
  {
    if frame == 0 then n else
      (assert (n / frame) * frame == n - n % frame; MultipleOf(n / frame, frame); n - n % frame)
  }

  lemma Grouped<T>(a: seq<T>, b: seq<T>, c: seq<T>)
    ensures a + b + c == a + (b + c)
  {
  }
}
