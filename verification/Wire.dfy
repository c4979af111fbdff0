/** Fields as bytes, written out: what the little-endian helpers must agree with. */
module Wire {
  import opened Bytes

  /** Two bytes and four, the lowest first. */
  function Two(n: nat): (r: seq<byte>)
    requires n < 0x1_0000
    ensures |r| == 2
  {
    var high: byte := n / 256;
    [n % 256, high]
  }

  function Four(n: u32): (r: seq<byte>)
    ensures |r| == 4
  {
    var b1, b2, b3 := n / 256, n / 0x1_0000, n / 0x100_0000;
    [n % 256, b1 % 256, b2 % 256, b3]
  }

  /** And the highest first. */
  function FourHigh(n: u32): (r: seq<byte>)
    ensures |r| == 4
  {
    var le := Four(n);
    [le[3], le[2], le[1], le[0]]
  }

  lemma TwoAt(d: seq<byte>, at: nat, n: nat)
    requires at + 2 <= |d| && n < 0x1_0000 && d[at..at + 2] == Two(n)
    ensures Get16(d, at) == n
  {
    FieldAt16(d, at);
  }

  lemma FieldAt16(d: seq<byte>, at: nat)
    requires at + 2 <= |d|
    ensures Get16(d, at) == d[at..at + 2][0] as int + d[at..at + 2][1] as int * 256
  {
  }

  lemma FourAt(d: seq<byte>, at: nat, n: u32)
    requires at + 4 <= |d| && d[at..at + 4] == Four(n)
    ensures Get32(d, at) == n
  {
    FieldAt(d, at);
    FourIs(n);
  }

  /** The helpers print these bytes. */
  lemma TwoIs(n: nat)
    requires n < 0x1_0000
    ensures LE16(n) == Two(n)
  {
  }

  lemma FourIs(n: u32)
    ensures LE32(n) == Four(n)
  {
  }

  /** The value of four bytes. */
  function Value(d: seq<byte>, at: nat): nat
    requires at + 4 <= |d|
  {
    d[at] as int + d[at + 1] as int * 256 + d[at + 2] as int * 0x1_0000 + d[at + 3] as int * 0x100_0000
  }

  lemma ValueIs(d: seq<byte>, at: nat)
    requires at + 4 <= |d|
    ensures Get32(d, at) == Value(d, at)
  {
  }
}
