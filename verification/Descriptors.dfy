/** The walk both class parsers make through a configuration blob: each descriptor
    begins with its own length. */
module Descriptors {
  import opened Bytes

  const DT_INTERFACE: byte := 0x04
  const DT_ENDPOINT: byte := 0x05
  const DT_IAD: byte := 0x0B
  const DT_CS_INTERFACE: byte := 0x24
  const DT_CS_ENDPOINT: byte := 0x25

  /** A descriptor as it is printed: its length and its type lead it. */
  predicate Wellformed(d: seq<byte>) {
    |d| >= 2 && d[0] as int == |d|
  }

  /** The descriptors of a blob, up to the first that cannot be one. */
  function Walk(blob: seq<byte>): (ds: seq<seq<byte>>)
    ensures forall d | d in ds :: Wellformed(d)
  {
    if |blob| < 2 || blob[0] < 2 || blob[0] as int > |blob| then []
    else [blob[..blob[0]]] + Walk(blob[blob[0]..])
  }

  function Join(ds: seq<seq<byte>>): seq<byte> {
    if ds == [] then [] else ds[0] + Join(ds[1..])
  }

  lemma {:induction false} JoinAppend(a: seq<seq<byte>>, b: seq<seq<byte>>)
    ensures Join(a + b) == Join(a) + Join(b)
  {
    if a == [] {
      assert a + b == b;
    } else {
      JoinAppend(a[1..], b);
      assert a + b == [a[0]] + (a[1..] + b) && a == [a[0]] + a[1..];
      JoinFirst(a[0], a[1..] + b);
      JoinFirst(a[0], a[1..]);
      hide Join;
      assert a[0] + (Join(a[1..]) + Join(b)) == (a[0] + Join(a[1..])) + Join(b);
    }
  }

  lemma JoinFirst(d: seq<byte>, ds: seq<seq<byte>>)
    ensures Join([d] + ds) == d + Join(ds)
  {
    assert ([d] + ds)[1..] == ds;
  }

  /** Walking what was printed gives back the descriptors printed. */
  lemma {:induction false} WalkInverts(ds: seq<seq<byte>>)
    requires forall d | d in ds :: Wellformed(d)
    ensures Walk(Join(ds)) == ds
  {
    if ds != [] {
      WalkInverts(ds[1..]);
      var blob := Join(ds);
      assert Wellformed(ds[0]) && blob[0] == ds[0][0];
      assert blob[..|ds[0]|] == ds[0] && blob[|ds[0]|..] == Join(ds[1..]);
    }
  }

  lemma WalkNext(blob: seq<byte>, offset: nat)
    requires offset + 2 <= |blob| && 2 <= blob[offset] && offset + blob[offset] as int <= |blob|
    ensures var len := blob[offset] as int;
            Walk(blob[offset..]) == [blob[offset..offset + len]] + Walk(blob[offset + len..])
  {
    var rest, len := blob[offset..], blob[offset] as int;
    assert rest[..len] == blob[offset..offset + len] && rest[len..] == blob[offset + len..];
  }

  predicate IsInterface(d: seq<byte>) {
    |d| >= 9 && d[1] == DT_INTERFACE
  }

  /** Descriptors appended one after another. */
  method Append(desc: seq<byte>, ds: seq<seq<byte>>) returns (out: seq<byte>)
    ensures out == desc + Join(ds)
  {
    out := desc;
    var i := 0;
    assert ds[0..] == ds;
    while i < |ds|
      invariant 0 <= i <= |ds| && out + Join(ds[i..]) == desc + Join(ds)
    {
      assert ds[i..][0] == ds[i] && ds[i..][1..] == ds[i + 1..];
      assert out + Join(ds[i..]) == (out + ds[i]) + Join(ds[i + 1..]);
      out := out + ds[i];
      i := i + 1;
    }
    assert out + [] == out;
  }
}
