/** Byte strings and how pieces of them are put together. */
module Bytes {

  type byte = x: int | 0 <= x < 256
  type Bytes = seq<byte>

  const CR: byte := 0x0d
  const LF: byte := 0x0a

  function ToBits(a: byte): bv8 { a as bv8 }

  function FromBits(x: bv8): byte { x as int }

  function XorBits(x: bv8, y: bv8): byte { FromBits(x ^ y) }

  function Xor(a: byte, b: byte): byte {
    XorBits(ToBits(a), ToBits(b))
  }

  /** Buffer.concat over a list of buffers. */
  function Flatten(parts: seq<Bytes>): Bytes {
    if parts == [] then [] else parts[0] + Flatten(parts[1..])
  }

  lemma FlattenHead(parts: seq<Bytes>)
    requires parts != []
    ensures Flatten(parts) == parts[0] + Flatten(parts[1..])
  {
  }

  function Total(parts: seq<Bytes>): nat {
    if parts == [] then 0 else |parts[0]| + Total(parts[1..])
  }

  lemma {:induction false} FlattenAppend(a: seq<Bytes>, b: seq<Bytes>)
    ensures Flatten(a + b) == Flatten(a) + Flatten(b)
  {
    if a == [] {
      assert a + b == b;
    } else {
      assert (a + b)[1..] == a[1..] + b;
      FlattenAppend(a[1..], b);
    }
  }

  lemma FlattenOne(a: seq<Bytes>, x: Bytes)
    ensures Flatten(a + [x]) == Flatten(a) + x
  {
    FlattenAppend(a, [x]);
    assert Flatten([x]) == x + Flatten([]);
  }

  lemma {:induction false} FlattenLength(parts: seq<Bytes>)
    ensures |Flatten(parts)| == Total(parts)
  {
    if parts != [] { FlattenLength(parts[1..]); }
  }

  lemma TotalOne(a: seq<Bytes>, x: Bytes)
    ensures Total(a + [x]) == Total(a) + |x|
  {
    FlattenOne(a, x);
    FlattenLength(a);
    FlattenLength(a + [x]);
  }

  /** The bytes of an ASCII string; the injected frames carry nothing else. */
  function Ascii(s: string): (b: Bytes)
    ensures |b| == |s|
  {
    seq(|s|, i requires 0 <= i < |s| => if s[i] as int < 128 then s[i] as int else 0x3f)
  }

  predicate AllAscii(b: Bytes) {
    forall i :: 0 <= i < |b| ==> b[i] < 0x80
  }
}
