/** Bytes and the big-endian integers that the blob format and the routing messages are made of. */
module Bytes {

  type byte = x: int | 0 <= x < 0x100
  type u16 = x: int | 0 <= x < 0x1_0000
  type u32 = x: int | 0 <= x < 0x1_0000_0000

  const MAX_U16 := 0xFFFF
  const MAX_U32 := 0xFFFF_FFFF

  function Power2(n: nat): (p: nat)
    ensures p > 0
  {
    if n == 0 then 1 else 2 * Power2(n - 1)
  }

  lemma {:induction false} BytesHaveEightBits()
    ensures Power2(8) == 0x100
  {
    assert Power2(8) == 2 * Power2(7) == 4 * Power2(6) == 8 * Power2(5) == 16 * Power2(4) == 32 * Power2(3);
    assert Power2(3) == 2 * Power2(2) == 4 * Power2(1) == 8;
  }

  lemma {:induction false} DivMod(q: nat, r: nat, d: nat)
    requires r < d
    ensures (q * d + r) / d == q && (q * d + r) % d == r
  {
    var x := q * d + r;
    var k := x / d;
    assert x == k * d + x % d;
    MulMonotone(k + 1, q, d);
    MulMonotone(q + 1, k, d);
  }

  lemma {:induction false} MulMonotone(a: nat, b: nat, c: nat)
    ensures a <= b ==> a * c <= b * c
  {
    if a <= b {
      assert b * c - a * c == (b - a) * c;
    }
  }

  function Be16(v: u16): (s: seq<byte>)
    ensures |s| == 2
  {
    [v / 0x100, v % 0x100]
  }

  function Be32(v: u32): (s: seq<byte>)
    ensures |s| == 4
  {
    [v / 0x100_0000, v / 0x1_0000 % 0x100, v / 0x100 % 0x100, v % 0x100]
  }

  /** A number with one more byte at its end. */
  function Appended(high: int, low: int): (v: int) {
    high * 256 + low
  }

  /** The most significant byte comes first. */
  lemma {:induction false} BigEndian(v: u16, w: u32)
    ensures v == Appended(Be16(v)[0], Be16(v)[1])
    ensures var b := Be32(w); w == Appended(Appended(Appended(b[0], b[1]), b[2]), b[3])
  {
    assert w / 0x100_0000 * 0x100 + w / 0x1_0000 % 0x100 == w / 0x1_0000;
    assert w / 0x1_0000 * 0x100 + w / 0x100 % 0x100 == w / 0x100;
  }

  function FromBe16(s: seq<byte>): (v: u16)
    requires |s| == 2
  {
    s[0] as int * 0x100 + s[1] as int
  }

  function FromBe32(s: seq<byte>): (v: u32)
    requires |s| == 4
  {
    s[0] as int * 0x100_0000 + s[1] as int * 0x1_0000 + s[2] as int * 0x100 + s[3] as int
  }

  lemma {:induction false} Be16RoundTrip(v: u16)
    ensures FromBe16(Be16(v)) == v
  {
  }

  lemma {:induction false} Be32RoundTrip(v: u32)
    ensures FromBe32(Be32(v)) == v
  {
    var q2 := v / 0x1_0000;
    assert v / 0x100 / 0x100 == q2;
    assert q2 / 0x100 == v / 0x100_0000;
    assert v == 0x1_0000 * q2 + 0x100 * (v / 0x100 % 0x100) + v % 0x100;
  }

  /** Reading is injective too, so a 32-bit field has exactly one encoding. */
  lemma {:induction false} Be32Unique(s: seq<byte>)
    requires |s| == 4
    ensures Be32(FromBe32(s)) == s
  {
    var a: int, b: int, c: int, d: int := s[0], s[1], s[2], s[3];
    var v := FromBe32(s);
    assert v / 0x100_0000 == a;
    assert v / 0x1_0000 == a * 0x100 + b;
    assert v / 0x100 == a * 0x1_0000 + b * 0x100 + c;
  }

  /** The concatenated encodings of a vector of 32-bit values. */
  function Be32s(vs: seq<u32>): (s: seq<byte>)
    ensures |s| == 4 * |vs| && |s| % 4 == 0
  {
    if vs == [] then [] else Be32(vs[0]) + Be32s(vs[1..])
  }

  /** Number i of a vector stands in its bytes 4i to 4i + 3. */
  lemma {:induction false} Be32sAt(vs: seq<u32>, i: nat)
    requires i < |vs|
    ensures Be32s(vs)[4 * i..4 * i + 4] == Be32(vs[i])
  {
    if i > 0 {
      Be32sAt(vs[1..], i - 1);
      assert Be32s(vs)[4 * i..4 * i + 4] == Be32s(vs[1..])[4 * (i - 1)..4 * (i - 1) + 4];
    }
  }

  function FromBe32s(s: seq<byte>): (vs: seq<u32>)
    requires |s| % 4 == 0
    ensures 4 * |vs| == |s|
  {
    if s == [] then [] else [FromBe32(s[..4])] + FromBe32s(s[4..])
  }

  lemma {:induction false} Be32sRoundTrip(vs: seq<u32>)
    ensures FromBe32s(Be32s(vs)) == vs
  {
    if vs != [] {
      var s := Be32s(vs);
      assert s[..4] == Be32(vs[0]);
      assert s[4..] == Be32s(vs[1..]);
      Be32RoundTrip(vs[0]);
      Be32sRoundTrip(vs[1..]);
    }
  }

  function Be16s(vs: seq<u16>): (s: seq<byte>)
    ensures |s| == 2 * |vs|
  {
    if vs == [] then [] else Be16(vs[0]) + Be16s(vs[1..])
  }

  lemma {:induction false} Be16sAt(vs: seq<u16>, i: nat)
    requires i < |vs|
    ensures Be16s(vs)[2 * i..2 * i + 2] == Be16(vs[i])
  {
    if i > 0 {
      Be16sAt(vs[1..], i - 1);
      assert Be16s(vs)[2 * i..2 * i + 2] == Be16s(vs[1..])[2 * (i - 1)..2 * (i - 1) + 2];
    }
  }

  function FromBe16s(s: seq<byte>): (vs: seq<u16>)
    requires |s| % 2 == 0
    ensures 2 * |vs| == |s|
  {
    if s == [] then [] else [FromBe16(s[..2])] + FromBe16s(s[2..])
  }

  lemma {:induction false} Be16sRoundTrip(vs: seq<u16>)
    ensures FromBe16s(Be16s(vs)) == vs
  {
    if vs != [] {
      var s := Be16s(vs);
      assert s[..2] == Be16(vs[0]);
      assert s[2..] == Be16s(vs[1..]);
      Be16RoundTrip(vs[0]);
      Be16sRoundTrip(vs[1..]);
    }
  }

  /** `n` copies of the byte `b`. */
  function Fill(n: nat, b: byte): (s: seq<byte>)
    ensures |s| == n
    ensures forall i :: 0 <= i < n ==> s[i] == b
  {
    seq(n, i requires 0 <= i < n => b)
  }

  function Concat<T>(parts: seq<seq<T>>): (s: seq<T>) {
    if parts == [] then [] else parts[0] + Concat(parts[1..])
  }
}
