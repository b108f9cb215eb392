/** The FNV-1a hasher (libs/3rdparty/cargo-vendor/fnv/lib.rs). A u64 is a number below 2^64. */
module Fnv {
  import opened Bytes

  const TWO_64: int := 0x1_0000_0000_0000_0000

  type u64 = x: int | 0 <= x < 0x1_0000_0000_0000_0000

  const OFFSET_BASIS: u64 := 0xcbf29ce484222325

  /** wrapping_mul by the FNV prime. */
  function TimesPrime(x: u64): (y: u64) {
    x * 0x100000001b3 % TWO_64
  }

  /** Exclusive or of the low n bits. */
  function XorBits(a: nat, b: nat, n: nat): (c: nat) {
    if n == 0 then 0 else (if a % 2 == b % 2 then 0 else 1) + 2 * XorBits(a / 2, b / 2, n - 1)
  }

  lemma {:induction false} XorTwice(a: nat, b: nat, n: nat)
    requires a < Power2(n) && b < Power2(n)
    ensures XorBits(a, b, n) < Power2(n)
    ensures XorBits(XorBits(a, b, n), b, n) == a && XorBits(XorBits(a, b, n), a, n) == b
  {
    if n > 0 {
      XorTwice(a / 2, b / 2, n - 1);
      var c := XorBits(a, b, n);
      assert c / 2 == XorBits(a / 2, b / 2, n - 1) && c % 2 == if a % 2 == b % 2 then 0 else 1;
      assert a == a / 2 * 2 + a % 2 && b == b / 2 * 2 + b % 2;
    }
  }

  function XorBytes(a: byte, b: byte): (c: byte) {
    BytesHaveEightBits();
    XorTwice(a, b, 8);
    XorBits(a, b, 8)
  }

  lemma {:induction false} XorBytesTwice(a: byte, b: byte)
    ensures XorBytes(XorBytes(a, b), b) == a && XorBytes(XorBytes(a, b), a) == b
  {
    BytesHaveEightBits();
    XorTwice(a, b, 8);
  }

  /** hash ^ (byte as u64): only the low byte changes. */
  function XorByte(hash: u64, b: byte): (h: u64) {
    hash / 0x100 * 0x100 + XorBytes(hash % 0x100, b)
  }

  /** One byte: exclusive or, then multiplication. */
  function Step(hash: u64, b: byte): (h: u64) {
    TimesPrime(XorByte(hash, b))
  }

  function Hash(hash: u64, bytes: seq<byte>): (h: u64) {
    if bytes == [] then hash else Step(Hash(hash, bytes[..|bytes| - 1]), bytes[|bytes| - 1])
  }

  class FnvHasher {
    var state: u64

    /** Default::default(). */
    constructor ()
      ensures state == OFFSET_BASIS
    {
      state := OFFSET_BASIS;
    }

    constructor WithKey(key: u64)
      ensures state == key
    {
      state := key;
    }

    method Write(bytes: seq<byte>)
      modifies this
      ensures state == Hash(old(state), bytes)
    {
      hide TimesPrime, XorByte;
      var hash := state;
      for i := 0 to |bytes|
        invariant state == old(state) && hash == Hash(state, bytes[..i])
      {
        assert bytes[..i + 1][..i] == bytes[..i];
        hash := XorByte(hash, bytes[i]);
        hash := TimesPrime(hash);
      }
      assert bytes[..|bytes|] == bytes;
      state := hash;
    }
  }

  /** Bit i of an exclusive or is set if and only if it is set in just one of the operands. */
  lemma {:induction false} XorBitsExactly(a: nat, b: nat, n: nat, i: nat)
    requires i < n
    ensures XorBits(a, b, n) / Power2(i) % 2 == 1 <==> a / Power2(i) % 2 != b / Power2(i) % 2
  {
    var c := XorBits(a, b, n);
    assert c % 2 == (if a % 2 == b % 2 then 0 else 1) && c / 2 == XorBits(a / 2, b / 2, n - 1);
    if i == 0 {
      assert c / 1 == c && a / 1 == a && b / 1 == b;
    } else {
      XorBitsExactly(a / 2, b / 2, n - 1, i - 1);
      HalfFirst(a, i);
      HalfFirst(b, i);
      HalfFirst(c, i);
    }
  }

  lemma {:induction false} HalfFirst(a: nat, i: nat)
    requires i > 0
    ensures a / Power2(i) == a / 2 / Power2(i - 1)
  {
    var d := Power2(i - 1);
    var k, r := a / 2 / d, a / 2 % d;
    assert a / 2 == k * d + r;
    assert a == k * (2 * d) + (2 * r + a % 2);
    DivMod(k, 2 * r + a % 2, 2 * d);
  }

  /** One byte goes into the low eight bits only, and the product with the prime is taken of the result. */
  lemma {:induction false} StepExactly(hash: u64, b: byte) returns (mixed: u64)
    ensures mixed / 0x100 == hash / 0x100
    ensures forall i :: 0 <= i < 8 ==>
      (mixed % 0x100 / Power2(i) % 2 == 1 <==> hash % 0x100 / Power2(i) % 2 != b / Power2(i) % 2)
    ensures Step(hash, b) == mixed * 0x100000001b3 % 0x1_0000_0000_0000_0000
  {
    mixed := XorByte(hash, b);
    forall i | 0 <= i < 8
      ensures mixed % 0x100 / Power2(i) % 2 == 1 <==> hash % 0x100 / Power2(i) % 2 != b / Power2(i) % 2
    {
      XorBitsExactly(hash % 0x100, b, 8, i);
    }
  }

  /** Hashes that the tests of the crate name: those of "", "f", "fo" and "foo". */
  lemma {:induction false} KnownHashes()
    ensures Hash(OFFSET_BASIS, []) == 0xcbf29ce484222325
    ensures Hash(OFFSET_BASIS, [0x66]) == 0xaf63db4c8601ead9
    ensures Hash(OFFSET_BASIS, [0x66, 0x6f]) == 0x08985907b541d342
    ensures Hash(OFFSET_BASIS, [0x66, 0x6f, 0x6f]) == 0xdcb27518fed9d577
  {
    KnownXors();
    hide Hash, Step, XorBits;
    StepIs(0xcbf29ce484222325, 0x66, 0x43, 0xcbf29ce5de, 0xaf63db4c8601ead9);
    StepIs(0xaf63db4c8601ead9, 0x6f, 0xb6, 0xaf63db4db0, 0x08985907b541d342);
    StepIs(0x08985907b541d342, 0x6f, 0x2d, 0x8985907c3, 0xdcb27518fed9d577);
    HashOfOne(OFFSET_BASIS, 0x66);
    HashMore([0x66], 0x6f);
    HashMore([0x66, 0x6f], 0x6f);
    assert [0x66] + [0x6f] == [0x66, 0x6f] && [0x66, 0x6f] + [0x6f] == [0x66, 0x6f, 0x6f];
  }

  lemma {:induction false} KnownXors()
    ensures XorBits(0x25, 0x66, 8) == 0x43
    ensures XorBits(0xd9, 0x6f, 8) == 0xb6
    ensures XorBits(0x42, 0x6f, 8) == 0x2d
  {
    assert XorBits(0x2, 0x6, 4) == 4 && XorBits(0xd, 0x6, 4) == 0xb && XorBits(0x4, 0x6, 4) == 2;
  }

  lemma {:induction false} StepIs(hash: u64, b: byte, low: byte, quotient: nat, h: u64)
    requires XorBits(hash % 0x100, b, 8) == low
    requires (hash / 0x100 * 0x100 + low) * 0x100000001b3 == quotient * 0x1_0000_0000_0000_0000 + h
    ensures Step(hash, b) == h
  {
    hide XorBits;
    DivMod(quotient, h, TWO_64);
  }

  lemma {:induction false} HashOfOne(hash: u64, b: byte)
    ensures Hash(hash, []) == hash && Hash(hash, [b]) == Step(hash, b)
  {
    assert [b][..0] == [];
    assert Hash(hash, []) == hash;
  }

  lemma {:induction false} HashMore(bytes: seq<byte>, b: byte)
    ensures Hash(OFFSET_BASIS, bytes + [b]) == Step(Hash(OFFSET_BASIS, bytes), b)
  {
    assert (bytes + [b])[..|bytes|] == bytes;
  }

  /** Writing in pieces is writing the whole. */
  lemma {:induction false} HashAppend(hash: u64, a: seq<byte>, b: seq<byte>)
    ensures Hash(hash, a + b) == Hash(Hash(hash, a), b)
    decreases |b|
  {
    hide Step;
    if b == [] {
      assert a + b == a;
    } else {
      assert (a + b)[..|a + b| - 1] == a + b[..|b| - 1];
      HashAppend(hash, a, b[..|b| - 1]);
    }
  }

  /** The prime has an inverse modulo 2^64, so the product determines the factor. */
  lemma {:induction false} PrimeIsInvertible(x: u64)
    ensures x == TimesPrime(x) * 0xce965057aff6957b % TWO_64
  {
    assert 0x100000001b3 * 0xce965057aff6957b == 887285111055 * 0x1_0000_0000_0000_0000 + 1;
    var q := x * 0x100000001b3 / 0x1_0000_0000_0000_0000;
    var y: int := TimesPrime(x);
    assert y == x * 0x100000001b3 - q * 0x1_0000_0000_0000_0000;
    var m := x * 887285111055 - q * 0xce965057aff6957b;
    assert y * 0xce965057aff6957b == x + m * 0x1_0000_0000_0000_0000;
  }

  /** A step is injective in the state, and in the byte. */
  lemma {:induction false} StepInjective(g: u64, h: u64, a: byte, b: byte)
    ensures Step(g, a) == Step(h, a) ==> g == h
    ensures Step(g, a) == Step(g, b) ==> a == b
  {
    hide TimesPrime, XorByte;
    PrimeIsInvertible(XorByte(g, a));
    PrimeIsInvertible(XorByte(h, a));
    PrimeIsInvertible(XorByte(g, b));
    XorByteInjective(g, h, a, b);
  }

  lemma {:induction false} XorByteInjective(g: u64, h: u64, a: byte, b: byte)
    ensures XorByte(g, a) == XorByte(h, a) ==> g == h
    ensures XorByte(g, a) == XorByte(g, b) ==> a == b
  {
    hide XorBytes;
    XorBytesTwice(g % 0x100, a);
    XorBytesTwice(h % 0x100, a);
    XorBytesTwice(g % 0x100, b);
  }

  lemma {:induction false} HashInjective(g: u64, h: u64, bytes: seq<byte>)
    requires Hash(g, bytes) == Hash(h, bytes)
    ensures g == h
  {
    hide Step;
    if bytes != [] {
      var n := |bytes| - 1;
      StepInjective(Hash(g, bytes[..n]), Hash(h, bytes[..n]), bytes[n], bytes[n]);
      HashInjective(g, h, bytes[..n]);
    }
  }

  /** Two byte strings of one length that differ in exactly one place have different hashes. */
  lemma {:induction false} OneByteMatters(hash: u64, a: seq<byte>, x: byte, y: byte, b: seq<byte>)
    requires x != y
    ensures Hash(hash, a + [x] + b) != Hash(hash, a + [y] + b)
  {
    hide Step;
    HashAppend(hash, a + [x], b);
    HashAppend(hash, a + [y], b);
    assert (a + [x])[..|a|] == a && (a + [y])[..|a|] == a;
    StepInjective(Hash(hash, a), Hash(hash, a), x, y);
    if Hash(hash, a + [x] + b) == Hash(hash, a + [y] + b) {
      HashInjective(Hash(hash, a + [x]), Hash(hash, a + [y]), b);
    }
  }
}
