// Octets, the exclusive-or used for masking, and network byte order.
// Bit tests of the C code appear as arithmetic on octets; BitTests ties the two.
module WssBytes {

  type byte = x: int | 0 <= x < 256

  // Bitwise exclusive or, one bit at a time.
  function BitXor(a: nat, b: nat): nat
    decreases a + b
  {
    if a == 0 && b == 0 then 0 else (a + b) % 2 + 2 * BitXor(a / 2, b / 2)
  }

  function Pow2(n: nat): nat { if n == 0 then 1 else 2 * Pow2(n - 1) }

  lemma Pow2Of8()
    ensures Pow2(8) == 256
  {}

  lemma {:induction false} BitXorBound(a: nat, b: nat, n: nat)
    requires a < Pow2(n) && b < Pow2(n)
    ensures BitXor(a, b) < Pow2(n)
  {
    if n > 0 { BitXorBound(a / 2, b / 2, n - 1); }
  }

  function Xor(a: byte, b: byte): byte {
    Pow2Of8();
    BitXorBound(a, b, 8);
    BitXor(a, b)
  }

  lemma BitXorDigits(a: nat, b: nat)
    ensures BitXor(a, b) / 2 == BitXor(a / 2, b / 2) && BitXor(a, b) % 2 == (a + b) % 2
  {}

  lemma LowBitTwice(x: nat, a: nat, b: nat)
    requires x % 2 == (a + b) % 2
    ensures (x + b) % 2 == a % 2
  {}

  lemma {:induction false} BitXorTwice(a: nat, b: nat)
    ensures BitXor(BitXor(a, b), b) == a
    decreases a + b
  {
    if a != 0 || b != 0 {
      var x := BitXor(a, b);
      BitXorDigits(a, b);
      BitXorTwice(a / 2, b / 2);
      LowBitTwice(x, a, b);
      var y := BitXor(x, b);
      BitXorDigits(x, b);
      assert y / 2 == a / 2 && y % 2 == a % 2;
    }
  }

  // Masking twice with the same key octet gives the octet back.
  lemma XorTwice(a: byte, key: byte)
    ensures Xor(Xor(a, key), key) == a
  {
    BitXorTwice(a, key);
  }

  // Bit k of n, the lowest first.
  function Bit(n: nat, k: nat): nat { if k == 0 then n % 2 else Bit(n / 2, k - 1) }

  lemma OddSum(a: nat, b: nat)
    ensures (a + b) % 2 == if a % 2 != b % 2 then 1 else 0
  {}

  lemma {:induction false} BitXorBits(a: nat, b: nat, k: nat)
    ensures Bit(BitXor(a, b), k) == if Bit(a, k) != Bit(b, k) then 1 else 0
    decreases k
  {
    hide BitXor;
    BitXorDigits(a, b);
    if k == 0 { OddSum(a, b); } else { BitXorBits(a / 2, b / 2, k - 1); }
  }

  // A bit of the exclusive or is set exactly where the two octets differ.
  lemma XorBits(a: byte, b: byte, k: nat)
    ensures Bit(Xor(a, b), k) == if Bit(a, k) != Bit(b, k) then 1 else 0
  {
    BitXorBits(a, b, k);
  }

  // The same on octets as the machine has them.
  lemma HalfIsShift(x: bv8)
    ensures (x >> 1) as int == x as int / 2
  {}

  lemma LowBitIsMask(x: bv8)
    ensures x as int % 2 == if x & 1 == 0 then 0 else 1
  {}

  lemma XorByBits(x: bv8, y: bv8)
    ensures (x ^ y) & 1 == 0 <==> (x & 1 == 0 <==> y & 1 == 0)
    ensures (x ^ y) >> 1 == (x >> 1) ^ (y >> 1)
  {}

  lemma Parity(a: nat, b: nat)
    ensures (a + b) % 2 == 0 <==> a % 2 == b % 2
  {}

  lemma Halved(a: nat, b: nat, v: nat, half: nat)
    requires half == BitXor(a / 2, b / 2) && v / 2 == half && (v % 2 == 0 <==> a % 2 == b % 2)
    ensures BitXor(a, b) == v
  {
    BitXorDigits(a, b);
    hide BitXor;
    Parity(a, b);
  }

  lemma Pow2Half(a: nat, n: nat)
    requires n > 0 && a < Pow2(n)
    ensures a / 2 < Pow2(n - 1)
  {}

  lemma NoBits()
    ensures BitXor(0, 0) == 0 && Pow2(0) == 1
  {}

  lemma HalfOfXor(x: bv8, y: bv8)
    ensures ((x >> 1) ^ (y >> 1)) as int == (x ^ y) as int / 2
  {
    XorByBits(x, y);
    HalfIsShift(x ^ y);
  }

  lemma HalfAgrees(x: bv8, y: bv8)
    requires BitXor((x >> 1) as int, (y >> 1) as int) == ((x >> 1) ^ (y >> 1)) as int
    ensures BitXor(x as int / 2, y as int / 2) == (x ^ y) as int / 2
  {
    hide BitXor;
    HalfIsShift(x);
    HalfIsShift(y);
    HalfOfXor(x, y);
  }

  lemma XorStep(x: bv8, y: bv8)
    requires BitXor((x >> 1) as int, (y >> 1) as int) == ((x >> 1) ^ (y >> 1)) as int
    ensures BitXor(x as int, y as int) == (x ^ y) as int
  {
    hide BitXor;
    HalfAgrees(x, y);
    LowBits(x, y);
    var a, b, v := x as int, y as int, (x ^ y) as int;
    Halved(a, b, v, v / 2);
  }

  lemma XorOfNothing(x: bv8, y: bv8)
    requires x as int == 0 && y as int == 0
    ensures BitXor(x as int, y as int) == (x ^ y) as int
  {
    NoBits();
    assert x == 0 && y == 0;
  }

  ghost predicate Below(x: bv8, n: nat) { (x as int) < Pow2(n) }

  lemma HalfBelow(x: bv8, n: nat)
    requires n > 0 && Below(x, n)
    ensures Below(x >> 1, n - 1)
  {
    HalfIsShift(x);
    Pow2Half(x as int, n);
  }

  ghost predicate Agree(x: bv8, y: bv8) { BitXor(x as int, y as int) == (x ^ y) as int }

  lemma AgreeStep(x: bv8, y: bv8)
    requires Agree(x >> 1, y >> 1)
    ensures Agree(x, y)
  {
    XorStep(x, y);
  }

  lemma AgreeOnNothing(x: bv8, y: bv8)
    requires Below(x, 0) && Below(y, 0)
    ensures Agree(x, y)
  {
    XorOfNothing(x, y);
  }

  lemma {:induction false} XorUpTo(x: bv8, y: bv8, n: nat)
    requires Below(x, n) && Below(y, n)
    ensures Agree(x, y)
    decreases n
  {
    hide Below, Agree;
    if n > 0 {
      HalfBelow(x, n);
      HalfBelow(y, n);
      XorUpTo(x >> 1, y >> 1, n - 1);
      AgreeStep(x, y);
    } else {
      AgreeOnNothing(x, y);
    }
  }

  lemma LowBits(x: bv8, y: bv8)
    ensures (x ^ y) as int % 2 == 0 <==> x as int % 2 == y as int % 2
  {
    LowBitIsMask(x);
    LowBitIsMask(y);
    LowBitIsMask(x ^ y);
    XorByBits(x, y);
  }

  lemma XorIsXor(x: bv8, y: bv8)
    ensures Xor(x as int, y as int) == (x ^ y) as int
  {
    Pow2Of8();
    XorUpTo(x, y, 8);
  }

  // The masks of the frame parser, read as arithmetic on the octet.
  lemma FlagBits(x: bv8)
    ensures (x & 0x80 != 0) <==> x as int >= 128
    ensures (x & 0x70 != 0) <==> x as int / 16 % 8 != 0
  {}

  lemma FieldBits(x: bv8)
    ensures (x & 0x0F) as int == x as int % 16
    ensures (x & 0x7F) as int == x as int % 128
  {}

  // (n >> 8i) & 0xFF
  function ByteAt(n: nat, i: nat): byte {
    if i == 0 then n % 256 else ByteAt(n / 256, i - 1)
  }

  // n in network byte order on k octets.
  function BigEndian(n: nat, k: nat): (s: seq<byte>)
    ensures |s| == k
  {
    if k == 0 then [] else BigEndian(n / 256, k - 1) + [n % 256]
  }

  function Value(s: seq<byte>): nat {
    if s == [] then 0 else 256 * Value(s[..|s| - 1]) + s[|s| - 1]
  }

  function Pow256(k: nat): nat { if k == 0 then 1 else 256 * Pow256(k - 1) }

  lemma {:induction false} BigEndianAt(n: nat, k: nat, j: nat)
    requires j < k
    ensures BigEndian(n, k)[j] == ByteAt(n, k - 1 - j)
  {
    if j < k - 1 { BigEndianAt(n / 256, k - 1, j); }
  }

  lemma {:induction false} ValueOfBigEndian(n: nat, k: nat)
    requires n < Pow256(k)
    ensures Value(BigEndian(n, k)) == n
  {
    if k > 0 {
      ValueOfBigEndian(n / 256, k - 1);
      assert BigEndian(n, k)[..k - 1] == BigEndian(n / 256, k - 1);
    }
  }

  lemma {:induction false} ValueBound(s: seq<byte>)
    ensures Value(s) < Pow256(|s|)
  {
    if s != [] { ValueBound(s[..|s| - 1]); }
  }

  lemma Powers()
    ensures Pow256(2) == 0x1_0000
    ensures Pow256(8) == 0x1_0000_0000_0000_0000
  {
    assert Pow256(0) == 1; assert Pow256(1) == 256; assert Pow256(2) == 0x1_0000;
    assert Pow256(3) == 0x100_0000; assert Pow256(4) == 0x1_0000_0000;
    assert Pow256(5) == 0x100_0000_0000; assert Pow256(6) == 0x1_0000_0000_0000;
    assert Pow256(7) == 0x100_0000_0000_0000;
  }
}
