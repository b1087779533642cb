// Base64 as the handshake writes it, decoded back as section 4 of RFC 4648 says.
module WssBase64 {
  import opened Wrappers
  import opened WssBytes
  import opened WssSha1

  type Sextet = x: nat | x < 64

  // A-Z, a-z, 0-9, + and /
  function Letter(v: Sextet): char {
    (if v < 26 then v + 65 else if v < 52 then v + 71 else if v < 62 then v - 4 else if v == 62 then 43 else 47) as char
  }

  // ----- the standard's decoder

  function SextetOf(ch: char): (r: Option<Sextet>) {
    var c := ch as int;
    if 65 <= c <= 90 then Some(c - 65)
    else if 97 <= c <= 122 then Some(c - 71)
    else if 48 <= c <= 57 then Some(c + 4)
    else if c == 43 then Some(62)
    else if c == 47 then Some(63)
    else None
  }

  function High(a: Sextet, b: Sextet): byte { 4 * (a as int) + b / 16 }
  function Middle(b: Sextet, c: Sextet): byte { b % 16 * 16 + c / 4 }
  function Low(c: Sextet, d: Sextet): byte { c % 4 * 64 + d }

  // Four letters; padding only at the very end, over zero bits.
  function DecodeGroup(t: string, last: bool): Option<seq<byte>>
    requires |t| == 4
  {
    match (SextetOf(t[0]), SextetOf(t[1]), SextetOf(t[2]), SextetOf(t[3]))
    case (Some(a), Some(b), Some(c), Some(d)) => Some([High(a, b), Middle(b, c), Low(c, d)])
    case (Some(a), Some(b), Some(c), None) =>
      if last && t[3] == '=' && c % 4 == 0 then Some([High(a, b), Middle(b, c)]) else None
    case (Some(a), Some(b), None, None) =>
      if last && t[2] == '=' && t[3] == '=' && b % 16 == 0 then Some([High(a, b)]) else None
    case _ => None
  }

  function Decode(t: string): Option<seq<byte>> {
    if t == "" then Some([])
    else if |t| < 4 then None
    else match (DecodeGroup(t[..4], |t| == 4), Decode(t[4..]))
      case (Some(g), Some(rest)) => Some(g + rest)
      case _ => None
  }

  // ----- what is written

  function EncodedSize(n: nat): nat { (n + 2) / 3 * 4 }

  function Triple(a: byte, b: byte, c: byte): nat { 0x1_0000 * (a as int) + 0x100 * (b as int) + c }

  function At(s: seq<byte>, i: nat): byte { if i < |s| then s[i] else 0 }

  // Up to three octets of input as four letters.
  function EncodeGroup(s: seq<byte>): (t: string)
    requires s != []
    ensures |t| == 4
  {
    var v := Triple(At(s, 0), At(s, 1), At(s, 2));
    [Letter(v / 0x4_0000 % 64), Letter(v / 0x1000 % 64),
     if |s| > 1 then Letter(v / 0x40 % 64) else '=',
     if |s| > 2 then Letter(v % 64) else '=']
  }

  function Rest(s: seq<byte>): seq<byte> { if |s| > 3 then s[3..] else [] }

  lemma SizeStep(n: nat)
    requires n > 0
    ensures EncodedSize(n) == 4 + EncodedSize(if n > 3 then n - 3 else 0)
  {}

  function Encode(s: seq<byte>): (t: string)
    ensures |t| == EncodedSize(|s|)
    decreases |s|
  {
    if s == [] then "" else
    SizeStep(|s|);
    EncodeGroup(s) + Encode(Rest(s))
  }

  lemma LetterCode(v: Sextet)
    ensures SextetOf(Letter(v)) == Some(v)
  {}

  lemma Quotient18(v: nat, q: nat, r: nat)
    requires v == q * 0x4_0000 + r && r < 0x4_0000
    ensures v / 0x4_0000 == q
  {}

  lemma Quotient12(v: nat, q: nat, r: nat)
    requires v == q * 0x1000 + r && r < 0x1000
    ensures v / 0x1000 == q
  {}

  lemma Quotient6(v: nat, q: nat, r: nat)
    requires v == q * 0x40 + r && r < 0x40
    ensures v / 0x40 == q
  {}

  // The sextets of three octets, cut by hand.
  function S0(a: byte): Sextet { a / 4 }
  function S1(a: byte, b: byte): Sextet { a % 4 * 16 + b / 16 }
  function S2(b: byte, c: byte): Sextet { b % 16 * 4 + c / 64 }
  function S3(c: byte): Sextet { c % 64 }

  lemma First(a: byte, b: byte, c: byte)
    ensures Triple(a, b, c) / 0x4_0000 % 64 == S0(a)
  {
    var n: nat, m: nat, l: nat := a, b, c;
    Quotient18(Triple(a, b, c), n / 4, n % 4 * 0x1_0000 + 0x100 * m + l);
  }

  lemma Second(a: byte, b: byte, c: byte)
    ensures Triple(a, b, c) / 0x1000 % 64 == S1(a, b)
  {
    var n: nat, m: nat, l: nat := a, b, c;
    Quotient12(Triple(a, b, c), n * 16 + m / 16, m % 16 * 0x100 + l);
    SextetMod(n / 4, n % 4 * 16 + m / 16);
  }

  lemma Third(a: byte, b: byte, c: byte)
    ensures Triple(a, b, c) / 0x40 % 64 == S2(b, c)
  {
    var n: nat, m: nat, l: nat := a, b, c;
    Quotient6(Triple(a, b, c), n * 0x400 + m * 4 + l / 64, l % 64);
    SextetMod(n * 16 + m / 16, m % 16 * 4 + l / 64);
  }

  lemma Fourth(a: byte, b: byte, c: byte)
    ensures Triple(a, b, c) % 64 == S3(c)
  {
    var n: nat, m: nat, l: nat := a, b, c;
    SextetMod(n * 0x400 + m * 4 + l / 64, l % 64);
  }

  lemma SextetMod(q: nat, r: nat)
    requires r < 64
    ensures (q * 64 + r) % 64 == r
  {}

  lemma OctetsBack(a: byte, b: byte, c: byte)
    ensures High(S0(a), S1(a, b)) == a
    ensures Middle(S1(a, b), S2(b, c)) == b
    ensures Low(S2(b, c), S3(c)) == c
  {}

  lemma EqualsIsNoLetter()
    ensures SextetOf('=').None?
  {}

  // The sextets of a group, those of absent octets included.
  lemma GroupLetters(s: seq<byte>)
    requires s != []
    ensures var a, b, c := At(s, 0), At(s, 1), At(s, 2);
      EncodeGroup(s) == [Letter(S0(a)), Letter(S1(a, b)),
                         if |s| > 1 then Letter(S2(b, c)) else '=',
                         if |s| > 2 then Letter(S3(c)) else '=']
  {
    var a, b, c := At(s, 0), At(s, 1), At(s, 2);
    First(a, b, c);
    Second(a, b, c);
    Third(a, b, c);
    Fourth(a, b, c);
  }

  lemma DecodeThree(w: Sextet, x: Sextet, y: Sextet, z: Sextet, last: bool)
    ensures DecodeGroup([Letter(w), Letter(x), Letter(y), Letter(z)], last) ==
            Some([High(w, x), Middle(x, y), Low(y, z)])
  {
    LetterCode(w); LetterCode(x); LetterCode(y); LetterCode(z);
  }

  lemma DecodeTwo(w: Sextet, x: Sextet, y: Sextet)
    requires y % 4 == 0
    ensures DecodeGroup([Letter(w), Letter(x), Letter(y), '='], true) == Some([High(w, x), Middle(x, y)])
  {
    LetterCode(w); LetterCode(x); LetterCode(y); EqualsIsNoLetter();
  }

  lemma DecodeOne(w: Sextet, x: Sextet)
    requires x % 16 == 0
    ensures DecodeGroup([Letter(w), Letter(x), '=', '='], true) == Some([High(w, x)])
  {
    LetterCode(w); LetterCode(x); EqualsIsNoLetter();
  }

  lemma PaddingIsZero(b: byte, c: byte, a: byte)
    ensures b == 0 ==> S1(a, b) % 16 == 0
    ensures c == 0 ==> S2(b, c) % 4 == 0
  {}

  lemma DecodeEncodedGroup(s: seq<byte>)
    requires s != []
    ensures DecodeGroup(EncodeGroup(s), |s| <= 3) == Some(if |s| > 3 then s[..3] else s)
  {
    hide DecodeGroup, EncodeGroup, Letter, S0, S1, S2, S3, High, Middle, Low;
    var a, b, c := At(s, 0), At(s, 1), At(s, 2);
    GroupLetters(s);
    OctetsBack(a, b, c);
    PaddingIsZero(b, c, a);
    if |s| == 1 {
      DecodeOne(S0(a), S1(a, b));
      assert s == [a];
    } else if |s| == 2 {
      DecodeTwo(S0(a), S1(a, b), S2(b, c));
      assert s == [a, b];
    } else {
      DecodeThree(S0(a), S1(a, b), S2(b, c), S3(c), |s| <= 3);
      assert (if |s| > 3 then s[..3] else s) == [a, b, c];
    }
  }

  // Every input, of every length mod 3, comes back.
  lemma {:induction false} DecodeOfEncode(s: seq<byte>)
    ensures Decode(Encode(s)) == Some(s)
    decreases |s|
  {
    if s != [] {
      DecodeEncodedGroup(s);
      DecodeOfEncode(Rest(s));
      assert Encode(s)[..4] == EncodeGroup(s) && Encode(s)[4..] == Encode(Rest(s));
      if |s| > 3 { assert s[..3] + Rest(s) == s; } else { assert s + Rest(s) == s; }
    }
  }

  // False, and nothing written, unless the letters and a terminator fit.
  method EncodeInto(input: seq<byte>, out: array<char>) returns (ok: bool)
    modifies out
    ensures ok <==> EncodedSize(|input|) + 1 <= out.Length
    ensures ok ==> out[..EncodedSize(|input|)] == Encode(input) && out[EncodedSize(|input|)] == '\0'
    ensures !ok ==> out[..] == old(out[..])
  {
    var outLen := EncodedSize(|input|);
    if out.Length < outLen + 1 { return false; }
    var inPos, outPos := 0, 0;
    while inPos < |input|
      invariant inPos <= |input| && outPos + EncodedSize(|input| - inPos) == outLen
      invariant out[..outPos] + Encode(input[inPos..]) == Encode(input)
    {
      ghost var tail, before := input[inPos..], out[..outPos];
      var remaining := |input| - inPos;
      SizeStep(remaining);
      var octetA, octetB: byte, octetC: byte := input[inPos], 0, 0;
      inPos := inPos + 1;
      if remaining > 1 { octetB, inPos := input[inPos], inPos + 1; }
      if remaining > 2 { octetC, inPos := input[inPos], inPos + 1; }
      var triple := Triple(octetA, octetB, octetC);
      WriteGroup(out, outPos, triple, remaining);
      outPos := outPos + 4;
      assert out[..outPos] == before + EncodeGroup(tail);
      assert Rest(tail) == input[inPos..];
      Regroup(before, EncodeGroup(tail), Encode(Rest(tail)));
    }
    assert input[inPos..] == [] && out[..outPos] + "" == out[..outPos];
    out[outLen] := '\0';
    return true;
  }

  method WriteGroup(out: array<char>, at: nat, triple: nat, remaining: nat)
    requires at + 4 <= out.Length
    modifies out
    ensures out[..at + 4] == old(out[..at]) +
      [Letter(triple / 0x4_0000 % 64), Letter(triple / 0x1000 % 64),
       if remaining > 1 then Letter(triple / 0x40 % 64) else '=',
       if remaining > 2 then Letter(triple % 64) else '=']
  {
    out[at] := Letter(triple / 0x4_0000 % 64);
    out[at + 1] := Letter(triple / 0x1000 % 64);
    out[at + 2] := if remaining > 1 then Letter(triple / 0x40 % 64) else '=';
    out[at + 3] := if remaining > 2 then Letter(triple % 64) else '=';
  }

  lemma Regroup(a: string, b: string, c: string)
    ensures a + (b + c) == (a + b) + c
  {}

  // ----- the accept key of section 4.2.2 of RFC 6455

  function Guid(): seq<byte> { Ascii("258EAFA5-E914-47DA-95CA-C5AB0DC85B11") }

  function Ascii(s: string): (b: seq<byte>)
    ensures |b| == |s|
  {
    seq(|s|, i requires 0 <= i < |s| => s[i] as int % 256)
  }

  lemma DigestSize(m: seq<byte>)
    ensures |Digest(m)| == 20
  {}

  method DigestOfTwo(a: seq<byte>, b: seq<byte>) returns (digest: seq<byte>)
    ensures digest == Digest(a + b)
  {
    hide Blocks;
    var sha := new Sha1();
    sha.Update(a);
    sha.Update(b);
    assert [] + a + b == a + b;
    digest := sha.Final();
  }

  // The 28 letters always fit the caller's 29 characters.
  method ComputeAccept(secKey: seq<byte>) returns (accept: string)
    ensures accept == Encode(Digest(secKey + Guid())) && |accept| == 28
  {
    var digest := DigestOfTwo(secKey, Guid());
    DigestSize(secKey + Guid());
    var out := new char[29];
    var ok := EncodeInto(digest, out);
    accept := out[..28];
  }
}
