// Rust strings: characters are Unicode scalar values, lengths count the octets of their
// UTF-8 encoding (RFC 3629), which is given here with its decoder.
module Utf8 {
  import opened Wrappers

  function CharLen(c: char): (n: nat)
    ensures 1 <= n <= 4
  {
    var v := c as int;
    if v < 0x80 then 1 else if v < 0x800 then 2 else if v < 0x1_0000 then 3 else 4
  }

  function Len(s: string): nat {
    if s == "" then 0 else Len(s[..|s| - 1]) + CharLen(s[|s| - 1])
  }

  lemma {:induction false} LenJoin(s: string, t: string)
    ensures Len(s + t) == Len(s) + Len(t)
  {
    if t == "" {
      assert s + t == s;
    } else {
      assert (s + t)[..|s + t| - 1] == s + t[..|t| - 1];
      LenJoin(s, t[..|t| - 1]);
    }
  }

  lemma {:induction false} LenAtLeast(s: string)
    ensures Len(s) >= |s|
  {
    if s != "" { LenAtLeast(s[..|s| - 1]); }
  }

  // ----- octets (section 3 of RFC 3629)

  type octet = x: int | 0 <= x < 256

  function EncodeChar(c: char): seq<octet> {
    var v := c as int;
    if v <= 0x7F then [v]
    else if v <= 0x7FF then [0xC0 + v / 64, 0x80 + v % 64]
    else if v <= 0xFFFF then [0xE0 + v / 4096, 0x80 + v / 64 % 64, 0x80 + v % 64]
    else [0xF0 + v / 0x4_0000, 0x80 + v / 4096 % 64, 0x80 + v / 64 % 64, 0x80 + v % 64]
  }

  function Encode(s: string): seq<octet> {
    if s == "" then [] else Encode(s[..|s| - 1]) + EncodeChar(s[|s| - 1])
  }

  // The six bits of an octet that continues a character.
  function Continued(o: octet): Option<nat> { if 0x80 <= o <= 0xBF then Some(o - 0x80) else None }

  function Scalar(v: nat, least: nat): Option<char> {
    if least <= v && (v < 0xD800 || 0xE000 <= v < 0x11_0000) then Some(v as char) else None
  }

  // The first character and what follows it; None for what is no UTF-8.
  function DecodeChar(s: seq<octet>): Option<(char, seq<octet>)> {
    if s == [] then None
    else if s[0] <= 0x7F then Some((s[0] as char, s[1..]))
    else if 0xC0 <= s[0] <= 0xDF && |s| >= 2 then
      match Continued(s[1])
      case Some(a) => Checked(Scalar(64 * (s[0] as int - 0xC0) + a, 0x80), s[2..])
      case None => None
    else if 0xE0 <= s[0] <= 0xEF && |s| >= 3 then
      match (Continued(s[1]), Continued(s[2]))
      case (Some(a), Some(b)) => Checked(Scalar(4096 * (s[0] as int - 0xE0) + 64 * a + b, 0x800), s[3..])
      case _ => None
    else if 0xF0 <= s[0] <= 0xF7 && |s| >= 4 then
      match (Continued(s[1]), Continued(s[2]), Continued(s[3]))
      case (Some(a), Some(b), Some(c)) =>
        Checked(Scalar(0x4_0000 * (s[0] as int - 0xF0) + 4096 * a + 64 * b + c, 0x1_0000), s[4..])
      case _ => None
    else None
  }

  function Checked(c: Option<char>, rest: seq<octet>): Option<(char, seq<octet>)> {
    if c.Some? then Some((c.value, rest)) else None
  }

  lemma Sextets(v: nat)
    ensures v == 64 * (v / 64) + v % 64
    ensures v == 4096 * (v / 4096) + 64 * (v / 64 % 64) + v % 64
    ensures v == 0x4_0000 * (v / 0x4_0000) + 4096 * (v / 4096 % 64) + 64 * (v / 64 % 64) + v % 64
  {
    assert v / 64 / 64 == v / 4096 && v / 4096 / 64 == v / 0x4_0000;
  }

  lemma DecodeTwo(c: char, x: nat, y: nat, rest: seq<octet>)
    requires x < 32 && y < 64 && c as int == 64 * x + y >= 0x80
    ensures DecodeChar([0xC0 + x, 0x80 + y] + rest) == Some((c, rest))
  {
    assert ([0xC0 + x, 0x80 + y] + rest)[2..] == rest;
  }

  lemma DecodeThree(c: char, x: nat, y: nat, z: nat, rest: seq<octet>)
    requires x < 16 && y < 64 && z < 64 && c as int == 4096 * x + 64 * y + z >= 0x800
    ensures DecodeChar([0xE0 + x, 0x80 + y, 0x80 + z] + rest) == Some((c, rest))
  {
    assert ([0xE0 + x, 0x80 + y, 0x80 + z] + rest)[3..] == rest;
  }

  lemma DecodeFour(c: char, w: nat, x: nat, y: nat, z: nat, rest: seq<octet>)
    requires w < 8 && x < 64 && y < 64 && z < 64
    requires c as int == 0x4_0000 * w + 4096 * x + 64 * y + z >= 0x1_0000
    ensures DecodeChar([0xF0 + w, 0x80 + x, 0x80 + y, 0x80 + z] + rest) == Some((c, rest))
  {
    assert ([0xF0 + w, 0x80 + x, 0x80 + y, 0x80 + z] + rest)[4..] == rest;
  }

  lemma DecodeEncodedChar(c: char, rest: seq<octet>)
    ensures DecodeChar(EncodeChar(c) + rest) == Some((c, rest))
  {
    var v := c as int;
    Sextets(v);
    if v <= 0x7F {
      assert ([v] + rest)[1..] == rest;
    } else if v <= 0x7FF {
      DecodeTwo(c, v / 64, v % 64, rest);
    } else if v <= 0xFFFF {
      DecodeThree(c, v / 4096, v / 64 % 64, v % 64, rest);
    } else {
      DecodeFour(c, v / 0x4_0000, v / 4096 % 64, v / 64 % 64, v % 64, rest);
    }
  }

  lemma CharOctets(c: char)
    ensures |EncodeChar(c)| == CharLen(c)
  {}

  // The length of a string is the number of its octets.
  lemma {:induction false} OctetsOf(s: string)
    ensures |Encode(s)| == Len(s)
  {
    if s != "" {
      OctetsOf(s[..|s| - 1]);
      CharOctets(s[|s| - 1]);
    }
  }

  lemma {:induction false} EncodeJoin(s: string, t: string)
    ensures Encode(s + t) == Encode(s) + Encode(t)
  {
    hide EncodeChar;
    if t == "" {
      assert s + t == s;
    } else {
      assert (s + t)[..|s + t| - 1] == s + t[..|t| - 1];
      EncodeJoin(s, t[..|t| - 1]);
    }
  }

  lemma EncodeFront(s: string)
    requires s != ""
    ensures Encode(s) == EncodeChar(s[0]) + Encode(s[1..])
  {
    hide EncodeChar;
    assert s == [s[0]] + s[1..] && [s[0]][..0] == "";
    EncodeJoin([s[0]], s[1..]);
  }

  // All the characters; None for what is no UTF-8.
  function Decode(s: seq<octet>): Option<string>
    decreases |s|
  {
    if s == [] then Some("")
    else match DecodeChar(s)
      case None => None
      case Some((c, rest)) =>
        if |rest| >= |s| then None
        else match Decode(rest)
          case Some(t) => Some([c] + t)
          case None => None
  }

  // A string is read back from its octets.
  lemma {:induction false} DecodeOfEncode(s: string)
    ensures Decode(Encode(s)) == Some(s)
    decreases |s|
  {
    hide EncodeChar, DecodeChar;
    if s != "" {
      EncodeFront(s);
      DecodeEncodedChar(s[0], Encode(s[1..]));
      CharOctets(s[0]);
      DecodeOfEncode(s[1..]);
      assert s == [s[0]] + s[1..];
    }
  }
}
