// The examples of the standards: section 5.7 of RFC 6455 and section 10 of RFC 4648.
module WssExamples {
  import opened WssBytes
  import opened WssFrames
  import opened WssBase64

  const HELLO: seq<byte> := [0x48, 0x65, 0x6C, 0x6C, 0x6F]
  const KEY: seq<byte> := [0x37, 0xFA, 0x21, 0x3D]
  const MASKED: seq<byte> := [0x7F, 0x9F, 0x4D, 0x51, 0x58]

  lemma MaskedOctet(a: bv8, k: bv8, x: byte)
    requires (a ^ k) as int == x
    ensures Xor(a as int, k as int) == x
  {
    XorIsXor(a, k);
  }

  lemma MaskedHello(key: Key)
    requires key == KEY
    ensures Mask(key, HELLO, 0) == MASKED
  {
    hide Xor;
    MaskedOctet(0x48, 0x37, 0x7F);
    MaskedOctet(0x65, 0xFA, 0x9F);
    MaskedOctet(0x6C, 0x21, 0x4D);
    MaskedOctet(0x6C, 0x3D, 0x51);
    MaskedOctet(0x6F, 0x37, 0x58);
  }

  // A text frame and a pong, masked by the client; a text frame, its two fragments and a
  // ping from the server.
  lemma FramesOfSection57(key: Key)
    requires key == KEY
    ensures ClientFrame(SentFrame(1, key, HELLO)) == [0x81, 0x85] + KEY + MASKED
    ensures ClientFrame(SentFrame(10, key, HELLO)) == [0x8A, 0x85] + KEY + MASKED
    ensures EncodeServerFrame(ServerFrame(true, 1, HELLO)) == [0x81, 0x05, 0x48, 0x65, 0x6C, 0x6C, 0x6F]
    ensures EncodeServerFrame(ServerFrame(false, 1, [0x48, 0x65, 0x6C])) == [0x01, 0x03, 0x48, 0x65, 0x6C]
    ensures EncodeServerFrame(ServerFrame(true, 0, [0x6C, 0x6F])) == [0x80, 0x02, 0x6C, 0x6F]
    ensures EncodeServerFrame(ServerFrame(true, 9, HELLO)) == [0x89, 0x05, 0x48, 0x65, 0x6C, 0x6C, 0x6F]
  {
    MaskedHello(key);
  }

  // Binary messages of 256 octets and of 64 KiB.
  lemma LengthsOfSection57(data: seq<byte>)
    ensures |data| == 256 ==>
      EncodeServerFrame(ServerFrame(true, 2, data)) == [0x82, 0x7E, 0x01, 0x00] + data
    ensures |data| == 65536 ==>
      EncodeServerFrame(ServerFrame(true, 2, data)) == [0x82, 0x7F, 0, 0, 0, 0, 0, 1, 0, 0] + data
  {
    BigEndianOf256();
    BigEndianOf64K();
  }

  lemma BigEndianOf256()
    ensures BigEndian(256, 2) == [1, 0]
  {
    assert BigEndian(1, 1) == BigEndian(0, 0) + [1];
  }

  lemma BigEndianOf64K()
    ensures BigEndian(65536, 8) == [0, 0, 0, 0, 0, 1, 0, 0]
  {
    assert BigEndian(0, 5) == [0, 0, 0, 0, 0];
    assert BigEndian(1, 6) == BigEndian(0, 5) + [1];
    assert BigEndian(256, 7) == BigEndian(1, 6) + [0];
    assert BigEndian(65536, 8) == BigEndian(256, 7) + [0];
  }

  // The GUID of section 1.3 of RFC 6455, in octets.
  lemma GuidOctets()
    ensures Guid() == [0x32, 0x35, 0x38, 0x45, 0x41, 0x46, 0x41, 0x35, 0x2D]
                      + [0x45, 0x39, 0x31, 0x34, 0x2D, 0x34, 0x37, 0x44, 0x41, 0x2D]
                      + [0x39, 0x35, 0x43, 0x41, 0x2D]
                      + [0x43, 0x35, 0x41, 0x42, 0x30, 0x44, 0x43, 0x38, 0x35, 0x42, 0x31, 0x31]
  {
    hide Ascii;
    GuidParts();
    AsciiJoin("258EAFA5-", "E914-47DA-");
    AsciiJoin("258EAFA5-" + "E914-47DA-", "95CA-");
    AsciiJoin("258EAFA5-" + "E914-47DA-" + "95CA-", "C5AB0DC85B11");
    assert "258EAFA5-" + "E914-47DA-" + "95CA-" + "C5AB0DC85B11" == "258EAFA5-E914-47DA-95CA-C5AB0DC85B11";
  }

  lemma GuidParts()
    ensures Ascii("258EAFA5-") == [0x32, 0x35, 0x38, 0x45, 0x41, 0x46, 0x41, 0x35, 0x2D]
    ensures Ascii("E914-47DA-") == [0x45, 0x39, 0x31, 0x34, 0x2D, 0x34, 0x37, 0x44, 0x41, 0x2D]
    ensures Ascii("95CA-") == [0x39, 0x35, 0x43, 0x41, 0x2D]
    ensures Ascii("C5AB0DC85B11") == [0x43, 0x35, 0x41, 0x42, 0x30, 0x44, 0x43, 0x38, 0x35, 0x42, 0x31, 0x31]
  {}

  lemma AsciiJoin(s: string, t: string)
    ensures Ascii(s + t) == Ascii(s) + Ascii(t)
  {}

  // The alphabet of table 1.
  lemma Alphabet(v: Sextet)
    ensures v < 26 ==> Letter(v) as int == 'A' as int + v
    ensures 26 <= v < 52 ==> Letter(v) as int == 'a' as int + (v - 26)
    ensures 52 <= v < 62 ==> Letter(v) as int == '0' as int + (v - 52)
    ensures Letter(62) == '+' && Letter(63) == '/'
  {}

  lemma GroupOf(a: byte, b: byte, c: byte)
    ensures EncodeGroup([a]) == [Letter(S0(a)), Letter(S1(a, 0)), '=', '=']
    ensures EncodeGroup([a, b]) == [Letter(S0(a)), Letter(S1(a, b)), Letter(S2(b, 0)), '=']
    ensures EncodeGroup([a, b, c]) == [Letter(S0(a)), Letter(S1(a, b)), Letter(S2(b, c)), Letter(S3(c))]
  {
    GroupLetters([a]);
    GroupLetters([a, b]);
    GroupLetters([a, b, c]);
  }

  // The groups of "foo" and of "bar", and what they are cut short.
  lemma SextetsOfFoo()
    ensures S0(0x66) == 25 && S1(0x66, 0) == 32 && S1(0x66, 0x6F) == 38 && S2(0x6F, 0) == 60
    ensures S2(0x6F, 0x6F) == 61 && S3(0x6F) == 47
  {}

  lemma SextetsOfBar()
    ensures S0(0x62) == 24 && S1(0x62, 0) == 32 && S1(0x62, 0x61) == 38 && S2(0x61, 0) == 4
    ensures S2(0x61, 0x72) == 5 && S3(0x72) == 50
  {}

  lemma LettersUsed()
    ensures Letter(25) == 'Z' && Letter(32) == 'g' && Letter(38) == 'm' && Letter(60) == '8' && Letter(61) == '9'
    ensures Letter(47) == 'v' && Letter(24) == 'Y' && Letter(4) == 'E' && Letter(5) == 'F' && Letter(50) == 'y'
  {}

  lemma GroupsOfFoo()
    ensures EncodeGroup([0x66]) == "Zg==" && EncodeGroup([0x66, 0x6F]) == "Zm8="
    ensures EncodeGroup([0x66, 0x6F, 0x6F]) == "Zm9v"
  {
    hide EncodeGroup, Letter, S0, S1, S2, S3;
    GroupOf(0x66, 0x6F, 0x6F);
    SextetsOfFoo();
    LettersUsed();
  }

  lemma GroupsOfBar()
    ensures EncodeGroup([0x62]) == "Yg==" && EncodeGroup([0x62, 0x61]) == "YmE="
    ensures EncodeGroup([0x62, 0x61, 0x72]) == "YmFy"
  {
    hide EncodeGroup, Letter, S0, S1, S2, S3;
    GroupOf(0x62, 0x61, 0x72);
    SextetsOfBar();
    LettersUsed();
  }

  // "f", "fo", ..., "foobar".
  lemma ShortVectors()
    ensures Encode([]) == "" && Encode([0x66]) == "Zg==" && Encode([0x66, 0x6F]) == "Zm8="
    ensures Encode([0x66, 0x6F, 0x6F]) == "Zm9v"
  {
    hide Encode, EncodeGroup;
    Nothing();
    GroupsOfFoo();
    Short([0x66]);
    Short([0x66, 0x6F]);
    Short([0x66, 0x6F, 0x6F]);
  }

  lemma LongVectors()
    ensures Encode([0x66, 0x6F, 0x6F, 0x62]) == "Zm9vYg=="
    ensures Encode([0x66, 0x6F, 0x6F, 0x62, 0x61]) == "Zm9vYmE="
    ensures Encode([0x66, 0x6F, 0x6F, 0x62, 0x61, 0x72]) == "Zm9vYmFy"
  {
    hide Encode, EncodeGroup;
    GroupsOfFoo();
    GroupsOfBar();
    FooAnd([0x62], "Yg==");
    FooAnd([0x62, 0x61], "YmE=");
    FooAnd([0x62, 0x61, 0x72], "YmFy");
    var foo: seq<byte> := [0x66, 0x6F, 0x6F];
    assert foo + [0x62] == [0x66, 0x6F, 0x6F, 0x62] && "Zm9v" + "Yg==" == "Zm9vYg==";
    assert foo + [0x62, 0x61] == [0x66, 0x6F, 0x6F, 0x62, 0x61] && "Zm9v" + "YmE=" == "Zm9vYmE=";
    assert foo + [0x62, 0x61, 0x72] == [0x66, 0x6F, 0x6F, 0x62, 0x61, 0x72] && "Zm9v" + "YmFy" == "Zm9vYmFy";
  }

  lemma FooAnd(rest: seq<byte>, t: string)
    requires 0 < |rest| <= 3 && EncodeGroup(rest) == t
    ensures Encode([0x66, 0x6F, 0x6F] + rest) == "Zm9v" + t
  {
    hide Encode, EncodeGroup;
    GroupsOfFoo();
    Short(rest);
    After([0x66, 0x6F, 0x6F], rest);
  }

  lemma Nothing()
    ensures Encode([]) == ""
  {}

  lemma Short(g: seq<byte>)
    requires 0 < |g| <= 3
    ensures Encode(g) == EncodeGroup(g)
  {
    Nothing();
    assert Encode(g) == EncodeGroup(g) + Encode(Rest(g));
  }

  lemma After(g: seq<byte>, rest: seq<byte>)
    requires |g| == 3 && rest != []
    ensures Encode(g + rest) == EncodeGroup(g) + Encode(rest)
  {
    assert Rest(g + rest) == rest;
    FirstThree(g, rest);
  }

  lemma FirstThree(g: seq<byte>, rest: seq<byte>)
    requires |g| == 3
    ensures EncodeGroup(g + rest) == EncodeGroup(g)
  {}
}
