// The frame format of section 5.2 of RFC 6455: one parser for both directions,
// the frames a client writes, the frames a server writes, and why parsing what
// was written gives the frames back.
module WssFrames {
  import opened Wrappers
  import opened WssBytes

  type Opcode = x: nat | x < 16

  datatype Frame = Frame(fin: bool, rsv: nat, opcode: Opcode, masked: bool, payload: seq<byte>)

  // size counts the octets before the masking key
  datatype Header = Header(fin: bool, rsv: nat, opcode: Opcode, masked: bool, len: nat, size: nat)

  // Section 5.2: flags, opcode and the three forms of the payload length.
  function ParseHeader(s: seq<byte>): Option<Header> {
    if |s| < 2 then None else
    var fin, rsv, opcode := s[0] >= 128, s[0] / 16 % 8, s[0] % 16;
    var masked, short := s[1] >= 128, s[1] % 128;
    if short == 126 then
      if |s| < 4 then None else Some(Header(fin, rsv, opcode, masked, Value(s[2..4]), 4))
    else if short == 127 then
      if |s| < 10 then None else Some(Header(fin, rsv, opcode, masked, Value(s[2..10]), 10))
    else Some(Header(fin, rsv, opcode, masked, short, 2))
  }

  type Key = k: seq<byte> | |k| == 4 witness [0, 0, 0, 0]

  // Section 5.3: octet i is combined with octet i mod 4 of the key; `from` is the
  // index in the payload of the first octet of data.
  function Mask(key: Key, data: seq<byte>, from: nat): (m: seq<byte>)
    ensures |m| == |data|
    ensures forall i :: 0 <= i < |data| ==> m[i] == Xor(data[i], key[(from + i) % 4])
  {
    seq(|data|, i requires 0 <= i < |data| => Xor(data[i], key[(from + i) % 4]))
  }

  function KeySize(masked: bool): nat { if masked then 4 else 0 }

  // The frame at the front of s, with its payload unmasked, and its total size.
  function ParseFrame(s: seq<byte>): (r: Option<(Frame, nat)>)
    ensures r.Some? ==> 2 <= r.value.1 <= |s|
  {
    var h := ParseHeader(s);
    if h.None? then None else
    var Header(fin, rsv, opcode, masked, len, size) := h.value;
    var start := size + KeySize(masked);
    if |s| < start + len then None else
    var data := s[start..start + len];
    var payload := if masked then Mask(s[size..start], data, 0) else data;
    Some((Frame(fin, rsv, opcode, masked, payload), start + len))
  }

  function ParseAll(s: seq<byte>): seq<Frame> {
    match ParseFrame(s)
    case None => []
    case Some((f, n)) => [f] + ParseAll(s[n..])
  }

  // The payload length octets a writer uses; flag is 128 on masked frames.
  function LengthField(n: nat, flag: byte): seq<byte>
    requires flag == 0 || flag == 128
  {
    if n <= 125 then [flag + n]
    else if n <= 0xFFFF then [flag + 126] + BigEndian(n, 2)
    else [flag + 127] + BigEndian(n, 8)
  }

  datatype SentFrame = SentFrame(opcode: byte, key: Key, payload: seq<byte>) {
    ghost predicate Valid() {
      |payload| < Pow256(8)
    }
  }

  // What a client writes: FIN set, one frame for each message, payload masked.
  function ClientFrame(f: SentFrame): seq<byte> {
    [128 + f.opcode % 16] + LengthField(|f.payload|, 128) + f.key + Mask(f.key, f.payload, 0)
  }

  ghost predicate AllValid(fs: seq<SentFrame>) { forall f :: f in fs ==> f.Valid() }

  function ClientStream(fs: seq<SentFrame>): seq<byte> {
    if fs == [] then [] else ClientStream(fs[..|fs| - 1]) + ClientFrame(fs[|fs| - 1])
  }

  // What the server must read back: the (FIN, opcode, payload) of a sent frame.
  function AsRead(f: SentFrame): Frame { Frame(true, 0, f.opcode % 16, true, f.payload) }

  function AsReadAll(fs: seq<SentFrame>): seq<Frame> {
    seq(|fs|, i requires 0 <= i < |fs| => AsRead(fs[i]))
  }

  // A frame as a server writes it: no reserved bit, no mask.
  datatype ServerFrame = ServerFrame(fin: bool, opcode: Opcode, payload: seq<byte>) {
    ghost predicate Valid() {
      |payload| < Pow256(8)
    }
  }

  function EncodeServerFrame(f: ServerFrame): (s: seq<byte>)
    ensures |s| >= 2
  {
    [(if f.fin then 128 else 0) + f.opcode] + LengthField(|f.payload|, 0) + f.payload
  }

  function ServerStream(fs: seq<ServerFrame>): seq<byte> {
    if fs == [] then [] else EncodeServerFrame(fs[0]) + ServerStream(fs[1..])
  }

  // ----- length field and masking

  // Every bit of a masked octet is that of the payload, turned over where the key has a 1.
  lemma MaskBits(key: Key, data: seq<byte>, from: nat, i: nat, k: nat)
    requires i < |data|
    ensures Bit(Mask(key, data, from)[i], k) == if Bit(data[i], k) != Bit(key[(from + i) % 4], k) then 1 else 0
  {
    XorBits(data[i], key[(from + i) % 4], k);
  }

  // A header with the length in its second octet, in the next two, and in the next eight.
  lemma OneOctetLength(first: byte, second: byte, rest: seq<byte>)
    requires second % 128 < 126
    ensures ParseHeader([first, second] + rest) ==
            Some(Header(first >= 128, first / 16 % 8, first % 16, second >= 128, second % 128, 2))
  {}

  lemma TwoOctetLength(first: byte, second: byte, field: seq<byte>, rest: seq<byte>)
    requires second % 128 == 126 && |field| == 2
    ensures ParseHeader([first, second] + field + rest) ==
            Some(Header(first >= 128, first / 16 % 8, first % 16, second >= 128, Value(field), 4))
  {
    hide Value;
    assert ([first, second] + field + rest)[2..4] == field;
  }

  lemma EightOctetLength(first: byte, second: byte, field: seq<byte>, rest: seq<byte>)
    requires second % 128 == 127 && |field| == 8
    ensures ParseHeader([first, second] + field + rest) ==
            Some(Header(first >= 128, first / 16 % 8, first % 16, second >= 128, Value(field), 10))
  {
    hide Value;
    assert ([first, second] + field + rest)[2..10] == field;
  }

  lemma LengthFieldParses(first: byte, n: nat, flag: byte, rest: seq<byte>)
    requires flag == 0 || flag == 128
    requires n < Pow256(8)
    ensures ParseHeader([first] + LengthField(n, flag) + rest) ==
            Some(Header(first >= 128, first / 16 % 8, first % 16, flag == 128, n, 1 + |LengthField(n, flag)|))
  {
    Powers();
    hide ParseHeader, Value, BigEndian, Pow256;
    if n <= 125 {
      OneOctetLength(first, flag + n, rest);
      assert [first] + LengthField(n, flag) == [first, flag + n];
    } else if n <= 0xFFFF {
      TwoOctetLength(first, flag + 126, BigEndian(n, 2), rest);
      ValueOfBigEndian(n, 2);
      assert [first] + LengthField(n, flag) == [first, flag + 126] + BigEndian(n, 2);
    } else {
      EightOctetLength(first, flag + 127, BigEndian(n, 8), rest);
      ValueOfBigEndian(n, 8);
      assert [first] + LengthField(n, flag) == [first, flag + 127] + BigEndian(n, 8);
    }
  }

  // No header that announces the same length is shorter than the one written.
  lemma LengthFormIsMinimal(s: seq<byte>, flag: byte)
    requires flag == 0 || flag == 128
    requires ParseHeader(s).Some?
    ensures 1 + |LengthField(ParseHeader(s).value.len, flag)| <= ParseHeader(s).value.size
  {
    if s[1] % 128 == 126 {
      ValueBound(s[2..4]);
      Powers();
    }
  }

  lemma MaskTwice(key: Key, data: seq<byte>, from: nat)
    ensures Mask(key, Mask(key, data, from), from) == data
  {
    forall i | 0 <= i < |data|
      ensures Mask(key, Mask(key, data, from), from)[i] == data[i]
    {
      XorTwice(data[i], key[(from + i) % 4]);
    }
  }

  // Masking piece by piece, each at its own offset, is masking the whole.
  lemma MaskInPieces(key: Key, data: seq<byte>, from: nat, k: nat)
    requires k <= |data|
    ensures Mask(key, data[..k], from) + Mask(key, data[k..], from + k) == Mask(key, data, from)
  {
    var pieces := Mask(key, data[..k], from) + Mask(key, data[k..], from + k);
    forall i | 0 <= i < |data| ensures pieces[i] == Mask(key, data, from)[i] {
      if i >= k { assert from + k + (i - k) == from + i; }
    }
  }

  // ----- parsing what was written

  lemma Slices(a: seq<byte>, b: seq<byte>, c: seq<byte>, d: seq<byte>)
    ensures (a + b + c + d)[|a|..|a| + |b|] == b
    ensures (a + b + c + d)[|a| + |b|..|a| + |b| + |c|] == c
  {}

  lemma ParseMasked(s: seq<byte>, h: Header, key: Key, data: seq<byte>)
    requires ParseHeader(s) == Some(h) && h.masked && h.len == |data|
    requires h.size + 4 + |data| <= |s|
    requires s[h.size..h.size + 4] == key && s[h.size + 4..h.size + 4 + |data|] == data
    ensures ParseFrame(s) ==
            Some((Frame(h.fin, h.rsv, h.opcode, true, Mask(key, data, 0)), h.size + 4 + |data|))
  {}

  lemma HeaderOfClientFrame(f: SentFrame, rest: seq<byte>)
    requires f.Valid()
    ensures ParseHeader(ClientFrame(f) + rest) ==
            Some(Header(true, 0, f.opcode % 16, true, |f.payload|, 1 + |LengthField(|f.payload|, 128)|))
  {
    var first, field := 128 + f.opcode % 16, LengthField(|f.payload|, 128);
    var tail := f.key + Mask(f.key, f.payload, 0) + rest;
    assert ClientFrame(f) + rest == [first] + field + tail;
    LengthFieldParses(first, |f.payload|, 128, tail);
  }

  lemma ParseClientFrame(f: SentFrame, rest: seq<byte>)
    requires f.Valid()
    ensures ParseFrame(ClientFrame(f) + rest) == Some((AsRead(f), |ClientFrame(f)|))
  {
    var front := [128 + f.opcode % 16] + LengthField(|f.payload|, 128);
    var masked := Mask(f.key, f.payload, 0);
    HeaderOfClientFrame(f, rest);
    var h := Header(true, 0, f.opcode % 16, true, |f.payload|, |front|);
    assert ClientFrame(f) + rest == front + f.key + masked + rest;
    Slices(front, f.key, masked, rest);
    ParseMasked(ClientFrame(f) + rest, h, f.key, masked);
    MaskTwice(f.key, f.payload, 0);
  }

  lemma ParseUnmasked(s: seq<byte>, h: Header, data: seq<byte>)
    requires ParseHeader(s) == Some(h) && !h.masked && h.len == |data|
    requires h.size + |data| <= |s| && s[h.size..h.size + |data|] == data
    ensures ParseFrame(s) == Some((Frame(h.fin, h.rsv, h.opcode, false, data), h.size + |data|))
  {}

  lemma HeaderOfServerFrame(f: ServerFrame, rest: seq<byte>)
    requires f.Valid()
    ensures ParseHeader(EncodeServerFrame(f) + rest) ==
            Some(Header(f.fin, 0, f.opcode, false, |f.payload|, 1 + |LengthField(|f.payload|, 0)|))
  {
    var first: byte := (if f.fin then 128 else 0) + f.opcode;
    var field := LengthField(|f.payload|, 0);
    assert EncodeServerFrame(f) + rest == [first] + field + (f.payload + rest);
    LengthFieldParses(first, |f.payload|, 0, f.payload + rest);
  }

  lemma ParseServerFrame(f: ServerFrame, rest: seq<byte>)
    requires f.Valid()
    ensures ParseFrame(EncodeServerFrame(f) + rest) ==
            Some((Frame(f.fin, 0, f.opcode, false, f.payload), |EncodeServerFrame(f)|))
  {
    HeaderOfServerFrame(f, rest);
    var front := EncodeServerFrame(f)[..1 + |LengthField(|f.payload|, 0)|];
    assert EncodeServerFrame(f) == front + f.payload;
    Slices(front, f.payload, rest, []);
    assert EncodeServerFrame(f) + rest == front + f.payload + rest + [];
    ParseUnmasked(EncodeServerFrame(f) + rest, Header(f.fin, 0, f.opcode, false, |f.payload|, |front|), f.payload);
  }

  lemma Regroup(a: seq<byte>, b: seq<byte>, c: seq<byte>)
    ensures (a + b) + c == a + (b + c)
  {}

  lemma {:induction false} ClientStreamFront(fs: seq<SentFrame>)
    requires fs != [] && AllValid(fs)
    ensures ClientStream(fs) == ClientFrame(fs[0]) + ClientStream(fs[1..])
  {
    hide ClientFrame;
    if |fs| > 1 {
      var init, last := fs[..|fs| - 1], ClientFrame(fs[|fs| - 1]);
      assert AllValid(init) && init[1..] == fs[1..][..|fs| - 2];
      ClientStreamFront(init);
      var first, middle := ClientFrame(fs[0]), ClientStream(init[1..]);
      Regroup(first, middle, last);
    } else {
      assert fs[..0] == [] && fs[1..] == [];
    }
  }

  lemma ParseAllStep(f: SentFrame, rest: seq<byte>)
    requires f.Valid()
    ensures ParseAll(ClientFrame(f) + rest) == [AsRead(f)] + ParseAll(rest)
  {
    ParseClientFrame(f, rest);
    assert (ClientFrame(f) + rest)[|ClientFrame(f)|..] == rest;
  }

  lemma AsReadAllFront(fs: seq<SentFrame>)
    requires fs != []
    ensures AsReadAll(fs) == [AsRead(fs[0])] + AsReadAll(fs[1..])
  {}

  // A server that parses the octets of any run of whole client frames reads
  // exactly the frames sent, in order, whatever the masking keys.
  lemma {:induction false} ServerReadsWhatWasSent(fs: seq<SentFrame>)
    requires AllValid(fs)
    ensures ParseAll(ClientStream(fs)) == AsReadAll(fs)
  {
    if fs != [] {
      ClientStreamFront(fs);
      ParseAllStep(fs[0], ClientStream(fs[1..]));
      ServerReadsWhatWasSent(fs[1..]);
      AsReadAllFront(fs);
    }
  }

  // Framing is unambiguous: equal octets mean equal frames (but for the keys).
  lemma FramingIsUnambiguous(fs: seq<SentFrame>, gs: seq<SentFrame>)
    requires AllValid(fs) && AllValid(gs)
    requires ClientStream(fs) == ClientStream(gs)
    ensures AsReadAll(fs) == AsReadAll(gs)
  {
    ServerReadsWhatWasSent(fs);
    ServerReadsWhatWasSent(gs);
  }
}
