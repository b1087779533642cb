// The streaming SHA-1 of the handshake, against the one-shot definition of
// sections 4.1.1, 5.1.1 and 6.1.2 of FIPS 180-4.
module WssSha1 {
  import opened WssBytes

  type Word = bv32
  type Block = b: seq<byte> | |b| == 64 witness seq(64, _ => 0)

  datatype Hash = Hash(a: Word, b: Word, c: Word, d: Word, e: Word)

  const MOD64: nat := 0x1_0000_0000_0000_0000   // the range of a 64-bit counter

  const INITIAL := Hash(0x67452301, 0xEFCDAB89, 0x98BADCFE, 0x10325476, 0xC3D2E1F0)

  // ----- the standard

  // Four octets in network order.
  function Join(s: seq<byte>): Word
    requires |s| == 4
  {
    ValueBound(s);
    Pow256Of4();
    Value(s) as bv32
  }

  lemma Pow256Of4()
    ensures Pow256(4) == 0x1_0000_0000
  {
    assert Pow256(0) == 1; assert Pow256(2) == 0x1_0000;
  }

  function Expand(a: Word, b: Word, c: Word, d: Word): Word { (a ^ b ^ c ^ d).RotateLeft(1) }

  // W_t from the words before it, section 6.1.2 step 1
  function NextWord(m: Block, w: seq<Word>): Word
    requires |w| < 80
  {
    var t := |w|;
    if t < 16 then Join(m[4 * t..4 * t + 4])
    else Expand(w[t - 3], w[t - 8], w[t - 14], w[t - 16])
  }

  // W_0 .. W_(n-1)
  function Schedule(m: Block, n: nat): (w: seq<Word>)
    requires n <= 80
    ensures |w| == n
  {
    if n == 0 then [] else Schedule(m, n - 1) + [NextWord(m, Schedule(m, n - 1))]
  }

  function Ch(x: Word, y: Word, z: Word): Word { (x & y) ^ (!x & z) }
  function Parity(x: Word, y: Word, z: Word): Word { x ^ y ^ z }
  function Maj(x: Word, y: Word, z: Word): Word { (x & y) ^ (x & z) ^ (y & z) }

  function F(t: nat, x: Word, y: Word, z: Word): Word {
    if t < 20 then Ch(x, y, z) else if t < 40 then Parity(x, y, z) else if t < 60 then Maj(x, y, z) else Parity(x, y, z)
  }

  function K(t: nat): Word {
    if t < 20 then 0x5A827999 else if t < 40 then 0x6ED9EBA1 else if t < 60 then 0x8F1BBCDC else 0xCA62C1D6
  }

  // section 6.1.2 step 3, with f the value of the round's function
  function Mix(r: Hash, f: Word, k: Word, w: Word): Hash {
    Hash(r.a.RotateLeft(5) + f + r.e + k + w, r.a, r.b.RotateLeft(30), r.c, r.d)
  }

  function Round(r: Hash, t: nat, w: Word): Hash { Mix(r, F(t, r.b, r.c, r.d), K(t), w) }

  // the working variables after the first t rounds
  function Rounds(h: Hash, w: seq<Word>, t: nat): Hash
    requires t <= |w|
  {
    if t == 0 then h else Round(Rounds(h, w, t - 1), t - 1, w[t - 1])
  }

  function Add(h: Hash, r: Hash): Hash { Hash(h.a + r.a, h.b + r.b, h.c + r.c, h.d + r.d, h.e + r.e) }

  function Compress(h: Hash, m: Block): Hash { Add(h, Rounds(h, Schedule(m, 80), 80)) }

  // The hash after all the blocks of m.
  function Blocks(m: seq<byte>): Hash
    requires |m| % 64 == 0
  {
    if m == [] then INITIAL else Compress(Blocks(m[..|m| - 64]), m[|m| - 64..])
  }

  // Section 5.1.1: a 1 bit, zeros up to 56 octets mod 64, the bit length on 64 bits.
  function ZeroCount(n: nat): (z: nat)
    ensures (n + 1 + z) % 64 == 56 && (n + 1 + z + 8) % 64 == 0 && z < 64
  {
    if n % 64 <= 55 then 55 - n % 64 else 119 - n % 64
  }

  function Zeros(n: nat): seq<byte> { seq(n, _ => 0) }

  function Padded(m: seq<byte>, z: nat): (p: seq<byte>)
    ensures |p| == |m| + 1 + z
  {
    m + [0x80] + Zeros(z)
  }

  function LengthOctets(bits: nat): (s: seq<byte>)
    ensures |s| == 8
  {
    BigEndian(bits, 8)
  }

  function Pad(m: seq<byte>): (p: seq<byte>)
    ensures |p| % 64 == 0
  {
    Padded(m, ZeroCount(|m|)) + LengthOctets(8 * |m| % MOD64)
  }

  function WordOctets(x: Word): seq<byte> {
    [((x >> 24) & 0xFF) as int, ((x >> 16) & 0xFF) as int, ((x >> 8) & 0xFF) as int, (x & 0xFF) as int]
  }

  function Octets(h: Hash): seq<byte> {
    WordOctets(h.a) + WordOctets(h.b) + WordOctets(h.c) + WordOctets(h.d) + WordOctets(h.e)
  }

  function Digest(m: seq<byte>): seq<byte> { Octets(Blocks(Pad(m))) }

  // ----- the code

  // The code joins the choices with OR, the standard with XOR.
  lemma ChoiceByOr(x: Word, y: Word, z: Word)
    ensures (x & y) | (!x & z) == Ch(x, y, z)
  {}

  lemma MajorityByOr(x: Word, y: Word, z: Word)
    ensures (x & y) | (x & z) | (y & z) == Maj(x, y, z)
  {}

  // and writes its rotations as pairs of shifts.
  lemma RotationsByShifts(x: Word)
    ensures (x << 1) | (x >> 31) == x.RotateLeft(1)
    ensures (x << 5) | (x >> 27) == x.RotateLeft(5)
    ensures (x << 30) | (x >> 2) == x.RotateLeft(30)
  {}

  function CodeExpand(a: Word, b: Word, c: Word, d: Word): Word {
    var v := a ^ b ^ c ^ d;
    (v << 1) | (v >> 31)
  }

  lemma CodeExpandIsExpand(a: Word, b: Word, c: Word, d: Word)
    ensures CodeExpand(a, b, c, d) == Expand(a, b, c, d)
  {
    RotationsByShifts(a ^ b ^ c ^ d);
  }

  lemma NextByCode(m: Block, w: seq<Word>)
    requires 16 <= |w| < 80
    ensures var t := |w|; CodeExpand(w[t - 3], w[t - 8], w[t - 14], w[t - 16]) == NextWord(m, w)
  {
    var t := |w|;
    CodeExpandIsExpand(w[t - 3], w[t - 8], w[t - 14], w[t - 16]);
  }

  method LoadWords(block: Block, w: array<Word>)
    requires w.Length == 80
    modifies w
    ensures w[..16] == Schedule(block, 16)
  {
    hide Join, Expand;
    for i := 0 to 16
      invariant w[..i] == Schedule(block, i)
    {
      ghost var front := w[..i];
      w[i] := Join(block[i * 4..i * 4 + 4]);
      assert w[..i + 1] == front + [w[i]];
    }
  }

  method ExpandWords(ghost block: Block, w: array<Word>)
    requires w.Length == 80 && w[..16] == Schedule(block, 16)
    modifies w
    ensures w[..] == Schedule(block, 80)
  {
    hide NextWord, CodeExpand;
    for i := 16 to 80
      invariant w[..i] == Schedule(block, i)
    {
      ghost var front := w[..i];
      NextByCode(block, front);
      w[i] := CodeExpand(w[i - 3], w[i - 8], w[i - 14], w[i - 16]);
      assert w[..i + 1] == front + [w[i]];
    }
    assert w[..] == w[..80];
  }

  function CodeF(t: nat, b: Word, c: Word, d: Word): Word {
    if t < 20 then (b & c) | (!b & d)
    else if t < 40 then b ^ c ^ d
    else if t < 60 then (b & c) | (b & d) | (c & d)
    else b ^ c ^ d
  }

  lemma CodeFIsF(t: nat, b: Word, c: Word, d: Word)
    ensures CodeF(t, b, c, d) == F(t, b, c, d)
  {
    if t < 20 { ChoiceByOr(b, c, d); } else if 40 <= t < 60 { MajorityByOr(b, c, d); }
  }

  function CodeMix(r: Hash, f: Word, k: Word, w: Word): Hash {
    var temp := ((r.a << 5) | (r.a >> 27)) + f + r.e + k + w;
    Hash(temp, r.a, (r.b << 30) | (r.b >> 2), r.c, r.d)
  }

  lemma CodeMixIsMix(r: Hash, f: Word, k: Word, w: Word)
    ensures CodeMix(r, f, k, w) == Mix(r, f, k, w)
  {
    RotationsByShifts(r.a);
    RotationsByShifts(r.b);
  }

  method Transform(h: Hash, block: Block) returns (r: Hash)
    ensures r == Compress(h, block)
  {
    var words := new Word[80];
    LoadWords(block, words);
    ExpandWords(block, words);
    var w := words[..];
    r := h;
    for i := 0 to 80
      invariant r == Rounds(h, w, i)
    {
      var f := CodeF(i, r.b, r.c, r.d);
      CodeFIsF(i, r.b, r.c, r.d);
      CodeMixIsMix(r, f, K(i), w[i]);
      r := CodeMix(r, f, K(i), w[i]);
    }
    r := Add(h, r);
  }

  // ----- the stream

  class Sha1 {
    var state: Hash
    var totalLen: nat           // an unsigned 64-bit counter
    var block: array<byte>
    var blockLen: nat
    ghost var message: seq<byte>

    ghost predicate Valid()
      reads this, block
    {
      Absorbed(message) && totalLen == |message| % MOD64
    }

    constructor ()
      ensures Valid() && message == [] && fresh(block)
    {
      state, totalLen, blockLen := INITIAL, 0, 0;
      block := new byte[64];
      message := [];
    }

    // state and block after the octets m
    ghost predicate Absorbed(m: seq<byte>)
      reads this`state, this`block, this`blockLen, block
    {
      && block.Length == 64 && blockLen == |m| % 64
      && state == Blocks(m[..|m| - blockLen])
      && block[..blockLen] == m[|m| - blockLen..]
    }

    // As much of data as the block has room for, compressed if that fills it.
    method Absorb(ghost m: seq<byte>, data: seq<byte>)
      requires Absorbed(m) && 0 < |data| <= 64 - blockLen
      modifies this`state, this`blockLen, block
      ensures Absorbed(m + data)
    {
      hide Compress;
      ghost var whole := m[..|m| - blockLen];
      CopyAt(block, blockLen, data);
      blockLen := blockLen + |data|;
      Grow(m, data);
      if blockLen == 64 {
        var full := block[..];
        state := Transform(state, full);
        BlocksStep(whole, full);
        assert m + data == whole + full;
        blockLen := 0;
        assert (m + data)[..|m + data|] == m + data;
      }
    }

    method AbsorbAll(ghost m: seq<byte>, data: seq<byte>)
      requires Absorbed(m)
      modifies this`state, this`blockLen, block
      ensures Absorbed(m + data)
    {
      hide Blocks;
      var done := 0;
      assert m + data[..0] == m;
      while done < |data|
        invariant done <= |data| && Absorbed(m + data[..done])
      {
        var n := if 64 - blockLen > |data| - done then |data| - done else 64 - blockLen;
        Absorb(m + data[..done], data[done..done + n]);
        NextPiece(m, data, done, n);
        done := done + n;
      }
      assert data[..done] == data;
    }

    // One more piece, of any length, at any point of the message.
    method Update(data: seq<byte>)
      requires Valid()
      modifies this, block
      ensures Valid() && message == old(message) + data && block == old(block)
    {
      hide Blocks;
      totalLen := (totalLen + |data|) % MOD64;
      LengthAdds(|message|, |data|);
      AbsorbAll(message, data);
      message := message + data;
    }

    // Zeros one at a time until 56 octets of the block are used.
    method PadZeros(ghost m: seq<byte>)
      requires Valid() && message == Padded(m, 0)
      modifies this, block
      ensures Valid() && message == Padded(m, ZeroCount(|m|)) && block == old(block)
    {
      hide Blocks;
      ghost var z := 0;
      while blockLen != 56
        invariant Valid() && block == old(block) && z <= ZeroCount(|m|)
        invariant message == Padded(m, z)
        decreases ZeroCount(|m|) - z
      {
        ZerosLeft(|m|, z);
        Update([0]);
        OneMoreZero(m, z);
        z := z + 1;
      }
      ZerosDone(|m|, z);
    }

    // Padding goes through Update octet by octet; it ends on a block boundary.
    method Finish(ghost m: seq<byte>)
      requires Valid() && message == m
      modifies this, block
      ensures Valid() && message == Pad(m) && block == old(block)
    {
      hide Blocks;
      var lenBytes := LengthOctets(totalLen * 8 % MOD64);
      LengthWraps(|m|, totalLen);
      Update([0x80]);
      assert message == Padded(m, 0);
      PadZeros(m);
      Update(lenBytes);
    }

    method Final() returns (out: seq<byte>)
      requires Valid()
      modifies this, block
      ensures out == Digest(old(message))
      ensures blockLen == 0 && block == old(block)
    {
      hide Compress;
      Finish(message);
      assert message[..|message|] == message;
      out := Octets(state);
    }
  }

  // The octets past the last whole block are where the block is filled.
  lemma Grow(m: seq<byte>, data: seq<byte>)
    requires |m| % 64 + |data| <= 64
    ensures var n, whole := |m| % 64, m[..|m| - |m| % 64];
      && (m + data)[..|m + data| - (n + |data|)] == whole
      && (m + data)[|m + data| - (n + |data|)..] == m[|m| - n..] + data
      && (n + |data| < 64 ==> |m + data| % 64 == n + |data|)
      && (n + |data| == 64 ==> |m + data| % 64 == 0)
  {}

  lemma NextPiece(m: seq<byte>, data: seq<byte>, done: nat, n: nat)
    requires done + n <= |data|
    ensures (m + data[..done]) + data[done..done + n] == m + data[..done + n]
  {}

  lemma OneMoreZero(m: seq<byte>, z: nat)
    ensures Padded(m, z) + [0] == Padded(m, z + 1)
  {}

  lemma BlocksStep(whole: seq<byte>, full: Block)
    requires |whole| % 64 == 0
    ensures Blocks(whole + full) == Compress(Blocks(whole), full)
  {
    assert (whole + full)[..|whole + full| - 64] == whole && (whole + full)[|whole + full| - 64..] == full;
  }

  lemma LengthAdds(n: nat, k: nat)
    ensures (n % MOD64 + k) % MOD64 == (n + k) % MOD64
  {}

  method CopyAt(block: array<byte>, at: nat, data: seq<byte>)
    requires at + |data| <= block.Length
    modifies block
    ensures block[..at + |data|] == old(block[..at]) + data
  {
    for i := 0 to |data|
      invariant forall k :: 0 <= k < at ==> block[k] == old(block[k])
      invariant forall k :: 0 <= k < i ==> block[at + k] == data[k]
    {
      block[at + i] := data[i];
    }
  }

  // total_len wraps at 2^64, and so does its product with 8.
  lemma LengthWraps(n: nat, total: nat)
    requires total == n % MOD64
    ensures total * 8 % MOD64 == 8 * n % MOD64
  {}

  lemma ZerosLeft(n: nat, z: nat)
    requires z <= ZeroCount(n) && (n + 1 + z) % 64 != 56
    ensures z < ZeroCount(n)
  {}

  lemma ZerosDone(n: nat, z: nat)
    requires z <= ZeroCount(n) && (n + 1 + z) % 64 == 56
    ensures z == ZeroCount(n)
  {}

  function Flatten(pieces: seq<seq<byte>>): seq<byte> {
    if pieces == [] then [] else Flatten(pieces[..|pieces| - 1]) + pieces[|pieces| - 1]
  }

  // However a message is cut into updates, the digest is that of the whole.
  method DigestOfPieces(pieces: seq<seq<byte>>) returns (digest: seq<byte>)
    ensures digest == Digest(Flatten(pieces))
  {
    hide Digest, Blocks, Sha1.Absorbed;
    var sha := new Sha1();
    for i := 0 to |pieces|
      invariant fresh(sha) && fresh(sha.block) && sha.Valid()
      invariant sha.message == Flatten(pieces[..i])
    {
      assert pieces[..i + 1][..i] == pieces[..i];
      sha.Update(pieces[i]);
    }
    assert pieces[..|pieces|] == pieces;
    digest := sha.Final();
  }
}
