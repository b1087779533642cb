// The example of FIPS 180: the digest of "abc" is a9993e36 4706816a ba3e2571 7850c26c 9cd0d89d.
// The eighty rounds of its one block are taken sixteen at a time.
module WssSha1Example {
  import opened WssBytes
  import opened WssSha1

  // ----- rounds over a window of the schedule

  // Sixteen words of the schedule in a row.
  datatype Window = Window(
    w0: Word, w1: Word, w2: Word, w3: Word, w4: Word, w5: Word, w6: Word, w7: Word,
    w8: Word, w9: Word, w10: Word, w11: Word, w12: Word, w13: Word, w14: Word, w15: Word)
  {
    function Words(): (s: seq<Word>)
      ensures |s| == 16
    {
      [w0, w1, w2, w3, w4, w5, w6, w7, w8, w9, w10, w11, w12, w13, w14, w15]
    }
  }

  function Slide(v: Window): Window {
    Window(v.w1, v.w2, v.w3, v.w4, v.w5, v.w6, v.w7, v.w8, v.w9, v.w10, v.w11, v.w12, v.w13, v.w14, v.w15,
           Expand(v.w13, v.w8, v.w2, v.w0))
  }

  datatype State = State(hash: Hash, window: Window)

  // Round t, four rounds from round t on, and sixteen.
  function One(s: State, t: nat): State { State(Round(s.hash, t, s.window.w0), Slide(s.window)) }
  function Four(s: State, t: nat): State { One(One(One(One(s, t), t + 1), t + 2), t + 3) }
  function Sixteen(s: State, t: nat): State { Four(Four(Four(Four(s, t), t + 4), t + 8), t + 12) }

  ghost predicate InSchedule(v: Window, m: Block, t: nat) {
    forall i :: 0 <= i < 16 && t + i < 80 ==> v.Words()[i] == Schedule(m, 80)[t + i]
  }

  lemma {:induction false} SchedulePrefix(m: Block, n: nat, k: nat)
    requires n <= k <= 80
    ensures Schedule(m, k)[..n] == Schedule(m, n)
    decreases k
  {
    if n < k {
      SchedulePrefix(m, n, k - 1);
      assert Schedule(m, k)[..n] == Schedule(m, k - 1)[..n];
    }
  }

  lemma WordAt(m: Block, t: nat)
    requires t < 80
    ensures Schedule(m, 80)[t] == NextWord(m, Schedule(m, t))
  {
    SchedulePrefix(m, t + 1, 80);
    assert Schedule(m, 80)[t] == Schedule(m, 80)[..t + 1][t];
  }

  lemma WordFrom(m: Block, t: nat)
    requires t + 16 < 80
    ensures var w := Schedule(m, 80); w[t + 16] == Expand(w[t + 13], w[t + 8], w[t + 2], w[t])
  {
    WordAt(m, t + 16);
    SchedulePrefix(m, t + 16, 80);
    hide Schedule, Expand;
    var w := Schedule(m, 80);
    assert forall i :: 0 <= i < t + 16 ==> w[i] == w[..t + 16][i];
  }

  lemma Slid(v: Window)
    ensures Slide(v).Words() == v.Words()[1..] + [Expand(v.w13, v.w8, v.w2, v.w0)]
  {
    hide Expand;
  }

  lemma NewWord(v: Window, m: Block, t: nat)
    requires InSchedule(v, m, t) && t + 16 < 80
    ensures Expand(v.w13, v.w8, v.w2, v.w0) == Schedule(m, 80)[t + 16]
  {
    hide Schedule, Expand;
    WordFrom(m, t);
    var w, s := Schedule(m, 80), v.Words();
    assert s[13] == w[t + 13] && s[8] == w[t + 8] && s[2] == w[t + 2] && s[0] == w[t + 0];
    assert s[13] == v.w13 && s[8] == v.w8 && s[2] == v.w2 && s[0] == v.w0;
  }

  lemma SlideInSchedule(v: Window, m: Block, t: nat)
    requires InSchedule(v, m, t) && t < 80
    ensures InSchedule(Slide(v), m, t + 1)
  {
    hide Schedule, Expand, Slide, Window.Words;
    if t + 16 < 80 { NewWord(v, m, t); }
    Slid(v);
    var s := Slide(v).Words();
    assert forall i :: 0 <= i < 15 ==> s[i] == v.Words()[i + 1];
    forall i | 0 <= i < 16 && t + 1 + i < 80 ensures s[i] == Schedule(m, 80)[t + 1 + i] {
      if i < 15 { assert v.Words()[i + 1] == Schedule(m, 80)[t + (i + 1)]; }
    }
  }

  // The state before round t of compressing m.
  ghost predicate Reached(h: Hash, m: Block, s: State, t: nat)
    requires t <= 80
  {
    InSchedule(s.window, m, t) && s.hash == Rounds(h, Schedule(m, 80), t)
  }

  lemma OneOn(h: Hash, m: Block, s: State, t: nat)
    requires t < 80 && Reached(h, m, s, t)
    ensures Reached(h, m, One(s, t), t + 1)
  {
    SlideInSchedule(s.window, m, t);
    assert s.window.Words()[0] == s.window.w0;
    hide Schedule, Round, Slide;
  }

  lemma FourOn(h: Hash, m: Block, s: State, t: nat)
    requires t + 4 <= 80 && Reached(h, m, s, t)
    ensures Reached(h, m, Four(s, t), t + 4)
  {
    hide Reached, One;
    OneOn(h, m, s, t);
    OneOn(h, m, One(s, t), t + 1);
    OneOn(h, m, One(One(s, t), t + 1), t + 2);
    OneOn(h, m, One(One(One(s, t), t + 1), t + 2), t + 3);
  }

  lemma SixteenOn(h: Hash, m: Block, s: State, t: nat)
    requires t + 16 <= 80 && Reached(h, m, s, t)
    ensures Reached(h, m, Sixteen(s, t), t + 16)
  {
    hide Reached, Four;
    FourOn(h, m, s, t);
    FourOn(h, m, Four(s, t), t + 4);
    FourOn(h, m, Four(Four(s, t), t + 4), t + 8);
    FourOn(h, m, Four(Four(Four(s, t), t + 4), t + 8), t + 12);
  }

  // All of a block, sixteen rounds at a time.
  lemma Compressed(h: Hash, m: Block, s0: State, s1: State, s2: State, s3: State, s4: State, s5: State)
    requires s0.hash == h && InSchedule(s0.window, m, 0)
    requires Sixteen(s0, 0) == s1 && Sixteen(s1, 16) == s2 && Sixteen(s2, 32) == s3
    requires Sixteen(s3, 48) == s4 && Sixteen(s4, 64) == s5
    ensures Compress(h, m) == Add(h, s5.hash)
  {
    hide Schedule, Sixteen, Add, InSchedule;
    SixteenOn(h, m, s0, 0);
    SixteenOn(h, m, s1, 16);
    SixteenOn(h, m, s2, 32);
    SixteenOn(h, m, s3, 48);
    SixteenOn(h, m, s4, 64);
  }

  // ----- words from octets

  lemma ValueStep(s: seq<byte>, d: byte)
    ensures Value(s + [d]) == 256 * Value(s) + d
  {
    assert (s + [d])[..|s|] == s;
  }

  lemma ValueOfFour(a: byte, b: byte, c: byte, d: byte)
    ensures Value([a, b, c, d]) == 0x100_0000 * a + 0x1_0000 * b + 0x100 * c + d
  {
    ValueStep([], a);
    ValueStep([a], b);
    ValueStep([a, b], c);
    ValueStep([a, b, c], d);
    assert [] + [a] == [a] && [a] + [b] == [a, b];
    assert [a, b] + [c] == [a, b, c] && [a, b, c] + [d] == [a, b, c, d];
    hide Value;
  }

  lemma ThereAndBack(w: Word)
    ensures (w as int) as bv32 == w
  {}

  lemma JoinOfValue(s: seq<byte>, w: Word)
    requires |s| == 4 && Value(s) == w as int
    ensures Join(s) == w
  {
    hide Value;
    ThereAndBack(w);
  }

  lemma JoinOfFour(s: seq<byte>, w: Word)
    requires |s| == 4
    requires w as int == 0x100_0000 * (s[0] as int) + 0x1_0000 * (s[1] as int) + 0x100 * (s[2] as int) + s[3]
    ensures Join(s) == w
  {
    hide Value, Join;
    assert s == [s[0], s[1], s[2], s[3]];
    ValueOfFour(s[0], s[1], s[2], s[3]);
    JoinOfValue(s, w);
  }

  // ----- the states after 0, 16, ..., 80 rounds

  const AFTER_0 := State(
    Hash(0x67452301, 0xEFCDAB89, 0x98BADCFE, 0x10325476, 0xC3D2E1F0),
    Window(0x61626380, 0x00000000, 0x00000000, 0x00000000, 0x00000000, 0x00000000, 0x00000000, 0x00000000,
           0x00000000, 0x00000000, 0x00000000, 0x00000000, 0x00000000, 0x00000000, 0x00000000, 0x00000018))

  const AFTER_16 := State(
    Hash(0x20BDD62F, 0x196BEE77, 0x644A3DA5, 0x1181ED99, 0x18C623F9),
    Window(0xC2C4C700, 0x00000000, 0x00000030, 0x85898E01, 0x00000000, 0x00000060, 0x0B131C03, 0x00000030,
           0x85898EC1, 0x16263806, 0x00000000, 0x00000180, 0x2C4C700C, 0x000000F0, 0x93AFB507, 0x5898E048))

  const AFTER_32 := State(
    Hash(0x3B845D33, 0x1267B407, 0x717EEBD7, 0xA0DC2D4B, 0xD2AA1365),
    Window(0x8E9A9202, 0x00000600, 0xB131C0F0, 0x16263BC6, 0x4EBED41E, 0x626380A1, 0x16263806, 0x000018C0,
           0xD2E138C4, 0x00000F00, 0x3AFB5079, 0x898E04E5, 0xE2BA3C2B, 0x000060C0, 0x053A37CD, 0x74458547))

  const AFTER_48 := State(
    Hash(0xBEAD02CA, 0xA01B846C, 0x8714787C, 0x503CA382, 0xFB86C6AB),
    Window(0xDA9415ED, 0x26380A16, 0x626383A1, 0x4EBF54DE, 0x3835B44B, 0x0000F600, 0x1E84C7A3, 0x98E04D98,
           0x651D16A0, 0x62658CA1, 0x458544D6, 0x44584CB7, 0x7BA06619, 0x6380AEA2, 0x0AE55269, 0x627B49A1))

  const AFTER_64 := State(
    Hash(0x6B61C9E1, 0xB66C020B, 0x9523272C, 0xF5D5B051, 0x8FD4B796),
    Window(0x7CD45C9D, 0x000F0000, 0xFB50753A, 0xEC6765E8, 0xBA3C2BE2, 0x0060C000, 0x3A37CD05, 0x458546F4,
           0xB8599DD6, 0x380A1A26, 0x01E02203, 0xE7CC3456, 0xE6E60B69, 0x00F60A00, 0x5795EF4F, 0x822E0879))

  const AFTER_80 := State(
    Hash(0x42541B35, 0x5738D5E1, 0x21834873, 0x681E6DF6, 0xD8FDF6AD),
    Window(0x7E577CE2, 0x07EF2103, 0x8544E945, 0xEB39DAB8, 0xC205991A, 0x80AECB63, 0x7D84CA48, 0x7B499B62,
           0x8E8010A8, 0x4B5B8A77, 0x3216B69A, 0x0507E88D, 0x705BEE96, 0x60C0FF00, 0xA28362D0, 0x1DA6B91D))

  lemma RoundsFrom0()
    ensures Sixteen(AFTER_0, 0) == AFTER_16
  {}

  lemma RoundsFrom16()
    ensures Sixteen(AFTER_16, 16) == AFTER_32
  {}

  lemma RoundsFrom32()
    ensures Sixteen(AFTER_32, 32) == AFTER_48
  {}

  lemma RoundsFrom48()
    ensures Sixteen(AFTER_48, 48) == AFTER_64
  {}

  lemma RoundsFrom64()
    ensures Sixteen(AFTER_64, 64) == AFTER_80
  {}

  // ----- the block

  const ABC: seq<byte> := [0x61, 0x62, 0x63]
  const BLOCK: Block := ABC + [0x80] + Zeros(59) + [0x18]

  lemma LengthOf24()
    ensures LengthOctets(24) == Zeros(7) + [0x18]
  {
    assert BigEndian(0, 7) == [0, 0, 0, 0, 0, 0, 0];
    assert BigEndian(24, 8) == BigEndian(0, 7) + [0x18];
  }

  lemma PaddedAbc()
    ensures Pad(ABC) == BLOCK
  {
    hide Zeros, LengthOctets;
    LengthOf24();
    ZerosJoin(52, 7);
    Regroup(ABC + [0x80], Zeros(52), Zeros(7), [0x18]);
  }

  lemma ZerosJoin(i: nat, j: nat)
    ensures Zeros(i) + Zeros(j) == Zeros(i + j)
  {}

  lemma Regroup(a: seq<byte>, b: seq<byte>, c: seq<byte>, d: seq<byte>)
    ensures a + b + (c + d) == a + (b + c) + d
  {}

  lemma WordOfBlock(m: Block, i: nat, w: Word)
    requires i < 16
    requires w as int == 0x100_0000 * (m[4 * i] as int) + 0x1_0000 * (m[4 * i + 1] as int)
                         + 0x100 * (m[4 * i + 2] as int) + m[4 * i + 3]
    ensures Schedule(m, 80)[i] == w
  {
    hide Schedule, Join, NextWord, Value;
    WordAt(m, i);
    JoinOfFour(m[4 * i..4 * i + 4], w);
    FirstWords(m, i);
  }

  lemma FirstWords(m: Block, i: nat)
    requires i < 16
    ensures NextWord(m, Schedule(m, i)) == Join(m[4 * i..4 * i + 4])
  {
    hide Join;
  }

  lemma WordsOfAbc()
    ensures InSchedule(AFTER_0.window, BLOCK, 0)
  {
    hide Schedule;
    WordOfBlock(BLOCK, 0, 0x61626380);
    forall i | 1 <= i < 15 ensures Schedule(BLOCK, 80)[i] == 0 {
      WordOfBlock(BLOCK, i, 0);
    }
    WordOfBlock(BLOCK, 15, 0x18);
    var words := AFTER_0.window.Words();
    assert words[0] == 0x61626380 && words[15] == 0x18 && forall i :: 1 <= i < 15 ==> words[i] == 0;
  }

  lemma OneBlock(m: Block)
    ensures Blocks(m) == Compress(INITIAL, m)
  {
    hide Compress;
    var none: seq<byte> := [];
    BlocksStep(none, m);
    assert none + m == m && Blocks(none) == INITIAL;
  }

  lemma Compression()
    ensures Compress(INITIAL, BLOCK) == Hash(0xA9993E36, 0x4706816A, 0xBA3E2571, 0x7850C26C, 0x9CD0D89D)
  {
    hide Compress, Sixteen, InSchedule;
    WordsOfAbc();
    RoundsFrom0();
    RoundsFrom16();
    RoundsFrom32();
    RoundsFrom48();
    RoundsFrom64();
    Compressed(INITIAL, BLOCK, AFTER_0, AFTER_16, AFTER_32, AFTER_48, AFTER_64, AFTER_80);
  }

  lemma DigestOfAbc()
    ensures Digest(ABC) == [
      0xA9, 0x99, 0x3E, 0x36, 0x47, 0x06, 0x81, 0x6A, 0xBA, 0x3E,
      0x25, 0x71, 0x78, 0x50, 0xC2, 0x6C, 0x9C, 0xD0, 0xD8, 0x9D]
  {
    hide Compress;
    PaddedAbc();
    OneBlock(BLOCK);
    Compression();
  }
}
