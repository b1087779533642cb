// How a text is cut into chunks whose frames fit the frame limit: greedily,
// which takes as few chunks as any way of cutting it.
module ChatChunks {
  import opened ChatFrames
  import Utf8

  predicate Fits(piece: string, idLen: nat, limit: nat) {
    FrameLen(2 + EscapedSum(piece), idLen) <= limit
  }

  // The characters of the first chunk: one, and as many more as fit.
  function Extent(text: string, from: nat, idLen: nat, limit: nat): (n: nat)
    requires 0 < from <= |text|
    ensures from <= n <= |text|
    decreases |text| - from
  {
    if from < |text| && Fits(text[..from + 1], idLen, limit) then Extent(text, from + 1, idLen, limit) else from
  }

  function Chunks(text: string, idLen: nat, limit: nat): (pieces: seq<string>)
    ensures forall p :: p in pieces ==> p != ""
    decreases |text|
  {
    if text == "" then []
    else
      var n := Extent(text, 1, idLen, limit);
      [text[..n]] + Chunks(text[n..], idLen, limit)
  }

  // Pieces in order, first to last.
  function Whole(pieces: seq<string>): string {
    if pieces == [] then "" else pieces[0] + Whole(pieces[1..])
  }

  lemma {:induction false} WholeIsConcat(pieces: seq<string>)
    ensures Whole(pieces) == Concat(pieces)
  {
    if pieces != [] {
      var front, last := pieces[..|pieces| - 1], pieces[|pieces| - 1];
      WholeIsConcat(front);
      WholeLast(front, last);
      assert pieces == front + [last];
    }
  }

  lemma {:induction false} WholeLast(front: seq<string>, last: string)
    ensures Whole(front + [last]) == Whole(front) + last
  {
    if front == [] {
      assert front + [last] == [last] && [last][1..] == [];
      assert last + "" == last;
    } else {
      assert (front + [last])[1..] == front[1..] + [last];
      WholeLast(front[1..], last);
    }
  }

  lemma {:induction false} ChunksMakeTheText(text: string, idLen: nat, limit: nat)
    ensures Concat(Chunks(text, idLen, limit)) == text
    decreases |text|
  {
    var pieces := Chunks(text, idLen, limit);
    WholeIsConcat(pieces);
    if text != "" {
      var n := Extent(text, 1, idLen, limit);
      ChunksMakeTheText(text[n..], idLen, limit);
      WholeIsConcat(pieces[1..]);
      assert pieces[1..] == Chunks(text[n..], idLen, limit);
    }
  }

  // ----- every chunk fits

  lemma EscapedLenBound(c: char)
    ensures 1 <= EscapedLen(c) <= 6
  {}

  lemma SumOfOne(c: char)
    ensures EscapedSum([c]) == EscapedLen(c)
  {
    assert [c][..0] == "";
  }

  lemma {:induction false} ExtentFits(text: string, from: nat, idLen: nat, limit: nat)
    requires 0 < from <= |text| && Fits(text[..from], idLen, limit)
    ensures Fits(text[..Extent(text, from, idLen, limit)], idLen, limit)
    decreases |text| - from
  {
    if from < |text| && Fits(text[..from + 1], idLen, limit) { ExtentFits(text, from + 1, idLen, limit); }
  }

  // Given that a frame of one worst-case character fits, every frame fits.
  lemma {:induction false} ChunksFit(text: string, id: string, limit: nat)
    requires FrameLen(2 + 6, LiteralLen(id)) <= limit
    ensures forall p :: p in Chunks(text, LiteralLen(id), limit) ==> |Utf8.Encode(DeltaFrame(id, p))| <= limit
    decreases |text|
  {
    hide EscapedLen, Utf8.Len, Utf8.Encode;
    if text != "" {
      var idLen := LiteralLen(id);
      var n := Extent(text, 1, idLen, limit);
      EscapedLenBound(text[0]);
      SumOfOne(text[0]);
      assert text[..1] == [text[0]];
      ExtentFits(text, 1, idLen, limit);
      FrameLenIsExact(id, text[..n]);
      ChunksFit(text[n..], id, limit);
    }
  }

  // ----- as few as possible

  lemma {:induction false} SumOfPart(text: string, i: nat, j: nat)
    requires i <= j <= |text|
    ensures EscapedSum(text[i..j]) <= EscapedSum(text)
  {
    assert text == text[..i] + text[i..j] + text[j..];
    EscapedSumJoin(text[..i] + text[i..j], text[j..]);
    EscapedSumJoin(text[..i], text[i..j]);
  }

  // The first chunk is as long as any beginning of the text that fits.
  lemma {:induction false} ExtentIsLongest(text: string, from: nat, n: nat, idLen: nat, limit: nat)
    requires 0 < from <= n <= |text| && Fits(text[..n], idLen, limit)
    ensures n <= Extent(text, from, idLen, limit)
    decreases |text| - from
  {
    if from < n {
      SumOfPart(text[..n], 0, from + 1);
      assert text[..n][0..from + 1] == text[..from + 1];
      ExtentIsLongest(text, from + 1, n, idLen, limit);
    }
  }

  // A first chunk that starts later ends no earlier.
  lemma ExtentOfSuffix(text: string, k: nat, idLen: nat, limit: nat)
    requires text != "" && k < Extent(text, 1, idLen, limit)
    ensures Extent(text, 1, idLen, limit) <= k + Extent(text[k..], 1, idLen, limit)
  {
    var n := Extent(text, 1, idLen, limit);
    if n > 1 {
      LongerThanOneFits(text, 1, idLen, limit);
      SumOfPart(text[..n], k, n);
      assert text[..n][k..n] == text[k..][..n - k];
      ExtentIsLongest(text[k..], 1, n - k, idLen, limit);
    }
  }

  lemma {:induction false} LongerThanOneFits(text: string, from: nat, idLen: nat, limit: nat)
    requires 0 < from <= |text|
    ensures Extent(text, from, idLen, limit) > from ==> Fits(text[..Extent(text, from, idLen, limit)], idLen, limit)
  {
    if from < |text| && Fits(text[..from + 1], idLen, limit) { ExtentFits(text, from + 1, idLen, limit); }
  }

  // The end of a text takes no more chunks than all of it.
  lemma {:induction false} SuffixTakesNoMore(text: string, k: nat, idLen: nat, limit: nat)
    requires k <= |text|
    ensures |Chunks(text[k..], idLen, limit)| <= |Chunks(text, idLen, limit)|
    decreases |text|
  {
    if k < |text| {
      var n := Extent(text, 1, idLen, limit);
      var rest := text[n..];
      if k >= n {
        assert text[k..] == rest[k - n..];
        SuffixTakesNoMore(rest, k - n, idLen, limit);
      } else {
        var m := Extent(text[k..], 1, idLen, limit);
        ExtentOfSuffix(text, k, idLen, limit);
        assert text[k..][m..] == rest[k + m - n..];
        SuffixTakesNoMore(rest, k + m - n, idLen, limit);
      }
    }
  }

  // No way of cutting the text into pieces that fit uses fewer.
  lemma {:induction false} ChunksAreFewest(pieces: seq<string>, idLen: nat, limit: nat)
    requires forall p :: p in pieces ==> Fits(p, idLen, limit)
    ensures |Chunks(Whole(pieces), idLen, limit)| <= |pieces|
    decreases |pieces|
  {
    if pieces != [] {
      var first, rest := pieces[0], pieces[1..];
      var text, tail := Whole(pieces), Whole(rest);
      ChunksAreFewest(rest, idLen, limit);
      if first == "" {
        assert text == tail;
      } else {
        assert text[..|first|] == first && text[|first|..] == tail;
        assert first in pieces;
        var n := Extent(text, 1, idLen, limit);
        ExtentIsLongest(text, 1, |first|, idLen, limit);
        assert text[n..] == tail[n - |first|..];
        SuffixTakesNoMore(tail, n - |first|, idLen, limit);
      }
    }
  }
}
