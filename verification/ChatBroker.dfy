// The broker of chat streams. Other threads may act whenever a lock is free:
// the receiver takes frames, times out or goes away, the HTTP handler announces
// or fails the request, other streams come and go. Only the agent thread sends
// the deltas of its stream.
module ChatBroker {
  import opened Wrappers
  import opened ChatFrames
  import opened ChatChunks
  import opened ChatQueue
  import Utf8

  const SMALL_FRAME: nat := 1000   // room for the frames that say nothing of their own
  const SEQUENCE_MOD: nat := 0x1_0000_0000
  const BACKPRESSURE := "{\"error_key\":\"chat.stream_backpressure\",\"error_stage\":null,\"meta\":{}}"
  const TIMED_OUT := "{\"error_key\":\"chat.stream_timeout\",\"error_stage\":null,\"meta\":{}}"
  const DONE := EventFrame("done", "{}")

  predicate IsDelta(frame: string) { "event: delta\n" <= frame }

  function Deltas(frames: seq<string>): seq<string> {
    if frames == [] then []
    else Deltas(frames[..|frames| - 1]) + if IsDelta(frames[|frames| - 1]) then [frames[|frames| - 1]] else []
  }

  ghost predicate AllFrames(frames: seq<string>) { forall f :: f in frames ==> IsFrame(f) }

  // From q to r the given delta frames were sent; all else is other threads' doing.
  ghost predicate Progress(q: Queue, r: Queue, frames: seq<string>) {
    && Deltas(r.sent) == Deltas(q.sent) + frames && (AllFrames(q.sent) ==> AllFrames(r.sent))
    && r.sentContentBytes == q.sentContentBytes
    && (q.closed ==> Settled(q, r))
  }

  // What other threads may do to a stream's queue: anything but send deltas.
  ghost predicate Quiet(q: Queue, r: Queue) { Progress(q, r, []) }

  ghost predicate Settled(q: Queue, r: Queue) {
    && r.closed && r.sent == q.sent && r.lost == q.lost && r.kept == q.kept && r.ending == q.ending
    && r.got + Bytes(r.frames) == q.got + Bytes(q.frames)
  }

  lemma PopIsQuiet(q: Queue, l: Limits)
    requires Ordered(q, l)
    ensures Quiet(q, Pop(q))
  {
    PopKeepsOrder(q, l);
  }

  lemma NoticeIsQuiet(q: Queue, name: string, data: string, l: Limits)
    requires name != "" && name != "delta" && OneLine(name) && OneLine(data)
    ensures Quiet(q, Push(q, EventFrame(name, data), l))
  {
    var f := EventFrame(name, data);
    NoticeIsNoDelta(name, data);
    assert Shows(f, name, data);
    hide EventFrame, OneLine, IsDelta;
    if Accepts(q, f, l) {
      assert (q.sent + [f])[..|q.sent + [f]| - 1] == q.sent;
    }
  }

  lemma NoticeIsNoDelta(name: string, data: string)
    requires OneLine(name)
    ensures IsDelta(EventFrame(name, data)) ==> name == "delta"
  {
    hide OneLine;
    var line, rest := "event: " + name, "data: " + data + "\n\n";
    assert OneLine(line) by { LineOfName(name); }
    FrameStart(name, data);
    if IsDelta(EventFrame(name, data)) {
      FirstLineIs(line, rest);
      assert name == line[7..];
    }
  }

  lemma LineOfName(name: string)
    requires OneLine(name)
    ensures OneLine("event: " + name)
  {}

  lemma FrameStart(name: string, data: string)
    ensures EventFrame(name, data) == "event: " + name + "\n" + ("data: " + data + "\n\n")
  {
    assert "\ndata: " == "\n" + "data: ";
    StartRegroup("event: " + name, "\n", "data: ", data, "\n\n");
  }

  lemma StartRegroup(a: string, n: string, b: string, c: string, d: string)
    ensures a + (n + b) + c + d == a + n + (b + c + d)
  {}

  lemma FirstLineIs(line: string, rest: string)
    requires OneLine(line) && IsDelta(line + "\n" + rest)
    ensures line == "event: delta"
  {
    var f, tail := line + "\n" + rest, (line + "\n" + rest)[13..];
    assert f == "event: delta" + "\n" + tail;
    LineEndOf(line, rest);
    LineEndOf("event: delta", tail);
    assert f[..|line|] == line && f[..12] == "event: delta";
  }

  function Decimal(n: nat): (s: string)
    ensures s != "" && forall c :: c in s ==> '0' <= c <= '9'
  {
    var digit := ["0123456789"[n % 10]];
    if n < 10 then digit else Decimal(n / 10) + digit
  }

  function StreamId(nowMs: nat, sequence: nat): string {
    "chat_stream_" + Decimal(nowMs) + "_" + Decimal(sequence)
  }

  function Number(s: string): nat {
    if s == "" then 0 else 10 * Number(s[..|s| - 1]) + (s[|s| - 1] as int - '0' as int) % 10
  }

  // Decimals are read back as the number.
  lemma {:induction false} DecimalIsRead(n: nat)
    ensures Number(Decimal(n)) == n
  {
    var digit := "0123456789"[n % 10];
    assert digit as int == '0' as int + n % 10;
    if n >= 10 {
      DecimalIsRead(n / 10);
      assert Decimal(n)[..|Decimal(n)| - 1] == Decimal(n / 10);
    } else {
      assert Decimal(n)[..0] == "";
    }
  }

  lemma FirstBar(a: string, b: string, x: string, y: string)
    requires '_' !in a && '_' !in x && a + "_" + b == x + "_" + y
    ensures a == x && b == y
  {
    var s, t := a + "_" + b, x + "_" + y;
    assert s[|a|] == '_' && t[|x|] == '_';
    assert forall i :: 0 <= i < |a| ==> s[i] == a[i] && s[i] != '_';
    assert forall i :: 0 <= i < |x| ==> t[i] == x[i] && t[i] != '_';
    assert |a| == |x|;
    assert s[..|a|] == a && t[..|x|] == x && s[|a| + 1..] == b && t[|x| + 1..] == y;
  }

  // Two streams opened at different times, or with different sequence numbers, have
  // different ids.
  lemma StreamIdsDiffer(now: nat, sequence: nat, later: nat, next: nat)
    requires StreamId(now, sequence) == StreamId(later, next)
    ensures now == later && sequence == next
  {
    var prefix := "chat_stream_";
    var s, t := Decimal(now) + "_" + Decimal(sequence), Decimal(later) + "_" + Decimal(next);
    assert StreamId(now, sequence) == prefix + s && StreamId(later, next) == prefix + t;
    assert (prefix + s)[|prefix|..] == s && (prefix + t)[|prefix|..] == t;
    FirstBar(Decimal(now), Decimal(sequence), Decimal(later), Decimal(next));
    DecimalIsRead(now);
    DecimalIsRead(sequence);
    DecimalIsRead(later);
    DecimalIsRead(next);
  }

  class ChatStreamBroker {
    const limits: Limits
    const maxActive: nat
    var sequence: nat
    var streams: map<string, ChatStreamQueue>
    ghost var gone: set<string>   // streams that other threads took out of the map

    ghost predicate Valid()
      reads this
    {
      limits.capacity >= 2 && limits.frameMax >= SMALL_FRAME && sequence < SEQUENCE_MOD && |streams| <= maxActive
    }

    // Stream id, if it is open, is q.
    ghost predicate Known(id: string, q: ChatStreamQueue)
      reads this, q
    {
      Valid() && q.Valid() && q.limits == limits && (id in streams ==> streams[id] == q)
    }

    constructor (l: Limits, active: nat)
      requires l.capacity >= 2 && l.frameMax >= SMALL_FRAME
      ensures Valid() && streams == map[] && limits == l && maxActive == active && sequence == 1
    {
      limits, maxActive, sequence, streams, gone := l, active, 1, map[], {};
    }

    // Room is looked at and taken under one lock. The sequence number is used up either way.
    method TryOpen(nowMs: nat) returns (r: Option<(string, ChatStreamQueue)>)
      requires Valid()
      modifies this`sequence, this`streams
      ensures Valid() && sequence == (old(sequence) + 1) % 0x1_0000_0000
      ensures r.Some? <==> |old(streams)| < maxActive
      ensures r.None? ==> streams == old(streams)
      ensures r.Some? ==>
        && r.value.0 == StreamId(nowMs, old(sequence)) && fresh(r.value.1)
        && streams == old(streams)[r.value.0 := r.value.1]
        && Known(r.value.0, r.value.1) && r.value.1.Q() == NEW
    {
      var id := StreamId(nowMs, sequence);
      sequence := (sequence + 1) % SEQUENCE_MOD;
      var q := new ChatStreamQueue(limits);
      if |streams| >= maxActive { return None; }
      streams := streams[id := q];
      return Some((id, q));
    }

    // Nobody but the calling thread has taken the stream out of the map.
    twostate predicate Owned(id: string)
      reads this
    {
      id in old(streams) && id !in gone
    }

    // Other threads, for a while. If the calling thread is the receiver, no other
    // one takes frames.
    method Others(id: string, q: ChatStreamQueue, receiver: bool)
      requires Known(id, q)
      modifies this`sequence, this`streams, this`gone, q
      ensures Known(id, q) && Quiet(old(q.Q()), q.Q()) && (receiver ==> q.got == old(q.got))
      ensures (id in streams ==> id in old(streams)) && (Owned(id) ==> id in streams) && old(gone) <= gone
    {
      hide Ordered, Quiet, OneLine, EventFrame;
      QuietIsReflexive(q.Q());
      var n: int := *;
      for i := 0 to if n > 0 then n else 0
        invariant Known(id, q) && Quiet(old(q.Q()), q.Q()) && (receiver ==> q.got == old(q.got))
        invariant (id in streams ==> id in old(streams)) && (Owned(id) ==> id in streams) && old(gone) <= gone
      {
        ghost var before := q.Q();
        SomeStep(id, q, receiver);
        QuietIsTransitive(old(q.Q()), before, q.Q());
      }
    }

    method SomeStep(id: string, q: ChatStreamQueue, receiver: bool)
      requires Known(id, q)
      modifies this`sequence, this`streams, this`gone, q
      ensures Known(id, q) && Quiet(old(q.Q()), q.Q()) && (receiver ==> q.got == old(q.got))
      ensures (id in streams ==> id in old(streams)) && (Owned(id) ==> id in streams) && old(gone) <= gone
    {
      hide Ordered, OneLine, EventFrame;
      PopIsQuiet(q.Q(), limits);
      if * {
        if !receiver { var _ := q.TryRecv(); }
      } else if * {
        var name: string, data: string := *, *;
        if name != "" && name != "delta" && OneLine(name) && OneLine(data) {
          NoticeIsQuiet(q.Q(), name, data, limits);
          var _ := q.PushNonterminal(EventFrame(name, data));
        }
      } else if * {
        var terminal: string, done: string := *, *;
        var _ := q.PushTerminalPair(terminal, done);
      } else if * {
        q.Close();
      } else if * {
        var other: string := *;
        if other in streams { streams, gone := streams - {other}, gone + {other}; }
      } else {
        var now: nat := *;
        if StreamId(now, sequence) != id {
          var _ := TryOpen(now);
        }
      }
    }

    // ----- what the agent thread and the receiver do

    // An announcement is dropped without a word if it does not fit.
    method EmitQueued(id: string, q: ChatStreamQueue, data: string) returns (ghost before: Queue)
      requires Known(id, q) && OneLine(data)
      modifies this`sequence, this`streams, this`gone, q
      ensures Known(id, q) && Quiet(old(q.Q()), q.Q()) && Quiet(old(q.Q()), before)
      ensures Owned(id) ==> q.Q() == Push(before, EventFrame("queued", data), limits)
    {
      hide Ordered, Quiet, OneLine, EventFrame, Push;
      ghost var q0 := q.Q();
      Others(id, q, false);
      before := q.Q();
      if id !in streams { return; }
      var entry := streams[id];
      ghost var q1 := q.Q();
      Others(id, q, false);
      ghost var q2 := q.Q();
      before := q2;
      assert OneLine("queued") by { QueuedIsOneLine(); }
      NoticeIsQuiet(q2, "queued", data, limits);
      var _ := entry.PushNonterminal(EventFrame("queued", data));
      QuietIsTransitive(q0, q1, q2);
      QuietIsTransitive(q0, q2, q.Q());
    }

    method EmitError(id: string, q: ChatStreamQueue, data: string, receiver: bool) returns (ghost before: Queue)
      requires Known(id, q)
      modifies this`sequence, this`streams, this`gone, q
      ensures Known(id, q) && Quiet(old(q.Q()), q.Q()) && id !in streams && old(gone) <= gone
      ensures Quiet(old(q.Q()), before) && Ordered(before, limits) && (receiver ==> q.got == old(q.got))
      ensures Owned(id) ==> q.Q() == PushTerminal(before, EventFrame("error", data), DONE, limits)
    {
      hide Ordered, Quiet, OneLine, EventFrame;
      var ended;
      ended, before := EndStream(id, q, EventFrame("error", data), receiver);
    }

    // The stream leaves the map, and then the pair is pushed; in between the
    // receiver may still take frames. before is the queue just before the push.
    method EndStream(id: string, q: ChatStreamQueue, terminal: string, receiver: bool)
        returns (ended: bool, ghost before: Queue)
      requires Known(id, q)
      modifies this`sequence, this`streams, this`gone, q
      ensures Known(id, q) && Quiet(old(q.Q()), q.Q()) && id !in streams && old(gone) <= gone
      ensures Quiet(old(q.Q()), before) && Ordered(before, limits) && (receiver ==> q.got == old(q.got))
      ensures Owned(id) || ended ==> q.Q() == PushTerminal(before, terminal, DONE, limits)
      ensures Owned(id) ==> ended == Ends(before, terminal, DONE, limits)
      ensures ended ==> Ends(before, terminal, DONE, limits)
    {
      hide Ordered, Quiet, OneLine, EventFrame, PushTerminal, Ends;
      ghost var q0 := q.Q();
      Others(id, q, receiver);
      before := q.Q();
      if id !in streams { return false, before; }
      streams := streams - {id};
      ghost var q1 := q.Q();
      Others(id, q, receiver);
      before := q.Q();
      QuietIsTransitive(q0, q1, before);
      ended := q.PushTerminalPair(terminal, DONE);
      TerminalIsQuiet(before, terminal, DONE, limits);
      QuietIsTransitive(q0, before, q.Q());
    }

    // seen is the queue when it was offered the frame. A frame that is not taken ends
    // the stream.
    method SendDeltaFrame(id: string, q: ChatStreamQueue, delta: string) returns (ok: bool, ghost seen: Queue)
      requires Known(id, q)
      modifies this`sequence, this`streams, this`gone, q
      ensures Known(id, q) && (id in streams ==> id in old(streams)) && (Owned(id) && ok ==> id in streams)
      ensures old(gone) <= gone && Quiet(old(q.Q()), seen) && ok == Accepts(seen, DeltaFrame(id, delta), limits)
      ensures ok ==> Progress(old(q.Q()), q.Q(), [DeltaFrame(id, delta)])
      ensures !ok ==> Quiet(old(q.Q()), q.Q()) && id !in streams && (Owned(id) ==> EndedBy(q.Q(), BACKPRESSURE, limits))
    {
      hide Ordered, Progress, Quiet, OneLine, EventFrame, DeltaData, Accepts, PushTerminal, EndedBy;
      ghost var q0 := q.Q();
      var frame := EncodeDelta(id, delta);
      Others(id, q, false);
      seen := q.Q();
      ok := q.PushNonterminal(frame);
      if ok {
        PushIsProgress(q0, seen, id, delta, limits);
      } else {
        PushedNothing(seen, frame, limits);
        ghost var before := EmitError(id, q, BACKPRESSURE, false);
        QuietIsTransitive(q0, seen, q.Q());
        if Owned(id) { EndedByError(before, BACKPRESSURE, limits); }
      }
    }

    // The next of the pieces is sent, or turned away.
    method SendPiece(id: string, q: ChatStreamQueue, piece: string,
                     ghost q0: Queue, ghost pieces: seq<string>, ghost k: nat)
        returns (ok: bool, ghost seen: Queue)
      requires Known(id, q) && k < |pieces| && pieces[k] == piece
      requires Progress(q0, q.Q(), DeltaFrames(id, pieces[..k]))
      modifies this`sequence, this`streams, this`gone, q
      ensures Known(id, q) && (id in streams ==> id in old(streams)) && (Owned(id) && ok ==> id in streams)
      ensures old(gone) <= gone
      ensures ok ==> Progress(q0, q.Q(), DeltaFrames(id, pieces[..k + 1]))
      ensures !ok ==> id !in streams && TurnedAway(q0, seen, q.Q(), id, pieces, limits)
      ensures !ok && Owned(id) ==> EndedBy(q.Q(), BACKPRESSURE, limits)
    {
      hide Ordered, Progress, Quiet, DeltaFrame, DeltaFrames, Accepts, EndedBy, TurnedAway;
      ghost var q1 := q.Q();
      ok, seen := SendDeltaFrame(id, q, piece);
      SentOneMore(q0, q1, q.Q(), id, pieces[..k], piece, ok);
      assert pieces[..k] + [piece] == pieces[..k + 1];
      if !ok { Refused(q0, q1, seen, q.Q(), id, pieces, k, limits); }
    }

    // The loop finds the greedy chunks in one pass and sends each as it is complete.
    method SendDeltaChunks(id: string, q: ChatStreamQueue, text: string) returns (ok: bool, ghost seen: Queue)
      requires Known(id, q)
      modifies this`sequence, this`streams, this`gone, q
      ensures Known(id, q) && (id in streams ==> id in old(streams)) && (Owned(id) && ok ==> id in streams)
      ensures old(gone) <= gone
      ensures ok ==> Progress(old(q.Q()), q.Q(), DeltaFrames(id, Pieces(id, text)))
      ensures !ok ==> id !in streams && TurnedAway(old(q.Q()), seen, q.Q(), id, Pieces(id, text), limits)
      ensures !ok && Owned(id) ==> EndedBy(q.Q(), BACKPRESSURE, limits)
    {
      hide Ordered, Progress, Quiet, EscapedLen, LiteralLen, FrameLen, Chunks, DeltaFrames;
      hide EndedBy, TurnedAway, Cutting;
      ghost var q0, pieces := q.Q(), Pieces(id, text);
      NothingSent(q0, id);
      assert pieces[..0] == [];
      if text == "" {
        ok, seen := SendPiece(id, q, "", q0, pieces, 0);
        assert pieces[..1] == pieces;
        return;
      }
      var idLen := LiteralLen(id);
      var chunkStart, chunkEscapedLen := 0, 0;
      ghost var k := 0;
      CutStart(text, idLen, limits.frameMax);
      for i := 0 to |text|
        invariant Known(id, q) && (id in streams ==> id in old(streams)) && (Owned(id) ==> id in streams)
        invariant old(gone) <= gone
        invariant chunkStart <= i && (i > 0 ==> chunkStart < i)
        invariant Cutting(text, pieces, k, chunkStart, i, chunkEscapedLen, idLen, limits.frameMax)
        invariant k <= |pieces| && Progress(q0, q.Q(), DeltaFrames(id, pieces[..k]))
      {
        var charEscapedLen := EscapedLen(text[i]);
        if chunkStart < i && FrameLen(2 + chunkEscapedLen + charEscapedLen, idLen) > limits.frameMax {
          CutHere(text, pieces, k, chunkStart, i, chunkEscapedLen, idLen, limits.frameMax);
          ok, seen := SendPiece(id, q, text[chunkStart..i], q0, pieces, k);
          if !ok { return; }
          k := k + 1;
          chunkStart := i;
          chunkEscapedLen := 0;
        }
        CutOn(text, pieces, k, chunkStart, i, chunkEscapedLen, idLen, limits.frameMax);
        chunkEscapedLen := chunkEscapedLen + charEscapedLen;
      }
      CutEnd(text, pieces, k, chunkStart, chunkEscapedLen, idLen, limits.frameMax);
      ok, seen := SendPiece(id, q, text[chunkStart..], q0, pieces, k);
    }

    ghost function Pieces(id: string, text: string): seq<string> {
      if text == "" then [""] else Chunks(text, LiteralLen(id), limits.frameMax)
    }

    // The agent thread's view of its stream: while it is open, acc is what its
    // delta frames add up to.
    ghost predicate Synced(id: string, q: ChatStreamQueue, acc: string)
      reads this, q
    {
      id in streams ==> Holds(q.Q(), id, acc)
    }

    // The agent thread's view without the mark: acc is whatever the delta frames add up to.
    ghost predicate Carries(id: string, q: ChatStreamQueue, acc: string)
      reads this, q
    {
      id in streams ==> TextIs(q.Q(), id, acc)
    }

    // The text grows by delta, whatever accumulated is; that only raises the mark. If this
    // call ends the stream, a frame was turned away.
    method EmitDelta(id: string, q: ChatStreamQueue, delta: string, accumulated: string, ghost acc: string)
        returns (ghost seen: Queue)
      requires Known(id, q) && Carries(id, q, acc)
      modifies this`sequence, this`streams, this`gone, q
      ensures Known(id, q) && Carries(id, q, acc + delta) && (id in streams ==> id in old(streams))
      ensures id in streams ==>
        q.sentContentBytes == Max(old(q.sentContentBytes), Utf8.Len(accumulated))
      ensures old(gone) <= gone
      ensures Owned(id) && id !in streams ==>
        TurnedAway(old(q.Q()), seen, q.Q(), id, Pieces(id, delta), limits) && EndedBy(q.Q(), BACKPRESSURE, limits)
    {
      hide Ordered, Progress, Quiet, OneLine, EventFrame, TextIs, DeltaFrames, Chunks, TurnedAway, EndedBy;
      ghost var q0 := q.Q();
      Others(id, q, false);
      seen := q.Q();
      if id !in streams { return; }
      var entry := streams[id];
      ghost var q1 := q.Q();
      QuietKeepsText(q0, q1, id, acc);
      var sent;
      sent, seen := SendDeltaChunks(id, entry, delta);
      if sent {
        ghost var q2 := q.Q();
        PiecesMakeTheText(id, delta);
        SentText(q1, q2, id, acc, Pieces(id, delta));
        Others(id, entry, false);
        QuietKeepsText(q2, q.Q(), id, acc + delta);
        ghost var q3 := q.Q();
        entry.MarkSentContentBytes(Utf8.Len(accumulated));
        MarkKeepsText(q3, q.Q(), id, acc + delta);
      } else {
        TurnedAwayAfter(q0, q1, seen, q.Q(), id, Pieces(id, delta), limits);
      }
    }

    lemma PiecesMakeTheText(id: string, text: string)
      ensures Concat(Pieces(id, text)) == text
    {
      ChunksMakeTheText(text, LiteralLen(id), limits.frameMax);
    }

    // What the mark leaves of the content goes out first, then the pair. before is the
    // queue when it was offered the pair, or the frame it turned away.
    method EmitFinal(id: string, q: ChatStreamQueue, content: string, data: string, ghost acc: string)
        returns (ended: bool, ghost before: Queue)
      requires Known(id, q) && Carries(id, q, acc)
      modifies this`sequence, this`streams, this`gone, q
      ensures Known(id, q) && id !in streams && old(gone) <= gone
      ensures ended ==> id in old(streams) && Ends(before, EventFrame("final", data), DONE, limits)
      ensures ended ==>
        Finished(before, q.Q(), id, acc + Missing(content, old(q.sentContentBytes)), data, limits)
      ensures Owned(id) ==>
        || Finished(before, q.Q(), id, acc + Missing(content, old(q.sentContentBytes)), data, limits)
        || (TurnedAway(old(q.Q()), before, q.Q(), id, Pieces(id, Missing(content, old(q.sentContentBytes))), limits)
            && EndedBy(q.Q(), BACKPRESSURE, limits))
    {
      hide Ordered, Progress, Quiet, OneLine, EventFrame, TextIs, DeltaFrames, Chunks, TurnedAway, EndedBy;
      hide PushTerminal, Ends, ByteSuffix;
      ghost var q0 := q.Q();
      Others(id, q, false);
      before := q.Q();
      if id !in streams { return false, before; }
      var entry := streams[id];
      QuietKeepsText(q0, q.Q(), id, acc);
      ghost var q1 := q.Q();
      Others(id, entry, false);
      QuietKeepsText(q1, q.Q(), id, acc);
      ghost var q2 := q.Q();
      QuietIsTransitive(q0, q1, q2);
      var sent := entry.sentContentBytes;
      ghost var missing := Missing(content, sent);
      PiecesMakeTheText(id, missing);
      assert acc + "" == acc;
      var suffixSent := true;
      if sent == 0 {
        suffixSent, before := SendDeltaChunks(id, entry, content);
        if suffixSent { SentText(q2, q.Q(), id, acc, Pieces(id, missing)); }
      } else if sent < Utf8.Len(content) {
        var suffix := ByteSuffix(content, sent);
        if suffix.Some? {
          suffixSent, before := SendDeltaChunks(id, entry, suffix.value);
          if suffixSent { SentText(q2, q.Q(), id, acc, Pieces(id, missing)); }
        }
      }
      ghost var q3 := q.Q();
      if !suffixSent {
        TurnedAwayAfter(q0, q2, before, q3, id, Pieces(id, missing), limits);
        return false, before;
      }
      ended, before := EndStream(id, q, EventFrame("final", data), false);
      QuietKeepsText(q3, before, id, acc + missing);
    }

    // The receiver went away.
    method Unregister(id: string, q: ChatStreamQueue)
      requires Known(id, q)
      modifies this`sequence, this`streams, this`gone, q
      ensures Known(id, q) && Quiet(old(q.Q()), q.Q()) && id !in streams && (Owned(id) ==> q.closed)
    {
      hide Ordered, Quiet, OneLine, EventFrame;
      ghost var q0 := q.Q();
      Others(id, q, false);
      if id !in streams { return; }
      var entry := streams[id];
      streams := streams - {id};
      ghost var q1 := q.Q();
      Others(id, q, false);
      ghost var q2 := q.Q();
      entry.Close();
      QuietIsTransitive(q0, q1, q2);
      CloseIsQuiet(q2);
      QuietIsTransitive(q0, q2, q.Q());
    }

    // The receiver waits for a frame; when it has waited long enough it ends the
    // stream itself and looks again. It gives up without a frame only if the queue
    // is closed and empty, or another thread had taken the stream out of the map.
    method RecvWithTimeout(id: string, q: ChatStreamQueue) returns (r: Option<string>)
      requires Known(id, q)
      modifies this`sequence, this`streams, this`gone, q
      ensures Known(id, q)
      ensures q.got == old(q.got) + (if r.Some? then [r.value] else [])
      ensures r.None? ==> (q.closed && q.frames == []) || (id !in streams && !Owned(id))
    {
      hide Ordered, OneLine, EventFrame, Quiet, Progress, PushTerminal;
      var first := Recv(id, q);
      match first
      case Frame(bytes) => return Some(bytes);
      case Closed => return None;
      case Timeout =>
        ghost var before := EmitError(id, q, TIMED_OUT, true);
        if Owned(id) { ErrorCloses(before, TIMED_OUT, limits); }
        var second := Recv(id, q);
        match second
        case Frame(bytes) => return Some(bytes);
        case _ => return None;
    }

    // The lock is free while recv waits. A wait ends when it is woken or times out;
    // when it times out the queue is not looked at again.
    method Recv(id: string, q: ChatStreamQueue) returns (r: QueueRecv)
      requires Known(id, q)
      modifies this`sequence, this`streams, this`gone, q
      ensures Known(id, q) && (id in streams ==> id in old(streams)) && (Owned(id) ==> id in streams)
      ensures old(gone) <= gone
      ensures q.got == old(q.got) + (if r.Frame? then [r.bytes] else [])
      ensures r == Closed ==> q.closed && q.frames == []
      ensures r == Timeout ==> !old(q.closed)
    {
      hide Ordered, OneLine, EventFrame, Quiet;
      ghost var q0 := q.Q();
      Others(id, q, true);
      QuietStaysClosed(q0, q.Q());
      var wakeups: int := *;
      while true
        invariant Known(id, q) && (id in streams ==> id in old(streams)) && (Owned(id) ==> id in streams)
        invariant old(gone) <= gone && q.got == old(q.got) && (old(q.closed) ==> q.closed)
        decreases wakeups
      {
        var look := q.TryRecv();
        if look.Some? { return look.value; }
        ghost var q1 := q.Q();
        Others(id, q, true);
        QuietStaysClosed(q1, q.Q());
        if wakeups <= 0 { return Timeout; }
        wakeups := wakeups - 1;
      }
    }

    // An answer: the deltas one after the other, then the whole content.
    method Answer(id: string, q: ChatStreamQueue, deltas: seq<string>, content: string, data: string)
        returns (ended: bool, ghost before: Queue)
      requires Known(id, q) && Synced(id, q, "") && Concat(deltas) <= content
      modifies this`sequence, this`streams, this`gone, q
      ensures Known(id, q) && id !in streams
      ensures ended ==> Finished(before, q.Q(), id, content, data, limits)
      ensures ended ==> Ends(before, EventFrame("final", data), DONE, limits)
      ensures ended ==> TextIs(q.Q(), id, content)
    {
      hide Ordered, OneLine, EventFrame, TextIs, PushTerminal, Ends, EndedBy, TurnedAway;
      var accumulated := "";
      for i := 0 to |deltas|
        invariant Known(id, q) && Synced(id, q, accumulated) && accumulated == Concat(deltas[..i])
      {
        assert deltas[..i + 1][..i] == deltas[..i];
        ghost var _ := EmitDelta(id, q, deltas[i], accumulated + deltas[i], accumulated);
        Utf8.LenJoin(accumulated, deltas[i]);
        accumulated := accumulated + deltas[i];
      }
      assert deltas[..|deltas|] == deltas;
      MissingCompletes(accumulated, content);
      ended, before := EmitFinal(id, q, content, data, accumulated);
      if ended { FinishedText(before, q.Q(), id, content, data, limits); }
    }

    // Everything still queued is received.
    method Drain(q: ChatStreamQueue)
      requires q.Valid()
      modifies q`frames, q`got
      ensures q.Valid() && q.frames == [] && q.got == old(q.got + Bytes(q.frames))
      ensures q.Q() == old(q.Q()).(frames := [], got := q.got)
    {
      hide Ordered;
      ghost var all := q.got + Bytes(q.frames);
      while q.frames != []
        invariant q.Valid() && q.got + Bytes(q.frames) == all
        invariant q.Q() == old(q.Q()).(frames := q.frames, got := q.got)
        decreases |q.frames|
      {
        PopKeepsOrder(q.Q(), q.limits);
        var _ := q.TryRecv();
      }
      assert q.got + [] == q.got;
    }

    // From the first delta to the last frame: if the answer ends the stream while at most
    // capacity - 2 frames are unread, the frames received carry exactly the content.
    method AnswerAndReceive(id: string, q: ChatStreamQueue, deltas: seq<string>, content: string, data: string)
        returns (ended: bool, ghost before: Queue)
      requires Known(id, q) && Synced(id, q, "") && Concat(deltas) <= content && OneLine(data)
      modifies this`sequence, this`streams, this`gone, q
      ensures Known(id, q) && id !in streams && q.frames == []
      ensures ended && |before.frames| <= limits.capacity - 2 ==> ReadingOf(q.got, id) == content
      ensures ended ==> q.lost == Bytes(before.frames[..Excess(before, limits)])
    {
      hide Ordered, OneLine, EventFrame, Holds, TextIs, Events, EventsText, Join, Finished;
      ended, before := Answer(id, q, deltas, content, data);
      ghost var r := q.Q();
      if ended {
        EndedMeans(before, r, id, content, data, limits);
        ConsumerReads(before, r, id, content, data, limits);
        if |before.frames| <= limits.capacity - 2 { NothingIsLost(before, r, id, content, data, limits); }
      }
      Drain(q);
    }
  }

  lemma FinishedText(before: Queue, r: Queue, id: string, content: string, data: string, l: Limits)
    requires Finished(before, r, id, content, data, l)
    ensures TextIs(r, id, content)
  {
    hide EventFrame, TextIs, Ordered;
    MarkKeepsText(before, r, id, content);
  }

  lemma EndedMeans(before: Queue, r: Queue, id: string, content: string, data: string, l: Limits)
    requires Finished(before, r, id, content, data, l) && Ends(before, EventFrame("final", data), DONE, l)
    requires l.capacity >= 2
    ensures !before.closed && r.closed && r.ending == [EventFrame("final", data), DONE]
  {
    hide EventFrame, TextIs, Ordered;
  }

  function Max(a: nat, b: nat): nat { if a < b then b else a }

  lemma QueuedIsOneLine()
    ensures OneLine("queued")
  {}

  lemma QuietStaysClosed(q: Queue, r: Queue)
    requires Quiet(q, r)
    ensures q.closed ==> r.closed
  {}

  lemma QuietIsReflexive(q: Queue)
    ensures Quiet(q, q)
  {}

  lemma QuietIsTransitive(q: Queue, r: Queue, s: Queue)
    requires Quiet(q, r) && Quiet(r, s)
    ensures Quiet(q, s)
  {}

  lemma TerminalIsQuiet(q: Queue, terminal: string, done: string, l: Limits)
    ensures Quiet(q, PushTerminal(q, terminal, done, l)) && PushTerminal(q, terminal, done, l).got == q.got
  {}

  lemma ProgressJoins(q: Queue, r: Queue, s: Queue, f: seq<string>, g: seq<string>)
    requires Progress(q, r, f) && Progress(r, s, g)
    ensures Progress(q, s, f + g)
  {}

  lemma DeltasLast(frames: seq<string>, f: string)
    ensures Deltas(frames + [f]) == Deltas(frames) + if IsDelta(f) then [f] else []
  {
    assert (frames + [f])[..|frames + [f]| - 1] == frames;
  }

  lemma DeltaFrameIsDelta(id: string, delta: string)
    ensures IsDelta(DeltaFrame(id, delta)) && IsFrame(DeltaFrame(id, delta))
  {
    hide EventFrame, IsDelta, IsFrame, FrameText, DeltaData;
    DeltaFrameText(id, delta);
    DeltaNameIsDelta(DeltaData(id, delta));
  }

  lemma PushIsProgress(q0: Queue, q: Queue, id: string, delta: string, l: Limits)
    requires Quiet(q0, q) && Accepts(q, DeltaFrame(id, delta), l)
    ensures Progress(q0, Push(q, DeltaFrame(id, delta), l), [DeltaFrame(id, delta)])
  {
    hide DeltaFrame, IsDelta, IsFrame;
    DeltasLast(q.sent, DeltaFrame(id, delta));
    DeltaFrameIsDelta(id, delta);
  }

  lemma NothingSent(q: Queue, id: string)
    ensures Progress(q, q, DeltaFrames(id, []))
  {}

  lemma SentOneMore(q0: Queue, q1: Queue, q2: Queue, id: string, done: seq<string>, piece: string, ok: bool)
    requires Progress(q0, q1, DeltaFrames(id, done))
    requires if ok then Progress(q1, q2, [DeltaFrame(id, piece)]) else Quiet(q1, q2)
    ensures Progress(q0, q2, DeltaFrames(id, if ok then done + [piece] else done))
  {
    hide Progress, DeltaFrame;
    if ok {
      ProgressJoins(q0, q1, q2, DeltaFrames(id, done), [DeltaFrame(id, piece)]);
      assert (done + [piece])[..|done + [piece]| - 1] == done;
    } else {
      ProgressJoins(q0, q1, q2, DeltaFrames(id, done), []);
      assert DeltaFrames(id, done) + [] == DeltaFrames(id, done);
    }
  }

  // Some of the pieces went from q on, and then seen turned the next one away.
  ghost predicate TurnedAway(q: Queue, seen: Queue, r: Queue, id: string, pieces: seq<string>, l: Limits) {
    exists k :: 0 <= k < |pieces| && StoppedAt(q, seen, r, id, pieces, l, k)
  }

  ghost predicate StoppedAt(q: Queue, seen: Queue, r: Queue, id: string, pieces: seq<string>, l: Limits, k: nat)
    requires k < |pieces|
  {
    && Progress(q, seen, DeltaFrames(id, pieces[..k])) && Progress(q, r, DeltaFrames(id, pieces[..k]))
    && !Accepts(seen, DeltaFrame(id, pieces[k]), l)
  }

  lemma Refused(q0: Queue, q1: Queue, seen: Queue, r: Queue, id: string, pieces: seq<string>, k: nat, l: Limits)
    requires k < |pieces| && Progress(q0, q1, DeltaFrames(id, pieces[..k])) && Quiet(q1, seen)
    requires !Accepts(seen, DeltaFrame(id, pieces[k]), l) && Progress(q0, r, DeltaFrames(id, pieces[..k]))
    ensures TurnedAway(q0, seen, r, id, pieces, l)
  {
    hide Progress, DeltaFrames, DeltaFrame;
    ProgressJoins(q0, q1, seen, DeltaFrames(id, pieces[..k]), []);
    assert DeltaFrames(id, pieces[..k]) + [] == DeltaFrames(id, pieces[..k]);
    assert StoppedAt(q0, seen, r, id, pieces, l, k);
  }

  lemma TurnedAwayAfter(q0: Queue, q1: Queue, seen: Queue, r: Queue, id: string, pieces: seq<string>, l: Limits)
    requires Quiet(q0, q1) && TurnedAway(q1, seen, r, id, pieces, l)
    ensures TurnedAway(q0, seen, r, id, pieces, l)
  {
    hide Progress, DeltaFrames, DeltaFrame;
    var k :| 0 <= k < |pieces| && StoppedAt(q1, seen, r, id, pieces, l, k);
    var frames := DeltaFrames(id, pieces[..k]);
    ProgressJoins(q0, q1, seen, [], frames);
    ProgressJoins(q0, q1, r, [], frames);
    assert [] + frames == frames;
    assert StoppedAt(q0, seen, r, id, pieces, l, k);
  }

  lemma PushedNothing(q: Queue, bytes: string, l: Limits)
    requires !Accepts(q, bytes, l)
    ensures Push(q, bytes, l) == q
  {}

  // The queue was ended with an error, or had been ended before.
  ghost predicate EndedBy(r: Queue, error: string, l: Limits) {
    r.closed && exists before :: r == PushTerminal(before, EventFrame("error", error), DONE, l)
  }

  lemma {:induction false} LenAtMost(s: string)
    ensures Utf8.Len(s) <= 4 * |s|
  {
    if s != "" { LenAtMost(s[..|s| - 1]); }
  }

  // The errors the broker makes up itself fit a frame, so they close the queue.
  lemma ErrorCloses(before: Queue, error: string, l: Limits)
    requires |error| < 200 && l.frameMax >= SMALL_FRAME && l.capacity >= 2
    ensures PushTerminal(before, EventFrame("error", error), DONE, l).closed
  {
    hide Utf8.Len;
    LenAtMost(EventFrame("error", error));
    LenAtMost(DONE);
  }

  lemma EndedByError(before: Queue, error: string, l: Limits)
    requires |error| < 200 && l.frameMax >= SMALL_FRAME && l.capacity >= 2
    ensures EndedBy(PushTerminal(before, EventFrame("error", error), DONE, l), error, l)
  {
    hide EventFrame, PushTerminal;
    ErrorCloses(before, error, l);
  }

  // The queue was offered the final pair when its delta frames carried the content.
  ghost predicate Finished(before: Queue, r: Queue, id: string, content: string, data: string, l: Limits) {
    && TextIs(before, id, content) && Ordered(before, l)
    && r == PushTerminal(before, EventFrame("final", data), DONE, l)
  }

  // ----- the chunk loop

  // The first chunk of t is known to hold at least m characters.
  ghost predicate Running(t: string, m: nat, idLen: nat, limit: nat) {
    0 < m <= |t| && Extent(t, 1, idLen, limit) == Extent(t, m, idLen, limit)
  }

  // The first k pieces are cut off, and of the next one the characters from..i are known
  // to fit, with the given escaped length.
  ghost predicate Cutting(
      text: string, pieces: seq<string>, k: nat, from: nat, i: nat, escaped: nat, idLen: nat, limit: nat)
  {
    && from <= i <= |text| && escaped == EscapedSum(text[from..i])
    && k <= |pieces| && pieces[k..] == Chunks(text[from..], idLen, limit)
    && (from < i ==> Running(text[from..], i - from, idLen, limit))
  }

  lemma CutStart(text: string, idLen: nat, limit: nat)
    ensures Cutting(text, Chunks(text, idLen, limit), 0, 0, 0, 0, idLen, limit)
  {
    hide Chunks;
    var pieces := Chunks(text, idLen, limit);
    assert text[0..] == text && text[0..0] == "" && pieces[0..] == pieces;
  }

  lemma EscapedGrows(text: string, from: nat, i: nat)
    requires from <= i < |text|
    ensures EscapedSum(text[from..i + 1]) == EscapedSum(text[from..i]) + EscapedLen(text[i])
  {
    hide EscapedLen;
    SumOfOne(text[i]);
    assert text[from..i + 1] == text[from..i] + [text[i]];
    EscapedSumJoin(text[from..i], [text[i]]);
  }

  // One more character does not fit: the piece is complete, and the next one starts.
  lemma CutHere(text: string, pieces: seq<string>, k: nat, from: nat, i: nat, escaped: nat, idLen: nat, limit: nat)
    requires Cutting(text, pieces, k, from, i, escaped, idLen, limit) && from < i < |text|
    requires FrameLen(2 + escaped + EscapedLen(text[i]), idLen) > limit
    ensures k < |pieces| && pieces[k] == text[from..i]
    ensures Cutting(text, pieces, k + 1, i, i, 0, idLen, limit)
  {
    hide EscapedLen, EscapedSum, FrameLen;
    EscapedGrows(text, from, i);
    var t := text[from..];
    assert t[..i - from + 1] == text[from..i + 1];
    assert t[..i - from] == text[from..i] && t[i - from..] == text[i..];
    assert text[i..i] == "" && pieces[k + 1..] == pieces[k..][1..];
    NoSum();
  }

  lemma NoSum()
    ensures EscapedSum("") == 0
  {}

  // One more character fits, or is the first.
  lemma CutOn(text: string, pieces: seq<string>, k: nat, from: nat, i: nat, escaped: nat, idLen: nat, limit: nat)
    requires Cutting(text, pieces, k, from, i, escaped, idLen, limit) && i < |text|
    requires from == i || FrameLen(2 + escaped + EscapedLen(text[i]), idLen) <= limit
    ensures Cutting(text, pieces, k, from, i + 1, escaped + EscapedLen(text[i]), idLen, limit)
  {
    hide EscapedLen, EscapedSum, FrameLen, Chunks;
    EscapedGrows(text, from, i);
    assert text[from..][..i + 1 - from] == text[from..i + 1];
  }

  lemma LastChunk(t: string, idLen: nat, limit: nat)
    requires t != "" && Running(t, |t|, idLen, limit)
    ensures Chunks(t, idLen, limit) == [t]
  {
    assert t[..|t|] == t && t[|t|..] == "";
  }

  // The characters are used up: one piece is left.
  lemma CutEnd(text: string, pieces: seq<string>, k: nat, from: nat, escaped: nat, idLen: nat, limit: nat)
    requires Cutting(text, pieces, k, from, |text|, escaped, idLen, limit) && from < |text|
    ensures |pieces| == k + 1 && pieces[k] == text[from..] && pieces[..k + 1] == pieces
  {
    LastChunk(text[from..], idLen, limit);
    hide Chunks;
    assert pieces[k..] == [text[from..]];
  }

  // ----- the text of a stream

  // The delta frames sent so far carry text.
  ghost predicate TextIs(q: Queue, id: string, text: string) {
    AllFrames(q.sent) && Text(Deltas(q.sent), id) == text
  }

  ghost predicate Holds(q: Queue, id: string, acc: string) {
    TextIs(q, id, acc) && q.sentContentBytes == Utf8.Len(acc)
  }

  // The part of s after its first n octets, if a character starts there.
  function ByteSuffix(s: string, n: nat): Option<string> {
    if n == 0 then Some(s)
    else if s == "" || n < Utf8.CharLen(s[0]) then None
    else ByteSuffix(s[1..], n - Utf8.CharLen(s[0]))
  }

  lemma {:induction false} ByteSuffixOf(s: string, t: string)
    ensures ByteSuffix(s + t, Utf8.Len(s)) == Some(t)
  {
    if s == "" {
      assert s + t == t;
    } else {
      assert s == [s[0]] + s[1..] && [s[0]][..0] == "";
      Utf8.LenJoin([s[0]], s[1..]);
      assert (s + t)[1..] == s[1..] + t;
      ByteSuffixOf(s[1..], t);
    }
  }

  // Some beginning of s takes n octets.
  ghost predicate CutAt(s: string, n: nat) { exists k :: 0 <= k <= |s| && |Utf8.Encode(s[..k])| == n }

  lemma CutAtNothing(s: string)
    ensures CutAt(s, 0)
  {
    assert s[..0] == "" && |Utf8.Encode(s[..0])| == 0;
  }

  lemma CutBehind(s: string, n: nat)
    requires s != "" && n > 0
    ensures CutAt(s, n) <==> n >= Utf8.CharLen(s[0]) && CutAt(s[1..], n - Utf8.CharLen(s[0]))
  {
    hide Utf8.EncodeChar, Utf8.Encode, Utf8.CharLen;
    var c, t := s[0], s[1..];
    Utf8.CharOctets(c);
    forall k | 0 < k <= |s| ensures |Utf8.Encode(s[..k])| == Utf8.CharLen(c) + |Utf8.Encode(t[..k - 1])| {
      Utf8.EncodeFront(s[..k]);
      assert s[..k][1..] == t[..k - 1];
    }
    if n >= Utf8.CharLen(c) && CutAt(t, n - Utf8.CharLen(c)) {
      var k :| 0 <= k <= |t| && |Utf8.Encode(t[..k])| == n - Utf8.CharLen(c);
      assert |Utf8.Encode(s[..k + 1])| == n;
    }
    if CutAt(s, n) {
      var k :| 0 <= k <= |s| && |Utf8.Encode(s[..k])| == n;
      NothingBefore(s);
      assert k > 0 && |Utf8.Encode(t[..k - 1])| == n - Utf8.CharLen(c);
    }
  }

  lemma NothingBefore(s: string)
    ensures |Utf8.Encode(s[..0])| == 0
  {
    assert s[..0] == "";
  }

  // It is the part of the octets after the first n; there is none exactly where no
  // beginning of s takes n octets.
  lemma {:induction false} ByteSuffixExactly(s: string, n: nat)
    ensures ByteSuffix(s, n).Some? ==>
      n <= |Utf8.Encode(s)| && Utf8.Encode(s)[n..] == Utf8.Encode(ByteSuffix(s, n).value)
    ensures ByteSuffix(s, n).Some? <==> CutAt(s, n)
    decreases |s|
  {
    if n == 0 {
      CutAtNothing(s);
    } else if s != "" {
      hide Utf8.EncodeChar, Utf8.Encode, CutAt;
      Utf8.EncodeFront(s);
      Utf8.CharOctets(s[0]);
      CutBehind(s, n);
      if n >= Utf8.CharLen(s[0]) { ByteSuffixExactly(s[1..], n - Utf8.CharLen(s[0])); }
    }
  }

  // What is still to be sent of the content when n octets are marked as sent: all of it
  // if none are, nothing if the mark is past the end or inside a character.
  function Missing(content: string, n: nat): string {
    if n == 0 then content
    else if n < Utf8.Len(content) && ByteSuffix(content, n).Some? then ByteSuffix(content, n).value
    else ""
  }

  // If what was sent is a beginning of the content, it is what comes after.
  lemma MissingCompletes(acc: string, content: string)
    requires acc <= content
    ensures acc + Missing(content, Utf8.Len(acc)) == content
  {
    var rest := content[|acc|..];
    assert content == acc + rest;
    ByteSuffixOf(acc, rest);
    Utf8.LenJoin(acc, rest);
    Utf8.LenAtLeast(acc);
    Utf8.LenAtLeast(rest);
  }

  lemma CloseIsQuiet(q: Queue)
    ensures Quiet(q, q.(closed := true))
  {}

  lemma QuietKeepsText(q: Queue, r: Queue, id: string, text: string)
    requires Quiet(q, r)
    ensures TextIs(q, id, text) ==> TextIs(r, id, text)
    ensures r.sentContentBytes == q.sentContentBytes
  {
    assert Deltas(q.sent) + [] == Deltas(q.sent);
  }

  lemma MarkKeepsText(q: Queue, r: Queue, id: string, text: string)
    requires r.sent == q.sent
    ensures TextIs(q, id, text) ==> TextIs(r, id, text)
  {}

  lemma SentText(q: Queue, r: Queue, id: string, acc: string, pieces: seq<string>)
    requires TextIs(q, id, acc) && Progress(q, r, DeltaFrames(id, pieces))
    ensures TextIs(r, id, acc + Concat(pieces)) && r.sentContentBytes == q.sentContentBytes
  {
    TextJoin(Deltas(q.sent), DeltaFrames(id, pieces), id);
    TextOfDeltas(id, pieces);
  }

  // ----- what the consumer of an ended stream reads

  lemma {:induction false} TextOfSent(sent: seq<string>, id: string)
    requires AllFrames(sent)
    ensures Text(sent, id) == Text(Deltas(sent), id)
  {
    hide FrameText, IsFrame, IsDelta;
    if sent != [] {
      var front, last := sent[..|sent| - 1], sent[|sent| - 1];
      assert sent == front + [last];
      assert forall f :: f in front ==> f in sent;
      TextOfSent(front, id);
      TextJoin(front, [last], id);
      TextJoin(Deltas(front), [last], id);
      assert last in sent;
      if !IsDelta(last) {
        NoticeText(last, id);
        assert Text(front, id) + "" == Text(front, id) && Deltas(front) + [] == Deltas(front);
      }
    }
  }

  lemma DeltaNameIsDelta(data: string)
    ensures IsDelta(EventFrame("delta", data))
  {
    assert EventFrame("delta", data)[..13] == "event: delta\n";
  }

  lemma NoticeText(frame: string, id: string)
    requires IsFrame(frame) && !IsDelta(frame)
    ensures Text([frame], id) == ""
  {
    var name, data :| Shows(frame, name, data);
    assert [frame][1..] == [];
    if name == "delta" { DeltaNameIsDelta(data); assert false; }
    FrameTextOf(name, data, id);
  }

  // What a reader of everything that q hands out sees of the message id.
  ghost function Reading(q: Queue, id: string): string { ReadingOf(q.got + Bytes(q.frames), id) }

  ghost function ReadingOf(frames: seq<string>, id: string): string {
    EventsText(Events(Join(frames), "", None), id)
  }

  // The accepted frames before and after the evicted ones.
  function Before(q: Queue): seq<string>
    requires q.kept <= |q.sent|
  {
    q.sent[..q.kept]
  }

  function After(q: Queue): seq<string>
    requires q.kept + |q.lost| <= |q.sent|
  {
    q.sent[q.kept + |q.lost|..]
  }

  lemma OrderedParts(q: Queue, l: Limits)
    requires Ordered(q, l)
    ensures q.kept + |q.lost| <= |q.sent|
    ensures q.sent == Before(q) + q.lost + After(q)
    ensures q.got + Bytes(q.frames) == Before(q) + After(q) + q.ending
  {
    hide Bytes;
  }

  lemma FinishedMeans(before: Queue, q: Queue, id: string, content: string, data: string, l: Limits)
    requires Finished(before, q, id, content, data, l) && !before.closed && q.closed && l.capacity >= 2
    ensures AllFrames(q.sent) && Text(Deltas(q.sent), id) == content && q.ending == [EventFrame("final", data), DONE]
    ensures q.lost == Bytes(before.frames[..Excess(before, l)])
  {
    hide EventFrame, Text, Bytes, Ordered, AllFrames;
  }

  // Reading everything that is handed out of an ended stream gives the content,
  // less what the evicted frames carried: the oldest that were unread when the
  // stream ended, one for each by which they exceeded capacity - 2.
  lemma ConsumerReads(before: Queue, q: Queue, id: string, content: string, data: string, l: Limits)
    requires Finished(before, q, id, content, data, l) && !before.closed && q.closed
    requires Ordered(q, l) && OneLine(data) && l.capacity >= 2
    ensures q.lost == Bytes(before.frames[..Excess(before, l)]) && q.kept + |q.lost| <= |q.sent|
    ensures content == Text(Before(q), id) + Text(q.lost, id) + Text(After(q), id)
    ensures Reading(q, id) == Text(Before(q), id) + Text(After(q), id)
    ensures q.lost == [] ==> Reading(q, id) == content
  {
    FinishedMeans(before, q, id, content, data, l);
    LostIsWithin(q, l);
    hide EventFrame, Finished, PushTerminal, Text, AllFrames, Before, After, Reading, OneLine;
    ContentInParts(q, id, l);
    ReadingInParts(q, id, data, l);
    hide Ordered;
    if q.lost == [] { NothingBetween(Text(Before(q), id), q.lost, Text(After(q), id), id); }
  }

  lemma LostIsWithin(q: Queue, l: Limits)
    requires Ordered(q, l)
    ensures q.kept + |q.lost| <= |q.sent|
  {}

  lemma ContentInParts(q: Queue, id: string, l: Limits)
    requires Ordered(q, l) && AllFrames(q.sent) && q.kept + |q.lost| <= |q.sent|
    ensures Text(Deltas(q.sent), id) == Text(Before(q), id) + Text(q.lost, id) + Text(After(q), id)
  {
    OrderedParts(q, l);
    hide Ordered, Text, AllFrames, Before, After;
    TextOfSent(q.sent, id);
    TextInThree(Before(q), q.lost, After(q), id);
  }

  lemma ReadingInParts(q: Queue, id: string, data: string, l: Limits)
    requires Ordered(q, l) && AllFrames(q.sent) && q.kept + |q.lost| <= |q.sent| && OneLine(data)
    requires q.ending == [EventFrame("final", data), DONE]
    ensures Reading(q, id) == Text(Before(q), id) + Text(After(q), id)
  {
    OrderedParts(q, l);
    hide EventFrame, Ordered, Text, Bytes, AllFrames, Before, After, ReadingOf, OneLine;
    EndingText(id, data);
    TextInThree(Before(q), After(q), q.ending, id);
    PartsAreFrames(q, q.ending, l);
    ReadingIsText(Before(q) + After(q) + q.ending, id);
    NothingAfter(Text(Before(q), id) + Text(After(q), id));
  }

  lemma NothingAfter(s: string)
    ensures s + "" == s
  {}

  lemma NothingBetween(a: string, lost: seq<string>, b: string, id: string)
    requires lost == []
    ensures a + Text(lost, id) + b == a + b
  {
    NoText(id);
    hide Text;
    NothingAfter(a);
  }

  lemma ReadingIsText(frames: seq<string>, id: string)
    requires AllFrames(frames)
    ensures ReadingOf(frames, id) == Text(frames, id)
  {
    StreamText(frames, id);
  }

  lemma PartsAreFrames(q: Queue, ending: seq<string>, l: Limits)
    requires q.kept + |q.lost| <= |q.sent| && AllFrames(q.sent) && AllFrames(ending)
    ensures AllFrames(Before(q) + After(q) + ending)
  {
    hide IsFrame;
    AllOfThree(Before(q), After(q), ending, q.sent);
  }

  lemma AllOfThree(f: seq<string>, g: seq<string>, h: seq<string>, all: seq<string>)
    requires AllFrames(all) && AllFrames(h)
    requires (forall x :: x in f ==> x in all) && (forall x :: x in g ==> x in all)
    ensures AllFrames(f + g + h)
  {
    hide IsFrame;
  }

  lemma TextInThree(f: seq<string>, g: seq<string>, h: seq<string>, id: string)
    ensures Text(f + g + h, id) == Text(f, id) + Text(g, id) + Text(h, id)
  {
    hide Text;
    TextJoin(f + g, h, id);
    TextJoin(f, g, id);
  }

  lemma EndingText(id: string, data: string)
    requires OneLine(data)
    ensures AllFrames([EventFrame("final", data), DONE])
    ensures Text([EventFrame("final", data), DONE], id) == ""
  {
    PlainNames();
    hide OneLine;
    PlainFrameText("final", data, id);
    PlainFrameText("done", "{}", id);
    var f, done := EventFrame("final", data), DONE;
    hide EventFrame, FrameText, IsFrame;
    assert [f, done][1..] == [done] && [done][1..] == [];
    NoText(id);
    assert Text([done], id) == FrameText(done, id) + Text([], id);
  }

  lemma PlainFrameText(name: string, data: string, id: string)
    requires name != "" && name != "delta" && OneLine(name) && OneLine(data)
    ensures IsFrame(EventFrame(name, data)) && FrameText(EventFrame(name, data), id) == ""
  {
    hide EventFrame, OneLine, FrameText;
    assert Shows(EventFrame(name, data), name, data);
    FrameTextOf(name, data, id);
  }

  lemma PlainNames()
    ensures OneLine("final") && OneLine("done") && OneLine("{}")
  {}

  // With at most capacity - 2 unread frames the consumer reads exactly the content.
  lemma NothingIsLost(before: Queue, q: Queue, id: string, content: string, data: string, l: Limits)
    requires Finished(before, q, id, content, data, l) && !before.closed && q.closed
    requires Ordered(q, l) && OneLine(data) && l.capacity >= 2
    requires |before.frames| <= l.capacity - 2
    ensures Reading(q, id) == content
  {
    hide Reading, Ordered, Finished, Text, OneLine;
    ConsumerReads(before, q, id, content, data, l);
  }

  lemma NoText(id: string)
    ensures Text([], id) == ""
  {}

  // ----- no chunk is too long

  function Pow10(k: nat): nat { if k == 0 then 1 else 10 * Pow10(k - 1) }

  lemma {:induction false} DecimalLen(n: nat, k: nat)
    requires n < Pow10(k)
    ensures |Decimal(n)| <= if k == 0 then 1 else k
  {
    if n >= 10 { DecimalLen(n / 10, k - 1); }
  }

  lemma {:induction false} EscapedSumBound(s: string)
    ensures EscapedSum(s) <= 6 * |s|
  {
    if s != "" {
      EscapedSumBound(s[..|s| - 1]);
      EscapedLenBound(s[|s| - 1]);
    }
  }

  lemma FixedParts()
    ensures Utf8.Len(PREFIX) + Utf8.Len(MESSAGE_ID) + Utf8.Len(SUFFIX) < 100
  {
    AsciiLen(PREFIX);
    AsciiLen(MESSAGE_ID);
    AsciiLen(SUFFIX);
  }

  // With the ids the broker gives out, every chunk of every text fits a frame, in octets,
  // with the larger limit and with the smaller. So a delta is only ever refused
  // because the queue is full or closed.
  lemma EveryChunkFits(nowMs: nat, sequence: nat, text: string)
    requires nowMs < Pow10(39) && sequence < Pow10(10)
    ensures var id := StreamId(nowMs, sequence);
      && (forall p :: p in Chunks(text, LiteralLen(id), ESP.frameMax) ==>
            |Utf8.Encode(DeltaFrame(id, p))| <= 6 * 1024)
      && (forall p :: p in Chunks(text, LiteralLen(id), HOST.frameMax) ==>
            |Utf8.Encode(DeltaFrame(id, p))| <= 16 * 1024)
  {
    hide Pow10, Decimal, DeltaFrame, Chunks, Utf8.Len, Utf8.Encode;
    var id := StreamId(nowMs, sequence);
    DecimalLen(nowMs, 39);
    DecimalLen(sequence, 10);
    EscapedSumBound(id);
    FixedParts();
    ChunksFit(text, id, ESP.frameMax);
    ChunksFit(text, id, HOST.frameMax);
  }
}
