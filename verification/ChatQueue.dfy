// The bounded queue of one chat stream. Every operation runs under the queue's
// lock, so whatever threads do is some sequence of the operations below.
module ChatQueue {
  import opened Wrappers
  import Utf8

  datatype QueuedFrame = QueuedFrame(bytes: string, terminal: bool)

  // The queue, followed by what has happened to it: the non-terminal frames it
  // accepted, the frames it handed out, the frames it evicted (with the number
  // accepted before the first of them), and the terminal pair.
  datatype Queue = Queue(
    frames: seq<QueuedFrame>, closed: bool, sentContentBytes: nat,
    sent: seq<string>, got: seq<string>, lost: seq<string>, kept: nat, ending: seq<string>)

  const NEW := Queue([], false, 0, [], [], [], 0, [])

  datatype Limits = Limits(capacity: nat, frameMax: nat)

  const HOST := Limits(64, 16 * 1024)
  const ESP := Limits(16, 6 * 1024)

  function Bytes(frames: seq<QueuedFrame>): seq<string> {
    seq(|frames|, i requires 0 <= i < |frames| => frames[i].bytes)
  }

  function FirstNonterminal(frames: seq<QueuedFrame>): (n: nat)
    ensures n <= |frames| && (n < |frames| ==> !frames[n].terminal)
    ensures forall i :: 0 <= i < n ==> frames[i].terminal
  {
    if frames == [] || !frames[0].terminal then 0 else 1 + FirstNonterminal(frames[1..])
  }

  // ----- the operations

  predicate Accepts(q: Queue, bytes: string, l: Limits) {
    Utf8.Len(bytes) <= l.frameMax && !q.closed && |q.frames| < l.capacity
  }

  function Push(q: Queue, bytes: string, l: Limits): Queue {
    if !Accepts(q, bytes, l) then q
    else q.(frames := q.frames + [QueuedFrame(bytes, false)], sent := q.sent + [bytes])
  }

  predicate Ends(q: Queue, terminal: string, done: string, l: Limits) {
    Utf8.Len(terminal) <= l.frameMax && Utf8.Len(done) <= l.frameMax && !q.closed
  }

  // A frame is taken up to 16 KiB with fewer than 64 unread on the host, and up to 6 KiB
  // with fewer than 16 unread on the ESP.
  lemma AcceptedInNumbers(q: Queue, bytes: string)
    ensures Accepts(q, bytes, HOST) <==> !q.closed && |q.frames| < 64 && |Utf8.Encode(bytes)| <= 16_384
    ensures Accepts(q, bytes, ESP) <==> !q.closed && |q.frames| < 16 && |Utf8.Encode(bytes)| <= 6_144
  {
    Utf8.OctetsOf(bytes);
  }

  // How many frames a terminal pair pushes out.
  function Excess(q: Queue, l: Limits): nat {
    if |q.frames| + 2 > l.capacity then |q.frames| + 2 - l.capacity else 0
  }

  // The oldest unread frames make room.
  function PushTerminal(q: Queue, terminal: string, done: string, l: Limits): Queue {
    var n := Excess(q, l);
    if !Ends(q, terminal, done, l) || n > |q.frames| then q
    else q.(frames := q.frames[n..] + [QueuedFrame(terminal, true), QueuedFrame(done, true)], closed := true,
            lost := Bytes(q.frames[..n]), kept := |q.got|, ending := [terminal, done])
  }

  function Pop(q: Queue): Queue {
    if q.frames == [] then q else q.(frames := q.frames[1..], got := q.got + [q.frames[0].bytes])
  }

  datatype Op = DoPush(bytes: string) | DoTerminal(terminal: string, done: string) | DoPop | DoClose | DoMark(n: nat)

  function Apply(q: Queue, op: Op, l: Limits): Queue {
    match op
    case DoPush(bytes) => Push(q, bytes, l)
    case DoTerminal(terminal, done) => PushTerminal(q, terminal, done, l)
    case DoPop => Pop(q)
    case DoClose => q.(closed := true)
    case DoMark(n) => q.(sentContentBytes := if n > q.sentContentBytes then n else q.sentContentBytes)
  }

  // ----- what they keep

  // What the consumer has and will get: all accepted frames in order but for
  // the evicted ones, then the terminal pair.
  ghost predicate Ordered(q: Queue, l: Limits) {
    && |q.frames| <= l.capacity
    && q.kept + |q.lost| <= |q.sent| && q.sent[q.kept..q.kept + |q.lost|] == q.lost && |q.lost| <= 2
    && q.got + Bytes(q.frames) == q.sent[..q.kept] + q.sent[q.kept + |q.lost|..] + q.ending
    && (q.ending == [] || (q.closed && |q.ending| == 2))
    && (!q.closed ==> q.lost == [])
    && (forall i :: 0 <= i < |q.frames| ==> (q.frames[i].terminal <==> |q.got| + i >= |q.sent| - |q.lost|))
  }

  lemma PushKeepsOrder(q: Queue, bytes: string, l: Limits)
    requires Ordered(q, l)
    ensures Ordered(Push(q, bytes, l), l)
  {
    if Accepts(q, bytes, l) {
      var r := Push(q, bytes, l);
      OpenIsWhole(q, l);
      assert Bytes(r.frames) == Bytes(q.frames) + [bytes];
      assert r.got + Bytes(r.frames) == r.sent;
      assert r.sent[..q.kept] + r.sent[q.kept..] == r.sent;
    }
  }

  // While the queue is open nothing has been evicted and nothing is terminal.
  lemma OpenIsWhole(q: Queue, l: Limits)
    requires Ordered(q, l) && !q.closed
    ensures q.got + Bytes(q.frames) == q.sent && q.ending == []
    ensures forall f :: f in q.frames ==> !f.terminal
  {
    assert q.sent[..q.kept] + q.sent[q.kept..] == q.sent;
    assert |q.got + Bytes(q.frames)| == |q.sent|;
  }

  lemma PopKeepsOrder(q: Queue, l: Limits)
    requires Ordered(q, l)
    ensures Ordered(Pop(q), l)
    ensures Pop(q).got + Bytes(Pop(q).frames) == q.got + Bytes(q.frames)
  {
    if q.frames != [] {
      assert Bytes(q.frames) == [q.frames[0].bytes] + Bytes(q.frames[1..]);
      assert Pop(q).got + Bytes(Pop(q).frames) == q.got + Bytes(q.frames);
    }
  }

  lemma TerminalKeepsOrder(q: Queue, terminal: string, done: string, l: Limits)
    requires Ordered(q, l) && l.capacity >= 2
    ensures Ordered(PushTerminal(q, terminal, done, l), l)
  {
    if Ends(q, terminal, done, l) {
      var n := Excess(q, l);
      OpenIsWhole(q, l);
      assert |q.frames| <= l.capacity;
      hide Ordered;
      EvictionSplits(q, n);
      PairKeepsOrder(q, n, PushTerminal(q, terminal, done, l), l);
    }
  }

  // What was accepted is what was handed out, what goes, and what stays.
  lemma EvictionSplits(q: Queue, n: nat)
    requires n <= |q.frames| && q.got + Bytes(q.frames) == q.sent
    ensures var gone, rest := Bytes(q.frames[..n]), Bytes(q.frames[n..]);
      && |q.got| + n <= |q.sent| && q.sent[..|q.got|] == q.got
      && q.sent[|q.got|..|q.got| + n] == gone && q.sent[|q.got| + n..] == rest
  {
    assert Bytes(q.frames) == Bytes(q.frames[..n]) + Bytes(q.frames[n..]);
  }

  lemma PairKeepsOrder(q: Queue, n: nat, r: Queue, l: Limits)
    requires n <= 2 && n <= |q.frames| && |q.frames| - n + 2 <= l.capacity && |r.ending| == 2
    requires r == q.(frames := q.frames[n..] + [QueuedFrame(r.ending[0], true), QueuedFrame(r.ending[1], true)],
                     closed := true, lost := Bytes(q.frames[..n]), kept := |q.got|, ending := r.ending)
    requires |q.got| + n <= |q.sent| && |q.got| + |q.frames| == |q.sent| && q.sent[..|q.got|] == q.got
    requires q.sent[|q.got|..|q.got| + n] == Bytes(q.frames[..n]) && q.sent[|q.got| + n..] == Bytes(q.frames[n..])
    requires forall f :: f in q.frames ==> !f.terminal
    ensures Ordered(r, l)
  {
    assert r.ending == [r.ending[0], r.ending[1]];
    assert Bytes(r.frames) == Bytes(q.frames[n..]) + r.ending;
    assert r.got + Bytes(r.frames) == q.got + Bytes(q.frames[n..]) + r.ending;
    forall i | 0 <= i < |q.frames| - n ensures !r.frames[i].terminal { assert r.frames[i] in q.frames; }
  }

  // When a pair is taken, and what it does, in numbers.
  lemma TerminalInNumbers(q: Queue, terminal: string, done: string, l: Limits)
    requires Ordered(q, l) && l.capacity >= 2
    ensures Ends(q, terminal, done, l) <==>
      |Utf8.Encode(terminal)| <= l.frameMax && |Utf8.Encode(done)| <= l.frameMax && !q.closed
    ensures Ends(q, terminal, done, l) ==>
      var r := PushTerminal(q, terminal, done, l);
      && r.closed && r.ending == [terminal, done] && |r.lost| <= |q.frames|
      && |r.lost| == (if |q.frames| == l.capacity then 2 else if |q.frames| == l.capacity - 1 then 1 else 0)
      && r.frames == q.frames[|r.lost|..] + [QueuedFrame(terminal, true), QueuedFrame(done, true)]
  {
    Utf8.OctetsOf(terminal);
    Utf8.OctetsOf(done);
    hide Utf8.Encode;
  }

  lemma EndsOrNot(q: Queue, terminal: string, done: string, l: Limits)
    ensures Ends(q, terminal, done, l) <==>
      Utf8.Len(terminal) <= l.frameMax && Utf8.Len(done) <= l.frameMax && !q.closed
    ensures !Ends(q, terminal, done, l) ==> PushTerminal(q, terminal, done, l) == q
  {}

  // Without the first n frames, and with the pair, the queue is what it should be.
  lemma Evicted(q: Queue, n: nat, terminal: string, done: string, l: Limits)
    requires Ends(q, terminal, done, l) && n == Excess(q, l) <= |q.frames|
    ensures PushTerminal(q, terminal, done, l) ==
      q.(frames := q.frames[n..] + [QueuedFrame(terminal, true), QueuedFrame(done, true)], closed := true,
         lost := Bytes(q.frames[..n]), kept := |q.got|, ending := [terminal, done])
  {}

  function Run(q: Queue, ops: seq<Op>, l: Limits): Queue {
    if ops == [] then q else Apply(Run(q, ops[..|ops| - 1], l), ops[|ops| - 1], l)
  }

  lemma ApplyKeepsOrder(q: Queue, op: Op, l: Limits)
    requires Ordered(q, l) && l.capacity >= 2
    ensures Ordered(Apply(q, op, l), l)
  {
    match op
    case DoPush(bytes) => PushKeepsOrder(q, bytes, l);
    case DoTerminal(terminal, done) => TerminalKeepsOrder(q, terminal, done, l);
    case DoPop => PopKeepsOrder(q, l);
    case _ =>
  }

  // In every interleaving the consumer gets the accepted frames in order, less
  // at most two that the terminal pair pushed out, and then that pair.
  lemma {:induction false} RunIsOrdered(ops: seq<Op>, l: Limits)
    requires l.capacity >= 2
    ensures Ordered(Run(NEW, ops, l), l)
  {
    if ops == [] {
      assert NEW.got + Bytes(NEW.frames) == [];
    } else {
      RunIsOrdered(ops[..|ops| - 1], l);
      ApplyKeepsOrder(Run(NEW, ops[..|ops| - 1], l), ops[|ops| - 1], l);
    }
  }

  // A closed queue takes up nothing more: it only hands out what it holds.
  lemma {:induction false} ClosedOnlyDrains(q: Queue, ops: seq<Op>, l: Limits)
    requires q.closed
    ensures var r := Run(q, ops, l);
      && r.closed && |r.frames| <= |q.frames| && r.frames == q.frames[|q.frames| - |r.frames|..]
      && r.sent == q.sent && r.lost == q.lost && r.kept == q.kept && r.ending == q.ending
  {
    if ops != [] { ClosedOnlyDrains(q, ops[..|ops| - 1], l); }
  }

  // ----- the class

  datatype QueueRecv = Frame(bytes: string) | Closed | Timeout

  class ChatStreamQueue {
    const limits: Limits
    var frames: seq<QueuedFrame>
    var closed: bool
    var sentContentBytes: nat
    ghost var sent: seq<string>
    ghost var got: seq<string>
    ghost var lost: seq<string>
    ghost var kept: nat
    ghost var ending: seq<string>

    ghost function Q(): Queue
      reads this
    {
      Queue(frames, closed, sentContentBytes, sent, got, lost, kept, ending)
    }

    ghost predicate Valid()
      reads this
    {
      limits.capacity >= 2 && Ordered(Q(), limits)
    }

    constructor (l: Limits)
      requires l.capacity >= 2
      ensures Valid() && Q() == NEW && limits == l
    {
      limits := l;
      frames, closed, sentContentBytes := [], false, 0;
      sent, got, lost, kept, ending := [], [], [], 0, [];
      new;
      RunIsOrdered([], l);
    }

    method PushNonterminal(bytes: string) returns (ok: bool)
      requires Valid()
      modifies this
      ensures Valid() && Q() == Push(old(Q()), bytes, limits) && ok == Accepts(old(Q()), bytes, limits)
      ensures ok <==> |Utf8.Encode(bytes)| <= limits.frameMax && !old(closed) && |old(frames)| < limits.capacity
      ensures frames == if ok then old(frames) + [QueuedFrame(bytes, false)] else old(frames)
    {
      PushKeepsOrder(Q(), bytes, limits);
      Utf8.OctetsOf(bytes);
      hide Ordered, Utf8.Encode;
      if Utf8.Len(bytes) > limits.frameMax { return false; }
      if closed { return false; }
      if |frames| >= limits.capacity { return false; }
      frames := frames + [QueuedFrame(bytes, false)];
      sent := sent + [bytes];
      return true;
    }

    // The first non-terminal frame is removed until there is room for two.
    method MakeRoom()
      requires Valid() && !closed
      modifies this`frames
      ensures Excess(old(Q()), limits) <= |old(frames)|
      ensures frames == old(frames)[Excess(old(Q()), limits)..]
    {
      hide Ordered;
      OpenIsWhole(Q(), limits);
      ghost var before, n := frames, 0;
      while |frames| + 2 > limits.capacity
        invariant n <= Excess(old(Q()), limits) && n <= |before| && frames == before[n..]
      {
        var index := FirstNonterminal(frames);
        if index == |frames| { break; }
        assert frames[0] in before;
        frames := frames[..index] + frames[index + 1..];
        n := n + 1;
      }
      assert frames == [] || frames[0] in before;
    }

    method PushTerminalPair(terminal: string, done: string) returns (ok: bool)
      requires Valid()
      modifies this
      ensures Valid() && Q() == PushTerminal(old(Q()), terminal, done, limits)
      ensures ok == Ends(old(Q()), terminal, done, limits)
      ensures ok <==>
        |Utf8.Encode(terminal)| <= limits.frameMax && |Utf8.Encode(done)| <= limits.frameMax && !old(closed)
      ensures !ok ==> Q() == old(Q())
      ensures ok ==> closed && ending == [terminal, done]
      ensures ok ==> |lost| == if |old(frames)| == limits.capacity then 2
                               else if |old(frames)| == limits.capacity - 1 then 1 else 0
      ensures ok ==> |lost| <= |old(frames)|
      ensures ok ==> frames == old(frames)[|lost|..] + [QueuedFrame(terminal, true), QueuedFrame(done, true)]
    {
      TerminalInNumbers(Q(), terminal, done, limits);
      hide Ordered, PushTerminal, Bytes, Utf8.Encode, Ends;
      TerminalKeepsOrder(Q(), terminal, done, limits);
      EndsOrNot(Q(), terminal, done, limits);
      if Utf8.Len(terminal) > limits.frameMax || Utf8.Len(done) > limits.frameMax { return false; }
      if closed { return false; }
      ghost var before, n := frames, Excess(Q(), limits);
      MakeRoom();
      Evicted(old(Q()), n, terminal, done, limits);
      lost, kept, ending := Bytes(before[..n]), |got|, [terminal, done];
      frames := frames + [QueuedFrame(terminal, true), QueuedFrame(done, true)];
      closed := true;
      return true;
    }

    // One look at the queue under its lock; None means that recv has to wait.
    method TryRecv() returns (r: Option<QueueRecv>)
      requires Valid()
      modifies this`frames, this`got
      ensures Valid() && Q() == Pop(old(Q()))
      ensures r == if old(frames) != [] then Some(Frame(old(frames)[0].bytes))
                   else if closed then Some(Closed) else None
    {
      PopKeepsOrder(Q(), limits);
      if frames != [] {
        var frame := frames[0];
        frames := frames[1..];
        got := got + [frame.bytes];
        return Some(Frame(frame.bytes));
      }
      return if closed then Some(Closed) else None;
    }

    method Close()
      requires Valid()
      modifies this`closed
      ensures Valid() && Q() == old(Q()).(closed := true)
    {
      closed := true;
    }

    method MarkSentContentBytes(n: nat)
      requires Valid()
      modifies this`sentContentBytes
      ensures Valid() && Q() == Apply(old(Q()), DoMark(n), limits)
      ensures sentContentBytes >= n && sentContentBytes >= old(sentContentBytes)
      ensures sentContentBytes == n || sentContentBytes == old(sentContentBytes)
    {
      sentContentBytes := if n > sentContentBytes then n else sentContentBytes;
    }
  }
}
