// The tracked channel: a bounded queue and a depth counter that senders and the
// receiver update after, not with, the queue. Any number of senders and one
// receiver run interleaved; the atomic steps are the queue operations and the
// counter updates.
module Bus {
  import opened Wrappers

  // uncounted: sends that are in the queue but not yet added to the depth.
  // unsubtracted: 1 while the receiver has taken a message and not yet subtracted it.
  datatype Chan<T> = Chan(
    capacity: nat, word: nat, queue: seq<T>, depth: nat, connected: bool,
    uncounted: nat, unsubtracted: nat, accepted: seq<T>, delivered: seq<T>)

  // A channel without capacity hands each message over to a waiting receiver.
  // When the receiver goes away, the queue goes with it.
  datatype Step<T> = Enqueue(t: T) | HandOver(t: T) | Count | Dequeue | Subtract | Disconnect

  predicate CanDo<T>(c: Chan<T>, s: Step<T>) {
    match s
    case Enqueue(_) => c.connected && |c.queue| < c.capacity
    case HandOver(_) => c.connected && c.capacity == 0 && c.unsubtracted == 0
    case Count => c.uncounted > 0
    case Dequeue => c.connected && c.queue != [] && c.unsubtracted == 0
    case Subtract => c.unsubtracted > 0
    case Disconnect => c.connected && c.unsubtracted == 0
  }

  function Do<T>(c: Chan<T>, s: Step<T>): Chan<T>
    requires CanDo(c, s) && c.word > 0
  {
    match s
    case Enqueue(t) => c.(queue := c.queue + [t], accepted := c.accepted + [t], uncounted := c.uncounted + 1)
    case HandOver(t) => c.(accepted := c.accepted + [t], delivered := c.delivered + [t],
                           uncounted := c.uncounted + 1, unsubtracted := 1)
    case Count => c.(depth := (c.depth + 1) % c.word, uncounted := c.uncounted - 1)
    case Dequeue => c.(queue := c.queue[1..], delivered := c.delivered + [c.queue[0]], unsubtracted := 1)
    case Subtract => c.(depth := (c.depth - 1) % c.word, unsubtracted := c.unsubtracted - 1)
    case Disconnect => c.(queue := [], connected := false)
  }

  // What the counter would be if it could be negative.
  function Balance<T>(c: Chan<T>): int {
    |c.accepted| - |c.delivered| + c.unsubtracted - c.uncounted
  }

  ghost predicate Invariant<T>(c: Chan<T>) {
    && c.word > 0 && c.depth == Balance(c) % c.word
    && |c.queue| <= c.capacity && c.unsubtracted <= 1
    && c.delivered <= c.accepted
    && (c.connected ==> c.accepted == c.delivered + c.queue)
    && (!c.connected ==> c.queue == [])
  }

  function Fresh<T>(capacity: nat, word: nat): Chan<T> {
    Chan(capacity, word, [], 0, true, 0, 0, [], [])
  }

  lemma Quotient(a: int, q: int, r: int, w: int)
    requires w > 0 && a == q * w + r && 0 <= r < w
    ensures a % w == r
  {
    var d := q - a / w;
    assert d * w == a % w - r by { assert (q - a / w) * w == q * w - (a / w) * w; }
    Multiple(d, w);
  }

  lemma Multiple(d: int, w: int)
    requires w > 0
    ensures (d >= 1 ==> d * w >= w) && (d <= -1 ==> d * w <= -w)
  {}

  // Counting before or after reduction comes to the same.
  lemma Reduced(d: int, k: int, w: int)
    requires w > 0 && -1 <= k <= 1
    ensures (d % w + k) % w == (d + k) % w
  {
    var q, r := d / w, d % w;
    if 0 <= r + k < w {
      Quotient(d + k, q, r + k, w);
      Quotient(r + k, 0, r + k, w);
    } else if r + k == w {
      assert (q + 1) * w == q * w + w;
      Quotient(d + k, q + 1, 0, w);
      Quotient(r + k, 1, 0, w);
    } else {
      assert (q - 1) * w == q * w - w;
      Quotient(d + k, q - 1, w - 1, w);
      Quotient(r + k, -1, w - 1, w);
    }
  }

  lemma StepKeepsInvariant<T>(c: Chan<T>, s: Step<T>)
    requires Invariant(c) && CanDo(c, s)
    ensures Invariant(Do(c, s))
  {
    match s
    case Count => Reduced(Balance(c), 1, c.word);
    case Subtract => Reduced(Balance(c), -1, c.word);
    case _ =>
  }

  ghost predicate CanRun<T>(c: Chan<T>, steps: seq<Step<T>>)
    requires c.word > 0
    decreases |steps|
  {
    steps == [] || (CanDo(c, steps[0]) && CanRun(Do(c, steps[0]), steps[1..]))
  }

  function Run<T>(c: Chan<T>, steps: seq<Step<T>>): Chan<T>
    requires c.word > 0 && CanRun(c, steps)
    decreases |steps|
  {
    if steps == [] then c else Run(Do(c, steps[0]), steps[1..])
  }

  // In every interleaving messages come out in the order they went in, the queue
  // keeps within its capacity, and depth and uncounted together make up the queue
  // and the unsubtracted, up to the word size.
  lemma {:induction false} RunKeepsInvariant<T>(c: Chan<T>, steps: seq<Step<T>>)
    requires Invariant(c) && CanRun(c, steps)
    ensures Invariant(Run(c, steps))
    decreases |steps|
  {
    if steps != [] {
      StepKeepsInvariant(c, steps[0]);
      RunKeepsInvariant(Do(c, steps[0]), steps[1..]);
    }
  }

  // What a reader of the counter sees: behind by the uncounted sends, and around
  // zero exactly when they outnumber what is in the queue and being taken.
  lemma DepthReads<T>(c: Chan<T>)
    requires Invariant(c) && c.connected && |c.queue| + c.unsubtracted < c.word && c.uncounted <= c.word
    ensures c.depth == |c.queue| + c.unsubtracted - c.uncounted <==> c.uncounted <= |c.queue| + c.unsubtracted
    ensures c.depth == c.word + |c.queue| + c.unsubtracted - c.uncounted <==> c.uncounted > |c.queue| + c.unsubtracted
  {
    var b := Balance(c);
    if b >= 0 { Quotient(b, 0, b, c.word); } else { Quotient(b, -1, b + c.word, c.word); }
  }

  // With no operation under way the counter is the length of the queue. Once the
  // receiver is gone it stays at the number of messages thrown away with it.
  lemma DepthAtRest<T>(c: Chan<T>)
    requires Invariant(c) && c.uncounted == 0 && c.unsubtracted == 0
    requires |c.accepted| - |c.delivered| < c.word
    ensures c.depth == |c.accepted| - |c.delivered|
    ensures c.connected ==> c.depth == |c.queue|
  {
    Quotient(Balance(c), 0, Balance(c), c.word);
  }

  // One send that is received before it is counted takes the counter below zero.
  lemma DepthCanWrap(word: nat)
    requires word > 1
    ensures var steps := [Enqueue(7), Dequeue, Subtract];
      CanRun(Fresh(1, word), steps) && Run(Fresh(1, word), steps).depth == word - 1
      && Run(Fresh(1, word), steps).queue == []
  {
    var s1: Step<int>, s2: Step<int>, s3: Step<int> := Enqueue(7), Dequeue, Subtract;
    var c0: Chan<int> := Fresh(1, word);
    var c1 := Do(c0, s1);
    var c2 := Do(c1, s2);
    var c3 := Do(c2, s3);
    assert [s1, s2, s3][1..] == [s2, s3] && [s2, s3][1..] == [s3] && [s3][1..] == [];
    assert CanRun(c3, []) && CanRun(c2, [s3]) && CanRun(c1, [s2, s3]);
    Quotient(-1, -1, word - 1, word);
    assert Run(c2, [s3]) == c3 && Run(c1, [s2, s3]) == c3;
  }

  // ----- the channel as its two ends use it

  datatype SendResult = Sent | Full | Disconnected

  class Channel<T(0)> {
    const capacity: nat
    const word: nat
    var queue: seq<T>
    var depth: nat
    var connected: bool
    var uncounted: nat      // where the threads are, taken together
    var unsubtracted: nat
    var elsewhere: nat      // those of the uncounted sends that other threads have made
    ghost var accepted: seq<T>
    ghost var delivered: seq<T>

    ghost function C(): Chan<T>
      reads this
    {
      Chan(capacity, word, queue, depth, connected, uncounted, unsubtracted, accepted, delivered)
    }

    constructor (capacity: nat, word: nat)
      requires word > 0
      ensures C() == Fresh(capacity, word) && Invariant(C()) && elsewhere == 0
    {
      this.capacity, this.word := capacity, word;
      queue, depth, connected := [], 0, true;
      uncounted, unsubtracted, elsewhere, accepted, delivered := 0, 0, 0, [], [];
    }

    // What other threads do in between: mine of the uncounted sends are this
    // thread's; if this thread is the receiver, no other one takes messages.
    twostate predicate Elsewhere(mine: nat, receiver: bool)
      reads this
    {
      && Invariant(C()) && uncounted == elsewhere + mine
      && old(accepted) <= accepted && old(delivered) <= delivered
      && (!old(connected) ==> !connected)
      && (receiver ==> unsubtracted == old(unsubtracted) && delivered == old(delivered) && connected == old(connected))
    }

    method Others(mine: nat, receiver: bool)
      requires Invariant(C()) && uncounted == elsewhere + mine
      modifies this
      ensures Elsewhere(mine, receiver)
    {
      var n: int := *;
      for i := 0 to if n > 0 then n else 0
        invariant Elsewhere(mine, receiver)
      {
        SomeStep(mine, receiver);
      }
    }

    method SomeStep(mine: nat, receiver: bool)
      requires Invariant(C()) && uncounted == elsewhere + mine
      modifies this
      ensures Elsewhere(mine, receiver)
    {
      var t: T := *;
      if * {
        var r := Put(t, !receiver);
        if r == Sent { elsewhere := elsewhere + 1; }
      } else if * {
        if elsewhere > 0 {
          CountOne();
          elsewhere := elsewhere - 1;
        }
      } else if !receiver {
        if * {
          if connected && queue != [] && unsubtracted == 0 { var _ := Take(); }
        } else if * {
          if unsubtracted > 0 { SubtractOne(); }
        } else if connected && unsubtracted == 0 {
          StepKeepsInvariant(C(), Disconnect);
          queue, connected := [], false;
        }
      }
    }

    // The queue's own send: into the queue, or into the hands of the receiver if
    // there is no queue and the receiver may be waiting.
    method Put(t: T, waiting: bool) returns (r: SendResult)
      requires Invariant(C())
      modifies this`queue, this`uncounted, this`unsubtracted, this`accepted, this`delivered
      ensures Invariant(C())
      ensures match r
        case Sent =>
          || (CanDo(old(C()), Enqueue(t)) && C() == Do(old(C()), Enqueue(t)))
          || (waiting && CanDo(old(C()), HandOver(t)) && C() == Do(old(C()), HandOver(t)))
        case Full => C() == old(C()) && connected && |queue| >= capacity
        case Disconnected => C() == old(C()) && !connected
    {
      if !connected { return Disconnected; }
      if |queue| < capacity {
        StepKeepsInvariant(C(), Enqueue(t));
        queue, accepted, uncounted := queue + [t], accepted + [t], uncounted + 1;
        return Sent;
      }
      if * {
        if waiting && capacity == 0 && unsubtracted == 0 {
          StepKeepsInvariant(C(), HandOver(t));
          accepted, delivered, uncounted, unsubtracted := accepted + [t], delivered + [t], uncounted + 1, 1;
          return Sent;
        }
      }
      return Full;
    }

    method Take() returns (t: T)
      requires Invariant(C()) && connected && queue != [] && unsubtracted == 0
      modifies this`queue, this`unsubtracted, this`delivered
      ensures Invariant(C()) && C() == Do(old(C()), Dequeue) && t == old(queue)[0]
    {
      StepKeepsInvariant(C(), Dequeue);
      t := queue[0];
      queue, delivered, unsubtracted := queue[1..], delivered + [t], 1;
    }

    method CountOne()
      requires Invariant(C()) && uncounted > 0
      modifies this`depth, this`uncounted
      ensures Invariant(C()) && C() == Do(old(C()), Count)
    {
      StepKeepsInvariant(C(), Count);
      depth, uncounted := (depth + 1) % word, uncounted - 1;
    }

    method SubtractOne()
      requires Invariant(C()) && unsubtracted > 0
      modifies this`depth, this`unsubtracted
      ensures Invariant(C()) && C() == Do(old(C()), Subtract)
    {
      StepKeepsInvariant(C(), Subtract);
      depth, unsubtracted := (depth - 1) % word, unsubtracted - 1;
    }

    // The depth goes up only if the queue took the message, and after it did.
    // seen is the channel at the moment the queue was asked. When the call is over,
    // only other threads' sends are uncounted.
    method TrySend(t: T) returns (r: SendResult, ghost seen: Chan<T>)
      requires Invariant(C()) && uncounted == elsewhere
      modifies this
      ensures Invariant(C()) && uncounted == elsewhere
      ensures old(accepted) <= seen.accepted <= accepted && old(delivered) <= delivered
      ensures match r
        case Sent => seen.connected && |seen.accepted| < |accepted| && accepted[|seen.accepted|] == t
        case Full => seen.connected && |seen.queue| >= capacity && C() == seen
        case Disconnected => !seen.connected && C() == seen
    {
      Others(0, false);
      seen := C();
      r := Put(t, true);
      if r == Sent {
        Others(1, false);
        CountOne();
      }
    }

    // There is one receiver, so what it gets is the next message that was accepted. seen is
    // the channel when the queue was asked; it had nothing if nothing is returned.
    method TryRecv() returns (r: Option<T>, ghost seen: Chan<T>)
      requires Invariant(C()) && uncounted == elsewhere && unsubtracted == 0 && connected
      modifies this
      ensures Invariant(C()) && uncounted == elsewhere && unsubtracted == 0 && connected
      ensures old(accepted) <= seen.accepted <= accepted && seen.delivered == old(delivered)
      ensures r.None? ==> seen.queue == [] && C() == seen
      ensures r.Some? ==> delivered == old(delivered) + [r.value] && r.value == accepted[|old(delivered)|]
      ensures seen.queue != [] ==> r == Some(seen.queue[0])
    {
      Others(0, true);
      seen := C();
      var t: T := *;
      if queue != [] {
        t := Take();
      } else {
        if * { return None, seen; }
        if capacity > 0 { return None, seen; }
        StepKeepsInvariant(C(), HandOver(t));
        accepted, delivered, uncounted, unsubtracted := accepted + [t], delivered + [t], uncounted + 1, 1;
        elsewhere := elsewhere + 1;
      }
      Others(0, true);
      SubtractOne();
      return Some(t), seen;
    }
  }
}
