// One stream as its receiver sees it, step by step: the map, the queue, and the
// receive that ends the stream itself when it has waited too long. It answers when a
// receive that got no frame may be followed by one that gets one.
module ChatReceiver {
  import opened Wrappers
  import opened ChatFrames
  import opened ChatQueue
  import opened ChatBroker
  import Utf8

  // Where the receiver is: outside, or in its first or second look at the queue, or
  // between them, where it reports the timeout.
  datatype Place = Idle | Looking(first: bool) | Waiting(first: bool) | Expired | Ending

  // A thread that has taken the stream out of the map and will push the pair.
  datatype Ender = Ender(terminal: string, done: string, own: bool)

  // writers: threads that have found the stream in the map and may still push frames. A
  // thread in a final with nothing left to send is not one: it goes on to take the stream.
  datatype Stream = Stream(
    broker: bool, inMap: bool, q: Queue, writers: nat, ender: Option<Ender>,
    place: Place, results: seq<Option<string>>)

  const OPENED := Stream(true, true, NEW, 0, None, Idle, [])

  datatype Step =
    | Lookup | Send(bytes: string) | Leave           // other threads: emit_queued, emit_delta
    | Take(terminal: string, done: string) | End     // emit_final, emit_error
    | DropBroker
    | Call | Look | Wake | Expire | EmitError        // the receiver

  ghost predicate CanDo(s: Stream, step: Step) {
    match step
    case Lookup => s.inMap
    case Send(bytes) => s.writers > 0 && IsFrame(bytes)
    case Leave => s.writers > 0
    case Take(_, _) => s.inMap
    case End => s.ender.Some?
    case DropBroker => s.broker && s.writers == 0 && s.ender.None? && s.place != Expired
    case Call => s.place == Idle
    case Look => s.place.Looking?
    case Wake => s.place.Waiting?
    case Expire => s.place.Waiting?
    case EmitError => s.place == Expired
  }

  function Return(s: Stream, r: Option<string>): Stream { s.(place := Idle, results := s.results + [r]) }

  function Do(s: Stream, step: Step, l: Limits): Stream
    requires CanDo(s, step)
  {
    match step
    case Lookup => s.(writers := s.writers + 1)
    case Send(bytes) => s.(q := Push(s.q, bytes, l))
    case Leave => s.(writers := s.writers - 1)
    case Take(terminal, done) => s.(inMap := false, ender := Some(Ender(terminal, done, false)))
    case End =>
      var e := s.ender.value;
      s.(q := PushTerminal(s.q, e.terminal, e.done, l), ender := None,
         place := if e.own then Looking(false) else s.place)
    case DropBroker => s.(broker := false, inMap := false)
    case Call => s.(place := Looking(true))
    case Look =>
      if s.q.frames != [] then Return(s.(q := Pop(s.q)), Some(s.q.frames[0].bytes))
      else if s.q.closed then Return(s, None)
      else s.(place := Waiting(s.place.first))
    case Wake => s.(place := Looking(s.place.first))
    case Expire => if s.place.first && s.broker then s.(place := Expired) else Return(s, None)
    case EmitError =>
      if s.inMap then
        s.(inMap := false, place := Ending, ender := Some(Ender(EventFrame("error", TIMED_OUT), DONE, true)))
      else s.(place := Looking(false))
  }

  ghost predicate CanRun(s: Stream, steps: seq<Step>, l: Limits)
    decreases |steps|
  {
    steps == [] || (CanDo(s, steps[0]) && CanRun(Do(s, steps[0], l), steps[1..], l))
  }

  function Run(s: Stream, steps: seq<Step>, l: Limits): Stream
    requires CanRun(s, steps, l)
    decreases |steps|
  {
    if steps == [] then s else Run(Do(s, steps[0], l), steps[1..], l)
  }

  ghost predicate Valid(s: Stream, l: Limits) {
    && l.capacity >= 2 && l.frameMax >= SMALL_FRAME && Ordered(s.q, l)
    && (s.inMap || s.writers > 0 || s.ender.Some? || s.place == Expired ==> s.broker)
    && (s.ender.Some? ==> !s.inMap)
    && (s.place == Ending <==> s.ender.Some? && s.ender.value.own)
    && (s.place == Looking(false) || s.place == Waiting(false) ==> !s.inMap)
    && (s.ender.Some? && s.ender.value.own ==>
         s.ender.value.terminal == EventFrame("error", TIMED_OUT) && s.ender.value.done == DONE)
  }

  lemma StepKeepsValid(s: Stream, step: Step, l: Limits)
    requires Valid(s, l) && CanDo(s, step)
    ensures Valid(Do(s, step, l), l)
  {
    hide Ordered, EventFrame;
    match step
    case Send(bytes) => PushKeepsOrder(s.q, bytes, l);
    case End => TerminalKeepsOrder(s.q, s.ender.value.terminal, s.ender.value.done, l);
    case Look => PopKeepsOrder(s.q, l);
    case _ =>
  }

  lemma {:induction false} RunKeepsValid(s: Stream, steps: seq<Step>, l: Limits)
    requires Valid(s, l) && CanRun(s, steps, l)
    ensures Valid(Run(s, steps, l), l)
    decreases |steps|
  {
    if steps != [] {
      StepKeepsValid(s, steps[0], l);
      RunKeepsValid(Do(s, steps[0], l), steps[1..], l);
    }
  }

  lemma OpenedIsValid(l: Limits)
    requires l.capacity >= 2 && l.frameMax >= SMALL_FRAME
    ensures Valid(OPENED, l)
  {
    RunIsOrdered([], l);
  }

  // ----- a receive without a frame

  // A receive returns nothing only from an empty closed queue, or when the stream is no
  // longer in the map: with a broker, that is, when another thread had taken it out.
  lemma NothingMeans(s: Stream, step: Step, l: Limits)
    requires Valid(s, l) && CanDo(s, step)
    requires Do(s, step, l).results == s.results + [None]
    ensures var t := Do(s, step, l); t.place == Idle && ((t.q.closed && t.q.frames == []) || !t.inMap)
  {
    assert |Do(s, step, l).results| == |s.results| + 1 && Do(s, step, l).results[|s.results|].None?;
    match step
    case Expire => assert s.place == Waiting(s.place.first);
    case _ =>
  }

  // ----- frames that may follow

  // Some later receive of some continuation returns a frame.
  ghost predicate FrameMayFollow(s: Stream, l: Limits) {
    exists steps :: CanRun(s, steps, l) && FrameSince(s, Run(s, steps, l))
  }

  ghost predicate FrameSince(s: Stream, t: Stream) {
    exists i :: |s.results| <= i < |t.results| && t.results[i].Some?
  }

  predicate PairFits(e: Ender, l: Limits) { Utf8.Len(e.terminal) <= l.frameMax && Utf8.Len(e.done) <= l.frameMax }

  // Frames are queued, or the queue is open and someone can still push one: a thread
  // that is about to end the stream with a pair that fits, one that found the stream in
  // the map, or, while it is there, any.
  predicate Supplied(s: Stream, l: Limits) {
    || s.q.frames != []
    || (!s.q.closed && (s.inMap || s.writers > 0 || (s.ender.Some? && PairFits(s.ender.value, l))))
  }

  lemma UnsuppliedStays(s: Stream, step: Step, l: Limits)
    requires Valid(s, l) && !Supplied(s, l) && CanDo(s, step)
    ensures var t := Do(s, step, l);
      !Supplied(t, l) && (t.results == s.results || t.results == s.results + [None])
  {
    hide Ordered, EventFrame;
    if step == EmitError && s.inMap { assert s.q.closed; }
  }

  lemma {:induction false} UnsuppliedRun(s: Stream, steps: seq<Step>, l: Limits)
    requires Valid(s, l) && !Supplied(s, l) && CanRun(s, steps, l)
    ensures !Supplied(Run(s, steps, l), l) && s.results <= Run(s, steps, l).results
    ensures !FrameSince(s, Run(s, steps, l))
    decreases |steps|
  {
    if steps != [] {
      var t := Do(s, steps[0], l);
      StepKeepsValid(s, steps[0], l);
      UnsuppliedStays(s, steps[0], l);
      UnsuppliedRun(t, steps[1..], l);
      var u := Run(t, steps[1..], l);
      forall i | |s.results| <= i < |u.results| ensures u.results[i].None? {
        if i == |s.results| < |t.results| { assert u.results[i] == t.results[i]; }
      }
    }
  }

  lemma RunStep(s: Stream, step: Step, rest: seq<Step>, l: Limits)
    requires CanDo(s, step) && CanRun(Do(s, step, l), rest, l)
    ensures CanRun(s, [step] + rest, l) && Run(s, [step] + rest, l) == Run(Do(s, step, l), rest, l)
  {
    assert ([step] + rest)[1..] == rest;
  }

  // What a step leads to, in a way that lets a frame follow, lets it follow before too.
  lemma FollowsEarlier(s: Stream, step: Step, l: Limits)
    requires CanDo(s, step) && |s.results| <= |Do(s, step, l).results| && FrameMayFollow(Do(s, step, l), l)
    ensures FrameMayFollow(s, l)
  {
    var t := Do(s, step, l);
    var rest :| CanRun(t, rest, l) && FrameSince(t, Run(t, rest, l));
    RunStep(s, step, rest, l);
    assert FrameSince(s, Run(s, [step] + rest, l));
  }

  lemma QueuedFollows(s: Stream, l: Limits)
    requires s.place == Idle && s.q.frames != []
    ensures FrameMayFollow(s, l)
  {
    var t := Do(s, Call, l);
    var u := Do(t, Look, l);
    assert CanRun(u, [], l) && Run(u, [], l) == u;
    RunStep(t, Look, [], l);
    assert u.results[|s.results|].Some? && FrameSince(t, u);
    assert [Look] + [] == [Look] && CanRun(t, [Look], l) && FrameSince(t, Run(t, [Look], l));
    FollowsEarlier(s, Call, l);
  }

  // A receive that is over may be followed by one that gets a frame if and only if the
  // stream is still supplied.
  lemma FollowsExactly(s: Stream, l: Limits)
    requires Valid(s, l) && s.place == Idle
    ensures FrameMayFollow(s, l) <==> Supplied(s, l)
  {
    if s.q.frames != [] {
      QueuedFollows(s, l);
    } else if !s.q.closed && s.ender.Some? && PairFits(s.ender.value, l) {
      QueuedFollows(Do(s, End, l), l);
      FollowsEarlier(s, End, l);
    } else if !s.q.closed && s.writers > 0 {
      WrittenFollows(s, l);
    } else if !s.q.closed && s.inMap {
      WrittenFollows(Do(s, Lookup, l), l);
      FollowsEarlier(s, Lookup, l);
    } else if FrameMayFollow(s, l) {
      var steps :| CanRun(s, steps, l) && FrameSince(s, Run(s, steps, l));
      UnsuppliedRun(s, steps, l);
    }
  }

  const SMALL_DELTA := DeltaFrame("", "")

  lemma SmallDelta()
    ensures IsFrame(SMALL_DELTA) && Utf8.Len(SMALL_DELTA) <= SMALL_FRAME
  {
    DeltaFrameText("", "");
    hide Utf8.Len, IsFrame;
    LenAtMost(SMALL_DELTA);
  }

  // A thread that writes can write a small delta.
  lemma WrittenFollows(s: Stream, l: Limits)
    requires s.place == Idle && s.q.frames == [] && !s.q.closed && s.writers > 0
    requires l.capacity >= 2 && l.frameMax >= SMALL_FRAME
    ensures FrameMayFollow(s, l)
  {
    SmallDelta();
    hide DeltaFrame, IsFrame, FrameMayFollow;
    assert Accepts(s.q, SMALL_DELTA, l);
    QueuedFollows(Do(s, Send(SMALL_DELTA), l), l);
    FollowsEarlier(s, Send(SMALL_DELTA), l);
  }

  // After a receive that returned nothing: a frame may still follow exactly when one is
  // queued, or the queue is still open and another thread has yet to push to it.
  lemma NothingThenAFrameExactly(s: Stream, step: Step, l: Limits)
    requires Valid(s, l) && CanDo(s, step) && Do(s, step, l).results == s.results + [None]
    ensures var t := Do(s, step, l);
      FrameMayFollow(t, l) <==>
      t.q.frames != [] || (!t.q.closed && (t.writers > 0 || (t.ender.Some? && PairFits(t.ender.value, l))))
  {
    hide Ordered, PairFits, FrameMayFollow, EventFrame;
    StepKeepsValid(s, step, l);
    NothingMeans(s, step, l);
    FollowsExactly(Do(s, step, l), l);
  }

  // The same over runs: after any steps from the opening of the stream.
  lemma NothingInARun(steps: seq<Step>, step: Step, l: Limits)
    requires l.capacity >= 2 && l.frameMax >= SMALL_FRAME && CanRun(OPENED, steps, l)
    requires CanDo(Run(OPENED, steps, l), step)
    requires Do(Run(OPENED, steps, l), step, l).results == Run(OPENED, steps, l).results + [None]
    ensures var t := Do(Run(OPENED, steps, l), step, l);
      && ((t.q.closed && t.q.frames == []) || !t.inMap)
      && (FrameMayFollow(t, l) <==>
           t.q.frames != [] || (!t.q.closed && (t.writers > 0 || (t.ender.Some? && PairFits(t.ender.value, l)))))
  {
    hide Do, Run, Valid, PairFits, FrameMayFollow;
    OpenedIsValid(l);
    RunKeepsValid(OPENED, steps, l);
    NothingMeans(Run(OPENED, steps, l), step, l);
    NothingThenAFrameExactly(Run(OPENED, steps, l), step, l);
  }

  // From an empty closed queue nothing is ever received again.
  lemma ClosedAndEmptyIsTheEnd(s: Stream, steps: seq<Step>, l: Limits)
    requires Valid(s, l) && s.q.closed && s.q.frames == [] && CanRun(s, steps, l)
    ensures s.results <= Run(s, steps, l).results
    ensures forall r :: r in Run(s, steps, l).results[|s.results|..] ==> r.None?
  {
    UnsuppliedRun(s, steps, l);
    var t := Run(s, steps, l);
    forall r | r in t.results[|s.results|..] ensures r.None? {
      var i :| 0 <= i < |t.results| - |s.results| && t.results[|s.results|..][i] == r;
      assert t.results[|s.results| + i] == r;
    }
  }

  // The receiver has come and gone while the thread that ends the stream has yet to push.
  function Missed(terminal: string): Stream {
    Stream(true, false, NEW, 0, Some(Ender(terminal, DONE, false)), Idle, [None])
  }

  // Before that, when its first wait has run out.
  function MissedOnce(terminal: string): Stream { Missed(terminal).(place := Expired, results := []) }

  lemma WaitsOnce(terminal: string, rest: seq<Step>, l: Limits)
    requires CanRun(MissedOnce(terminal), rest, l)
    ensures var steps := [Take(terminal, DONE), Call, Look, Expire] + rest;
      CanRun(OPENED, steps, l) && Run(OPENED, steps, l) == Run(MissedOnce(terminal), rest, l)
  {
    var s1 := Do(OPENED, Take(terminal, DONE), l);
    var s2 := Do(s1, Call, l);
    var s3 := Do(s2, Look, l);
    assert Do(s3, Expire, l) == MissedOnce(terminal);
    hide Do, CanRun, Run, MissedOnce;
    RunStep(s3, Expire, rest, l);
    RunStep(s2, Look, [Expire] + rest, l);
    RunStep(s1, Call, [Look] + ([Expire] + rest), l);
    RunStep(OPENED, Take(terminal, DONE), [Call] + ([Look] + ([Expire] + rest)), l);
    assert [Take(terminal, DONE), Call, Look, Expire] + rest ==
      [Take(terminal, DONE)] + ([Call] + ([Look] + ([Expire] + rest)));
  }

  lemma WaitsAgain(terminal: string, rest: seq<Step>, l: Limits)
    requires CanRun(Missed(terminal), rest, l)
    ensures var steps := [EmitError, Look, Expire] + rest;
      CanRun(MissedOnce(terminal), steps, l) && Run(MissedOnce(terminal), steps, l) == Run(Missed(terminal), rest, l)
  {
    var s1 := Do(MissedOnce(terminal), EmitError, l);
    var s2 := Do(s1, Look, l);
    assert Do(s2, Expire, l) == Missed(terminal);
    hide Do, CanRun, Run, Missed;
    RunStep(s2, Expire, rest, l);
    RunStep(s1, Look, [Expire] + rest, l);
    RunStep(MissedOnce(terminal), EmitError, [Look] + ([Expire] + rest), l);
    assert [EmitError, Look, Expire] + rest == [EmitError] + ([Look] + ([Expire] + rest));
  }

  lemma ThenReceives(terminal: string, l: Limits)
    requires l.capacity >= 2 && Utf8.Len(terminal) <= l.frameMax && Utf8.Len(DONE) <= l.frameMax
    ensures CanRun(Missed(terminal), [End, Call, Look], l)
    ensures Run(Missed(terminal), [End, Call, Look], l).results == [None, Some(terminal)]
  {
    var s1 := Do(Missed(terminal), End, l);
    assert s1.q.frames != [] && s1.q.frames[0].bytes == terminal;
    var s2 := Do(s1, Call, l);
    var s3 := Do(s2, Look, l);
    assert CanRun(s3, [], l) && Run(s3, [], l) == s3;
    RunStep(s2, Look, [], l);
    assert [Look] + [] == [Look];
    RunStep(s1, Call, [Look], l);
    assert [Call] + [Look] == [Call, Look];
    RunStep(Missed(terminal), End, [Call, Look], l);
    assert [End] + [Call, Look] == [End, Call, Look];
  }

  // A run in which it happens: another thread's final has taken the stream out of the
  // map when the receiver comes, waits twice and goes, and then pushes the pair.
  lemma NothingThenAFrame(terminal: string, l: Limits)
    requires l.capacity >= 2 && Utf8.Len(terminal) <= l.frameMax && Utf8.Len(DONE) <= l.frameMax
    ensures var steps := [Take(terminal, DONE), Call, Look, Expire] + ([EmitError, Look, Expire] + [End, Call, Look]);
      CanRun(OPENED, steps, l) && Run(OPENED, steps, l).results == [None, Some(terminal)]
  {
    ThenReceives(terminal, l);
    WaitsAgain(terminal, [End, Call, Look], l);
    WaitsOnce(terminal, [EmitError, Look, Expire] + [End, Call, Look], l);
  }

  // The queue need not be open when nothing is returned: the pair may be pushed just as
  // the second wait runs out.
  lemma NothingFromAClosedQueue(terminal: string, l: Limits)
    requires l.capacity >= 2 && Utf8.Len(terminal) <= l.frameMax && Utf8.Len(DONE) <= l.frameMax
    ensures var steps := [Take(terminal, DONE), Call, Look, Expire] + [EmitError, Look, End, Expire];
      CanRun(OPENED, steps, l) &&
      var t := Run(OPENED, steps, l);
      t.results == [None] && t.q.closed && t.q.frames != []
  {
    var s1 := Do(MissedOnce(terminal), EmitError, l);
    var s2 := Do(s1, Look, l);
    var s3 := Do(s2, End, l);
    assert s3.q.closed && s3.q.frames != [] && s3.place == Waiting(false);
    var s4 := Do(s3, Expire, l);
    assert CanRun(s4, [], l) && Run(s4, [], l) == s4;
    RunStep(s3, Expire, [], l);
    RunStep(s2, End, [Expire] + [], l);
    RunStep(s1, Look, [End] + ([Expire] + []), l);
    RunStep(MissedOnce(terminal), EmitError, [Look] + ([End] + ([Expire] + [])), l);
    assert [EmitError] + ([Look] + ([End] + ([Expire] + []))) == [EmitError, Look, End, Expire];
    WaitsOnce(terminal, [EmitError, Look, End, Expire], l);
  }

  // ----- a final that is too long

  const LONG := EventFrame("final", seq(20_000, _ => 'x'))

  lemma LongIsLong()
    ensures Utf8.Len(LONG) > HOST.frameMax
  {
    Utf8.LenAtLeast(LONG);
  }

  // It is dropped: the stream is out of the map, its queue stays open and nothing is ever
  // received from it.
  lemma LongFinalStrands()
    ensures var steps := [Take(LONG, DONE), End];
      CanRun(OPENED, steps, HOST) &&
      var t := Run(OPENED, steps, HOST);
      !t.inMap && !t.q.closed && t.results == [] && !FrameMayFollow(t, HOST)
  {
    LongIsLong();
    OpenedIsValid(HOST);
    hide LONG, Valid, FrameMayFollow, EventFrame;
    var s1 := Do(OPENED, Take(LONG, DONE), HOST);
    var s2 := Do(s1, End, HOST);
    StepKeepsValid(OPENED, Take(LONG, DONE), HOST);
    StepKeepsValid(s1, End, HOST);
    assert s2.q == NEW && !Supplied(s2, HOST);
    FollowsExactly(s2, HOST);
    assert CanRun(s2, [], HOST) && Run(s2, [], HOST) == s2;
    RunStep(s1, End, [], HOST);
    RunStep(OPENED, Take(LONG, DONE), [End] + [], HOST);
    assert [Take(LONG, DONE)] + ([End] + []) == [Take(LONG, DONE), End];
  }
}
