// Whole runs of receives. Every call of Client.Recv is a Receives step on the
// abstract state, and sends and closes leave that state alone, so a run is a
// chain of such steps, whatever the sizes of reads and wherever timeouts fall.
module WssRuns {
  import opened Wrappers
  import opened WssBytes
  import opened WssFrames
  import opened WssDecoder
  import opened WssTransport
  import opened WssClient

  // A call took in some pings and returned out; if that is a close or a protocol error,
  // end is the event it stands for, with code and reason.
  datatype Call = Call(pings: seq<Event>, out: Outcome, end: seq<Event>)

  ghost predicate Made(max: nat, v: View, c: Call, w: View) {
    && Receives(max, v, c.pings, c.out, w)
    && c.end == EndOf(max, c.out, w)
  }

  // The close as it is stored, or the violation that is still there to be seen.
  function EndOf(max: nat, out: Outcome, w: View): seq<Event> {
    match out
    case Stopped(CLOSED) => if w.st.closed.Some? then [Closed(w.st.closed.value)] else []
    case Stopped(PROTOCOL) => Decode(max, w.st, w.pending)
    case _ => []
  }

  ghost predicate StepAt(max: nat, views: seq<View>, calls: seq<Call>, i: nat)
    requires |views| == |calls| + 1 && i < |calls|
  {
    Made(max, views[i], calls[i], views[i + 1])
  }

  ghost predicate IsRun(max: nat, views: seq<View>, calls: seq<Call>) {
    && |views| == |calls| + 1
    && forall i :: 0 <= i < |calls| ==> StepAt(max, views, calls, i)
  }

  // What the application sees: the events but for the pings.
  function ShowEvent(e: Event): seq<Event> { if e.Ping? then [] else [e] }

  function ShowEvents(es: seq<Event>): seq<Event> {
    if es == [] then [] else ShowEvent(es[0]) + ShowEvents(es[1..])
  }

  function ShowCall(c: Call): seq<Event> { if c.out.Delivered? then [Message(c.out.data)] else c.end }

  predicate Final(out: Outcome) { out == Stopped(CLOSED) || out == Stopped(PROTOCOL) }

  // The results of the calls that have one, up to the first final result.
  function Show(calls: seq<Call>): seq<Event> {
    if calls == [] then []
    else if Final(calls[0].out) then ShowCall(calls[0])
    else ShowCall(calls[0]) + Show(calls[1..])
  }

  predicate Ended(calls: seq<Call>) {
    calls != [] && (Final(calls[0].out) || Ended(calls[1..]))
  }

  lemma {:induction false} EndedMeaning(calls: seq<Call>)
    ensures Ended(calls) <==> exists i :: 0 <= i < |calls| && Final(calls[i].out)
  {
    if calls != [] {
      EndedMeaning(calls[1..]);
      if Ended(calls[1..]) {
        var i :| 0 <= i < |calls| - 1 && Final(calls[1..][i].out);
        assert Final(calls[i + 1].out);
      }
      forall i | 0 <= i < |calls| && Final(calls[i].out) ensures Ended(calls) {
        if i > 0 { assert Final(calls[1..][i - 1].out); }
      }
    }
  }

  lemma {:induction false} ShowEventsJoin(a: seq<Event>, b: seq<Event>)
    ensures ShowEvents(a + b) == ShowEvents(a) + ShowEvents(b)
  {
    if a == [] {
      assert a + b == b;
    } else {
      ShowEventsJoin(a[1..], b);
      assert (a + b)[1..] == a[1..] + b && (a + b)[0] == a[0];
      ShownRegroup(ShowEvent(a[0]), ShowEvents(a[1..]), ShowEvents(b));
    }
  }

  lemma {:induction false} PingsAreNotShown(pings: seq<Event>)
    requires AllPings(pings)
    ensures ShowEvents(pings) == []
  {
    if pings != [] {
      assert pings[0] in pings && AllPings(pings[1..]);
      PingsAreNotShown(pings[1..]);
    }
  }

  lemma OneIsShown(e: Event)
    requires !e.Ping?
    ensures ShowEvents([e]) == [e]
  {
    assert [e][1..] == [];
  }

  function Coming(max: nat, v: View): seq<Event> { ShowEvents(Decode(max, v.st, v.pending)) }

  // One call takes its result off the front of what was to be shown.
  lemma OneCall(max: nat, v: View, c: Call, w: View)
    requires Made(max, v, c, w)
    ensures !Final(c.out) ==> Coming(max, v) == ShowCall(c) + Coming(max, w)
    ensures Final(c.out) ==> Coming(max, v) == ShowCall(c) && |ShowCall(c)| == 1
  {
    var after := Decode(max, w.st, w.pending);
    PingsAreNotShown(c.pings);
    match c.out
    case Delivered(d) =>
      hide ShowEvents, Decode, AllPings;
      MessageShown(c.pings, d, after);
    case Stopped(CLOSED) =>
      hide ShowEvents, Decode, AllPings;
      EndShown(c.pings, Closed(w.st.closed.value));
    case Stopped(PROTOCOL) =>
      hide ShowEvents, Decode, AllPings;
      var e :| Decode(max, v.st, v.pending) == c.pings + [Violation(e)] && after == [Violation(e)];
      EndShown(c.pings, Violation(e));
    case Stopped(_) =>
      hide ShowEvents, Decode, AllPings;
      ShowEventsJoin(c.pings, after);
  }

  lemma MessageShown(pings: seq<Event>, d: seq<byte>, after: seq<Event>)
    requires ShowEvents(pings) == []
    ensures ShowEvents(pings + [Message(d)] + after) == [Message(d)] + ShowEvents(after)
  {
    hide ShowEvents;
    ShowEventsJoin(pings + [Message(d)], after);
    ShowEventsJoin(pings, [Message(d)]);
    OneIsShown(Message(d));
  }

  lemma EndShown(pings: seq<Event>, e: Event)
    requires ShowEvents(pings) == [] && !e.Ping?
    ensures ShowEvents(pings + [e]) == [e]
  {
    hide ShowEvents;
    ShowEventsJoin(pings, [e]);
    OneIsShown(e);
  }

  lemma TailIsRun(max: nat, views: seq<View>, calls: seq<Call>)
    requires IsRun(max, views, calls) && calls != []
    ensures IsRun(max, views[1..], calls[1..])
  {
    forall i | 0 <= i < |calls| - 1 ensures StepAt(max, views[1..], calls[1..], i) {
      assert StepAt(max, views, calls, i + 1);
    }
  }

  lemma ShownRegroup(a: seq<Event>, b: seq<Event>, c: seq<Event>)
    ensures a + (b + c) == (a + b) + c
  {}

  // The results of any run, timeouts dropped, are those of the decoder on the
  // whole stream, as far as the run has got.
  lemma {:induction false} RunRefinesDecoder(max: nat, views: seq<View>, calls: seq<Call>)
    requires IsRun(max, views, calls)
    ensures Coming(max, views[0]) == Show(calls) + if Ended(calls) then [] else Coming(max, views[|calls|])
    decreases |calls|
  {
    if calls != [] {
      assert StepAt(max, views, calls, 0);
      OneCall(max, views[0], calls[0], views[1]);
      if !Final(calls[0].out) {
        TailIsRun(max, views, calls);
        RunRefinesDecoder(max, views[1..], calls[1..]);
        ShownRegroup(ShowCall(calls[0]), Show(calls[1..]),
                     if Ended(calls) then [] else Coming(max, views[|calls|]));
      }
    }
  }

  // The state after a close, or after a violation.
  ghost predicate AtEnd(max: nat, v: View, end: Call) {
    if end.out == Stopped(CLOSED) then v.st.closed.Some? && end.end == [Closed(v.st.closed.value)]
    else Coming(max, v) == end.end && |end.end| == 1 && end.end[0].Violation?
  }

  lemma EndReached(max: nat, v: View, c: Call, w: View)
    requires Made(max, v, c, w) && Final(c.out)
    ensures AtEnd(max, w, c)
  {
    if c.out == Stopped(PROTOCOL) {
      var e :| Decode(max, w.st, w.pending) == [Violation(e)];
      OneIsShown(Violation(e));
    }
  }

  // A later call reports the same end or nothing, and leaves the end in place.
  lemma EndStays(max: nat, v: View, end: Call, c: Call, w: View)
    requires Final(end.out) && AtEnd(max, v, end) && Made(max, v, c, w)
    ensures AtEnd(max, w, end)
    ensures end.out == Stopped(CLOSED) ==> c == Call([], Stopped(CLOSED), end.end)
    ensures ShowCall(c) == [] || (c.out == end.out && c.end == end.end)
  {
    if end.out == Stopped(PROTOCOL) {
      OneCall(max, v, c, w);
      assert Coming(max, v)[0].Violation?;
      if Final(c.out) { EndReached(max, v, c, w); }
    }
  }

  lemma {:induction false} EndHolds(max: nat, views: seq<View>, calls: seq<Call>, i: nat, j: nat)
    requires IsRun(max, views, calls) && i < j < |views| && Final(calls[i].out)
    ensures AtEnd(max, views[j], calls[i])
    decreases j
  {
    hide Receives, EndOf, AtEnd;
    assert StepAt(max, views, calls, j - 1);
    if i == j - 1 {
      EndReached(max, views[i], calls[i], views[j]);
    } else {
      EndHolds(max, views, calls, i, j - 1);
      EndStays(max, views[j - 1], calls[i], calls[j - 1], views[j]);
    }
  }

  // Once the end is reached, every later call reports it, with the same code and reason, or
  // reports nothing.
  lemma EndIsSticky(max: nat, views: seq<View>, calls: seq<Call>, i: nat, j: nat)
    requires IsRun(max, views, calls) && i < j < |calls| && Final(calls[i].out)
    ensures calls[i].out == Stopped(CLOSED) ==> calls[j] == Call([], Stopped(CLOSED), calls[i].end)
    ensures ShowCall(calls[j]) == [] || (calls[j].out == calls[i].out && calls[j].end == calls[i].end)
  {
    hide Receives, EndOf, AtEnd, ShowCall;
    EndHolds(max, views, calls, i, j);
    assert StepAt(max, views, calls, j);
    EndStays(max, views[j], calls[i], calls[j], views[j + 1]);
  }

  // From a fresh connection on which the server sends exactly the frames fs.
  lemma RunOnServerFrames(max: nat, fs: seq<ServerFrame>, views: seq<View>, calls: seq<Call>)
    requires forall f :: f in fs ==> f.Valid()
    requires IsRun(max, views, calls) && views[0] == View(IDLE, ServerStream(fs))
    ensures Show(calls) <= ShowEvents(Interpret(max, IDLE, fs))
    ensures Ended(calls) ==> Show(calls) == ShowEvents(Interpret(max, IDLE, fs))
  {
    DecodeServerStream(max, IDLE, fs);
    RunRefinesDecoder(max, views, calls);
  }

  lemma RunExtends(max: nat, views: seq<View>, calls: seq<Call>, c: Call, w: View)
    requires IsRun(max, views, calls) && Made(max, views[|calls|], c, w)
    ensures IsRun(max, views + [w], calls + [c])
  {
    forall i | 0 <= i < |calls| + 1 ensures StepAt(max, views + [w], calls + [c], i) {
      if i < |calls| { assert StepAt(max, views, calls, i); }
    }
  }

  // What an application does with a client before it receives again.
  datatype Action = SendText(data: seq<byte>) | SendBinary(data: seq<byte>) | SendClose

  // Any number of sends and closes leave the receiving side alone.
  method Act(c: Client, actions: seq<Action>)
    requires c.BuffersValid() && c.SendValid()
    modifies c.net`wire, c.net`faults, c`closeSent, c`sent, c`torn
    ensures c.BuffersValid() && c.SendValid()
    ensures c.Snap().AsView() == old(c.Snap()).AsView() && c.net.faults >= old(c.net.faults)
  {
    hide Client.SendValid, Decode;
    for i := 0 to |actions|
      invariant c.BuffersValid() && c.SendValid()
      invariant c.Snap().AsView() == old(c.Snap()).AsView() && c.net.faults >= old(c.net.faults)
    {
      ghost var frame;
      var status;
      match actions[i]
      case SendText(data) => status, frame := c.SendData(1, data);
      case SendBinary(data) => status, frame := c.SendData(2, data);
      case SendClose => c.Close();
    }
  }

  method UseOnce(c: Client, actions: seq<Action>) returns (ghost call: Call)
    requires c.BuffersValid() && c.SendValid()
    modifies c, c.net, c.rxBuf, c.fragBuf
    ensures c.BuffersValid() && c.SendValid()
    ensures c.rxBuf == old(c.rxBuf) || fresh(c.rxBuf)
    ensures c.fragBuf == old(c.fragBuf) || fresh(c.fragBuf)
    ensures Made(c.max, old(c.Snap()).AsView(), call, c.Snap().AsView())
    ensures c.net.faults == old(c.net.faults) && call.out.Stopped? ==> call.out.status in {CLOSED, PROTOCOL, NOMEM}
  {
    Act(c, actions);
    var out;
    ghost var a;
    out, a := c.Recv();
    call := Call(a.pings + a.dropped, out, EndOf(c.max, out, c.Snap().AsView()));
  }

  // Any use of a client is a run: a receive after each list of actions.
  method UseClient(c: Client, rounds: seq<seq<Action>>) returns (ghost views: seq<View>, ghost calls: seq<Call>)
    requires c.BuffersValid() && c.SendValid()
    modifies c, c.net, c.rxBuf, c.fragBuf
    ensures c.BuffersValid() && c.SendValid()
    ensures |calls| == |rounds| && IsRun(c.max, views, calls)
    ensures views[0] == old(c.Snap()).AsView() && views[|rounds|] == c.Snap().AsView()
  {
    views, calls := [c.Snap().AsView()], [];
    for i := 0 to |rounds|
      invariant c.BuffersValid() && c.SendValid()
      invariant c.rxBuf == old(c.rxBuf) || fresh(c.rxBuf)
      invariant c.fragBuf == old(c.fragBuf) || fresh(c.fragBuf)
      invariant |calls| == i && IsRun(c.max, views, calls)
      invariant views[0] == old(c.Snap()).AsView() && views[i] == c.Snap().AsView()
    {
      ghost var call := UseOnce(c, rounds[i]);
      RunExtends(c.max, views, calls, call, c.Snap().AsView());
      calls, views := calls + [call], views + [c.Snap().AsView()];
    }
  }

  // ----- from the handshake on

  lemma {:induction false} HeaderEndStays(s: seq<byte>, t: seq<byte>, i: nat)
    requires HeaderEndFrom(s, i).Some?
    ensures HeaderEndFrom(s + t, i) == HeaderEndFrom(s, i)
    decreases |s| - i
  {
    if !BlankLine(s, i) { HeaderEndStays(s, t, i + 1); }
  }

  lemma AfterHeaders(rx: seq<byte>, tail: seq<byte>, end: nat)
    requires HeaderEnd(rx) == Some(end)
    ensures HeaderEnd(rx + tail) == Some(end) && (rx + tail)[end..] == rx[end..] + tail
  {
    HeaderEndStays(rx, tail, 0);
  }

  // The response headers are read and, if they are accepted, taken off: what is to be
  // received begins right after them.
  method Handshake(c: Client) returns (status: Status)
    requires c.BuffersValid() && c.SendValid()
    modifies c`rxBuf, c`rxLen, c.rxBuf, c.net`incoming, c.net`faults
    ensures c.BuffersValid() && c.SendValid() && (c.rxBuf == old(c.rxBuf) || fresh(c.rxBuf))
    ensures c.Snap().st == old(c.Snap()).st
    ensures status != OK ==> c.Pending() == old(c.Pending())
    ensures status == OK ==> HeaderEnd(old(c.Pending())).Some?
    ensures status == OK ==> c.Snap().AsView().pending == old(c.Pending())[HeaderEnd(old(c.Pending())).value..]
  {
    hide RxCapacity, RxBound, TraceOk, HasClose, SentWithin, HeaderEndFrom;
    var end;
    status, end := c.AwaitHeaders();
    if status != OK { return; }
    ghost var rx := c.Rx();
    AfterHeaders(rx, c.net.incoming, end);
    hide HeaderEnd;
    if * { return PROTOCOL; }   // a header is missing or wrong
    c.ConsumeRx(end);
    assert c.Rx() == rx[end..];
  }

  // From a fresh client on: if the server sends its headers and then the frames fs, then any
  // use shows a beginning of their interpretation, and all of it once the end is reached.
  method ConnectAndUse(c: Client, headers: seq<byte>, ghost fs: seq<ServerFrame>, rounds: seq<seq<Action>>)
      returns (status: Status, ghost calls: seq<Call>)
    requires c.BuffersValid() && c.SendValid() && c.Snap().st == IDLE
    requires c.Pending() == headers + ServerStream(fs) && HeaderEnd(headers) == Some(|headers|)
    requires forall f :: f in fs ==> f.Valid()
    modifies c, c.net, c.rxBuf, c.fragBuf
    ensures status == OK ==> |calls| == |rounds| && Show(calls) <= ShowEvents(Interpret(c.max, IDLE, fs))
    ensures status == OK && Ended(calls) ==> Show(calls) == ShowEvents(Interpret(c.max, IDLE, fs))
  {
    hide Client.SendValid, Decode, Interpret, ShowEvents, Show, Ended, ServerStream, HeaderEndFrom;
    calls := [];
    AfterHeaders(headers, ServerStream(fs), |headers|);
    assert headers[|headers|..] + ServerStream(fs) == ServerStream(fs);
    status := Handshake(c);
    if status != OK { return; }
    ghost var views;
    views, calls := UseClient(c, rounds);
    RunOnServerFrames(c.max, fs, views, calls);
  }

  lemma OneViolation()
    ensures Decode(1, IDLE, [0xF1, 0]) == [Violation(Some(PROTOCOL_ERROR))]
  {}

  lemma NothingWentOut(s0: Snapshot, out: Outcome, a: Account, s1: Snapshot)
    requires s0.st == IDLE && s0.rx + s0.tail == [0xF1, 0] && s0.sent == []
    requires Completed(1, s0, out, a, s1) && SentWithin(1, s1.sent)
    ensures s1.sent == [] && (out == Stopped(PROTOCOL) || s0.faults < s1.faults)
  {
    hide Decode, ReplyFits, Pongs, SentWithin, NextFrame, Receives;
    OneViolation();
    OnlyAViolation(1, s0.AsView(), Violation(Some(PROTOCOL_ERROR)), a.pings + a.dropped, out, s1.AsView());
    assert |a.pings + a.dropped| == |a.pings| + |a.dropped|;
    NoPongs();
    assert s1.sent == a.reply;
    CodeIsTwo(a.reply, s0.Events(1), out, s1.st);
    AtMostOne(a.reply);
  }

  lemma NoPongs()
    ensures Pongs([], []) == []
  {}

  // Where a violation is all there is to come, a receive returns it or nothing.
  lemma OnlyAViolation(max: nat, v: View, e: Event, pings: seq<Event>, out: Outcome, w: View)
    requires v.st.closed.None? && Decode(max, v.st, v.pending) == [e] && e.Violation?
    requires Receives(max, v, pings, out, w)
    ensures pings == [] && out != Stopped(CLOSED) && !out.Delivered?
  {
    hide Decode;
    assert e in [e] && pings <= [e];
    assert |[e]| == 1 && [e][0] == e;
  }

  function FirstPayload(reply: seq<SentFrame>): seq<byte> { if reply == [] then [] else reply[0].payload }

  lemma CodeIsTwo(reply: seq<SentFrame>, events: seq<Event>, out: Outcome, st: State)
    requires ReplyFits(reply, events, out, st) && out != Stopped(CLOSED)
    ensures reply != [] ==> |FirstPayload(reply)| == 2
  {
    if reply != [] { assert reply[0] in reply; }
  }

  lemma AtMostOne(reply: seq<SentFrame>)
    requires SentWithin(1, reply)
    ensures |FirstPayload(reply)| <= 1
  {
    if reply != [] { assert reply[0] in reply; }
  }

  // With a limit of one octet a frame with a reserved bit is a violation, and the close
  // code for it does not go out.
  method NoCodeBelowTwo() returns (c: Client, out: Outcome)
    ensures c.max == 1 && c.sent == []
    ensures out == Stopped(PROTOCOL) || c.net.faults > 0
  {
    var net := new Transport([0xF1, 0]);
    c := new Client(net, 1);
    ghost var s0 := c.Snap();
    assert s0.rx + s0.tail == [0xF1, 0];
    ghost var a;
    out, a := c.Recv();
    NothingWentOut(s0, out, a, c.Snap());
  }

  // ----- delivered messages are within the limit

  ghost predicate Within(max: nat, es: seq<Event>) {
    forall e :: e in es && e.Message? ==> |e.data| <= max
  }

  lemma {:induction false} MessagesAreBounded(max: nat, st: State, s: seq<byte>)
    requires |st.fragment| <= max
    ensures Within(max, Decode(max, st, s))
    decreases |s|
  {
    if st.closed.None? && NextFrame(max, s).Got? {
      var Got(f, n) := NextFrame(max, s);
      var v := Handle(max, st, f);
      if v.Accept? && v.next.closed.None? { MessagesAreBounded(max, v.next, s[n..]); }
    }
  }

  lemma DeliveredIsBounded(max: nat, v: View, c: Call, w: View)
    requires |v.st.fragment| <= max && Made(max, v, c, w) && c.out.Delivered?
    ensures |c.out.data| <= max
  {
    MessagesAreBounded(max, v.st, v.pending);
    var events := Decode(max, v.st, v.pending);
    assert events[|c.pings|] == Message(c.out.data);
  }
}
