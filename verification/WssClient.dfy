// The client: a growable receive buffer, a reassembly buffer, close flags and
// the frame writer, all updated in place, proved against WssDecoder and WssFrames.
module WssClient {
  import opened Wrappers
  import opened WssBytes
  import opened WssFrames
  import opened WssDecoder
  import opened WssTransport

  datatype Status = OK | TIMEOUT | CLOSED | DISCONNECTED | NOMEM | IO | PROTOCOL

  const READ_CHUNK: nat := 1024
  const MAX_HEADERS: nat := 8192
  const FIRST_CAPACITY: nat := 2048
  const HALF: nat := SIZE_MAX / 2

  function Max(a: nat, b: nat): nat { if a < b then b else a }

  // The most the receive buffer ever holds.
  function RxBound(max: nat): nat { Max(MAX_HEADERS, max + 9) + READ_CHUNK }

  // Capacities reached by doubling: none exceeds 2^31, so adding a read chunk to
  // a buffered length does not wrap.
  ghost predicate RxCapacity(c: nat) {
    c == 0 || exists k: nat :: k <= 20 && c == FIRST_CAPACITY * Pow2(k)
  }

  lemma {:induction false} Pow2Monotone(i: nat, j: nat)
    requires i <= j
    ensures Pow2(i) <= Pow2(j)
    decreases j
  {
    if i < j { Pow2Monotone(i, j - 1); }
  }

  lemma Pow2Of20()
    ensures Pow2(20) == 0x10_0000
  {
    assert Pow2(5) == 32; assert Pow2(10) == 1024; assert Pow2(15) == 32768;
  }

  lemma RxCapacityBound(c: nat)
    requires RxCapacity(c)
    ensures c <= HALF + 1
    ensures c <= HALF ==> RxCapacity(2 * c)
  {
    Pow2Of20();
    if c != 0 {
      var k: nat :| k <= 20 && c == FIRST_CAPACITY * Pow2(k);
      Pow2Monotone(k, 20);
      if k < 20 { assert 2 * c == FIRST_CAPACITY * Pow2(k + 1); }
    }
  }

  // ----- what a trace of sent frames must look like (section 5.5)

  ghost predicate HasClose(sent: seq<SentFrame>) {
    sent != [] && (sent[|sent| - 1].opcode == 8 || HasClose(sent[..|sent| - 1]))
  }

  ghost predicate TraceOk(sent: seq<SentFrame>) {
    sent == [] ||
    var before, f := sent[..|sent| - 1], sent[|sent| - 1];
    && TraceOk(before)
    && f.Valid() && f.opcode < 16
    && (f.opcode >= 8 ==> |f.payload| <= 125)
    && (f.opcode == 1 || f.opcode == 2 ==> !HasClose(before))
  }

  // No frame carries more than the limit allows.
  ghost predicate SentWithin(max: nat, sent: seq<SentFrame>) { forall f :: f in sent ==> |f.payload| <= max }

  lemma {:induction false} HasCloseAt(sent: seq<SentFrame>, i: nat)
    requires i < |sent| && sent[i].opcode == 8
    ensures HasClose(sent)
  {
    if i < |sent| - 1 { HasCloseAt(sent[..|sent| - 1], i); }
  }

  // In a good trace control frames are short and no message follows a close.
  lemma {:induction false} TraceMeaning(sent: seq<SentFrame>, i: nat, j: nat)
    requires TraceOk(sent) && i <= j < |sent|
    ensures sent[j].opcode >= 8 ==> |sent[j].payload| <= 125
    ensures i < j && sent[i].opcode == 8 ==> sent[j].opcode != 1 && sent[j].opcode != 2
  {
    var before := sent[..|sent| - 1];
    if j < |sent| - 1 {
      TraceMeaning(before, i, j);
    } else if i < j && sent[i].opcode == 8 {
      HasCloseAt(before, i);
    }
  }

  function Pongs(pings: seq<Event>, keys: seq<Key>): seq<SentFrame>
    requires |pings| == |keys| && forall e :: e in pings ==> e.Ping?
  {
    seq(|pings|, i requires 0 <= i < |pings| => SentFrame(10, keys[i], pings[i].data))
  }

  // ----- what one receive may do, on the abstract state

  // st is the reassembly state, pending what is buffered or still to come.
  datatype View = View(st: State, pending: seq<byte>)

  datatype Outcome = Delivered(data: seq<byte>) | Stopped(status: Status)

  ghost predicate AllPings(es: seq<Event>) { forall e :: e in es ==> e.Ping? }

  // The decoder's account of a receive that went from v to w: it took in some
  // pings, then produced out. TIMEOUT, DISCONNECTED, IO and NOMEM produce
  // nothing, so the events still to come are the same as before.
  ghost predicate Receives(max: nat, v: View, pings: seq<Event>, out: Outcome, w: View) {
    var before, after := Decode(max, v.st, v.pending), Decode(max, w.st, w.pending);
    && AllPings(pings)
    && (v.st.closed.Some? ==> out == Stopped(CLOSED) && w == v && pings == [])
    && match out
       case Delivered(d) => before == pings + [Message(d)] + after
       case Stopped(CLOSED) => w.st.closed.Some? && before == pings + [Closed(w.st.closed.value)]
       case Stopped(PROTOCOL) => exists c :: before == pings + [Violation(c)] && after == [Violation(c)]
       case Stopped(_) => out.status != OK && before == pings + after
  }

  // What a receive wrote: a pong for each ping but a dropped one, then perhaps a
  // close frame.
  datatype Account = Account(pings: seq<Event>, keys: seq<Key>, dropped: seq<Event>, reply: seq<SentFrame>)

  const NOTHING := Account([], [], [], [])

  ghost predicate Accounts(a: Account, before: seq<SentFrame>, after: seq<SentFrame>) {
    && AllPings(a.pings) && |a.keys| == |a.pings|
    && AllPings(a.dropped) && |a.dropped| <= 1
    && |a.reply| <= 1
    && after == before + Pongs(a.pings, a.keys) + a.reply
  }

  // A close frame is written only to echo a close or to answer a violation.
  ghost predicate ReplyFits(reply: seq<SentFrame>, events: seq<Event>, out: Outcome, st: State) {
    forall r :: r in reply ==>
      && r.opcode == 8 && events != []
      && match out
         case Stopped(CLOSED) => st.closed == Some(CloseInfoOf(r.payload))
         case Stopped(PROTOCOL) =>
           var last := events[|events| - 1];
           last.Violation? && last.code.Some? && r.payload == BigEndian(last.code.value, 2)
         case _ => false
  }

  lemma ReceivesMore(max: nat, v: View, pings: seq<Event>, u: View, more: seq<Event>, out: Outcome, w: View)
    requires v.st.closed.None? && AllPings(pings)
    requires Decode(max, v.st, v.pending) == pings + Decode(max, u.st, u.pending)
    requires Receives(max, u, more, out, w)
    ensures Receives(max, v, pings + more, out, w)
  {
    var after := Decode(max, w.st, w.pending);
    match out
    case Delivered(d) => WssDecoder.Regroup(pings, more, [Message(d)], after);
    case Stopped(CLOSED) => Reassociate(pings, more, [Closed(w.st.closed.value)]);
    case Stopped(PROTOCOL) =>
      var c :| Decode(max, u.st, u.pending) == more + [Violation(c)] && after == [Violation(c)];
      Reassociate(pings, more, [Violation(c)]);
    case Stopped(_) => Reassociate(pings, more, after);
  }

  lemma Reassociate(a: seq<Event>, b: seq<Event>, c: seq<Event>)
    ensures a + (b + c) == (a + b) + c
  {}

  lemma DecodeFront(max: nat, st: State, rx: seq<byte>, tail: seq<byte>)
    requires st.closed.None?
    ensures NextFrame(max, rx).Bad? ==> Decode(max, st, rx + tail) == [NextFrame(max, rx).event]
    ensures NextFrame(max, rx).Got? ==>
      var Got(f, n) := NextFrame(max, rx);
      var v := Handle(max, st, f);
      && (v.Reject? ==> Decode(max, st, rx + tail) == [v.event])
      && (v.Accept? ==> (Decode(max, st, rx + tail)
                         == v.events + if v.next.closed.Some? then [] else Decode(max, v.next, rx[n..] + tail)))
  {
    NextFrameOfPrefix(max, rx, tail);
    if NextFrame(max, rx).Got? {
      var n := NextFrame(max, rx).size;
      assert (rx + tail)[n..] == rx[n..] + tail;
    }
  }

  datatype Received = Stop(status: Status) | Fault(event: Event) | Have(fin: bool, opcode: Opcode, at: nat, len: nat)

  // What handling one buffered frame led to.
  datatype Handled = Next | Deliver(data: seq<byte>) | Refuse(code: nat) | Fail(status: Status)

  // Handling frame f, the first size octets of rx0, against the decoder's Handle.
  ghost predicate HandlesAs(max: nat, f: ServerFrame, size: nat, h: Handled,
                            st0: State, rx0: seq<byte>, st1: State, rx1: seq<byte>) {
    match h
    case Next => size <= |rx0| && rx1 == rx0[size..] && Handle(max, st0, f) == Accept([], st1)
    case Deliver(d) => size <= |rx0| && rx1 == rx0[size..] && Handle(max, st0, f) == Accept([Message(d)], st1)
    case Refuse(c) => st1 == st0 && rx1 == rx0 && Handle(max, st0, f) == Reject(Violation(Some(c)))
    case Fail(_) => st1 == st0 && rx1 == rx0
  }

  // The parts of the client that a turn of the receive loop is about.
  datatype Snapshot = Snapshot(
    st: State, rx: seq<byte>, tail: seq<byte>, sent: seq<SentFrame>, closeSent: bool, faults: nat)
  {
    ghost function AsView(): View { View(st, rx + tail) }

    ghost function Events(max: nat): seq<Event> { Decode(max, st, rx + tail) }
  }

  datatype Turn = Again | Done(out: Outcome)

  // The receive ended for want of octets: not for want of memory, nor because
  // a pong could not be written.
  ghost predicate Starved(out: Outcome, a: Account) {
    out.Stopped? && out.status in {TIMEOUT, DISCONNECTED, IO} && a.dropped == []
  }

  // Unless the connection failed meanwhile, a receive ends with a message, a close
  // or a violation (or for lack of memory, with a limit of more than half the
  // address space), every ping was answered, a close was echoed unless one had been
  // sent, and a violation that has a close code was answered with it.
  ghost predicate Answered(max: nat, s0: Snapshot, out: Outcome, a: Account, s1: Snapshot) {
    && s0.faults <= s1.faults
    && (out == Stopped(NOMEM) ==> HALF < RxBound(max))
    && (s0.faults == s1.faults ==>
         && a.dropped == []
         && (out.Stopped? ==> out.status in {CLOSED, PROTOCOL, NOMEM})
         && (out == Stopped(CLOSED) ==> s0.closeSent || a.reply != [])
         && (out == Stopped(PROTOCOL) && max >= 2 && Coded(s1.Events(max)) ==> a.reply != []))
  }

  ghost predicate Coded(es: seq<Event>) { es != [] && es[0].Violation? && es[0].code.Some? }

  // A turn either moves on past one frame or ends the receive.
  ghost predicate Turned(max: nat, s0: Snapshot, t: Turn, a: Account, s1: Snapshot) {
    && Accounts(a, s0.sent, s1.sent)
    && match t
       case Again =>
         && a.dropped == [] && a.reply == [] && s1.st.closed.None? && s1.closeSent == s0.closeSent
         && s0.faults <= s1.faults
         && |s1.rx + s1.tail| < |s0.rx + s0.tail|
         && s0.Events(max) == a.pings + s1.Events(max)
       case Done(out) =>
         && a.pings == []
         && Receives(max, s0.AsView(), a.dropped, out, s1.AsView())
         && ReplyFits(a.reply, s0.Events(max), out, s1.st)
         && Answered(max, s0, out, a, s1)
         && (Starved(out, a) ==> NextFrame(max, s1.rx) == NeedMore)
  }

  function TurnOf(h: Handled): Turn {
    match h
    case Next => Again
    case Deliver(d) => Done(Delivered(d))
    case Refuse(_) => Done(Stopped(PROTOCOL))
    case Fail(status) => Done(Stopped(status))
  }

  // A message frame was handled; reply is what went out because of it.
  lemma TurnedByMessage(
      max: nat, f: ServerFrame, size: nat, h: Handled, s0: Snapshot, reply: seq<SentFrame>, s1: Snapshot)
    requires NextFrame(max, s0.rx) == Got(f, size) && s0.st.closed.None? && s1.tail == s0.tail
    requires HandlesAs(max, f, size, h, s0.st, s0.rx, s1.st, s1.rx)
    requires h.Fail? ==> h.status == NOMEM && HALF < max
    requires s0.faults <= s1.faults && (h.Refuse? && max >= 2 && s0.faults == s1.faults ==> reply != [])
    requires s1.sent == s0.sent + reply && |reply| <= 1
    requires !h.Refuse? ==> reply == [] && s1.closeSent == s0.closeSent
    requires h.Refuse? ==> forall r :: r in reply ==> r.opcode == 8 && r.payload == BigEndian(h.code, 2)
    ensures Turned(max, s0, TurnOf(h), Account([], [], [], reply), s1)
  {
    AccountsReply(s0.sent, reply);
    match h
    case Next => HandledOn(max, f, size, [], s0, s1);
    case Deliver(d) => HandledOn(max, f, size, [Message(d)], s0, s1);
    case Refuse(c) => Refused(max, f, size, Violation(Some(c)), s0, s1);
    case Fail(_) => assert s0.Events(max) == [] + s1.Events(max);
  }

  lemma HandledOn(max: nat, f: ServerFrame, size: nat, events: seq<Event>, s0: Snapshot, s1: Snapshot)
    requires NextFrame(max, s0.rx) == Got(f, size) && s0.st.closed.None? && s1.tail == s0.tail
    requires Handle(max, s0.st, f) == Accept(events, s1.st) && s1.rx == s0.rx[size..] && s1.st.closed.None?
    ensures s0.Events(max) == events + s1.Events(max) == [] + events + s1.Events(max)
  {
    DecodeFront(max, s0.st, s0.rx, s0.tail);
    assert [] + events == events;
  }

  lemma Refused(max: nat, f: ServerFrame, size: nat, e: Event, s0: Snapshot, s1: Snapshot)
    requires NextFrame(max, s0.rx) == Got(f, size) && s0.st.closed.None? && s1.tail == s0.tail
    requires Handle(max, s0.st, f) == Reject(e) && s1.rx == s0.rx && s1.st == s0.st
    ensures s0.Events(max) == s1.Events(max) == [e] == [] + [e]
  {
    DecodeFront(max, s0.st, s0.rx, s0.tail);
  }

  lemma TurnedByViolation(max: nat, event: Event, s0: Snapshot, reply: seq<SentFrame>, s1: Snapshot)
    requires s0.st.closed.None? && s1.st == s0.st && s1.rx == s0.rx && s1.tail == s0.tail
    requires s0.faults <= s1.faults
    requires event.Violation? && event.code.Some? && max >= 2 && s0.faults == s1.faults ==> reply != []
    requires event.Violation? && s0.Events(max) == [event]
    requires s1.sent == s0.sent + reply && |reply| <= 1
    requires forall r :: r in reply ==>
      r.opcode == 8 && event.code.Some? && r.payload == BigEndian(event.code.value, 2)
    ensures Turned(max, s0, Done(Stopped(PROTOCOL)), Account([], [], [], reply), s1)
  {
    AccountsReply(s0.sent, reply);
    assert s0.Events(max) == [] + [Violation(event.code)];
  }

  lemma TurnedByStop(max: nat, status: Status, s0: Snapshot, s1: Snapshot)
    requires s0.st.closed.None? && s1.st == s0.st && s1.rx + s1.tail == s0.rx + s0.tail && s1.sent == s0.sent
    requires NextFrame(max, s1.rx) == NeedMore
    requires status != OK && status != PROTOCOL && status != CLOSED
    requires status == NOMEM ==> HALF < RxBound(max)
    requires s0.faults <= s1.faults && (status != NOMEM ==> s0.faults < s1.faults)
    ensures Turned(max, s0, Done(Stopped(status)), NOTHING, s1)
  {
    AccountsReply(s0.sent, []);
    assert s0.Events(max) == [] + s1.Events(max);
  }

  lemma TurnedByClose(max: nat, f: ServerFrame, size: nat, s0: Snapshot, reply: seq<SentFrame>, s1: Snapshot)
    requires NextFrame(max, s0.rx) == Got(f, size) && f.opcode == 8 && s0.st.closed.None?
    requires s1.st == State(0, [], Some(CloseInfoOf(f.payload)))
    requires s1.sent == s0.sent + reply && |reply| <= 1
    requires s0.faults <= s1.faults && (!s0.closeSent && s0.faults == s1.faults ==> reply != [])
    requires forall r :: r in reply ==> r.opcode == 8 && r.payload == f.payload
    ensures Turned(max, s0, Done(Stopped(CLOSED)), Account([], [], [], reply), s1)
  {
    AccountsReply(s0.sent, reply);
    DecodeFront(max, s0.st, s0.rx, s0.tail);
    assert s0.Events(max) == [] + [Closed(CloseInfoOf(f.payload))];
  }

  lemma TurnedByPing(max: nat, f: ServerFrame, size: nat, s0: Snapshot, status: Status, frame: SentFrame, s1: Snapshot)
    requires NextFrame(max, s0.rx) == Got(f, size) && f.opcode == 9 && s0.st.closed.None? && s1.tail == s0.tail
    requires s1.st == s0.st && s1.rx == s0.rx[size..] && s1.closeSent == s0.closeSent
    requires frame.opcode == 10 && frame.payload == f.payload
    requires s1.sent == if status == OK then s0.sent + [frame] else s0.sent
    requires status != PROTOCOL && status != CLOSED && status != NOMEM
    requires s0.faults <= s1.faults && (status != OK ==> s0.faults < s1.faults)
    ensures status == OK ==> Turned(max, s0, Again, Account([Ping(f.payload)], [frame.key], [], []), s1)
    ensures status != OK ==> Turned(max, s0, Done(Stopped(status)), Account([], [], [Ping(f.payload)], []), s1)
  {
    HandledOn(max, f, size, [Ping(f.payload)], s0, s1);
    if status == OK {
      assert frame == SentFrame(10, frame.key, f.payload);
      AccountsPong(s0.sent, f.payload, frame.key);
    } else {
      assert s0.sent + [] + [] == s0.sent;
    }
  }

  lemma TurnedByPong(max: nat, f: ServerFrame, size: nat, s0: Snapshot, s1: Snapshot)
    requires NextFrame(max, s0.rx) == Got(f, size) && f.opcode == 10 && s0.st.closed.None? && s1.tail == s0.tail
    requires s1.st == s0.st && s1.rx == s0.rx[size..] && s1.closeSent == s0.closeSent && s1.sent == s0.sent
    requires s0.faults <= s1.faults
    ensures Turned(max, s0, Again, NOTHING, s1)
  {
    AccountsReply(s0.sent, []);
    HandledOn(max, f, size, [], s0, s1);
  }

  // What a whole call of Recv does.
  ghost predicate Completed(max: nat, s0: Snapshot, out: Outcome, a: Account, s1: Snapshot) {
    && Accounts(a, s0.sent, s1.sent)
    && Receives(max, s0.AsView(), a.pings + a.dropped, out, s1.AsView())
    && ReplyFits(a.reply, s0.Events(max), out, s1.st)
    && (Starved(out, a) ==> NextFrame(max, s1.rx) == NeedMore)
    && (if s0.st.closed.Some? then a == NOTHING && s1 == s0 else Answered(max, s0, out, a, s1))
  }

  // So far only pings, each answered.
  ghost predicate Pinged(max: nat, s0: Snapshot, a: Account, s1: Snapshot) {
    && Accounts(a, s0.sent, s1.sent) && a.dropped == [] && a.reply == []
    && s0.st.closed.None? && s1.st.closed.None?
    && s1.closeSent == s0.closeSent && s0.faults <= s1.faults
    && s0.Events(max) == a.pings + s1.Events(max)
  }

  function Join(a: Account, b: Account): Account {
    Account(a.pings + b.pings, a.keys + b.keys, a.dropped + b.dropped, a.reply + b.reply)
  }

  lemma PongsJoin(p: seq<Event>, k: seq<Key>, q: seq<Event>, l: seq<Key>)
    requires AllPings(p) && |k| == |p| && AllPings(q) && |l| == |q|
    ensures Pongs(p + q, k + l) == Pongs(p, k) + Pongs(q, l)
  {}

  lemma AccountsJoin(a: Account, b: Account, x: seq<SentFrame>, y: seq<SentFrame>, z: seq<SentFrame>)
    requires Accounts(a, x, y) && Accounts(b, y, z) && a.dropped == [] && a.reply == []
    ensures Accounts(Join(a, b), x, z)
  {
    PongsJoin(a.pings, a.keys, b.pings, b.keys);
    var p, q := Pongs(a.pings, a.keys), Pongs(b.pings, b.keys);
    assert x + p + [] + q + b.reply == x + (p + q) + b.reply;
    assert [] + b.reply == b.reply && [] + b.dropped == b.dropped;
  }

  lemma PingedStart(max: nat, s: Snapshot)
    requires s.st.closed.None?
    ensures Pinged(max, s, NOTHING, s)
  {
    AccountsReply(s.sent, []);
    assert [] + s.Events(max) == s.Events(max);
  }

  lemma PingedAgain(max: nat, s0: Snapshot, a: Account, s1: Snapshot, b: Account, s2: Snapshot)
    requires Pinged(max, s0, a, s1) && Turned(max, s1, Again, b, s2)
    ensures Pinged(max, s0, Join(a, b), s2)
  {
    AccountsJoin(a, b, s0.sent, s1.sent, s2.sent);
    Reassociate(a.pings, b.pings, s2.Events(max));
  }

  lemma PingedDone(max: nat, s0: Snapshot, a: Account, s1: Snapshot, out: Outcome, b: Account, s2: Snapshot)
    requires Pinged(max, s0, a, s1) && Turned(max, s1, Done(out), b, s2)
    ensures Completed(max, s0, out, Join(a, b), s2)
  {
    hide Decode, Receives, Pongs;
    AccountsJoin(a, b, s0.sent, s1.sent, s2.sent);
    ReceivesMore(max, s0.AsView(), a.pings, s1.AsView(), b.dropped, out, s2.AsView());
    assert a.pings + [] == a.pings && [] + b.dropped == b.dropped && [] + b.reply == b.reply;
    var events, more := s0.Events(max), s1.Events(max);
    assert more != [] ==> events[|events| - 1] == more[|more| - 1];
  }

  lemma AccountsReply(sent: seq<SentFrame>, reply: seq<SentFrame>)
    requires |reply| <= 1
    ensures Accounts(Account([], [], [], reply), sent, sent + reply)
  {
    assert sent + [] + reply == sent + reply;
  }

  lemma AccountsPong(sent: seq<SentFrame>, data: seq<byte>, key: Key)
    ensures Accounts(Account([Ping(data)], [key], [], []), sent, sent + [SentFrame(10, key, data)])
  {
    assert sent + [SentFrame(10, key, data)] + [] == sent + [SentFrame(10, key, data)];
    assert Pongs([Ping(data)], [key]) == [SentFrame(10, key, data)];
  }

  ghost predicate BlankLine(s: seq<byte>, i: nat) {
    i + 3 < |s| && s[i] == 13 && s[i + 1] == 10 && s[i + 2] == 13 && s[i + 3] == 10
  }

  ghost predicate BlankBefore(s: seq<byte>, end: nat) {
    4 <= end <= |s| && s[end - 4..end] == [13, 10, 13, 10]
  }

  lemma BlankIs(s: seq<byte>, end: nat)
    requires 4 <= end
    ensures BlankBefore(s, end) <==> BlankLine(s, end - 4)
  {
    if end <= |s| {
      var t := s[end - 4..end];
      assert t == [s[end - 4], s[end - 3], s[end - 2], s[end - 1]];
    }
  }

  // The end is that of the first CR LF CR LF.
  lemma HeaderEndExactly(s: seq<byte>, end: nat)
    ensures HeaderEnd(s) == Some(end) <==> BlankBefore(s, end) && forall e :: 0 <= e < end ==> !BlankBefore(s, e)
  {
    var r := HeaderEnd(s);
    forall e | 0 <= e < (if r.Some? then r.value else |s| + 1) ensures !BlankBefore(s, e) {
      if 4 <= e {
        BlankIs(s, e);
        assert r.Some? || e - 4 < |s|;
      }
    }
    if r.Some? { BlankIs(s, r.value); }
  }

  // Just past the first CR LF CR LF at or after i.
  ghost function HeaderEndFrom(s: seq<byte>, i: nat): (r: Option<nat>)
    ensures r.Some? ==> i + 4 <= r.value <= |s| && BlankLine(s, r.value - 4)
    ensures forall k :: i <= k < (if r.Some? then r.value - 4 else |s|) ==> !BlankLine(s, k)
    decreases |s| - i
  {
    if i + 3 >= |s| then None
    else if BlankLine(s, i) then Some(i + 4)
    else HeaderEndFrom(s, i + 1)
  }

  ghost function HeaderEnd(s: seq<byte>): Option<nat> { HeaderEndFrom(s, 0) }

  class Client {
    const net: Transport
    const max: nat            // max_message_bytes
    var rxBuf: array<byte>
    var rxLen: nat
    var fragBuf: array<byte>
    var fragLen: nat
    var fragOpcode: nat
    var closeSent: bool
    var closeReceived: bool
    var lastCloseCode: Option<nat>
    var lastCloseReason: seq<byte>
    ghost var hello: seq<byte>       // what went out before the first frame
    ghost var sent: seq<SentFrame>   // frames written in full
    ghost var torn: bool             // some frame was written only in part

    ghost predicate RxValid()
      reads this`rxBuf, this`rxLen, rxBuf
    {
      rxLen <= rxBuf.Length && rxLen <= RxBound(max) && RxCapacity(rxBuf.Length)
    }

    ghost predicate FragValid()
      reads this`fragBuf, this`fragLen, this`fragOpcode, this`closeReceived, fragBuf
    {
      && fragLen <= fragBuf.Length <= SIZE_MAX && fragLen <= max
      && (fragOpcode == 0 || fragOpcode == 1 || fragOpcode == 2)
      && (fragOpcode == 0 ==> fragLen == 0 && fragBuf.Length == 0)
      && (closeReceived ==> fragOpcode == 0)
    }

    ghost predicate SendValid()
      reads this`sent, this`closeSent, this`torn, this`hello, net`wire
    {
      && TraceOk(sent) && SentWithin(max, sent) && (HasClose(sent) ==> closeSent)
      && (!torn ==> net.wire == hello + ClientStream(sent))
    }

    ghost predicate BuffersValid()
      reads this`rxBuf, this`rxLen, rxBuf
      reads this`fragBuf, this`fragLen, this`fragOpcode, this`closeReceived, fragBuf
    {
      0 < max <= SIZE_MAX && rxBuf != fragBuf && RxValid() && FragValid()
    }

    ghost predicate Valid()
      reads this, net, rxBuf, fragBuf
    {
      BuffersValid() && SendValid()
    }

    ghost function Rx(): seq<byte>
      requires rxLen <= rxBuf.Length
      reads this`rxBuf, this`rxLen, rxBuf
    {
      rxBuf[..rxLen]
    }

    ghost function Fragment(): seq<byte>
      requires fragLen <= fragBuf.Length
      reads this`fragBuf, this`fragLen, fragBuf
    {
      fragBuf[..fragLen]
    }

    // What is buffered or still to come.
    ghost function Pending(): seq<byte>
      requires rxLen <= rxBuf.Length
      reads this`rxBuf, this`rxLen, rxBuf, net`incoming
    {
      Rx() + net.incoming
    }

    // The state of the pure decoder.
    ghost function Dec(): State
      requires fragLen <= fragBuf.Length
      reads this`fragBuf, this`fragLen, this`fragOpcode, fragBuf
      reads this`closeReceived, this`lastCloseCode, this`lastCloseReason
    {
      State(fragOpcode, Fragment(),
            if closeReceived then Some(CloseInfo(lastCloseCode, lastCloseReason)) else None)
    }

    constructor (net: Transport, maxMessageBytes: nat)
      requires maxMessageBytes <= SIZE_MAX
      ensures Valid() && this.net == net && fresh(rxBuf) && fresh(fragBuf)
      ensures max == if maxMessageBytes == 0 then 256 * 1024 else maxMessageBytes
      ensures Dec() == IDLE && Rx() == [] && sent == [] && !torn && hello == net.wire && !closeSent
    {
      this.net := net;
      max := if maxMessageBytes == 0 then 256 * 1024 else maxMessageBytes;
      rxBuf, rxLen := new byte[0], 0;
      fragBuf, fragLen, fragOpcode := new byte[0], 0, 0;
      closeSent, closeReceived := false, false;
      lastCloseCode, lastCloseReason := None, [];
      hello, sent, torn := net.wire, [], false;
    }

    // ----- receive buffer

    // A status other than OK has its cause: a fault of the connection, or a limit
    // so high that buffers would outgrow the address space.
    ghost predicate Excused(status: Status, faults: nat)
      reads net`faults
    {
      && (status == NOMEM ==> HALF < RxBound(max))
      && (status != OK && status != NOMEM ==> faults < net.faults)
    }

    method EnsureRxCapacity(needed: nat) returns (status: Status)
      requires RxValid() && RxCapacity(rxBuf.Length)
      modifies this`rxBuf
      ensures RxValid() && Rx() == old(Rx())
      ensures rxBuf == old(rxBuf) || fresh(rxBuf)
      ensures status == OK || status == NOMEM
      ensures status == OK ==> needed <= rxBuf.Length
      ensures status == NOMEM ==> HALF < needed && rxBuf == old(rxBuf)
    {
      if needed <= rxBuf.Length { return OK; }
      var cap := if rxBuf.Length == 0 then FIRST_CAPACITY else rxBuf.Length;
      assert RxCapacity(FIRST_CAPACITY) by { assert FIRST_CAPACITY == FIRST_CAPACITY * Pow2(0); }
      while cap < needed
        invariant rxBuf == old(rxBuf) && RxCapacity(cap) && rxLen <= cap && 0 < cap
      {
        if cap > HALF { return NOMEM; }
        RxCapacityBound(cap);
        cap := 2 * cap;
      }
      var buf := new byte[cap];
      CopyInto(rxBuf[..rxLen], buf, 0);
      rxBuf := buf;
      return OK;
    }

    // More than there is takes everything.
    method ConsumeRx(len: nat)
      requires RxValid()
      modifies this`rxLen, rxBuf
      ensures RxValid() && Rx() == if len < old(rxLen) then old(Rx())[len..] else []
    {
      if len == 0 { return; }
      if len >= rxLen {
        rxLen := 0;
        return;
      }
      MoveToFront(rxBuf, len, rxLen);
      rxLen := rxLen - len;
    }

    // One read. Whatever happens, no octet is lost, repeated or reordered.
    method FillRx() returns (status: Status)
      requires RxValid() && rxLen <= RxBound(max) - READ_CHUNK
      modifies this`rxBuf, this`rxLen, rxBuf, net`incoming, net`faults
      ensures RxValid() && (rxBuf == old(rxBuf) || fresh(rxBuf))
      ensures Pending() == old(Pending()) && old(Rx()) <= Rx()
      ensures status == OK ==> old(rxLen) < rxLen <= old(rxLen) + 1024
      ensures net.faults >= old(net.faults) && Excused(status, old(net.faults))
      ensures status != OK ==> Rx() == old(Rx()) && status != PROTOCOL && (status == CLOSED ==> closeReceived)
    {
      var late := net.Fails();
      if late { return TIMEOUT; }
      var refused := net.Fails();
      if refused { return IO; }
      status := EnsureRxCapacity(rxLen + READ_CHUNK);
      if status != OK { return; }
      var r := net.Read(rxBuf, rxLen, READ_CHUNK);
      match r
      case Moved(n) =>
        ghost var before, piece := old(Rx()), old(net.incoming)[..n];
        rxLen := rxLen + n;
        assert Rx() == before + piece;
        assert piece + net.incoming == old(net.incoming);
        return OK;
      case EndOfStream => return if closeReceived then CLOSED else DISCONNECTED;
      case WouldBlock => return TIMEOUT;
      case Broken => return DISCONNECTED;
    }

    method EnsureRxBytes(needed: nat) returns (status: Status)
      requires RxValid() && needed <= RxBound(max) - READ_CHUNK + 1
      modifies this`rxBuf, this`rxLen, rxBuf, net`incoming, net`faults
      ensures RxValid() && (rxBuf == old(rxBuf) || fresh(rxBuf))
      ensures Pending() == old(Pending()) && old(Rx()) <= Rx()
      ensures status == OK <==> needed <= rxLen
      ensures status != PROTOCOL && (status == CLOSED ==> closeReceived)
      ensures net.faults >= old(net.faults) && Excused(status, old(net.faults))
    {
      while rxLen < needed
        invariant RxValid() && (rxBuf == old(rxBuf) || fresh(rxBuf))
        invariant Pending() == old(Pending()) && old(Rx()) <= Rx()
        invariant net.faults >= old(net.faults)
      {
        status := FillRx();
        if status != OK { return; }
      }
      return OK;
    }

    // ----- reassembly buffer

    // PROTOCOL when the message would outgrow the limit; nothing changes then.
    method AppendFragment(payload: seq<byte>) returns (status: Status)
      requires fragLen <= fragBuf.Length <= SIZE_MAX && fragLen <= max <= SIZE_MAX
      modifies this`fragBuf, this`fragLen, fragBuf
      ensures fragLen <= fragBuf.Length <= SIZE_MAX && fragLen <= max
      ensures fragBuf == old(fragBuf) || fresh(fragBuf)
      ensures status == OK || status == PROTOCOL || status == NOMEM
      ensures status == OK ==> Fragment() == old(Fragment()) + payload
      ensures status != OK ==> Fragment() == old(Fragment()) && fragBuf == old(fragBuf)
      ensures status == PROTOCOL <==> old(fragLen) + |payload| > max
      ensures status == NOMEM ==> 0 < old(fragBuf.Length) && HALF < max
    {
      ghost var before := Fragment();
      if payload == [] { return OK; }
      var needed := fragLen + |payload|;
      if needed > max { return PROTOCOL; }
      if needed > fragBuf.Length {
        var cap := if fragBuf.Length == 0 then |payload| else fragBuf.Length;
        while cap < needed
          invariant fragBuf == old(fragBuf) && 0 < cap <= SIZE_MAX
          invariant old(fragBuf.Length) == 0 ==> needed <= cap
        {
          if cap > HALF { return NOMEM; }
          cap := 2 * cap;
        }
        var buf := new byte[cap];
        CopyInto(fragBuf[..fragLen], buf, 0);
        fragBuf := buf;
        assert Fragment() == before;
      }
      CopyInto(payload, fragBuf, fragLen);
      fragLen := needed;
      assert fragBuf[..needed] == before + payload;
      return OK;
    }

    method ResetFragment()
      modifies this`fragBuf, this`fragLen, this`fragOpcode
      ensures fragLen == fragOpcode == fragBuf.Length == 0 && fresh(fragBuf)
    {
      fragBuf, fragLen, fragOpcode := new byte[0], 0, 0;
    }

    // ----- frame writer

    // All of data, or a proper prefix of it and a reason.
    method WriteAll(data: seq<byte>) returns (status: Status, ghost n: nat)
      modifies net`wire, net`faults
      ensures n <= |data| && net.wire == old(net.wire) + data[..n]
      ensures status == OK <==> n == |data|
      ensures net.faults >= old(net.faults) && (status != OK ==> net.faults > old(net.faults))
      ensures status == OK || status == TIMEOUT || status == IO || status == DISCONNECTED
              || (status == CLOSED && closeReceived)
    {
      var written := 0;
      n := 0;
      while written < |data|
        invariant written == n <= |data| && net.wire == old(net.wire) + data[..n]
        invariant net.faults >= old(net.faults)
      {
        var late := net.Fails();
        if late { return TIMEOUT, n; }
        var refused := net.Fails();
        if refused { return IO, n; }
        var r := net.Write(data[written..]);
        match r {
          case Moved(k) =>
            assert data[..written] + data[written..][..k] == data[..written + k];
            written := written + k;
            n := written;
          case EndOfStream => return if closeReceived then CLOSED else DISCONNECTED, n;
          case WouldBlock => return TIMEOUT, n;
          case Broken => return DISCONNECTED, n;
        }
      }
      return OK, n;
    }

    // The header octets, built one at a time.
    method FrameHeader(opcode: byte, key: Key, len: nat) returns (header: seq<byte>)
      requires len < Pow256(8)
      ensures header == [128 + opcode % 16] + LengthField(len, 128) + key
    {
      header := [128 + opcode % 16];
      if len <= 125 {
        header := header + [128 + len];
      } else if len <= 0xFFFF {
        header := header + [128 + 126] + [len / 256 % 256, len % 256];
        BigEndianAt(len, 2, 0);
        BigEndianAt(len, 2, 1);
        assert BigEndian(len, 2) == [len / 256 % 256, len % 256];
      } else {
        header := header + [128 + 127];
        ghost var front := header;
        var i := 8;
        while 0 < i
          invariant 0 <= i <= 8 && header == front + BigEndian(len, 8)[..8 - i]
        {
          i := i - 1;
          BigEndianAt(len, 8, 7 - i);
          header := header + [ByteAt(len, i)];
        }
        assert BigEndian(len, 8)[..8] == BigEndian(len, 8);
      }
      header := header + key;
    }

    // 512 octets of the payload at a time, each combined with its key octet.
    method MaskChunk(payload: seq<byte>, key: Key, offset: nat, len: nat) returns (data: seq<byte>)
      requires offset + len <= |payload| && len <= 512
      ensures data == Mask(key, payload[offset..offset + len], offset)
      ensures forall i, k: nat :: 0 <= i < len ==>
        Bit(data[i], k) == if Bit(payload[offset + i], k) != Bit(key[(offset + i) % 4], k) then 1 else 0
    {
      var chunk := new byte[512];
      for i := 0 to len
        invariant forall k :: 0 <= k < i ==> chunk[k] == Xor(payload[offset + k], key[(offset + k) % 4])
      {
        chunk[i] := Xor(payload[offset + i], key[(offset + i) % 4]);
      }
      data := chunk[..len];
      forall i, k: nat | 0 <= i < len
        ensures Bit(data[i], k) == if Bit(payload[offset + i], k) != Bit(key[(offset + i) % 4], k) then 1 else 0
      {
        XorBits(payload[offset + i], key[(offset + i) % 4], k);
      }
    }

    // The masked payload, or a proper prefix of it, in writes of at most 512 octets.
    method WriteMasked(payload: seq<byte>, key: Key) returns (status: Status, ghost n: nat)
      modifies net`wire, net`faults
      ensures n <= |payload| && net.wire == old(net.wire) + Mask(key, payload, 0)[..n]
      ensures status == OK <==> n == |payload|
      ensures net.faults >= old(net.faults) && (status != OK ==> net.faults > old(net.faults))
      ensures status == OK || status == TIMEOUT || status == IO || status == DISCONNECTED
              || (status == CLOSED && closeReceived)
    {
      ghost var masked := Mask(key, payload, 0);
      var offset := 0;
      n, status := 0, OK;
      while offset < |payload|
        invariant offset == n <= |payload| && net.wire == old(net.wire) + masked[..n]
        invariant status == OK && net.faults >= old(net.faults)
      {
        var len := if |payload| - offset > 512 then 512 else |payload| - offset;
        var data := MaskChunk(payload, key, offset, len);
        MaskedSlice(key, payload, offset, len);
        ghost var k;
        status, k := WriteAll(data);
        ExtendPrefix(old(net.wire), masked, n, data, k);
        n := n + k;
        if status != OK { return; }
        offset := offset + len;
      }
    }

    static lemma MaskedSlice(key: Key, payload: seq<byte>, offset: nat, len: nat)
      requires offset + len <= |payload|
      ensures Mask(key, payload[offset..offset + len], offset) == Mask(key, payload, 0)[offset..offset + len]
    {}

    static lemma ExtendPrefix(wire: seq<byte>, whole: seq<byte>, n: nat, data: seq<byte>, k: nat)
      requires n + |data| <= |whole| && data == whole[n..n + |data|] && k <= |data|
      ensures (wire + whole[..n]) + data[..k] == wire + whole[..n + k]
    {}

    // The whole frame, or a proper prefix of it.
    method WriteFrame(opcode: byte, payload: seq<byte>) returns (status: Status, ghost frame: SentFrame, ghost n: nat)
      requires |payload| < Pow256(8)
      modifies net`wire, net`faults
      ensures frame.opcode == opcode && frame.payload == payload
      ensures n <= |ClientFrame(frame)| && net.wire == old(net.wire) + ClientFrame(frame)[..n]
      ensures status == OK <==> n == |ClientFrame(frame)|
      ensures net.faults >= old(net.faults) && (status != OK ==> net.faults > old(net.faults))
      ensures status == OK || status == TIMEOUT || status == IO || status == DISCONNECTED
              || (status == CLOSED && closeReceived)
    {
      var key: Key := *;
      frame := SentFrame(opcode, key, payload);
      ghost var whole, masked := ClientFrame(frame), Mask(key, payload, 0);
      var header := FrameHeader(opcode, key, |payload|);
      assert whole == header + masked;
      status, n := WriteAll(header);
      assert header[..n] == whole[..n];
      if status != OK { return; }
      ghost var k;
      status, k := WriteMasked(payload, key);
      assert whole[..|header|] == header && masked == whole[|header|..];
      ExtendPrefix(old(net.wire), whole, n, masked, k);
      n := n + k;
    }

    method WriteTracked(opcode: byte, payload: seq<byte>)
        returns (status: Status, ghost frame: SentFrame, ghost n: nat)
      requires |payload| < Pow256(8)
      modifies net`wire, net`faults, this`torn
      ensures frame.opcode == opcode && frame.payload == payload
      ensures n <= |ClientFrame(frame)| && net.wire == old(net.wire) + ClientFrame(frame)[..n]
      ensures status == OK <==> n == |ClientFrame(frame)|
      ensures status == OK ==> net.wire == old(net.wire) + ClientFrame(frame)
      ensures status != OK && !torn ==> net.wire == old(net.wire)
      ensures torn == (old(torn) || (status != OK && 0 < n))
      ensures net.faults >= old(net.faults) && (status != OK ==> net.faults > old(net.faults))
      ensures status == OK || status == TIMEOUT || status == IO || status == DISCONNECTED
              || (status == CLOSED && closeReceived)
    {
      status, frame, n := WriteFrame(opcode, payload);
      ghost var whole := ClientFrame(frame);
      NothingYet(old(net.wire), whole, n);
      assert n == |whole| ==> whole[..n] == whole;
      torn := torn || (status != OK && 0 < n);
    }

    // n is how much of the frame reached the wire.
    method SendFrame(opcode: byte, payload: seq<byte>)
        returns (status: Status, ghost frame: SentFrame, ghost n: nat)
      requires SendValid() && max <= SIZE_MAX && opcode < 16
      requires opcode >= 8 ==> |payload| <= 125
      requires opcode == 1 || opcode == 2 ==> !closeSent
      modifies net`wire, net`faults, this`closeSent, this`sent, this`torn
      ensures SendValid()
      ensures frame.opcode == opcode && frame.payload == payload
      ensures n <= |ClientFrame(frame)| && net.wire == old(net.wire) + ClientFrame(frame)[..n]
      ensures status == OK <==> n == |ClientFrame(frame)|
      ensures sent == if status == OK then old(sent) + [frame] else old(sent)
      ensures torn == (old(torn) || (status != OK && 0 < n))
      ensures closeSent == (old(closeSent) || (status == OK && opcode == 8))
      ensures status == PROTOCOL <==> |payload| > max
      ensures status == PROTOCOL ==> n == 0
      ensures status == CLOSED ==> closeReceived
      ensures net.faults >= old(net.faults)
      ensures status != OK && status != PROTOCOL ==> net.faults > old(net.faults)
      ensures status != NOMEM
    {
      hide TraceOk, HasClose, ClientStream, ClientFrame, SentWithin, SentFrame.Valid;
      if |payload| > max {
        frame, n := SentFrame(opcode, [0, 0, 0, 0], payload), 0;
        FrameIsThere(frame);
        assert net.wire == old(net.wire) + ClientFrame(frame)[..0];
        return PROTOCOL, frame, n;
      }
      Powers();
      status, frame, n := WriteTracked(opcode, payload);
      if status != OK { return; }
      Record(frame, old(net.wire));
      if opcode == 8 { closeSent := true; }
    }

    static lemma FrameIsThere(frame: SentFrame)
      ensures ClientFrame(frame) != []
    {}

    static lemma NothingYet(wire: seq<byte>, whole: seq<byte>, n: nat)
      requires n <= |whole|
      ensures n == 0 ==> wire + whole[..n] == wire
    {}

    // Bookkeeping for the proof: one more whole frame on the wire.
    ghost method Record(frame: SentFrame, before: seq<byte>)
      requires TraceOk(sent) && frame.Valid() && frame.opcode < 16
      requires SentWithin(max, sent) && |frame.payload| <= max
      requires frame.opcode >= 8 ==> |frame.payload| <= 125
      requires frame.opcode == 1 || frame.opcode == 2 ==> !HasClose(sent)
      requires net.wire == before + ClientFrame(frame)
      requires !torn ==> before == hello + ClientStream(sent)
      modifies this`sent
      ensures sent == old(sent) + [frame] && TraceOk(sent) && SentWithin(max, sent)
      ensures HasClose(sent) <==> HasClose(old(sent)) || frame.opcode == 8
      ensures !torn ==> net.wire == hello + ClientStream(sent)
    {
      TraceExtends(sent, frame);
      StreamExtends(hello, sent, frame);
      sent := sent + [frame];
    }

    static lemma TraceExtends(sent: seq<SentFrame>, f: SentFrame)
      requires TraceOk(sent) && f.Valid() && f.opcode < 16
      requires f.opcode >= 8 ==> |f.payload| <= 125
      requires f.opcode == 1 || f.opcode == 2 ==> !HasClose(sent)
      ensures TraceOk(sent + [f])
      ensures HasClose(sent + [f]) <==> HasClose(sent) || f.opcode == 8
    {
      assert (sent + [f])[..|sent|] == sent;
    }

    static lemma StreamExtends(hello: seq<byte>, sent: seq<SentFrame>, f: SentFrame)
      ensures (hello + ClientStream(sent)) + ClientFrame(f) == hello + ClientStream(sent + [f])
    {
      assert (sent + [f])[..|sent|] == sent;
      WssFrames.Regroup(hello, ClientStream(sent), ClientFrame(f));
    }

    method SendCloseCode(code: nat) returns (status: Status, ghost frame: SentFrame)
      requires SendValid() && max <= SIZE_MAX && code < 0x1_0000
      modifies net`wire, net`faults, this`closeSent, this`sent, this`torn
      ensures SendValid() && frame.opcode == 8 && frame.payload == BigEndian(code, 2)
      ensures sent == if status == OK then old(sent) + [frame] else old(sent)
      ensures closeSent == (old(closeSent) || status == OK)
      ensures max < 2 ==> status == PROTOCOL && net.wire == old(net.wire)
      ensures net.faults >= old(net.faults)
      ensures max >= 2 && net.faults == old(net.faults) ==> status == OK
    {
      BigEndianAt(code, 2, 0);
      BigEndianAt(code, 2, 1);
      var payload := [code / 256 % 256, code % 256];
      assert payload == BigEndian(code, 2);
      ghost var n;
      status, frame, n := SendFrame(8, payload);
    }

    // Text or binary: refused without a write once a close went out or came in.
    method SendData(opcode: byte, data: seq<byte>) returns (status: Status, ghost frame: SentFrame)
      requires Valid() && (opcode == 1 || opcode == 2)
      modifies net`wire, net`faults, this`closeSent, this`sent, this`torn
      ensures Valid() && Dec() == old(Dec()) && Pending() == old(Pending())
      ensures frame.opcode == opcode && frame.payload == data
      ensures closeSent || closeReceived ==> status == CLOSED
      ensures !closeSent && !closeReceived && |data| <= max && net.faults == old(net.faults) ==> status == OK
      ensures net.faults >= old(net.faults)
      ensures status == CLOSED || status == PROTOCOL ==> net.wire == old(net.wire)
      ensures status == OK ==> net.wire == old(net.wire) + ClientFrame(frame)
      ensures sent == if status == OK then old(sent) + [frame] else old(sent)
      ensures closeSent == old(closeSent)
    {
      hide RxCapacity, RxBound, TraceOk, HasClose, SentWithin;
      if closeSent || closeReceived { return CLOSED, SentFrame(opcode, [0, 0, 0, 0], data); }
      ghost var n;
      status, frame, n := SendFrame(opcode, data);
    }

    method Close()
      requires Valid()
      modifies net`wire, net`faults, this`closeSent, this`sent, this`torn
      ensures Valid() && Dec() == old(Dec()) && Pending() == old(Pending())
      ensures old(closeSent || closeReceived) ==> net.wire == old(net.wire) && sent == old(sent)
      ensures sent == old(sent) || (closeSent && exists key :: sent == old(sent) + [SentFrame(8, key, [])])
      ensures !old(closeSent || closeReceived) && net.faults == old(net.faults) ==> closeSent
      ensures net.faults >= old(net.faults)
    {
      hide RxCapacity, RxBound, TraceOk, HasClose, SentWithin;
      if closeSent || closeReceived { return; }
      ghost var frame, n;
      var status;
      status, frame, n := SendFrame(8, []);
      assert frame == SentFrame(8, frame.key, []);
    }

    // ----- receiving

    // The header, reading only as far as each of its forms needs.
    method ReceiveHeader() returns (r: Received)
      requires RxValid() && 0 < max <= SIZE_MAX
      modifies this`rxBuf, this`rxLen, rxBuf, net`incoming, net`faults
      ensures RxValid() && (rxBuf == old(rxBuf) || fresh(rxBuf))
      ensures Pending() == old(Pending())
      ensures r.Stop? ==> NextFrame(max, Rx()) == NeedMore
      ensures r.Stop? ==> r.status != OK && r.status != PROTOCOL && (r.status == CLOSED ==> closeReceived)
      ensures net.faults >= old(net.faults) && (r.Stop? ==> Excused(r.status, old(net.faults)))
      ensures r.Fault? ==> NextFrame(max, Rx()) == Bad(r.event)
      ensures r.Have? ==> ParseHeader(Rx()) == Some(Header(r.fin, 0, r.opcode, false, r.len, r.at))
    {
      var status := EnsureRxBytes(2);
      if status != OK { return Stop(status); }
      var first, second := rxBuf[0], rxBuf[1];
      var fin, opcode := first >= 128, first % 16;
      if first / 16 % 8 != 0 || second >= 128 { return Fault(Violation(Some(PROTOCOL_ERROR))); }
      var at, len: nat := 2, second % 128;
      if len == 126 {
        status := EnsureRxBytes(4);
        assert Rx()[0] == first && Rx()[1] == second;
        if status != OK { return Stop(status); }
        len := TwoOctetLength();
        at := 4;
      } else if len == 127 {
        status := EnsureRxBytes(10);
        assert Rx()[0] == first && Rx()[1] == second;
        if status != OK { return Stop(status); }
        len := EightOctetLength();
        at := 10;
      }
      return Have(fin, opcode, at, len);
    }

    method ReceiveFrame() returns (r: Received)
      requires RxValid() && 0 < max <= SIZE_MAX
      modifies this`rxBuf, this`rxLen, rxBuf, net`incoming, net`faults
      ensures RxValid() && (rxBuf == old(rxBuf) || fresh(rxBuf))
      ensures Pending() == old(Pending())
      ensures r.Stop? ==> NextFrame(max, Rx()) == NeedMore
      ensures r.Stop? ==> r.status != OK && r.status != PROTOCOL && (r.status == CLOSED ==> closeReceived)
      ensures net.faults >= old(net.faults) && (r.Stop? ==> Excused(r.status, old(net.faults)))
      ensures r.Fault? ==> NextFrame(max, Rx()) == Bad(r.event)
      ensures r.Have? ==> r.at + r.len <= rxLen
      ensures r.Have? ==> (NextFrame(max, Rx())
                           == Got(ServerFrame(r.fin, r.opcode, Rx()[r.at..r.at + r.len]), r.at + r.len))
    {
      hide RxCapacity;
      r := ReceiveHeader();
      if !r.Have? { return; }
      var Have(fin, opcode, at, len) := r;
      if len > max { return Fault(Violation(Some(MESSAGE_TOO_BIG))); }
      if opcode >= 8 && (!fin || len > 125) { return Fault(Violation(Some(PROTOCOL_ERROR))); }
      if len > SIZE_MAX - at { return Fault(Violation(None)); }
      ghost var rx := Rx();
      var status := EnsureRxBytes(at + len);
      HeaderOfPrefix(rx, Rx()[|rx|..]);
      assert Rx() == rx + Rx()[|rx|..];
      if status != OK { return Stop(status); }
    }

    method TwoOctetLength() returns (len: nat)
      requires 4 <= rxLen <= rxBuf.Length
      ensures len == Value(Rx()[2..4])
    {
      len := 256 * (rxBuf[2] as int) + rxBuf[3];
      TwoOctets(Rx()[2..4]);
    }

    // The extended length, shifted in octet by octet.
    method EightOctetLength() returns (len: nat)
      requires 10 <= rxLen <= rxBuf.Length
      ensures len == Value(Rx()[2..10])
    {
      ghost var rx := Rx();
      len := 0;
      for i := 0 to 8
        invariant len == Value(rx[2..2 + i])
      {
        ghost var front := rx[2..2 + (i + 1)];
        assert front[..|front| - 1] == rx[2..2 + i] && front[|front| - 1] == rxBuf[2 + i];
        len := 256 * len + rxBuf[2 + i];
      }
    }

    ghost predicate Front(f: ServerFrame, at: nat, len: nat)
      reads this`rxBuf, this`rxLen, rxBuf
    {
      && RxValid() && at + len <= rxLen && len <= max
      && f.payload == rxBuf[at..at + len]
    }

    method OnContinuation(ghost f: ServerFrame, fin: bool, at: nat, len: nat) returns (h: Handled)
      requires BuffersValid() && !closeReceived && Front(f, at, len) && f.opcode == 0 && f.fin == fin
      modifies this`rxLen, rxBuf, this`fragBuf, this`fragLen, this`fragOpcode, fragBuf
      ensures BuffersValid() && (fragBuf == old(fragBuf) || fresh(fragBuf))
      ensures HandlesAs(max, f, at + len, h, old(Dec()), old(Rx()), Dec(), Rx())
      ensures h.Refuse? ==> h.code == PROTOCOL_ERROR || h.code == MESSAGE_TOO_BIG
      ensures h.Fail? ==> h.status == NOMEM && HALF < max
    {
      hide RxCapacity, RxBound, SendValid;
      if fragOpcode == 0 { return Refuse(PROTOCOL_ERROR); }
      assert Rx()[at..at + len] == f.payload;
      var status := AppendFront(at, len);
      if status == PROTOCOL { return Refuse(MESSAGE_TOO_BIG); }
      if status != OK { return Fail(status); }
      ghost var st := Dec();
      ConsumeRx(at + len);
      assert Dec() == st == old(Dec()).(fragment := old(Fragment()) + f.payload);
      if fin {
        var data := TakeMessage();
        return Deliver(data);
      }
      return Next;
    }

    // A buffered payload joins the message being reassembled.
    method AppendFront(at: nat, len: nat) returns (status: Status)
      requires BuffersValid() && fragOpcode != 0 && at + len <= rxLen && len <= max
      modifies this`fragBuf, this`fragLen, fragBuf
      ensures BuffersValid() && Rx() == old(Rx()) && (fragBuf == old(fragBuf) || fresh(fragBuf))
      ensures status == OK || status == PROTOCOL || (status == NOMEM && HALF < max)
      ensures Fragment() == if status == OK then old(Fragment()) + Rx()[at..at + len] else old(Fragment())
      ensures status == PROTOCOL <==> |old(Fragment())| + len > max
    {
      var payload := rxBuf[at..at + len];
      assert payload == Rx()[at..at + len];
      status := AppendFragment(payload);
    }

    // The reassembled message is handed over and the reassembly starts afresh.
    method TakeMessage() returns (data: seq<byte>)
      requires BuffersValid() && !closeReceived
      modifies this`fragBuf, this`fragLen, this`fragOpcode
      ensures BuffersValid() && fresh(fragBuf) && data == old(Fragment()) && Dec() == IDLE && Rx() == old(Rx())
    {
      data := fragBuf[..fragLen];
      ResetFragment();
    }

    method OnData(ghost f: ServerFrame, fin: bool, opcode: nat, at: nat, len: nat) returns (h: Handled)
      requires BuffersValid() && !closeReceived && Front(f, at, len) && f.opcode == opcode && f.fin == fin
      requires opcode == 1 || opcode == 2
      modifies this`rxLen, rxBuf, this`fragBuf, this`fragLen, this`fragOpcode, fragBuf
      ensures BuffersValid() && (fragBuf == old(fragBuf) || fresh(fragBuf))
      ensures HandlesAs(max, f, at + len, h, old(Dec()), old(Rx()), Dec(), Rx())
      ensures !h.Fail? && (h.Refuse? ==> h.code == PROTOCOL_ERROR)
    {
      if fragOpcode != 0 { return Refuse(PROTOCOL_ERROR); }
      if fin {
        var data := rxBuf[at..at + len];
        ConsumeRx(at + len);
        assert Dec() == old(Dec());
        return Deliver(data);
      }
      fragOpcode := opcode;
      var status := AppendFragment(rxBuf[at..at + len]);
      assert Fragment() == f.payload;
      ConsumeRx(at + len);
      if status != OK { assert false; return Fail(status); }
      return Next;
    }

    // The status code and reason of a close frame, kept for the application.
    method StoreClosePayload(payload: seq<byte>)
      modifies this`lastCloseCode, this`lastCloseReason
      ensures CloseInfo(lastCloseCode, lastCloseReason) == CloseInfoOf(payload)
      ensures lastCloseCode == if |payload| < 2 then None else Some(256 * (payload[0] as int) + payload[1])
      ensures lastCloseReason == if |payload| <= 2 then [] else payload[2..]
    {
      lastCloseCode, lastCloseReason := None, [];
      if |payload| >= 2 {
        TwoOctets(payload[..2]);
        lastCloseCode := Some(256 * (payload[0] as int) + payload[1]);
      }
      if |payload| > 2 { lastCloseReason := payload[2..]; }
    }

    // A close is answered with its own payload, unless one was sent before.
    method EchoClose(payload: seq<byte>) returns (ghost reply: seq<SentFrame>)
      requires SendValid() && max <= SIZE_MAX && |payload| <= 125
      modifies net`wire, net`faults, this`closeSent, this`sent, this`torn
      ensures SendValid() && sent == old(sent) + reply && |reply| <= 1
      ensures old(closeSent) ==> reply == []
      ensures net.faults >= old(net.faults)
      ensures !old(closeSent) && |payload| <= max && net.faults == old(net.faults) ==> reply != []
      ensures forall r :: r in reply ==> r.opcode == 8 && r.payload == payload
    {
      reply := [];
      if closeSent { return; }
      ghost var frame, n;
      var status;
      status, frame, n := SendFrame(8, payload);
      if status == OK { reply := [frame]; }
    }

    method FinishClose(size: nat)
      requires BuffersValid() && size <= rxLen
      modifies this`rxLen, rxBuf, this`fragBuf, this`fragLen, this`fragOpcode, this`closeReceived
      ensures BuffersValid() && fresh(fragBuf) && Rx() == old(Rx())[size..]
      ensures Dec() == State(0, [], Some(CloseInfo(lastCloseCode, lastCloseReason)))
    {
      closeReceived := true;
      ConsumeRx(size);
      ResetFragment();
    }

    method OnClose(ghost f: ServerFrame, at: nat, len: nat) returns (ghost reply: seq<SentFrame>)
      requires BuffersValid() && SendValid() && Front(f, at, len) && len <= 125
      modifies this`rxLen, rxBuf, this`fragBuf, this`fragLen, this`fragOpcode
      modifies this`closeReceived, this`lastCloseCode, this`lastCloseReason
      modifies net`wire, net`faults, this`closeSent, this`sent, this`torn
      ensures BuffersValid() && SendValid() && fresh(fragBuf)
      ensures Dec() == State(0, [], Some(CloseInfoOf(f.payload))) && Rx() == old(Rx())[at + len..]
      ensures sent == old(sent) + reply && |reply| <= 1 && (old(closeSent) ==> reply == [])
      ensures net.faults >= old(net.faults)
      ensures !old(closeSent) && net.faults == old(net.faults) ==> reply != []
      ensures forall r :: r in reply ==> r.opcode == 8 && r.payload == f.payload
    {
      hide RxCapacity, RxBound, TraceOk, HasClose, SentWithin;
      var payload := rxBuf[at..at + len];
      StoreClosePayload(payload);
      reply := EchoClose(payload);
      FinishClose(at + len);
    }

    // The pong goes out before the ping is consumed; a ping whose pong could not
    // be written is consumed all the same.
    method OnPing(ghost f: ServerFrame, at: nat, len: nat) returns (status: Status, ghost frame: SentFrame)
      requires Valid() && !closeReceived && Front(f, at, len) && f.opcode == 9 && len <= 125
      modifies this`rxLen, rxBuf, net`wire, net`faults, this`closeSent, this`sent, this`torn
      ensures Valid() && Rx() == old(Rx())[at + len..]
      ensures frame.opcode == 10 && frame.payload == f.payload
      ensures sent == if status == OK then old(sent) + [frame] else old(sent)
      ensures closeSent == old(closeSent) && status != PROTOCOL && status != CLOSED && status != NOMEM
      ensures net.faults >= old(net.faults) && (status != OK ==> net.faults > old(net.faults))
    {
      ghost var n;
      var payload := rxBuf[at..at + len];
      status, frame, n := SendPong(payload);
      ConsumeFront(at + len);
    }

    method SendPong(payload: seq<byte>) returns (status: Status, ghost frame: SentFrame, ghost n: nat)
      requires BuffersValid() && SendValid() && |payload| <= 125 && |payload| <= max
      modifies net`wire, net`faults, this`closeSent, this`sent, this`torn
      ensures BuffersValid() && SendValid() && Rx() == old(Rx())
      ensures frame.opcode == 10 && frame.payload == payload
      ensures sent == if status == OK then old(sent) + [frame] else old(sent)
      ensures closeSent == old(closeSent) && (status == CLOSED ==> closeReceived)
      ensures status != PROTOCOL && status != NOMEM
      ensures net.faults >= old(net.faults) && (status != OK ==> net.faults > old(net.faults))
    {
      status, frame, n := SendFrame(10, payload);
    }

    method ConsumeFront(size: nat)
      requires BuffersValid() && SendValid() && size <= rxLen
      modifies this`rxLen, rxBuf
      ensures BuffersValid() && SendValid() && Rx() == old(Rx())[size..]
    {
      ConsumeRx(size);
      assert FragValid();
    }

    // A violation is answered with its close code, if it has one.
    method AnswerViolation(event: Event) returns (ghost reply: seq<SentFrame>)
      requires SendValid() && max <= SIZE_MAX
      requires event.Violation? && (event.code.Some? ==> event.code.value < 0x1_0000)
      modifies net`wire, net`faults, this`closeSent, this`sent, this`torn
      ensures SendValid() && sent == old(sent) + reply && |reply| <= 1
      ensures net.faults >= old(net.faults)
      ensures event.code.Some? && max >= 2 && net.faults == old(net.faults) ==> reply != []
      ensures forall r :: r in reply ==>
        r.opcode == 8 && event.code.Some? && r.payload == BigEndian(event.code.value, 2)
    {
      reply := [];
      if event.code.None? { return; }
      ghost var frame;
      var status;
      status, frame := SendCloseCode(event.code.value);
      if status == OK { reply := [frame]; }
    }

    // The buffer is at frame f, and nothing has been done about it yet.
    ghost predicate AtFrame(f: ServerFrame, at: nat, len: nat)
      reads this`rxBuf, this`rxLen, rxBuf
    {
      Front(f, at, len) && NextFrame(max, Rx()) == Got(f, at + len)
    }

    ghost function Snap(): Snapshot
      requires BuffersValid()
      reads this, rxBuf, fragBuf, net`incoming, net`faults
    {
      Snapshot(Dec(), Rx(), net.incoming, sent, closeSent, net.faults)
    }

    method HandleMessage(ghost f: ServerFrame, fin: bool, opcode: nat, at: nat, len: nat)
        returns (h: Handled, ghost reply: seq<SentFrame>)
      requires BuffersValid() && SendValid() && !closeReceived
      requires Front(f, at, len) && f.opcode == opcode <= 2 && f.fin == fin
      modifies this`rxLen, rxBuf, this`fragBuf, this`fragLen, this`fragOpcode, fragBuf
      modifies net`wire, net`faults, this`closeSent, this`sent, this`torn
      ensures BuffersValid() && SendValid() && (fragBuf == old(fragBuf) || fresh(fragBuf))
      ensures HandlesAs(max, f, at + len, h, old(Dec()), old(Rx()), Dec(), Rx())
      ensures h.Fail? ==> h.status == NOMEM && HALF < max
      ensures sent == old(sent) + reply && |reply| <= 1
      ensures net.faults >= old(net.faults)
      ensures h.Refuse? && max >= 2 && net.faults == old(net.faults) ==> reply != []
      ensures !h.Refuse? ==> reply == [] && closeSent == old(closeSent)
      ensures h.Refuse? ==> forall r :: r in reply ==> r.opcode == 8 && r.payload == BigEndian(h.code, 2)
    {
      hide HandlesAs, Handle, RxValid, FragValid, SendValid, TraceOk, HasClose, BigEndian;
      if opcode == 0 {
        h := OnContinuation(f, fin, at, len);
      } else {
        h := OnData(f, fin, opcode, at, len);
      }
      reply := [];
      if h.Refuse? { reply := AnswerViolation(Violation(Some(h.code))); }
    }

    method TurnMessage(ghost f: ServerFrame, fin: bool, opcode: nat, at: nat, len: nat)
        returns (t: Turn, ghost a: Account)
      requires BuffersValid() && SendValid() && !closeReceived
      requires AtFrame(f, at, len) && f.opcode == opcode <= 2 && f.fin == fin
      modifies this`rxLen, rxBuf, this`fragBuf, this`fragLen, this`fragOpcode, fragBuf
      modifies net`wire, net`faults, this`closeSent, this`sent, this`torn
      ensures BuffersValid() && SendValid() && (fragBuf == old(fragBuf) || fresh(fragBuf))
      ensures Turned(max, old(Snap()), t, a, Snap())
    {
      ghost var s0 := Snap();
      ghost var reply;
      var h;
      h, reply := HandleMessage(f, fin, opcode, at, len);
      TurnedByMessage(max, f, at + len, h, s0, reply, Snap());
      t, a := TurnOf(h), Account([], [], [], reply);
    }

    method TurnControl(ghost f: ServerFrame, opcode: nat, at: nat, len: nat) returns (t: Turn, ghost a: Account)
      requires BuffersValid() && SendValid() && !closeReceived
      requires AtFrame(f, at, len) && f.opcode == opcode && (opcode == 9 || opcode == 10) && len <= 125
      modifies this`rxLen, rxBuf, net`wire, net`faults, this`closeSent, this`sent, this`torn
      ensures BuffersValid() && SendValid()
      ensures Turned(max, old(Snap()), t, a, Snap())
    {
      hide RxCapacity, RxBound, TraceOk, HasClose, SentWithin;
      ghost var s0 := Snap();
      a := NOTHING;
      if opcode == 10 {
        ConsumeRx(at + len);
        TurnedByPong(max, f, at + len, s0, Snap());
        return Again, a;
      }
      ghost var frame;
      var status;
      status, frame := OnPing(f, at, len);
      TurnedByPing(max, f, at + len, s0, status, frame, Snap());
      if status == OK {
        t, a := Again, Account([Ping(f.payload)], [frame.key], [], []);
      } else {
        t, a := Done(Stopped(status)), Account([], [], [Ping(f.payload)], []);
      }
    }

    method TurnOther(ghost f: ServerFrame, opcode: nat, at: nat, len: nat) returns (t: Turn, ghost a: Account)
      requires BuffersValid() && SendValid() && !closeReceived
      requires AtFrame(f, at, len) && f.opcode == opcode && opcode > 2 && (opcode == 8 ==> len <= 125)
      requires opcode != 9 && opcode != 10
      modifies this`rxLen, rxBuf, this`fragBuf, this`fragLen, this`fragOpcode
      modifies this`closeReceived, this`lastCloseCode, this`lastCloseReason
      modifies net`wire, net`faults, this`closeSent, this`sent, this`torn
      ensures BuffersValid() && SendValid() && (fragBuf == old(fragBuf) || fresh(fragBuf))
      ensures Turned(max, old(Snap()), t, a, Snap())
    {
      hide RxCapacity, RxBound, TraceOk, HasClose, SentWithin, BigEndian;
      ghost var s0 := Snap();
      ghost var reply;
      if opcode == 8 {
        reply := OnClose(f, at, len);
        TurnedByClose(max, f, at + len, s0, reply, Snap());
        t := Done(Stopped(CLOSED));
      } else {
        DecodeFront(max, s0.st, s0.rx, s0.tail);
        reply := AnswerViolation(Violation(Some(PROTOCOL_ERROR)));
        TurnedByViolation(max, Violation(Some(PROTOCOL_ERROR)), s0, reply, Snap());
        t := Done(Stopped(PROTOCOL));
      }
      a := Account([], [], [], reply);
    }

    method TurnFrame(ghost f: ServerFrame, fin: bool, opcode: Opcode, at: nat, len: nat)
        returns (t: Turn, ghost a: Account)
      requires BuffersValid() && SendValid() && !closeReceived
      requires AtFrame(f, at, len) && f.opcode == opcode && f.fin == fin
      modifies this`rxLen, rxBuf, this`fragBuf, this`fragLen, this`fragOpcode, fragBuf
      modifies this`closeReceived, this`lastCloseCode, this`lastCloseReason
      modifies net`wire, net`faults, this`closeSent, this`sent, this`torn
      ensures BuffersValid() && SendValid() && (fragBuf == old(fragBuf) || fresh(fragBuf))
      ensures Turned(max, old(Snap()), t, a, Snap())
    {
      if opcode <= 2 {
        t, a := TurnMessage(f, fin, opcode, at, len);
      } else if opcode == 9 || opcode == 10 {
        t, a := TurnControl(f, opcode, at, len);
      } else {
        t, a := TurnOther(f, opcode, at, len);
      }
    }

    method TurnFault(event: Event) returns (t: Turn, ghost a: Account)
      requires BuffersValid() && SendValid() && !closeReceived && NextFrame(max, Rx()) == Bad(event)
      modifies net`wire, net`faults, this`closeSent, this`sent, this`torn
      ensures BuffersValid() && SendValid()
      ensures Turned(max, old(Snap()), t, a, Snap())
    {
      ghost var s0 := Snap();
      DecodeFront(max, s0.st, s0.rx, s0.tail);
      ghost var reply := AnswerViolation(event);
      TurnedByViolation(max, event, s0, reply, Snap());
      t, a := Done(Stopped(PROTOCOL)), Account([], [], [], reply);
    }

    // ReceiveFrame seen from the loop: reading changes nothing but what is buffered.
    method BufferFrame() returns (r: Received, ghost f: ServerFrame)
      requires BuffersValid() && SendValid() && !closeReceived
      modifies this`rxBuf, this`rxLen, rxBuf, net`incoming, net`faults
      ensures BuffersValid() && SendValid() && (rxBuf == old(rxBuf) || fresh(rxBuf))
      ensures Buffered(old(Snap()), Snap())
      ensures r.Stop? ==> NextFrame(max, Rx()) == NeedMore && r.status in {TIMEOUT, DISCONNECTED, IO, NOMEM}
      ensures r.Stop? ==> Excused(r.status, old(net.faults))
      ensures r.Fault? ==> NextFrame(max, Rx()) == Bad(r.event)
      ensures r.Have? ==> AtFrame(f, r.at, r.len) && f.opcode == r.opcode && f.fin == r.fin
    {
      f := ServerFrame(true, 0, []);
      r := ReceiveFrame();
      if r.Have? {
        f := ServerFrame(r.fin, r.opcode, Rx()[r.at..r.at + r.len]);
        assert f.payload == rxBuf[r.at..r.at + r.len];
      }
    }

    static ghost predicate Buffered(s0: Snapshot, s1: Snapshot) {
      && s1.st == s0.st && s1.sent == s0.sent && s1.closeSent == s0.closeSent
      && s1.rx + s1.tail == s0.rx + s0.tail && s0.faults <= s1.faults
    }

    // One pass of the receive loop: one frame, or the reason there is none.
    method ReceiveTurn() returns (t: Turn, ghost a: Account)
      requires BuffersValid() && SendValid() && !closeReceived
      modifies this`rxBuf, this`rxLen, rxBuf, net`incoming, net`faults
      modifies this`fragBuf, this`fragLen, this`fragOpcode, fragBuf
      modifies this`closeReceived, this`lastCloseCode, this`lastCloseReason
      modifies net`wire, net`faults, this`closeSent, this`sent, this`torn
      ensures BuffersValid() && SendValid()
      ensures rxBuf == old(rxBuf) || fresh(rxBuf)
      ensures fragBuf == old(fragBuf) || fresh(fragBuf)
      ensures Turned(max, old(Snap()), t, a, Snap())
    {
      hide RxCapacity, RxBound, TraceOk, HasClose, SentWithin;
      ghost var s0 := Snap();
      ghost var f;
      var r;
      r, f := BufferFrame();
      ghost var s1 := Snap();
      if r.Stop? {
        TurnedByStop(max, r.status, s0, s1);
        return Done(Stopped(r.status)), NOTHING;
      }
      if r.Fault? {
        t, a := TurnFault(r.event);
      } else {
        t, a := TurnFrame(f, r.fin, r.opcode, r.at, r.len);
      }
      TurnedFrom(max, s0, s1, t, a, Snap());
    }

    static lemma TurnedFrom(max: nat, s0: Snapshot, s1: Snapshot, t: Turn, a: Account, s2: Snapshot)
      requires Buffered(s0, s1) && Turned(max, s1, t, a, s2)
      ensures Turned(max, s0, t, a, s2)
    {}

    // The receive loop: whole frames are taken from the buffer until one of them,
    // or the lack of one, decides the outcome.
    method Recv() returns (out: Outcome, ghost a: Account)
      requires BuffersValid() && SendValid()
      modifies this`rxBuf, this`rxLen, rxBuf, net`incoming, net`faults
      modifies this`fragBuf, this`fragLen, this`fragOpcode, fragBuf
      modifies this`closeReceived, this`lastCloseCode, this`lastCloseReason
      modifies net`wire, net`faults, this`closeSent, this`sent, this`torn
      ensures BuffersValid() && SendValid()
      ensures rxBuf == old(rxBuf) || fresh(rxBuf)
      ensures fragBuf == old(fragBuf) || fresh(fragBuf)
      ensures Completed(max, old(Snap()), out, a, Snap())
      ensures old(closeReceived) ==> out == Stopped(CLOSED) && net.wire == old(net.wire)
    {
      ghost var s0 := Snap();
      a := NOTHING;
      if closeReceived {
        AccountsReply(sent, []);
        assert s0.Events(max) == [] + [Closed(s0.st.closed.value)];
        return Stopped(CLOSED), a;
      }
      PingedStart(max, s0);
      while true
        invariant BuffersValid() && SendValid() && !closeReceived
        invariant rxBuf == old(rxBuf) || fresh(rxBuf)
        invariant fragBuf == old(fragBuf) || fresh(fragBuf)
        invariant Pinged(max, s0, a, Snap())
        decreases |Pending()|
      {
        ghost var s1 := Snap();
        ghost var b;
        var t;
        t, b := ReceiveTurn();
        ghost var s2 := Snap();
        if t.Done? {
          PingedDone(max, s0, a, s1, t.out, b, s2);
          return t.out, Join(a, b);
        }
        PingedAgain(max, s0, a, s1, b, s2);
        a := Join(a, b);
      }
    }

    // ----- the handshake's use of the buffer

    // Reads until the blank line that ends the response headers. The octets after
    // it stay buffered for the first Recv.
    method AwaitHeaders() returns (status: Status, end: nat)
      requires BuffersValid() && SendValid()
      modifies this`rxBuf, this`rxLen, rxBuf, net`incoming, net`faults
      ensures BuffersValid() && SendValid() && (rxBuf == old(rxBuf) || fresh(rxBuf))
      ensures Pending() == old(Pending())
      ensures status == OK ==> end <= rxLen && HeaderEnd(Rx()) == Some(end)
      ensures status != OK ==> HeaderEnd(Rx()).None? || rxLen > 8192
      ensures (status == PROTOCOL <==> rxLen > 8192) && (status == OK ==> rxLen <= 8192)
    {
      hide RxCapacity, TraceOk, HasClose;
      end := 0;
      while true
        invariant BuffersValid() && SendValid() && (rxBuf == old(rxBuf) || fresh(rxBuf))
        invariant Pending() == old(Pending())
        decreases |net.incoming|
      {
        if rxLen > MAX_HEADERS { return PROTOCOL, 0; }
        var found := FindHeaderEnd();
        if found.Some? { return OK, found.value; }
        ghost var before := rxLen;
        status := FillRx();
        if status != OK { return status, 0; }
        assert |Pending()| == rxLen + |net.incoming|;
      }
    }

    method FindHeaderEnd() returns (end: Option<nat>)
      requires rxLen <= rxBuf.Length
      ensures end == HeaderEnd(Rx())
    {
      ghost var s := Rx();
      var i := 0;
      while i + 3 < rxLen
        invariant i <= rxLen && HeaderEndFrom(s, i) == HeaderEnd(s)
        decreases rxLen - i
      {
        if rxBuf[i] == 13 && rxBuf[i + 1] == 10 && rxBuf[i + 2] == 13 && rxBuf[i + 3] == 10 {
          return Some(i + 4);
        }
        i := i + 1;
      }
      return None;
    }
  }
}
