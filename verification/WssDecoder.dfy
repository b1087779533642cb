// A pure decoder for everything a server sends: what a client that had the
// whole stream at once would deliver (sections 5.4, 5.5 and 7.1 of RFC 6455).
// The buffered client in WssClient is proved against it.
module WssDecoder {
  import opened Wrappers
  import opened WssBytes
  import opened WssFrames

  const SIZE_MAX: nat := 0xFFFF_FFFF

  const PROTOCOL_ERROR: nat := 1002
  const MESSAGE_TOO_BIG: nat := 1009

  datatype CloseInfo = CloseInfo(code: Option<nat>, reason: seq<byte>)

  // Section 5.5.1: a status code, then a reason.
  function CloseInfoOf(payload: seq<byte>): CloseInfo {
    CloseInfo(if |payload| >= 2 then Some(Value(payload[..2])) else None,
              if |payload| > 2 then payload[2..] else [])
  }

  lemma TwoOctets(s: seq<byte>)
    requires |s| == 2
    ensures Value(s) == 256 * (s[0] as int) + s[1]
  {
    assert s[..1][..0] == [];
    assert Value(s[..1]) == s[0];
  }

  // The code is the first two octets, the higher first, and the reason is the rest.
  lemma CloseInfoIs(code: nat, reason: seq<byte>)
    requires code < 0x1_0000
    ensures CloseInfoOf(BigEndian(code, 2) + reason) == CloseInfo(Some(code), reason)
    ensures BigEndian(code, 2) == [code / 256, code % 256]
  {
    var payload := BigEndian(code, 2) + reason;
    assert payload[..2] == BigEndian(code, 2) && payload[2..] == reason;
    Powers();
    ValueOfBigEndian(code, 2);
    BigEndianAt(code, 2, 0);
    BigEndianAt(code, 2, 1);
  }

  lemma NoCloseInfo(payload: seq<byte>)
    requires |payload| < 2
    ensures CloseInfoOf(payload) == CloseInfo(None, [])
  {}

  lemma CloseInfoInOctets(payload: seq<byte>)
    requires |payload| >= 2
    ensures CloseInfoOf(payload) == CloseInfo(Some(256 * (payload[0] as int) + payload[1]), payload[2..])
  {
    TwoOctets(payload[..2]);
  }

  // opcode is that of the message being reassembled, 0 when there is none
  datatype State = State(opcode: nat, fragment: seq<byte>, closed: Option<CloseInfo>)

  const IDLE := State(0, [], None)

  // A violation carries the close code it is answered with, if any.
  datatype Event =
    | Message(data: seq<byte>)
    | Ping(data: seq<byte>)
    | Closed(info: CloseInfo)
    | Violation(code: Option<nat>)

  // ----- one frame

  // The faults that a header shows by itself.
  function HeaderFault(max: nat, fin: bool, opcode: Opcode, len: nat, size: nat): Option<Event> {
    if len > max then Some(Violation(Some(MESSAGE_TOO_BIG)))
    else if opcode >= 8 && (!fin || len > 125) then Some(Violation(Some(PROTOCOL_ERROR)))
    else if len > SIZE_MAX - size then Some(Violation(None))
    else None
  }

  datatype Lookup = NeedMore | Bad(event: Event) | Got(frame: ServerFrame, size: nat)

  // The frame at the front of the stream. Reserved bits and a mask are refused
  // on the first two octets, other faults as soon as the header is complete.
  function NextFrame(max: nat, s: seq<byte>): (r: Lookup)
    ensures r.Got? ==> 2 <= r.size <= |s| && |r.frame.payload| <= max
    ensures r.Got? && r.frame.opcode >= 8 ==> r.frame.fin && |r.frame.payload| <= 125
    ensures r.Bad? ==> r.event.Violation?
    ensures r.Bad? && r.event.code.Some? ==>
      r.event.code.value == PROTOCOL_ERROR || r.event.code.value == MESSAGE_TOO_BIG
  {
    if |s| < 2 then NeedMore
    else if s[0] / 16 % 8 != 0 || s[1] >= 128 then Bad(Violation(Some(PROTOCOL_ERROR)))
    else match ParseHeader(s)
      case None => NeedMore
      case Some(h) =>
        var fault := HeaderFault(max, h.fin, h.opcode, h.len, h.size);
        if fault.Some? then Bad(fault.value)
        else if |s| < h.size + h.len then NeedMore
        else Got(ServerFrame(h.fin, h.opcode, s[h.size..h.size + h.len]), h.size + h.len)
  }

  datatype Verdict = Reject(event: Event) | Accept(events: seq<Event>, next: State)

  // What one well-formed frame means in a given state of reassembly.
  function Handle(max: nat, st: State, f: ServerFrame): Verdict {
    if f.opcode == 0 then
      if st.opcode == 0 then Reject(Violation(Some(PROTOCOL_ERROR)))
      else if |st.fragment| + |f.payload| > max then Reject(Violation(Some(MESSAGE_TOO_BIG)))
      else if f.fin then Accept([Message(st.fragment + f.payload)], IDLE)
      else Accept([], st.(fragment := st.fragment + f.payload))
    else if f.opcode == 1 || f.opcode == 2 then
      if st.opcode != 0 then Reject(Violation(Some(PROTOCOL_ERROR)))
      else if f.fin then Accept([Message(f.payload)], st)
      else Accept([], State(f.opcode, f.payload, None))
    else if f.opcode == 8 then
      var info := CloseInfoOf(f.payload);
      Accept([Closed(info)], State(0, [], Some(info)))
    else if f.opcode == 9 then Accept([Ping(f.payload)], st)
    else if f.opcode == 10 then Accept([], st)
    else Reject(Violation(Some(PROTOCOL_ERROR)))
  }

  // ----- a whole stream

  function Decode(max: nat, st: State, s: seq<byte>): seq<Event>
    decreases |s|
  {
    if st.closed.Some? then [Closed(st.closed.value)]
    else match NextFrame(max, s)
      case NeedMore => []
      case Bad(e) => [e]
      case Got(f, n) =>
        match Handle(max, st, f)
        case Reject(e) => [e]
        case Accept(events, next) =>
          if next.closed.Some? then events else events + Decode(max, next, s[n..])
  }

  // The same on frames, with no octets in sight.
  function Interpret(max: nat, st: State, fs: seq<ServerFrame>): seq<Event>
    decreases |fs|
  {
    if st.closed.Some? then [Closed(st.closed.value)]
    else if fs == [] then []
    else
      var f := fs[0];
      var fault := HeaderFault(max, f.fin, f.opcode, |f.payload|, 1 + |LengthField(|f.payload|, 0)|);
      if fault.Some? then [fault.value]
      else match Handle(max, st, f)
        case Reject(e) => [e]
        case Accept(events, next) =>
          if next.closed.Some? then events else events + Interpret(max, next, fs[1..])
  }

  // ----- the decoder follows the RFC

  // What a header is refused for: more than the limit (1009); a control frame that is a
  // fragment or longer than 125 octets (1002); and a length that does not fit the address
  // space with its header.
  lemma HeaderFaultsAre(max: nat, fin: bool, opcode: Opcode, len: nat, size: nat)
    ensures HeaderFault(max, fin, opcode, len, size) == Some(Violation(Some(1009))) <==> len > max
    ensures HeaderFault(max, fin, opcode, len, size) == Some(Violation(Some(1002))) <==>
            len <= max && opcode >= 8 && (!fin || len > 125)
    ensures HeaderFault(max, fin, opcode, len, size).None? <==>
            len <= max && (opcode >= 8 ==> fin && len <= 125) && len + size <= 0xFFFF_FFFF
  {}

  // What a whole frame is refused for: a continuation of nothing, a message inside a
  // message, an opcode the RFC does not define (1002), and a message that grows beyond the
  // limit (1009).
  lemma FramesRefused(max: nat, st: State, f: ServerFrame)
    ensures Handle(max, st, f) == Reject(Violation(Some(1002))) <==>
            || (f.opcode == 0 && st.opcode == 0)
            || (f.opcode in {1, 2} && st.opcode != 0)
            || f.opcode in {3, 4, 5, 6, 7, 11, 12, 13, 14, 15}
    ensures Handle(max, st, f) == Reject(Violation(Some(1009))) <==>
            f.opcode == 0 && st.opcode != 0 && |st.fragment| + |f.payload| > max
    ensures Handle(max, st, f).Reject? ==>
            Handle(max, st, f).event in {Violation(Some(1002)), Violation(Some(1009))}
  {}

  // What an accepted frame brings.
  lemma FramesAccepted(max: nat, st: State, f: ServerFrame)
    requires Handle(max, st, f).Accept?
    ensures var Accept(events, next) := Handle(max, st, f);
      && (f.opcode == 0 && f.fin ==> events == [Message(st.fragment + f.payload)])
      && (f.opcode in {1, 2} && f.fin ==> events == [Message(f.payload)] && next == st)
      && (f.opcode in {0, 1, 2} && !f.fin ==> events == [])
      && (f.opcode == 0 && !f.fin ==> next == st.(fragment := st.fragment + f.payload))
      && (f.opcode in {1, 2} && !f.fin ==> next == State(f.opcode, f.payload, None))
      && (f.opcode == 8 ==> |events| == 1 && events[0].Closed?)
      && (f.opcode == 9 ==> events == [Ping(f.payload)] && next == st)
      && (f.opcode == 10 ==> events == [] && next == st)
  {}

  // The first two octets are refused for a reserved bit or a mask.
  lemma FirstOctetsRefused(max: nat, s: seq<byte>)
    requires |s| >= 2
    ensures Bit(s[0], 6) == 1 || Bit(s[0], 5) == 1 || Bit(s[0], 4) == 1 || Bit(s[1], 7) == 1 ==>
            NextFrame(max, s) == Bad(Violation(Some(1002)))
    ensures NextFrame(max, s).Got? ==>
            Bit(s[0], 6) == 0 && Bit(s[0], 5) == 0 && Bit(s[0], 4) == 0 && Bit(s[1], 7) == 0
  {
    BitsOfOctet(s[0]);
    BitsOfOctet(s[1]);
  }

  lemma BitIs(h: nat)
    ensures Bit(h, 0) == h % 2 && Bit(h, 1) == h / 2 % 2 && Bit(h, 2) == h / 2 / 2 % 2
  {
    assert Bit(h, 1) == Bit(h / 2, 0);
    assert Bit(h, 2) == Bit(h / 2, 1) == Bit(h / 2 / 2, 0);
  }

  lemma ThreeDigits(h: nat)
    ensures h % 8 == 4 * (h / 2 / 2 % 2) + 2 * (h / 2 % 2) + h % 2
  {}

  lemma LowBits(h: nat)
    ensures h % 8 == 4 * Bit(h, 2) + 2 * Bit(h, 1) + Bit(h, 0)
    ensures Bit(h, 0) <= 1 && Bit(h, 1) <= 1 && Bit(h, 2) <= 1
  {
    BitIs(h);
    hide Bit;
    ThreeDigits(h);
  }

  lemma HighBits(o: byte, k: nat)
    ensures Bit(o, 4 + k) == Bit(o as int / 16, k)
  {
    var a := o as int;
    assert Bit(a, 4 + k) == Bit(a / 2, 3 + k) == Bit(a / 2 / 2, 2 + k);
    assert Bit(a / 2 / 2, 2 + k) == Bit(a / 2 / 2 / 2, 1 + k) == Bit(a / 2 / 2 / 2 / 2, k);
    assert a / 2 / 2 / 2 / 2 == a / 16;
  }

  lemma FourthBit(h: nat)
    requires h < 16
    ensures Bit(h, 3) == 1 <==> h >= 8
  {
    assert Bit(h, 3) == Bit(h / 2, 2);
    BitIs(h / 2);
  }

  lemma BitsOfOctet(o: byte)
    ensures Bit(o, 7) == 1 <==> o >= 128
    ensures o as int / 16 % 8 == 4 * Bit(o, 6) + 2 * Bit(o, 5) + Bit(o, 4)
    ensures Bit(o, 6) <= 1 && Bit(o, 5) <= 1 && Bit(o, 4) <= 1
  {
    hide Bit;
    HighBits(o, 0);
    HighBits(o, 1);
    HighBits(o, 2);
    HighBits(o, 3);
    LowBits(o as int / 16);
    FourthBit(o as int / 16);
  }

  // A close is reported with its code and reason, whatever came before it.
  lemma CloseIsReported(max: nat, st: State, code: nat, reason: seq<byte>, rest: seq<ServerFrame>)
    requires st.closed.None? && code < 0x1_0000 && |reason| <= 123 && 2 + |reason| <= max
    requires forall f :: f in rest ==> f.Valid()
    ensures var f := ServerFrame(true, 8, BigEndian(code, 2) + reason);
      && Interpret(max, st, [f] + rest) == [Closed(CloseInfo(Some(code), reason))]
      && Decode(max, st, ServerStream([f] + rest)) == [Closed(CloseInfo(Some(code), reason))]
  {
    var f := ServerFrame(true, 8, BigEndian(code, 2) + reason);
    CloseInfoIs(code, reason);
    Powers();
    hide BigEndian, CloseInfoOf;
    assert ([f] + rest)[0] == f && f.Valid();
    forall g | g in [f] + rest ensures g.Valid() {}
    DecodeServerStream(max, st, [f] + rest);
  }

  // A frame is accepted exactly when it parses, uses no reserved bit and no mask,
  // and its header is within the limits.
  lemma NextFrameIsTheParsedFrame(max: nat, s: seq<byte>, f: ServerFrame, n: nat)
    ensures NextFrame(max, s) == Got(f, n) <==>
            && ParseFrame(s) == Some((Frame(f.fin, 0, f.opcode, false, f.payload), n))
            && HeaderFault(max, f.fin, f.opcode, |f.payload|, n - |f.payload|).None?
  {
    if ParseHeader(s).Some? {
      var h := ParseHeader(s).value;
      if !h.masked && h.size + h.len <= |s| { assert |s[h.size..h.size + h.len]| == h.len; }
    }
  }

  lemma HeaderOfPrefix(s: seq<byte>, t: seq<byte>)
    ensures ParseHeader(s).Some? ==> ParseHeader(s + t) == ParseHeader(s)
  {
    if |s| >= 4 { assert (s + t)[2..4] == s[2..4]; }
    if |s| >= 10 { assert (s + t)[2..10] == s[2..10]; }
  }

  lemma SliceOfPrefix(s: seq<byte>, t: seq<byte>, i: nat, j: nat)
    requires i <= j <= |s|
    ensures (s + t)[i..j] == s[i..j]
  {}

  // More octets never change what has already been decided.
  lemma NextFrameOfPrefix(max: nat, s: seq<byte>, t: seq<byte>)
    ensures NextFrame(max, s) != NeedMore ==> NextFrame(max, s + t) == NextFrame(max, s)
  {
    HeaderOfPrefix(s, t);
    if NextFrame(max, s).Got? {
      var h := ParseHeader(s).value;
      SliceOfPrefix(s, t, h.size, h.size + h.len);
    }
  }

  lemma {:induction false} DecodeOfPrefix(max: nat, st: State, s: seq<byte>, t: seq<byte>)
    ensures Decode(max, st, s) <= Decode(max, st, s + t)
    decreases |s|
  {
    NextFrameOfPrefix(max, s, t);
    match NextFrame(max, s)
    case NeedMore =>
    case Bad(_) =>
    case Got(f, n) =>
      var v := Handle(max, st, f);
      if st.closed.None? && v.Accept? && v.next.closed.None? {
        assert (s + t)[n..] == s[n..] + t;
        DecodeOfPrefix(max, v.next, s[n..], t);
      }
  }

  lemma NextServerFrame(max: nat, f: ServerFrame, rest: seq<byte>)
    requires f.Valid()
    ensures var size := 1 + |LengthField(|f.payload|, 0)|;
            var fault := HeaderFault(max, f.fin, f.opcode, |f.payload|, size);
            NextFrame(max, EncodeServerFrame(f) + rest) ==
            if fault.Some? then Bad(fault.value) else Got(f, |EncodeServerFrame(f)|)
  {
    HeaderOfServerFrame(f, rest);
    var s := EncodeServerFrame(f) + rest;
    var size := 1 + |LengthField(|f.payload|, 0)|;
    assert s[size..size + |f.payload|] == f.payload;
  }

  // Octets written by a server decode to the meaning of its frames.
  lemma {:induction false} DecodeServerStream(max: nat, st: State, fs: seq<ServerFrame>)
    requires forall f :: f in fs ==> f.Valid()
    ensures Decode(max, st, ServerStream(fs)) == Interpret(max, st, fs)
    decreases |fs|
  {
    if fs != [] && st.closed.None? {
      var f, rest := fs[0], ServerStream(fs[1..]);
      assert ServerStream(fs) == EncodeServerFrame(f) + rest;
      NextServerFrame(max, f, rest);
      assert (EncodeServerFrame(f) + rest)[|EncodeServerFrame(f)|..] == rest;
      var v := Handle(max, st, f);
      if v.Accept? && v.next.closed.None? {
        DecodeServerStream(max, v.next, fs[1..]);
      }
    }
  }

  // ----- fragmented messages

  datatype Control = PingFrame(data: seq<byte>) | PongFrame(data: seq<byte>)

  // One fragment of a message and the control frames sent right after it.
  datatype Piece = Piece(data: seq<byte>, controls: seq<Control>)

  function ControlFrame(c: Control): ServerFrame {
    match c
    case PingFrame(d) => ServerFrame(true, 9, d)
    case PongFrame(d) => ServerFrame(true, 10, d)
  }

  // The control frames cs, then rest.
  function WithControls(cs: seq<Control>, rest: seq<ServerFrame>): seq<ServerFrame> {
    if cs == [] then rest else [ControlFrame(cs[0])] + WithControls(cs[1..], rest)
  }

  function PingsIn(cs: seq<Control>): seq<Event> {
    if cs == [] then []
    else (if cs[0].PingFrame? then [Ping(cs[0].data)] else []) + PingsIn(cs[1..])
  }

  // A message in fragments, then rest: section 5.4 puts opcode on the first
  // fragment, 0 on the others, and FIN on the last.
  function WithFragments(opcode: Opcode, pieces: seq<Piece>, rest: seq<ServerFrame>): seq<ServerFrame> {
    if pieces == [] then rest
    else [ServerFrame(|pieces| == 1, opcode, pieces[0].data)]
         + WithControls(pieces[0].controls, WithFragments(0, pieces[1..], rest))
  }

  function Joined(pieces: seq<Piece>): seq<byte> {
    if pieces == [] then [] else pieces[0].data + Joined(pieces[1..])
  }

  // The pings sent before the last fragment, and those sent after it.
  function PingsBefore(pieces: seq<Piece>): seq<Event> {
    if |pieces| <= 1 then [] else PingsIn(pieces[0].controls) + PingsBefore(pieces[1..])
  }

  function PingsAfter(pieces: seq<Piece>): seq<Event>
    requires pieces != []
  {
    PingsIn(pieces[|pieces| - 1].controls)
  }

  // Payloads the client is able to take in one frame.
  ghost predicate Fits(max: nat, data: seq<byte>) { |data| <= max && |data| <= SIZE_MAX - 10 }

  ghost predicate ControlsFit(max: nat, cs: seq<Control>) {
    forall c :: c in cs ==> |c.data| <= 125 && |c.data| <= max
  }

  ghost predicate PiecesFit(max: nat, pieces: seq<Piece>) {
    forall p :: p in pieces ==> ControlsFit(max, p.controls)
  }

  lemma InterpretStep(max: nat, st: State, f: ServerFrame, rest: seq<ServerFrame>)
    requires st.closed.None? && Fits(max, f.payload)
    requires f.opcode < 8 || (f.fin && |f.payload| <= 125)
    ensures var v := Handle(max, st, f);
            && (v.Reject? ==> Interpret(max, st, [f] + rest) == [v.event])
            && (v.Accept? && v.next.closed.None? ==>
                  Interpret(max, st, [f] + rest) == v.events + Interpret(max, v.next, rest))
  {
    assert ([f] + rest)[1..] == rest;
  }

  // Control frames leave reassembly as it was; each ping is reported.
  lemma {:induction false} ControlsDoNotDisturb(max: nat, st: State, cs: seq<Control>, rest: seq<ServerFrame>)
    requires ControlsFit(max, cs) && st.closed.None?
    ensures Interpret(max, st, WithControls(cs, rest)) == PingsIn(cs) + Interpret(max, st, rest)
    decreases |cs|
  {
    hide Interpret;
    if cs != [] {
      assert ControlsFit(max, cs[1..]);
      ControlsDoNotDisturb(max, st, cs[1..], rest);
      InterpretStep(max, st, ControlFrame(cs[0]), WithControls(cs[1..], rest));
    }
  }

  // The first fragment is taken in; what follows is read in the new state.
  lemma FirstPiece(max: nat, st: State, opcode: Opcode, pieces: seq<Piece>, rest: seq<ServerFrame>)
    requires PiecesFit(max, pieces) && |pieces| > 1 && Fits(max, pieces[0].data)
    requires st.closed.None? && |st.fragment| + |pieces[0].data| <= max
    requires if opcode == 0 then st.opcode != 0 else (opcode == 1 || opcode == 2) && st == IDLE
    ensures var next := State(if opcode == 0 then st.opcode else opcode, st.fragment + pieces[0].data, None);
            Interpret(max, st, WithFragments(opcode, pieces, rest)) ==
            PingsIn(pieces[0].controls) + Interpret(max, next, WithFragments(0, pieces[1..], rest))
  {
    var f, tail := ServerFrame(false, opcode, pieces[0].data), WithFragments(0, pieces[1..], rest);
    InterpretStep(max, st, f, WithControls(pieces[0].controls, tail));
    assert [] + pieces[0].data == pieces[0].data;
    var next := State(if opcode == 0 then st.opcode else opcode, st.fragment + pieces[0].data, None);
    ControlsDoNotDisturb(max, next, pieces[0].controls, tail);
  }

  lemma LastPiece(max: nat, st: State, opcode: Opcode, p: Piece, rest: seq<ServerFrame>)
    requires ControlsFit(max, p.controls) && Fits(max, p.data)
    requires st.closed.None? && |st.fragment| + |p.data| <= max
    requires if opcode == 0 then st.opcode != 0 else (opcode == 1 || opcode == 2) && st == IDLE
    ensures Interpret(max, st, WithFragments(opcode, [p], rest)) ==
            [Message(st.fragment + p.data)] + (PingsIn(p.controls) + Interpret(max, IDLE, rest))
  {
    assert WithFragments(0, [p][1..], rest) == rest;
    InterpretStep(max, st, ServerFrame(true, opcode, p.data), WithControls(p.controls, rest));
    assert [] + p.data == p.data;
    ControlsDoNotDisturb(max, IDLE, p.controls, rest);
  }

  lemma JoinedStep(before: seq<byte>, pieces: seq<Piece>)
    requires pieces != []
    ensures before + Joined(pieces) == (before + pieces[0].data) + Joined(pieces[1..])
    ensures |pieces| == 1 ==> pieces == [pieces[0]] && Joined(pieces) == pieces[0].data
  {
    WssFrames.Regroup(before, pieces[0].data, Joined(pieces[1..]));
    if |pieces| == 1 {
      assert Joined(pieces[1..]) == [];
      assert pieces[0].data + [] == pieces[0].data;
    }
  }

  lemma Regroup(pings: seq<Event>, more: seq<Event>, m: seq<Event>, after: seq<Event>)
    ensures pings + (more + m + after) == (pings + more) + m + after
  {}

  // A message cut into any fragments, with pings and pongs in between, is
  // delivered once, whole and in order. With opcode 0 the message has begun and
  // st.fragment is what came before.
  lemma {:induction false} FragmentedMessageIsDelivered(
      max: nat, st: State, opcode: Opcode, pieces: seq<Piece>, rest: seq<ServerFrame>)
    requires PiecesFit(max, pieces) && pieces != [] && Fits(max, st.fragment + Joined(pieces))
    requires if opcode == 0 then st.opcode != 0 && st.closed.None? else (opcode == 1 || opcode == 2) && st == IDLE
    ensures Interpret(max, st, WithFragments(opcode, pieces, rest)) ==
            PingsBefore(pieces) + [Message(st.fragment + Joined(pieces))]
            + (PingsAfter(pieces) + Interpret(max, IDLE, rest))
    decreases |pieces|
  {
    hide Interpret, WithFragments;
    JoinedStep(st.fragment, pieces);
    if |pieces| == 1 {
      LastPiece(max, st, opcode, pieces[0], rest);
    } else {
      var next := State(if opcode == 0 then st.opcode else opcode, st.fragment + pieces[0].data, None);
      FirstPiece(max, st, opcode, pieces, rest);
      FragmentedMessageIsDelivered(max, next, 0, pieces[1..], rest);
      Regroup(PingsIn(pieces[0].controls), PingsBefore(pieces[1..]), [Message(st.fragment + Joined(pieces))],
              PingsAfter(pieces) + Interpret(max, IDLE, rest));
    }
  }

  // The events are pings of the message, then a violation, and nothing else.
  ghost predicate Refused(events: seq<Event>, pings: seq<Event>, max: nat) {
    && 0 < |events| <= |pings| + 1
    && events[..|events| - 1] == pings[..|events| - 1]
    && events[|events| - 1].Violation?
    && (max <= SIZE_MAX - 10 ==> events[|events| - 1] == Violation(Some(MESSAGE_TOO_BIG)))
  }

  lemma RefusedLater(events: seq<Event>, first: seq<Event>, pings: seq<Event>, max: nat)
    requires Refused(events, pings, max)
    ensures Refused(first + events, first + pings, max)
  {
    var all, n := first + events, |events| - 1;
    assert all[..|first| + n] == first + events[..n] == first + pings[..n];
  }

  lemma RefusedNow(max: nat, st: State, f: ServerFrame, rest: seq<ServerFrame>, pings: seq<Event>)
    requires if f.opcode == 0 then st.opcode != 0 && st.closed.None?
             else (f.opcode == 1 || f.opcode == 2) && st == IDLE
    requires !Fits(max, f.payload) || |st.fragment| + |f.payload| > max
    ensures Refused(Interpret(max, st, [f] + rest), pings, max)
  {
    var events := Interpret(max, st, [f] + rest);
    assert |events| == 1 && events[0].Violation?;
    assert events[..0] == pings[..0];
  }

  lemma NotTheLast(st: State, pieces: seq<Piece>, max: nat)
    requires pieces != [] && |st.fragment| + |pieces[0].data| <= max < |st.fragment| + |Joined(pieces)|
    ensures |pieces| > 1
  {}

  // A message that outgrows the limit is never delivered, in part or in whole.
  // As above, opcode 0 means that the message has begun.
  lemma {:induction false} OversizedMessageIsRefused(
      max: nat, st: State, opcode: Opcode, pieces: seq<Piece>, rest: seq<ServerFrame>)
    requires PiecesFit(max, pieces)
    requires if opcode == 0 then st.opcode != 0 && st.closed.None? else (opcode == 1 || opcode == 2) && st == IDLE
    requires |st.fragment| <= max < |st.fragment| + |Joined(pieces)|
    ensures Refused(Interpret(max, st, WithFragments(opcode, pieces, rest)), PingsBefore(pieces), max)
    decreases |pieces|
  {
    var p := pieces[0];
    if !Fits(max, p.data) || |st.fragment| + |p.data| > max {
      RefusedNow(max, st, ServerFrame(|pieces| == 1, opcode, p.data),
                 WithControls(p.controls, WithFragments(0, pieces[1..], rest)), PingsBefore(pieces));
    } else {
      NotTheLast(st, pieces, max);
      var next := State(if opcode == 0 then st.opcode else opcode, st.fragment + p.data, None);
      FirstPiece(max, st, opcode, pieces, rest);
      OversizedMessageIsRefused(max, next, 0, pieces[1..], rest);
      RefusedLater(Interpret(max, next, WithFragments(0, pieces[1..], rest)),
                   PingsIn(p.controls), PingsBefore(pieces[1..]), max);
    }
  }
}
