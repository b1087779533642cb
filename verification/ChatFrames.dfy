// Server-sent event frames of a chat stream: how they are written, how long
// they are, and how a reader gets the deltas back out of them.
module ChatFrames {
  import opened Wrappers
  import Utf8

  const PREFIX := "event: delta\ndata: {\"delta\":"
  const MESSAGE_ID := ",\"message_id\":"
  const SUFFIX := "}\n\n"

  // ----- writing

  function HexDigit(n: nat): char
    requires n < 16
  {
    "0123456789abcdef"[n]
  }

  function EscapeChar(c: char): string {
    var v := c as int;
    if c == '\"' then "\\\""
    else if c == '\\' then "\\\\"
    else if c == '\n' then "\\n"
    else if c == '\r' then "\\r"
    else if c == '\t' then "\\t"
    else if v == 8 then "\\b"
    else if v == 12 then "\\f"
    else if v <= 0x1f then "\\u00" + [HexDigit(v / 16), HexDigit(v % 16)]
    else [c]
  }

  function Escape(s: string): string {
    if s == "" then "" else Escape(s[..|s| - 1]) + EscapeChar(s[|s| - 1])
  }

  function Literal(s: string): string { "\"" + Escape(s) + "\"" }

  method PushEscaped(out: string, s: string) returns (r: string)
    ensures r == out + Literal(s)
  {
    hide EscapeChar;
    r := out + "\"";
    for i := 0 to |s|
      invariant r == out + "\"" + Escape(s[..i])
    {
      assert s[..i + 1][..i] == s[..i];
      r := r + EscapeChar(s[i]);
    }
    assert s[..|s|] == s;
    r := r + "\"";
  }

  function DeltaData(id: string, delta: string): string {
    "{\"delta\":" + Literal(delta) + MESSAGE_ID + Literal(id) + "}"
  }

  // Frames of any event; data is one line.
  function EventFrame(name: string, data: string): string {
    "event: " + name + "\ndata: " + data + "\n\n"
  }

  // The frame assembled piece by piece is the event frame of its data.
  method EncodeDelta(id: string, delta: string) returns (frame: string)
    ensures frame == EventFrame("delta", DeltaData(id, delta))
  {
    frame := PushEscaped(PREFIX, delta);
    frame := PushEscaped(frame + MESSAGE_ID, id);
    frame := frame + SUFFIX;
    Assembled(id, delta);
  }

  function DeltaFrame(id: string, delta: string): string { EventFrame("delta", DeltaData(id, delta)) }

  lemma Assembled(id: string, delta: string)
    ensures PREFIX + Literal(delta) + MESSAGE_ID + Literal(id) + SUFFIX == DeltaFrame(id, delta)
  {
    var a, l, m, n := "event: delta\ndata: ", Literal(delta), MESSAGE_ID, Literal(id);
    assert PREFIX == a + "{\"delta\":" && SUFFIX == "}" + "\n\n";
    assert "event: " + "delta" + "\ndata: " == a;
    Regroup(a, "{\"delta\":", l, m, n, "}", "\n\n");
  }

  lemma Regroup(a: string, b: string, l: string, m: string, n: string, c: string, d: string)
    ensures (a + b) + l + m + n + (c + d) == a + (b + l + m + n + c) + d
  {}

  // Spelled out: the seven short escapes, the other controls, and what is left as it is.
  lemma EscapesSpelledOut(c: char)
    ensures EscapeChar('\"') == "\\\"" && EscapeChar('\\') == "\\\\"
    ensures EscapeChar('\n') == "\\n" && EscapeChar('\r') == "\\r" && EscapeChar('\t') == "\\t"
    ensures EscapeChar(8 as char) == "\\b" && EscapeChar(12 as char) == "\\f"
    ensures EscapeChar(0x1f as char) == "\\u001f" && EscapeChar(0x0b as char) == "\\u000b"
    ensures c as int >= 0x20 && c != '\"' && c != '\\' ==> EscapeChar(c) == [c]
    ensures c as int < 0x20 ==> |EscapeChar(c)| == 2 || |EscapeChar(c)| == 6
  {}

  // A whole frame.
  lemma FrameSpelledOut(id: string, delta: string)
    ensures DeltaFrame(id, delta) ==
      "event: delta\ndata: {\"delta\":" + Literal(delta) + ",\"message_id\":" + Literal(id) + "}\n\n"
  {
    Assembled(id, delta);
  }

  // ----- lengths

  function EscapedLen(c: char): nat {
    var v := c as int;
    if c == '\"' || c == '\\' || c == '\n' || c == '\r' || c == '\t' || v == 8 || v == 12 then 2
    else if v <= 0x1f then 6
    else Utf8.CharLen(c)
  }

  function EscapedSum(s: string): nat {
    if s == "" then 0 else EscapedSum(s[..|s| - 1]) + EscapedLen(s[|s| - 1])
  }

  function LiteralLen(s: string): nat { 2 + EscapedSum(s) }

  function FrameLen(deltaLen: nat, idLen: nat): nat {
    Utf8.Len(PREFIX) + deltaLen + Utf8.Len(MESSAGE_ID) + idLen + Utf8.Len(SUFFIX)
  }

  predicate Ascii(s: string) { forall i :: 0 <= i < |s| ==> s[i] as int < 0x80 }

  lemma {:induction false} AsciiLen(s: string)
    requires Ascii(s)
    ensures Utf8.Len(s) == |s|
  {
    if s != "" {
      AsciiLen(s[..|s| - 1]);
    }
  }

  // The length table counts the octets of what the escaper writes.
  lemma EscapeCharLen(c: char)
    ensures Utf8.Len(EscapeChar(c)) == EscapedLen(c) && |Utf8.Encode(EscapeChar(c))| == EscapedLen(c)
  {
    Utf8.OctetsOf(EscapeChar(c));
    hide Utf8.Encode;
    if Ascii(EscapeChar(c)) { AsciiLen(EscapeChar(c)); }
    assert [c][..0] == "";
  }

  lemma {:induction false} EscapeLen(s: string)
    ensures Utf8.Len(Escape(s)) == EscapedSum(s)
  {
    if s != "" {
      EscapeLen(s[..|s| - 1]);
      EscapeCharLen(s[|s| - 1]);
      Utf8.LenJoin(Escape(s[..|s| - 1]), EscapeChar(s[|s| - 1]));
    }
  }

  lemma LiteralLenIsExact(s: string)
    ensures Utf8.Len(Literal(s)) == LiteralLen(s)
  {
    EscapeLen(s);
    AsciiLen("\"");
    Utf8.LenJoin("\"", Escape(s));
    Utf8.LenJoin("\"" + Escape(s), "\"");
  }

  // The predicted length of a frame is the number of its octets.
  lemma FrameLenIsExact(id: string, delta: string)
    ensures |Utf8.Encode(DeltaFrame(id, delta))| == FrameLen(LiteralLen(delta), LiteralLen(id))
  {
    FrameLenOf(id, delta);
    Utf8.OctetsOf(DeltaFrame(id, delta));
  }

  lemma FrameLenOf(id: string, delta: string)
    ensures Utf8.Len(DeltaFrame(id, delta)) == FrameLen(LiteralLen(delta), LiteralLen(id))
  {
    Assembled(id, delta);
    LiteralLenIsExact(delta);
    LiteralLenIsExact(id);
    FiveParts(PREFIX, Literal(delta), MESSAGE_ID, Literal(id), SUFFIX);
  }

  lemma FiveParts(a: string, b: string, c: string, d: string, e: string)
    ensures Utf8.Len(a + b + c + d + e) == Utf8.Len(a) + Utf8.Len(b) + Utf8.Len(c) + Utf8.Len(d) + Utf8.Len(e)
  {
    Utf8.LenJoin(a, b);
    Utf8.LenJoin(a + b, c);
    Utf8.LenJoin(a + b + c, d);
    Utf8.LenJoin(a + b + c + d, e);
  }

  lemma {:induction false} EscapedSumJoin(s: string, t: string)
    ensures EscapedSum(s + t) == EscapedSum(s) + EscapedSum(t)
  {
    if t == "" {
      assert s + t == s;
    } else {
      assert (s + t)[..|s + t| - 1] == s + t[..|t| - 1];
      EscapedSumJoin(s, t[..|t| - 1]);
    }
  }

  // ----- one line

  predicate OneLine(s: string) { forall c :: c in s ==> c != '\n' && c != '\r' }

  lemma EscapedCharIsOneLine(c: char)
    ensures OneLine(EscapeChar(c))
  {}

  lemma {:induction false} EscapeIsOneLine(s: string)
    ensures OneLine(Escape(s))
  {
    if s != "" {
      EscapeIsOneLine(s[..|s| - 1]);
      EscapedCharIsOneLine(s[|s| - 1]);
      hide EscapeChar;
    }
  }

  lemma DataIsOneLine(id: string, delta: string)
    ensures OneLine(DeltaData(id, delta))
  {
    EscapeIsOneLine(id);
    EscapeIsOneLine(delta);
    hide Escape;
    FiveLines("{\"delta\":", Literal(delta), MESSAGE_ID, Literal(id), "}");
  }

  lemma FiveLines(a: string, b: string, c: string, d: string, e: string)
    requires OneLine(a) && OneLine(b) && OneLine(c) && OneLine(d) && OneLine(e)
    ensures OneLine(a + b + c + d + e)
  {}

  // ----- reading JSON (sections 4 and 7 of RFC 8259)

  function HexValue(c: char): Option<nat> {
    if '0' <= c <= '9' then Some(c as int - '0' as int)
    else if 'a' <= c <= 'f' then Some(c as int - 'a' as int + 10)
    else if 'A' <= c <= 'F' then Some(c as int - 'A' as int + 10)
    else None
  }

  // One character and how many it is written with. Surrogate pairs, which the
  // writer never uses, are not read.
  function ReadChar(s: string): (r: Option<(char, nat)>)
    ensures r.Some? ==> 0 < r.value.1 <= |s|
  {
    if s == "" then None
    else if s[0] != '\\' then (if s[0] as int < 0x20 || s[0] == '\"' then None else Some((s[0], 1)))
    else if |s| < 2 then None
    else if s[1] == '\"' || s[1] == '\\' || s[1] == '/' then Some((s[1], 2))
    else if s[1] == 'b' then Some((8 as char, 2))
    else if s[1] == 'f' then Some((12 as char, 2))
    else if s[1] == 'n' then Some(('\n', 2))
    else if s[1] == 'r' then Some(('\r', 2))
    else if s[1] == 't' then Some(('\t', 2))
    else if s[1] != 'u' || |s| < 6 then None
    else match (HexValue(s[2]), HexValue(s[3]), HexValue(s[4]), HexValue(s[5]))
      case (Some(a), Some(b), Some(c), Some(d)) =>
        var v := 4096 * a + 256 * b + 16 * c + d;
        if v < 0xD800 || 0xE000 <= v < 0x1_0000 then Some((v as char, 6)) else None
      case _ => None
  }

  // The rest of a string literal, its value and what follows it.
  function ReadString(s: string): Option<(string, string)> {
    if s != "" && s[0] == '\"' then Some(("", s[1..]))
    else match ReadChar(s)
      case None => None
      case Some((c, n)) =>
        match ReadString(s[n..])
        case None => None
        case Some((value, rest)) => Some(([c] + value, rest))
  }

  function Strip(prefix: string, s: string): Option<string> {
    if prefix <= s then Some(s[|prefix|..]) else None
  }

  // The delta and the message id of the data of a delta event.
  function ReadDelta(data: string): Option<(string, string)> {
    match Strip("{\"delta\":\"", data)
    case None => None
    case Some(s) =>
      match ReadString(s)
      case None => None
      case Some((delta, t)) =>
        match Strip(",\"message_id\":\"", t)
        case None => None
        case Some(u) =>
          match ReadString(u)
          case Some((id, v)) => if v == "}" then Some((delta, id)) else None
          case None => None
  }

  lemma ReadEscapedChar(c: char, rest: string)
    ensures ReadChar(EscapeChar(c) + rest) == Some((c, |EscapeChar(c)|))
    ensures EscapeChar(c)[0] != '\"'
  {
    var v := c as int;
    if v <= 0x1f && |EscapeChar(c)| == 6 {
      var s := EscapeChar(c) + rest;
      assert s[2] == '0' && s[3] == '0' && s[4] == HexDigit(v / 16) && s[5] == HexDigit(v % 16);
      HexRead(v / 16);
      HexRead(v % 16);
    }
  }

  lemma HexRead(n: nat)
    requires n < 16
    ensures HexValue(HexDigit(n)) == Some(n)
  {}

  lemma {:induction false} EscapeJoin(s: string, t: string)
    ensures Escape(s + t) == Escape(s) + Escape(t)
  {
    hide EscapeChar;
    if t == "" {
      assert s + t == s;
    } else {
      assert (s + t)[..|s + t| - 1] == s + t[..|t| - 1];
      EscapeJoin(s, t[..|t| - 1]);
    }
  }

  // What was escaped is read back.
  lemma {:induction false} ReadEscaped(s: string, rest: string)
    ensures ReadString(Escape(s) + "\"" + rest) == Some((s, rest))
  {
    var text := Escape(s) + "\"" + rest;
    if s == "" {
      assert text == "\"" + rest;
    } else {
      var c, tail := s[0], s[1..];
      var more := Escape(tail) + "\"" + rest;
      EscapeFront(s);
      JoinThree(EscapeChar(c), Escape(tail), "\"", rest);
      assert text == EscapeChar(c) + more;
      ReadEscapedChar(c, more);
      assert text[|EscapeChar(c)|..] == more;
      ReadEscaped(tail, rest);
      assert s == [c] + tail;
    }
  }

  lemma EscapeFront(s: string)
    requires s != ""
    ensures Escape(s) == EscapeChar(s[0]) + Escape(s[1..])
  {
    hide EscapeChar;
    assert s == [s[0]] + s[1..];
    EscapeJoin([s[0]], s[1..]);
    assert [s[0]][..0] == "";
  }

  lemma JoinThree(a: string, b: string, c: string, d: string)
    ensures (a + b) + c + d == a + (b + c + d)
  {}

  lemma StripJoined(p: string, s: string)
    ensures Strip(p, p + s) == Some(s)
  {}

  lemma DeltaIsReadBack(id: string, delta: string)
    ensures ReadDelta(DeltaData(id, delta)) == Some((delta, id))
  {
    hide ReadString, Escape;
    var p, q := "{\"delta\":\"", ",\"message_id\":\"";
    var u := Escape(id) + "\"" + "}";
    var s := Escape(delta) + "\"" + (q + u);
    assert "{\"delta\":" + "\"" == p && MESSAGE_ID + "\"" == q;
    DataParts("{\"delta\":", "\"", Escape(delta), MESSAGE_ID, Escape(id), "}");
    assert DeltaData(id, delta) == p + s;
    StripJoined(p, s);
    ReadEscaped(delta, q + u);
    StripJoined(q, u);
    ReadEscaped(id, "}");
  }

  lemma DataParts(a: string, quote: string, d: string, m: string, i: string, e: string)
    ensures a + (quote + d + quote) + m + (quote + i + quote) + e
            == (a + quote) + (d + quote + ((m + quote) + (i + quote + e)))
  {}

  // ----- reading events (section 9.2.6 of the HTML standard)

  datatype Event = Event(name: string, data: string)

  function LineEnd(s: string): (n: nat)
    ensures n <= |s| && (n < |s| ==> s[n] == '\n' || s[n] == '\r')
    ensures OneLine(s[..n])
  {
    if s == "" || s[0] == '\n' || s[0] == '\r' then 0
    else
      assert s[..1 + LineEnd(s[1..])] == [s[0]] + s[1..][..LineEnd(s[1..])];
      1 + LineEnd(s[1..])
  }

  // What follows the line end at n; carriage return and line feed together end one line.
  function NextLine(s: string, n: nat): (r: string)
    requires n < |s|
    ensures |r| < |s|
  {
    if s[n] == '\r' && n + 1 < |s| && s[n + 1] == '\n' then s[n + 2..] else s[n + 1..]
  }

  function FieldValue(s: string): string { if s != "" && s[0] == ' ' then s[1..] else s }

  // name and data are what the lines of the current event have said so far.
  function Events(s: string, name: string, data: Option<string>): seq<Event>
    decreases |s|
  {
    var n := LineEnd(s);
    if n == |s| then []
    else
      var line, rest := s[..n], NextLine(s, n);
      if line == "" then
        (if data.None? then [] else [Event(if name == "" then "message" else name, data.value)])
        + Events(rest, "", None)
      else if "event:" <= line then Events(rest, FieldValue(line[6..]), data)
      else if "data:" <= line then
        var value := FieldValue(line[5..]);
        Events(rest, name, Some(if data.Some? then data.value + "\n" + value else value))
      else Events(rest, name, data)
  }

  function Join(frames: seq<string>): string {
    if frames == [] then "" else frames[0] + Join(frames[1..])
  }

  lemma {:induction false} LineEndOf(line: string, rest: string)
    requires OneLine(line)
    ensures LineEnd(line + "\n" + rest) == |line|
    ensures NextLine(line + "\n" + rest, |line|) == rest && (line + "\n" + rest)[..|line|] == line
  {
    var s := line + "\n" + rest;
    if line != "" {
      assert line[0] in line && forall c :: c in line[1..] ==> c in line;
      LineEndOf(line[1..], rest);
      assert s[1..] == line[1..] + "\n" + rest;
    }
    assert s[|line| + 1..] == rest;
    assert s[|line|] == '\n';
  }

  lemma EventLine(name: string, rest: string, data: Option<string>)
    requires OneLine(name)
    ensures Events("event: " + name + "\n" + rest, "", data) == Events(rest, name, data)
  {
    var line := "event: " + name;
    LineEndOf(line, rest);
    assert line[..6] == "event:" && line[6..] == " " + name;
    assert FieldValue(line[6..]) == name;
  }

  lemma DataLine(value: string, rest: string, name: string)
    requires OneLine(value)
    ensures Events("data: " + value + "\n" + rest, name, None) == Events(rest, name, Some(value))
  {
    var line := "data: " + value;
    LineEndOf(line, rest);
    assert line[..5] == "data:" && line[5..] == " " + value;
    assert FieldValue(line[5..]) == value;
    assert line[0] == 'd' && "event:"[0] == 'e';
  }

  lemma BlankLine(rest: string, name: string, data: string)
    requires name != ""
    ensures Events("\n" + rest, name, Some(data)) == [Event(name, data)] + Events(rest, "", None)
  {
    LineEndOf("", rest);
    assert "" + "\n" + rest == "\n" + rest;
  }

  // A frame is read as its event, and what follows it on its own.
  lemma FrameIsOneEvent(name: string, data: string, rest: string)
    requires name != "" && OneLine(name) && OneLine(data)
    ensures Events(EventFrame(name, data) + rest, "", None) == [Event(name, data)] + Events(rest, "", None)
  {
    hide Events;
    var tail := "\n" + rest;
    var body := "data: " + data + "\n" + tail;
    FrameLines(name, data, rest);
    assert EventFrame(name, data) + rest == "event: " + name + "\n" + body;
    EventLine(name, body, None);
    DataLine(data, tail, name);
    BlankLine(rest, name, data);
  }

  lemma FrameLines(name: string, data: string, rest: string)
    ensures EventFrame(name, data) + rest == "event: " + name + "\n" + ("data: " + data + "\n" + ("\n" + rest))
  {
    assert "\ndata: " == "\n" + "data: " && "\n\n" == "\n" + "\n";
    LinesRegroup("event: ", name, "\n", "data: ", data, rest);
  }

  lemma LinesRegroup(a: string, b: string, n: string, c: string, d: string, rest: string)
    ensures (a + b + (n + c) + d + (n + n)) + rest == a + b + n + (c + d + n + (n + rest))
  {}

  // ----- frames and the text they carry

  ghost predicate Shows(frame: string, name: string, data: string) {
    name != "" && OneLine(name) && OneLine(data) && frame == EventFrame(name, data)
  }

  ghost predicate IsFrame(frame: string) {
    exists name, data :: Shows(frame, name, data)
  }

  // The text an event adds to the message id.
  function EventText(e: Event, id: string): string {
    if e.name == "delta" && ReadDelta(e.data).Some? && ReadDelta(e.data).value.1 == id
    then ReadDelta(e.data).value.0 else ""
  }

  function EventsText(events: seq<Event>, id: string): string {
    if events == [] then "" else EventText(events[0], id) + EventsText(events[1..], id)
  }

  function FrameText(frame: string, id: string): string { EventsText(Events(frame, "", None), id) }

  // The text carried by a list of frames, frame by frame.
  function Text(frames: seq<string>, id: string): string {
    if frames == [] then "" else FrameText(frames[0], id) + Text(frames[1..], id)
  }

  lemma FrameTextOf(name: string, data: string, id: string)
    requires name != "" && OneLine(name) && OneLine(data)
    ensures FrameText(EventFrame(name, data), id) == EventText(Event(name, data), id)
  {
    hide EventFrame, ReadDelta;
    var e := Event(name, data);
    FrameIsOneEvent(name, data, "");
    assert EventFrame(name, data) + "" == EventFrame(name, data);
    assert Events("", "", None) == [];
    hide Events;
    assert ([e] + [])[1..] == [] && [e] + [] == [e];
    assert EventsText([e], id) == EventText(e, id) + EventsText([], id);
  }

  lemma NameIsOneLine()
    ensures OneLine("delta")
  {}

  lemma DeltaFrameText(id: string, delta: string)
    ensures IsFrame(DeltaFrame(id, delta)) && FrameText(DeltaFrame(id, delta), id) == delta
  {
    hide EventFrame, DeltaData, ReadDelta, OneLine, FrameText;
    DataIsOneLine(id, delta);
    assert OneLine("delta") by { NameIsOneLine(); }
    assert Shows(DeltaFrame(id, delta), "delta", DeltaData(id, delta));
    FrameTextOf("delta", DeltaData(id, delta), id);
    DeltaIsReadBack(id, delta);
  }

  // Reading all the frames as one stream gives the text they carry.
  lemma {:induction false} StreamText(frames: seq<string>, id: string)
    requires forall f :: f in frames ==> IsFrame(f)
    ensures EventsText(Events(Join(frames), "", None), id) == Text(frames, id)
  {
    if frames == [] {
      assert Events("", "", None) == [];
    } else {
      assert frames[0] in frames;
      var name, data :| Shows(frames[0], name, data);
      var e, rest := Event(name, data), Join(frames[1..]);
      FrameIsOneEvent(name, data, rest);
      FrameTextOf(name, data, id);
      StreamText(frames[1..], id);
      assert ([e] + Events(rest, "", None))[1..] == Events(rest, "", None);
    }
  }

  lemma {:induction false} TextJoin(f: seq<string>, g: seq<string>, id: string)
    ensures Text(f + g, id) == Text(f, id) + Text(g, id)
  {
    if f == [] {
      assert f + g == g;
    } else {
      assert (f + g)[1..] == f[1..] + g;
      TextJoin(f[1..], g, id);
    }
  }

  // The frames of a list of deltas.
  function DeltaFrames(id: string, deltas: seq<string>): seq<string> {
    if deltas == [] then [] else DeltaFrames(id, deltas[..|deltas| - 1]) + [DeltaFrame(id, deltas[|deltas| - 1])]
  }

  function Concat(pieces: seq<string>): string {
    if pieces == [] then "" else Concat(pieces[..|pieces| - 1]) + pieces[|pieces| - 1]
  }

  lemma LastFrame(id: string, deltas: seq<string>, rest: string)
    requires deltas != []
    ensures var front, frame := deltas[..|deltas| - 1], DeltaFrame(id, deltas[|deltas| - 1]);
      Join(DeltaFrames(id, deltas)) + rest == Join(DeltaFrames(id, front)) + (frame + rest)
  {
    hide EventFrame, DeltaData;
    JoinLast(DeltaFrames(id, deltas[..|deltas| - 1]), DeltaFrame(id, deltas[|deltas| - 1]));
  }

  lemma DeltaFrameIsOneEvent(id: string, delta: string, rest: string)
    ensures Events(DeltaFrame(id, delta) + rest, "", None) ==
            [Event("delta", DeltaData(id, delta))] + Events(rest, "", None)
  {
    DataIsOneLine(id, delta);
    NameIsOneLine();
    FrameIsOneEvent("delta", DeltaData(id, delta), rest);
  }

  // The deltas of the message id among the events, in order.
  function ReadDeltas(events: seq<Event>, id: string): seq<string> {
    if events == [] then []
    else
      var e, rest := events[0], ReadDeltas(events[1..], id);
      if e.name == "delta" && ReadDelta(e.data).Some? && ReadDelta(e.data).value.1 == id
      then [ReadDelta(e.data).value.0] + rest else rest
  }

  lemma {:induction false} EventsAreRead(id: string, deltas: seq<string>)
    ensures ReadDeltas(DeltaEvents(id, deltas), id) == deltas
  {
    hide ReadDelta, DeltaData;
    if deltas != [] {
      DeltaIsReadBack(id, deltas[0]);
      assert DeltaEvents(id, deltas)[1..] == DeltaEvents(id, deltas[1..]);
      EventsAreRead(id, deltas[1..]);
    }
  }

  // A reader of any concatenation of delta frames gets the list of deltas back.
  lemma DeltasAreRecovered(id: string, deltas: seq<string>)
    ensures ReadDeltas(Events(Join(DeltaFrames(id, deltas)), "", None), id) == deltas
  {
    hide Events, Join, DeltaFrames, ReadDeltas;
    var text := Join(DeltaFrames(id, deltas));
    FramesAreEvents(id, deltas, "");
    EventsAreRead(id, deltas);
    assert text + "" == text && DeltaEvents(id, deltas) + [] == DeltaEvents(id, deltas);
    assert Events("", "", None) == [] by { NoEvents(); }
  }

  lemma NoEvents()
    ensures Events("", "", None) == []
  {}

  // A reader of the concatenated frames sees one event for each delta.
  lemma {:induction false} FramesAreEvents(id: string, deltas: seq<string>, rest: string)
    ensures Events(Join(DeltaFrames(id, deltas)) + rest, "", None) == DeltaEvents(id, deltas) + Events(rest, "", None)
  {
    hide DeltaFrame, DeltaData, Events, Join;
    if deltas == [] {
      assert Join([]) == "" by { JoinNothing(); }
      assert "" + rest == rest;
    } else {
      var front, last := deltas[..|deltas| - 1], deltas[|deltas| - 1];
      LastFrame(id, deltas, rest);
      FramesAreEvents(id, front, DeltaFrame(id, last) + rest);
      DeltaFrameIsOneEvent(id, last, rest);
      assert DeltaEvents(id, deltas) == DeltaEvents(id, front) + [Event("delta", DeltaData(id, last))];
    }
  }

  lemma JoinNothing()
    ensures Join([]) == ""
  {}

  function DeltaEvents(id: string, deltas: seq<string>): seq<Event> {
    seq(|deltas|, i requires 0 <= i < |deltas| => Event("delta", DeltaData(id, deltas[i])))
  }

  lemma {:induction false} JoinLast(frames: seq<string>, frame: string)
    ensures Join(frames + [frame]) == Join(frames) + frame
  {
    if frames == [] {
      assert [frame][1..] == [];
      assert Join([frame]) == frame + "" == frame;
      assert frames + [frame] == [frame];
    } else {
      assert (frames + [frame])[1..] == frames[1..] + [frame];
      JoinLast(frames[1..], frame);
    }
  }

  lemma {:induction false} TextOfDeltas(id: string, deltas: seq<string>)
    ensures Text(DeltaFrames(id, deltas), id) == Concat(deltas)
  {
    if deltas != [] {
      var front, last := deltas[..|deltas| - 1], deltas[|deltas| - 1];
      TextOfDeltas(id, front);
      TextJoin(DeltaFrames(id, front), [DeltaFrame(id, last)], id);
      DeltaFrameText(id, last);
      assert [DeltaFrame(id, last)][1..] == [];
    }
  }
}
