/** The event stream written to one client, and the parser of section 9.2.5 and 9.2.6 of the
    HTML Living Standard that reads it back. */
module EventStream {
  import opened Collections

  datatype Event = Event(kind: string, data: string)

  // ------------------------------------------------------------------------ the parser

  /** `line` is the line being read, `afterCR` whether the last character was a carriage
      return, whose line feed is then part of the same line end. */
  datatype Parser = Parser(line: string, afterCR: bool, kind: string, data: string, events: seq<Event>)

  const FRESH := Parser("", false, "", "", [])

  predicate IsBreak(c: char) {
    c == '\n' || c == '\r'
  }

  ghost predicate OneLine(s: string) {
    forall i :: 0 <= i < |s| ==> !IsBreak(s[i])
  }

  /** The field name and the value of a line that is not a comment. */
  function FieldOf(line: string): (r: (string, string))
    ensures |r.0| + |r.1| <= |line|
    ensures OneLine(line) ==> OneLine(r.1)
  {
    var colon := Colon(line);
    if colon == |line| then (line, "")
    else if colon + 1 < |line| && line[colon + 1] == ' ' then (line[..colon], line[colon + 2..])
    else (line[..colon], line[colon + 1..])
  }

  function Colon(line: string): (i: nat)
    ensures i <= |line|
    ensures forall k :: 0 <= k < i ==> line[k] != ':'
    ensures i < |line| ==> line[i] == ':'
  {
    if line == "" then 0 else if line[0] == ':' then 0 else 1 + Colon(line[1..])
  }

  /** A blank line hands the event over, unless it has no data; the fields `id` and `retry`
      change neither the kind nor the data of any event. */
  function ReadLine(p: Parser): Parser {
    if p.line == "" then
      if p.data == "" then p.(kind := "", data := "")
      else
        p.(kind := "", data := "",
           events := p.events + [Event(if p.kind == "" then "message" else p.kind, p.data[..|p.data| - 1])])
    else if p.line[0] == ':' then p
    else
      var (field, value) := FieldOf(p.line);
      if field == "event" then p.(kind := value)
      else if field == "data" then p.(data := p.data + value + "\n")
      else p
  }

  function ReadChar(p: Parser, c: char): Parser {
    if c == '\n' && p.afterCR then p.(afterCR := false)
    else if IsBreak(c) then ReadLine(p).(line := "", afterCR := c == '\r')
    else p.(line := p.line + [c], afterCR := false)
  }

  function Feed(p: Parser, s: string): Parser
    decreases s
  {
    if s == "" then p else Feed(ReadChar(p, s[0]), s[1..])
  }

  function Parse(s: string): seq<Event> {
    Feed(FRESH, s).events
  }

  lemma {:induction false} FeedConcat(p: Parser, a: string, b: string)
    ensures Feed(p, a + b) == Feed(Feed(p, a), b)
    decreases a
  {
    hide ReadChar;
    if a == "" {
      assert a + b == b;
    } else {
      assert (a + b)[1..] == a[1..] + b;
      FeedConcat(ReadChar(p, a[0]), a[1..], b);
    }
  }

  lemma {:induction false} FeedOneLine(p: Parser, s: string)
    requires OneLine(s) && !p.afterCR
    ensures Feed(p, s) == p.(line := p.line + s)
    decreases s
  {
    if s == "" {
      assert p.line + s == p.line;
    } else {
      assert p.line + s == (p.line + [s[0]]) + s[1..];
      FeedOneLine(ReadChar(p, s[0]), s[1..]);
    }
  }

  lemma FeedBreak(p: Parser, c: char)
    ensures Feed(p, [c]) == ReadChar(p, c)
  {
    hide ReadChar;
    assert [c][1..] == "";
  }

  // ------------------------------------------------------------------------ the writer

  datatype Chunk = Frame(name: string, payload: string) | Keepalive

  function Text(chunk: Chunk): string {
    match chunk
    case Frame(name, payload) => "event: " + name + "\n" + "data: " + payload + "\n" + "\n"
    case Keepalive => ": keepalive" + "\n" + "\n"
  }

  /** The kind under which a payload is sent: the discriminator its JSON carries, if any. */
  function FrameEvent(decode: string -> Option<string>, payload: string): (kind: string)
    ensures kind != ""
  {
    match decode(payload)
    case None => "message"
    case Some(event) => if event == "" then "message" else event
  }

  /** What the select loop takes next; whether a frame is allowed is asked as it arrives. */
  datatype Input = ContextDone | ChannelClosed | Message(payload: string, allowed: bool) | HeartbeatTick

  /** A write goes out whole, or breaks after some characters. */
  datatype WriteResult = Written | Broken(sent: nat)

  datatype Session = Session(output: string, writes: nat, closed: bool)

  function Emit(s: Session, text: string, results: nat -> WriteResult): Session {
    match results(s.writes)
    case Written => Session(s.output + text, s.writes + 1, false)
    case Broken(sent) => Session(s.output + text[..if sent <= |text| then sent else |text|], s.writes + 1, true)
  }

  function Turn(s: Session, input: Input, decode: string -> Option<string>, results: nat -> WriteResult): Session {
    if s.closed then s
    else
      match input
      case ContextDone => s.(closed := true)
      case ChannelClosed => s.(closed := true)
      case Message(payload, allowed) =>
        if allowed then Emit(s, Text(Frame(FrameEvent(decode, payload), payload)), results) else s
      case HeartbeatTick => Emit(s, Text(Keepalive), results)
  }

  function Served(inputs: seq<Input>, decode: string -> Option<string>, results: nat -> WriteResult): Session {
    if inputs == [] then Session("", 0, false)
    else Turn(Served(inputs[..|inputs| - 1], decode, results), inputs[|inputs| - 1], decode, results)
  }

  lemma {:induction false} ClosedStays(
    inputs: seq<Input>, n: nat, decode: string -> Option<string>, results: nat -> WriteResult)
    requires n <= |inputs| && Served(inputs[..n], decode, results).closed
    ensures Served(inputs, decode, results) == Served(inputs[..n], decode, results)
  {
    if n == |inputs| {
      assert inputs[..n] == inputs;
    } else {
      var front := inputs[..|inputs| - 1];
      assert front[..n] == inputs[..n];
      ClosedStays(front, n, decode, results);
    }
  }

  lemma ServedStep(inputs: seq<Input>, i: nat, decode: string -> Option<string>, results: nat -> WriteResult)
    requires i < |inputs|
    ensures Served(inputs[..i + 1], decode, results)
            == Turn(Served(inputs[..i], decode, results), inputs[i], decode, results)
  {
    hide Turn;
    assert inputs[..i + 1][..i] == inputs[..i];
  }

  /** The select loop, after the ready event. */
  method Serve(inputs: seq<Input>, decode: string -> Option<string>, results: nat -> WriteResult)
    returns (output: string)
    ensures output == Served(inputs, decode, results).output
  {
    hide Served, Text, FrameEvent;
    output := "";
    var writes := 0;
    assert inputs[..0] == [];
    assert Served([], decode, results) == Session("", 0, false) by {
      NothingServed(decode, results);
    }
    for i := 0 to |inputs|
      invariant Served(inputs[..i], decode, results) == Session(output, writes, false)
    {
      ServedStep(inputs, i, decode, results);
      var text := "";
      match inputs[i] {
        case ContextDone =>
          ClosedStays(inputs, i + 1, decode, results);
          return;
        case ChannelClosed =>
          ClosedStays(inputs, i + 1, decode, results);
          return;
        case Message(payload, allowed) =>
          if !allowed {
            continue;
          }
          text := Text(Frame(FrameEvent(decode, payload), payload));
        case HeartbeatTick =>
          text := Text(Keepalive);
      }
      match results(writes) {
        case Written =>
          output, writes := output + text, writes + 1;
        case Broken(sent) =>
          output := output + text[..if sent <= |text| then sent else |text|];
          ClosedStays(inputs, i + 1, decode, results);
          return;
      }
    }
    assert inputs[..|inputs|] == inputs;
  }

  lemma NothingServed(decode: string -> Option<string>, results: nat -> WriteResult)
    ensures Served([], decode, results) == Session("", 0, false)
  {
  }

  /** Whether the loop has been told to stop. */
  predicate Stopped(inputs: seq<Input>) {
    && inputs != []
    && (Stopped(inputs[..|inputs| - 1]) || inputs[|inputs| - 1].ContextDone? || inputs[|inputs| - 1].ChannelClosed?)
  }

  function ChunkOf(input: Input, decode: string -> Option<string>): seq<Chunk> {
    match input
    case Message(payload, true) => [Frame(FrameEvent(decode, payload), payload)]
    case HeartbeatTick => [Keepalive]
    case _ => []
  }

  /** What there is to write. */
  function Chunks(inputs: seq<Input>, decode: string -> Option<string>): seq<Chunk> {
    if inputs == [] then []
    else
      var front, last := inputs[..|inputs| - 1], inputs[|inputs| - 1];
      Chunks(front, decode) + if Stopped(front) then [] else ChunkOf(last, decode)
  }

  function AllText(chunks: seq<Chunk>): string {
    if chunks == [] then "" else AllText(chunks[..|chunks| - 1]) + Text(chunks[|chunks| - 1])
  }

  lemma AllTextSnoc(chunks: seq<Chunk>, more: seq<Chunk>)
    requires |more| <= 1
    ensures AllText(chunks + more) == AllText(chunks) + if more == [] then "" else Text(more[0])
  {
    if more == [] {
      assert chunks + more == chunks;
    } else {
      assert (chunks + more)[..|chunks|] == chunks;
    }
  }

  ghost predicate AllWritten(results: nat -> WriteResult, n: nat) {
    forall k: nat :: k < n ==> results(k).Written?
  }

  /** How far a session has come with what there is to write. */
  ghost predicate Follows(s: Session, text: string, stopped: bool, results: nat -> WriteResult) {
    && s.output <= text
    && (!s.closed ==> s.output == text && !stopped)
    && (AllWritten(results, s.writes) ==> s.output == text && s.closed == stopped)
  }

  lemma TurnFollows(
    s: Session, text: string, stopped: bool, input: Input, decode: string -> Option<string>,
    results: nat -> WriteResult)
    requires Follows(s, text, stopped, results)
    ensures var more := if stopped then [] else ChunkOf(input, decode);
            Follows(Turn(s, input, decode, results), text + if more == [] then "" else Text(more[0]),
                    stopped || input.ContextDone? || input.ChannelClosed?, results)
  {
    hide Text, FrameEvent;
    assert text + "" == text;
    var t := Turn(s, input, decode, results);
    if AllWritten(results, t.writes) {
      assert AllWritten(results, s.writes);
      assert t.writes == s.writes + 1 ==> results(s.writes).Written?;
    }
  }

  /** The output is the text of the chunks in order: a prefix of it, and all of it while every
      write goes out. */
  lemma {:induction false} OutputIsText(
    inputs: seq<Input>, decode: string -> Option<string>, results: nat -> WriteResult)
    ensures Follows(Served(inputs, decode, results), AllText(Chunks(inputs, decode)), Stopped(inputs), results)
  {
    if inputs == [] {
      assert AllText([]) == "";
    } else {
      var front, last := inputs[..|inputs| - 1], inputs[|inputs| - 1];
      OutputIsText(front, decode, results);
      hide Follows, Text, FrameEvent, AllText, Turn;
      AllTextSnoc(Chunks(front, decode), if Stopped(front) then [] else ChunkOf(last, decode));
      var text := AllText(Chunks(front, decode));
      TurnFollows(Served(front, decode, results), text, Stopped(front), last, decode, results);
    }
  }

  // ------------------------------------------------------------- a clean frame is read back

  function EventsOf(chunks: seq<Chunk>): seq<Event> {
    if chunks == [] then []
    else
      EventsOf(chunks[..|chunks| - 1])
      + match chunks[|chunks| - 1]
        case Frame(name, payload) => [Event(name, payload)]
        case Keepalive => []
  }

  ghost predicate Clean(chunk: Chunk) {
    chunk.Frame? ==> OneLine(chunk.name) && OneLine(chunk.payload)
  }

  lemma EventLine(name: string)
    requires OneLine(name)
    ensures OneLine("event: " + name) && FieldOf("event: " + name) == ("event", name)
  {
    var line := "event: " + name;
    assert line[5] == ':' && line[6] == ' ' && line[7..] == name && line[..5] == "event";
    assert line[0] == 'e' && line[1] == 'v' && line[2] == 'e' && line[3] == 'n' && line[4] == 't';
    assert Colon(line) == 5;
  }

  lemma DataLine(payload: string)
    ensures OneLine(payload) ==> OneLine("data: " + payload)
    ensures FieldOf("data: " + payload) == ("data", payload)
  {
    var line := "data: " + payload;
    assert line[4] == ':' && line[5] == ' ' && line[6..] == payload && line[..4] == "data";
    assert line[0] == 'd' && line[1] == 'a' && line[2] == 't' && line[3] == 'a';
    assert Colon(line) == 4;
  }

  /** A line and its end, read from the start of a line. */
  lemma FeedLine(p: Parser, s: string, c: char)
    requires OneLine(s) && IsBreak(c) && p.line == "" && !p.afterCR
    ensures Feed(p, s + [c]) == ReadLine(p.(line := s)).(line := "", afterCR := c == '\r')
  {
    hide ReadLine;
    FeedConcat(p, s, [c]);
    FeedOneLine(p, s);
    assert "" + s == s;
    FeedBreak(p.(line := s), c);
  }

  lemma EventRead(name: string)
    requires OneLine(name)
    ensures Feed(FRESH, "event: " + name + "\n") == FRESH.(kind := name)
  {
    EventLine(name);
    hide FieldOf;
    FeedLine(FRESH, "event: " + name, '\n');
  }

  lemma DataRead(p: Parser, payload: string, c: char)
    requires OneLine(payload) && IsBreak(c) && p.line == "" && !p.afterCR
    ensures Feed(p, "data: " + payload + [c]) == p.(data := p.data + payload + "\n", afterCR := c == '\r')
  {
    DataLine(payload);
    hide FieldOf;
    FeedLine(p, "data: " + payload, c);
  }

  lemma CleanFrameRead(name: string, payload: string)
    requires OneLine(name) && OneLine(payload) && name != ""
    ensures Feed(FRESH, Text(Frame(name, payload))) == FRESH.(events := [Event(name, payload)])
  {
    hide Feed, FieldOf, OneLine;
    var a, b := "event: " + name + "\n", "data: " + payload + "\n";
    EventRead(name);
    DataRead(FRESH.(kind := name), payload, '\n');
    FeedBreak(FRESH.(kind := name, data := "" + payload + "\n"), '\n');
    FeedConcat(FRESH, a, b);
    FeedConcat(FRESH, a + b, "\n");
    assert Text(Frame(name, payload)) == (a + b) + "\n";
    assert "" + payload + "\n" == payload + "\n" && (payload + "\n")[..|payload|] == payload;
  }

  lemma KeepaliveRead()
    ensures Feed(FRESH, Text(Keepalive)) == FRESH
  {
    assert OneLine(": keepalive");
    hide Feed, FieldOf, OneLine;
    FeedLine(FRESH, ": keepalive", '\n');
    FeedBreak(FRESH, '\n');
    FeedConcat(FRESH, ": keepalive" + "\n", "\n");
  }

  // ----------------------------------------------- chunks are read independently, in order

  lemma ReadCharPrefix(p: Parser, c: char, before: seq<Event>)
    ensures ReadChar(p.(events := before + p.events), c) == ReadChar(p, c).(events := before + ReadChar(p, c).events)
  {
    hide FieldOf;
    if IsBreak(c) && p.line == "" && p.data != "" && !(c == '\n' && p.afterCR) {
      assert before + (p.events + [Event(if p.kind == "" then "message" else p.kind, p.data[..|p.data| - 1])])
             == (before + p.events) + [Event(if p.kind == "" then "message" else p.kind, p.data[..|p.data| - 1])];
    }
  }

  lemma {:induction false} FeedPrefix(p: Parser, s: string, before: seq<Event>)
    ensures Feed(p.(events := before + p.events), s) == Feed(p, s).(events := before + Feed(p, s).events)
    decreases s
  {
    if s != "" {
      hide ReadChar;
      ReadCharPrefix(p, s[0], before);
      FeedPrefix(ReadChar(p, s[0]), s[1..], before);
    }
  }

  /** A carriage return ends its line. */
  lemma {:induction false} NoLineWithinEnd(p: Parser, s: string)
    requires p.afterCR ==> p.line == ""
    ensures Feed(p, s).afterCR ==> Feed(p, s).line == ""
    decreases s
  {
    if s != "" {
      hide ReadLine;
      NoLineWithinEnd(ReadChar(p, s[0]), s[1..]);
    }
  }

  /** A blank line leaves nothing of an event behind. */
  lemma EndsFresh(p: Parser)
    requires p.afterCR ==> p.line == ""
    ensures Feed(p, "\n" + "\n") == FRESH.(events := Feed(p, "\n" + "\n").events)
  {
    hide FieldOf;
    FeedConcat(p, "\n", "\n");
    FeedBreak(p, '\n');
    FeedBreak(ReadChar(p, '\n'), '\n');
  }

  lemma ChunkEndsFresh(chunk: Chunk)
    ensures Feed(FRESH, Text(chunk)) == FRESH.(events := Feed(FRESH, Text(chunk)).events)
  {
    hide Feed;
    match chunk
    case Frame(name, payload) =>
      var s := "event: " + name + "\n" + "data: " + payload;
      assert Text(chunk) == s + ("\n" + "\n");
      FeedConcat(FRESH, s, "\n" + "\n");
      NoLineWithinEnd(FRESH, s);
      EndsFresh(Feed(FRESH, s));
    case Keepalive =>
      assert Text(chunk) == ": keepalive" + ("\n" + "\n");
      FeedConcat(FRESH, ": keepalive", "\n" + "\n");
      NoLineWithinEnd(FRESH, ": keepalive");
      EndsFresh(Feed(FRESH, ": keepalive"));
  }

  lemma {:induction false} TextEndsFresh(chunks: seq<Chunk>)
    ensures Feed(FRESH, AllText(chunks)) == FRESH.(events := Parse(AllText(chunks)))
    ensures chunks != [] ==>
              Parse(AllText(chunks)) == Parse(AllText(chunks[..|chunks| - 1])) + Parse(Text(chunks[|chunks| - 1]))
  {
    hide Text;
    if chunks == [] {
      assert AllText(chunks) == "";
    } else {
      var front, last := chunks[..|chunks| - 1], chunks[|chunks| - 1];
      TextEndsFresh(front);
      hide Feed;
      var before := Parse(AllText(front));
      FeedConcat(FRESH, AllText(front), Text(last));
      ChunkEndsFresh(last);
      FeedPrefix(FRESH, Text(last), before);
      assert before + FRESH.events == before;
    }
  }

  // ------------------------------------------------------ a broken line never reads back

  /** Length of what the events carry, what is gathered, and the line being read. */
  function Weight(p: Parser): nat {
    EventWeight(p.events) + |p.data| + |p.line|
  }

  function EventWeight(events: seq<Event>): nat {
    if events == [] then 0 else EventWeight(events[..|events| - 1]) + |events[|events| - 1].data| + 1
  }

  /** Reading a line end never adds weight. */
  lemma BreakAddsNothing(p: Parser, c: char)
    requires IsBreak(c)
    ensures Weight(ReadChar(p, c)) <= Weight(p)
  {
    if p.line == "" && p.data != "" {
      var e := Event(if p.kind == "" then "message" else p.kind, p.data[..|p.data| - 1]);
      assert (p.events + [e])[..|p.events|] == p.events;
    }
  }

  lemma {:induction false} FeedAddsLength(p: Parser, s: string)
    ensures Weight(Feed(p, s)) <= Weight(p) + |s|
    decreases s
  {
    if s != "" {
      if IsBreak(s[0]) {
        BreakAddsNothing(p, s[0]);
      }
      FeedAddsLength(ReadChar(p, s[0]), s[1..]);
    }
  }

  /** How many events there will be at the least. */
  function Pending(p: Parser): nat {
    |p.events| + if p.data != "" then 1 else 0
  }

  lemma {:induction false} FeedKeepsPending(p: Parser, s: string)
    ensures Pending(Feed(p, s)) >= Pending(p)
    decreases s
  {
    if s != "" {
      FeedKeepsPending(ReadChar(p, s[0]), s[1..]);
    }
  }

  ghost predicate KindsOneLine(p: Parser) {
    && OneLine(p.line) && OneLine(p.kind)
    && forall i :: 0 <= i < |p.events| ==> OneLine(p.events[i].kind)
  }

  lemma {:induction false} FeedKeepsKinds(p: Parser, s: string)
    requires KindsOneLine(p)
    ensures KindsOneLine(Feed(p, s))
    decreases s
  {
    if s != "" {
      assert OneLine("message");
      hide FieldOf;
      FeedKeepsKinds(ReadChar(p, s[0]), s[1..]);
    }
  }

  /** The payload up to its first line end, that line end, and the rest. */
  function FirstBreak(s: string): (i: nat)
    ensures i <= |s| && OneLine(s[..i])
    ensures i < |s| ==> IsBreak(s[i])
  {
    if s == "" then 0 else if IsBreak(s[0]) then 0
    else
      var i := 1 + FirstBreak(s[1..]);
      assert forall k :: 0 < k < i ==> s[k] == s[1..][k - 1];
      i
  }

  /** At the start of a line, the first line of a payload is gathered as data. */
  lemma PayloadStart(p: Parser, s: string)
    requires p.line == "" && !p.afterCR && FirstBreak(s) < |s|
    ensures var i := FirstBreak(s);
            Feed(p, "data: " + s)
            == Feed(p.(data := p.data + s[..i] + "\n", afterCR := s[i] == '\r'), s[i + 1..])
  {
    hide Feed, FirstBreak, FieldOf, ReadLine, OneLine;
    var i := FirstBreak(s);
    var first, rest := "data: " + s[..i] + [s[i]], s[i + 1..];
    assert Feed(p, "data: " + s) == Feed(Feed(p, first), rest) by {
      SplitAt("data: ", s, i);
      FeedConcat(p, first, rest);
    }
    assert Feed(p, first) == p.(data := p.data + s[..i] + "\n", afterCR := s[i] == '\r') by {
      DataRead(p, s[..i], s[i]);
    }
  }

  lemma SplitAt(head: string, s: string, i: nat)
    requires i < |s|
    ensures head + s == (head + s[..i] + [s[i]]) + s[i + 1..]
  {
  }

  lemma AfterNewline(p: Parser, s: string)
    requires p.afterCR ==> p.line == ""
    ensures Feed(p, s + "\n").line == "" && !Feed(p, s + "\n").afterCR
  {
    hide Feed, ReadLine;
    FeedConcat(p, s, "\n");
    FeedBreak(Feed(p, s), '\n');
    NoLineWithinEnd(p, s);
  }

  // ----------------------------------------------------------- read back exactly when clean

  /** One frame yields at least one event, whatever its name and payload. */
  lemma FrameYields(name: string, payload: string)
    ensures |Parse(Text(Frame(name, payload)))| >= 1
  {
    hide Feed, ReadChar, FirstBreak, Text;
    var a, s := "event: " + name + "\n", payload + "\n" + "\n";
    AfterNewline(FRESH, "event: " + name);
    EndIsFound(payload);
    PayloadYields(Feed(FRESH, a), s);
    FeedConcat(FRESH, a, "data: " + s);
    FrameTextByPayload(name, payload);
    ChunkEndsFresh(Frame(name, payload));
  }

  lemma FrameTextByPayload(name: string, payload: string)
    ensures Text(Frame(name, payload)) == ("event: " + name + "\n") + ("data: " + (payload + "\n" + "\n"))
  {
  }

  lemma EndIsFound(payload: string)
    ensures FirstBreak(payload + "\n" + "\n") < |payload + "\n" + "\n"|
  {
    var s := payload + "\n" + "\n";
    assert IsBreak(s[|payload|]);
    BreakFound(s);
  }

  lemma PayloadYields(p: Parser, s: string)
    requires p.line == "" && !p.afterCR && FirstBreak(s) < |s|
    ensures Pending(Feed(p, "data: " + s)) >= 1
  {
    hide Feed;
    PayloadStart(p, s);
    var i := FirstBreak(s);
    FeedKeepsPending(p.(data := p.data + s[..i] + "\n", afterCR := s[i] == '\r'), s[i + 1..]);
  }

  lemma BreakFound(s: string)
    requires !OneLine(s)
    ensures FirstBreak(s) < |s|
  {
    assert s[..|s|] == s;
  }

  /** A payload with a line end in it loses it: the event read back weighs less. */
  lemma BrokenPayloadLoses(name: string, payload: string)
    requires OneLine(name) && !OneLine(payload)
    ensures EventWeight(Parse(Text(Frame(name, payload)))) <= |payload|
  {
    hide Feed, ReadChar, Text, FirstBreak;
    var a, i := "event: " + name + "\n", FirstBreak(payload);
    var p := FRESH.(kind := name);
    EventRead(name);
    BreakFound(payload);
    var q := FRESH.(kind := name, data := payload[..i] + "\n", afterCR := payload[i] == '\r');
    var t := Feed(q, payload[i + 1..]);
    PayloadStart(p, payload);
    assert "" + payload[..i] + "\n" == payload[..i] + "\n";
    FeedAddsLength(q, payload[i + 1..]);
    assert Weight(q) == i + 1;
    BreakAddsNothing(t, '\n');
    BreakAddsNothing(ReadChar(t, '\n'), '\n');
    FrameText(name, payload);
    FeedConcat(FRESH, a, "data: " + payload);
    FeedConcat(FRESH, a + ("data: " + payload), "\n");
    FeedConcat(FRESH, a + ("data: " + payload) + "\n", "\n");
    FeedBreak(t, '\n');
    FeedBreak(ReadChar(t, '\n'), '\n');
  }

  lemma FrameText(name: string, payload: string)
    ensures Text(Frame(name, payload)) == ("event: " + name + "\n") + ("data: " + payload) + "\n" + "\n"
  {
  }

  /** One frame is read back as itself if and only if neither its name nor its payload has a
      line end in it. */
  lemma FrameReadIffClean(name: string, payload: string)
    requires name != ""
    ensures Parse(Text(Frame(name, payload))) == [Event(name, payload)] <==> Clean(Frame(name, payload))
  {
    hide Feed, Text;
    var events := Parse(Text(Frame(name, payload)));
    if OneLine(name) && OneLine(payload) {
      CleanFrameRead(name, payload);
    }
    if events == [Event(name, payload)] {
      FeedKeepsKinds(FRESH, Text(Frame(name, payload)));
      assert OneLine(events[0].kind);
      assert EventWeight(events) == |payload| + 1 by {
        assert events[..0] == [];
      }
      if !OneLine(payload) {
        BrokenPayloadLoses(name, payload);
      }
    }
  }

  ghost predicate Named(chunks: seq<Chunk>) {
    forall i :: 0 <= i < |chunks| && chunks[i].Frame? ==> chunks[i].name != ""
  }

  ghost predicate AllClean(chunks: seq<Chunk>) {
    forall i :: 0 <= i < |chunks| ==> Clean(chunks[i])
  }

  lemma ConcatAligned<T>(a: seq<T>, b: seq<T>, c: seq<T>, d: seq<T>)
    requires a + b == c + d && |a| >= |c| && |b| >= |d|
    ensures a == c && b == d
  {
    assert |a| == |c|;
    assert a == (a + b)[..|a|] && c == (c + d)[..|c|];
    assert b == (a + b)[|a|..] && d == (c + d)[|c|..];
  }

  lemma ChunkYields(chunk: Chunk)
    requires chunk.Frame? ==> chunk.name != ""
    ensures |Parse(Text(chunk))| >= if chunk.Frame? then 1 else 0
    ensures Parse(Text(chunk)) == (if chunk.Frame? then [Event(chunk.name, chunk.payload)] else []) <==> Clean(chunk)
  {
    hide Feed, Text;
    match chunk
    case Frame(name, payload) => FrameYields(name, payload); FrameReadIffClean(name, payload);
    case Keepalive => KeepaliveRead();
  }

  /** A text of chunks is read back as its frames, in order and verbatim, keepalives adding
      nothing, if and only if no name and no payload has a line end in it. */
  lemma {:induction false} TextReadIffClean(chunks: seq<Chunk>)
    requires Named(chunks)
    ensures |Parse(AllText(chunks))| >= |EventsOf(chunks)|
    ensures Parse(AllText(chunks)) == EventsOf(chunks) <==> AllClean(chunks)
  {
    hide Text, Feed, Clean;
    TextEndsFresh(chunks);
    if chunks == [] {
      NothingRead();
    } else {
      var front, last := chunks[..|chunks| - 1], chunks[|chunks| - 1];
      TextReadIffClean(front);
      ChunkYields(last);
      hide AllText, Parse;
      var own := if last.Frame? then [Event(last.name, last.payload)] else [];
      assert EventsOf(chunks) == EventsOf(front) + own;
      if Parse(AllText(chunks)) == EventsOf(chunks) {
        ConcatAligned(Parse(AllText(front)), Parse(Text(last)), EventsOf(front), own);
      }
      CleanSnoc(chunks);
    }
  }

  lemma NothingRead()
    ensures Parse(AllText([])) == []
  {
  }

  lemma CleanSnoc(chunks: seq<Chunk>)
    requires chunks != []
    ensures AllClean(chunks) <==> AllClean(chunks[..|chunks| - 1]) && Clean(chunks[|chunks| - 1])
  {
    hide Clean;
    var front := chunks[..|chunks| - 1];
    if AllClean(front) && Clean(chunks[|front|]) {
      forall i | 0 <= i < |chunks| ensures Clean(chunks[i]) {
        if i < |front| {
          assert Clean(front[i]);
        }
      }
    }
    if AllClean(chunks) {
      forall i | 0 <= i < |front| ensures Clean(front[i]) {
        assert Clean(chunks[i]);
      }
    }
  }

  // ------------------------------------------------------------------ what the client sees

  /** The frames received before the loop stopped that passed the filter. */
  function Passed(inputs: seq<Input>, decode: string -> Option<string>): seq<Event> {
    if inputs == [] then []
    else
      var front, last := inputs[..|inputs| - 1], inputs[|inputs| - 1];
      Passed(front, decode)
      + if !Stopped(front) && last.Message? && last.allowed
        then [Event(FrameEvent(decode, last.payload), last.payload)] else []
  }

  ghost predicate EventsClean(events: seq<Event>) {
    forall i :: 0 <= i < |events| ==> OneLine(events[i].kind) && OneLine(events[i].data)
  }

  ghost predicate PassedClean(inputs: seq<Input>, decode: string -> Option<string>) {
    EventsClean(Passed(inputs, decode))
  }

  lemma EventsSnoc(chunks: seq<Chunk>, chunk: Chunk)
    ensures EventsOf(chunks + [chunk])
            == if chunk.Frame? then EventsOf(chunks) + [Event(chunk.name, chunk.payload)] else EventsOf(chunks)
  {
    assert (chunks + [chunk])[..|chunks|] == chunks;
    assert EventsOf(chunks) + [] == EventsOf(chunks);
  }

  lemma EventsCleanSnoc(events: seq<Event>, e: Event)
    ensures EventsClean(events + [e]) <==> EventsClean(events) && OneLine(e.kind) && OneLine(e.data)
  {
    hide OneLine;
    var all := events + [e];
    assert all[|events|] == e && forall i :: 0 <= i < |events| ==> all[i] == events[i];
  }

  /** Chunks are clean exactly when the events they stand for are. */
  lemma {:induction false} CleanIffEventsClean(chunks: seq<Chunk>)
    ensures AllClean(chunks) <==> EventsClean(EventsOf(chunks))
  {
    if chunks != [] {
      var front, last := chunks[..|chunks| - 1], chunks[|chunks| - 1];
      CleanIffEventsClean(front);
      hide AllClean, EventsClean, OneLine, EventsOf;
      assert chunks == front + [last];
      CleanSnoc(chunks);
      EventsSnoc(front, last);
      if last.Frame? {
        EventsCleanSnoc(EventsOf(front), Event(last.name, last.payload));
      }
    }
  }

  lemma NoEvents(chunks: seq<Chunk>)
    ensures chunks + [] == chunks && EventsOf([]) == []
  {
  }

  lemma EventsConcat(chunks: seq<Chunk>, more: seq<Chunk>)
    requires |more| <= 1
    ensures EventsOf(chunks + more) == EventsOf(chunks) + EventsOf(more)
  {
    hide EventsOf;
    NoEvents(chunks);
    if more == [] {
      assert EventsOf(chunks) + [] == EventsOf(chunks);
    } else {
      var chunk := more[0];
      assert more == [chunk] && [] + [chunk] == [chunk];
      EventsSnoc(chunks, chunk);
      EventsSnoc([], chunk);
      if chunk.Keepalive? {
        assert EventsOf(chunks) + [] == EventsOf(chunks);
      }
    }
  }

  lemma NamedConcat(chunks: seq<Chunk>, more: seq<Chunk>)
    requires Named(chunks) && Named(more)
    ensures Named(chunks + more)
  {
    var all := chunks + more;
    forall i | 0 <= i < |all| && all[i].Frame? ensures all[i].name != "" {
      if i < |chunks| {
        assert all[i] == chunks[i];
      } else {
        assert all[i] == more[i - |chunks|];
      }
    }
  }

  lemma ChunkOfInput(input: Input, decode: string -> Option<string>)
    ensures |ChunkOf(input, decode)| <= 1 && Named(ChunkOf(input, decode))
    ensures EventsOf(ChunkOf(input, decode))
            == if input.Message? && input.allowed then [Event(FrameEvent(decode, input.payload), input.payload)] else []
  {
    hide FrameEvent;
  }

  lemma {:induction false} ChunksCarryPassed(inputs: seq<Input>, decode: string -> Option<string>)
    ensures EventsOf(Chunks(inputs, decode)) == Passed(inputs, decode)
    ensures Named(Chunks(inputs, decode))
  {
    if inputs != [] {
      var front, last := inputs[..|inputs| - 1], inputs[|inputs| - 1];
      ChunksCarryPassed(front, decode);
      ChunkOfInput(last, decode);
      NoEvents([]);
      var more := if Stopped(front) then [] else ChunkOf(last, decode);
      assert Named(more);
      hide FrameEvent, Stopped, EventsOf, ChunkOf, Named;
      EventsConcat(Chunks(front, decode), more);
      NamedConcat(Chunks(front, decode), more);
    }
  }

  /** Over every run of the loop whose writes go out, a client parsing the output reads exactly
      the frames received that passed the filter, in order, payloads verbatim, if and only if
      none of those names and payloads has a line end in it. */
  lemma ClientReadsPassedIffClean(
    inputs: seq<Input>, decode: string -> Option<string>, results: nat -> WriteResult)
    requires AllWritten(results, Served(inputs, decode, results).writes)
    ensures Parse(Served(inputs, decode, results).output) == Passed(inputs, decode) <==> PassedClean(inputs, decode)
  {
    hide Parse, Served, Passed, Chunks, AllText, EventsOf, Named, AllClean, EventsClean, AllWritten;
    OutputIsText(inputs, decode, results);
    ChunksCarryPassed(inputs, decode);
    CleanIffEventsClean(Chunks(inputs, decode));
    TextReadIffClean(Chunks(inputs, decode));
  }

  /** A second line of a payload that names no field of its own is lost. */
  lemma SecondLineIsLost(name: string, first: string, second: string)
    requires OneLine(name) && name != "" && OneLine(first) && OneLine(second)
    requires second != "" && (second[0] == ':' || FieldOf(second).0 !in {"event", "data"})
    ensures Parse(Text(Frame(name, first + "\n" + second))) == [Event(name, first)]
  {
    var a, b := "event: " + name + "\n", "data: " + first + "\n";
    var p, q := FRESH.(kind := name), FRESH.(kind := name, data := first + "\n");
    assert "" + first + "\n" == first + "\n" && (first + "\n")[..|first|] == first;
    assert Feed(FRESH, a) == p by {
      EventRead(name);
    }
    assert Feed(p, b) == q by {
      DataRead(p, first, '\n');
    }
    assert Feed(q, second + "\n") == q by {
      FeedLine(q, second, '\n');
    }
    assert Feed(q, "\n") == FRESH.(events := [Event(name, first)]) by {
      FeedBreak(q, '\n');
    }
    hide Feed, FieldOf, OneLine;
    FeedConcat(FRESH, a, b);
    FeedConcat(FRESH, a + b, second + "\n");
    FeedConcat(FRESH, a + b + (second + "\n"), "\n");
    TwoLineText(name, first, second);
  }

  lemma TwoLineText(name: string, first: string, second: string)
    ensures Text(Frame(name, first + "\n" + second))
            == ("event: " + name + "\n") + ("data: " + first + "\n") + (second + "\n") + "\n"
  {
  }

  /** A second line that is itself a data field is joined to the first, the field's name gone. */
  lemma DataLinesAreJoined(name: string, first: string, second: string)
    requires OneLine(name) && name != "" && OneLine(first) && OneLine(second)
    ensures Parse(Text(Frame(name, first + "\n" + ("data: " + second)))) == [Event(name, first + "\n" + second)]
  {
    var a, b, c := "event: " + name + "\n", "data: " + first + "\n", "data: " + second;
    var both := first + "\n" + second + "\n";
    var p, q := FRESH.(kind := name), FRESH.(kind := name, data := first + "\n");
    assert "" + first + "\n" == first + "\n" && both[..|both| - 1] == first + "\n" + second;
    assert Feed(FRESH, a) == p by {
      EventRead(name);
    }
    assert Feed(p, b) == q by {
      DataRead(p, first, '\n');
    }
    assert Feed(q, c + "\n") == FRESH.(kind := name, data := both) by {
      DataRead(q, second, '\n');
    }
    assert Feed(FRESH.(kind := name, data := both), "\n") == FRESH.(events := [Event(name, first + "\n" + second)]) by {
      FeedBreak(FRESH.(kind := name, data := both), '\n');
    }
    hide Feed, FieldOf, OneLine;
    FeedConcat(FRESH, a, b);
    FeedConcat(FRESH, a + b, c + "\n");
    FeedConcat(FRESH, a + b + (c + "\n"), "\n");
    TwoLineText(name, first, c);
  }

  /** An empty JSON object spread over two lines passes the filter and does not reach the
      client whole. */
  lemma TwoLineFrameIsCut(decode: string -> Option<string>, results: nat -> WriteResult)
    requires decode("{\n}") == None && results(0) == Written
    ensures Passed([Message("{\n}", true)], decode) == [Event("message", "{\n}")]
    ensures Parse(Served([Message("{\n}", true)], decode, results).output) == [Event("message", "{")]
  {
    var input := Message("{\n}", true);
    OneFrame(input, decode, results);
    hide Served, Passed, Parse, Text;
    BraceLines();
    SecondLineIsLost("message", "{", "}");
    assert "{" + "\n" + "}" == "{\n}";
  }

  lemma OneFrame(input: Input, decode: string -> Option<string>, results: nat -> WriteResult)
    requires input.Message? && input.allowed && results(0) == Written
    ensures Passed([input], decode) == [Event(FrameEvent(decode, input.payload), input.payload)]
    ensures Served([input], decode, results).output == Text(Frame(FrameEvent(decode, input.payload), input.payload))
  {
    hide Text, FrameEvent;
    NothingServed(decode, results);
    assert [input][..0] == [];
    var text := Text(Frame(FrameEvent(decode, input.payload), input.payload));
    assert "" + text == text;
  }

  lemma BraceLines()
    ensures OneLine("message") && OneLine("{") && OneLine("}") && FieldOf("}").0 !in {"event", "data"}
  {
    assert Colon("}") == 1;
    assert |FieldOf("}").0| <= 1;
  }

  lemma {:induction false} FeedKeepsEvents(p: Parser, s: string)
    ensures p.events <= Feed(p, s).events
    decreases s
  {
    if s != "" {
      hide FieldOf;
      FeedKeepsEvents(ReadChar(p, s[0]), s[1..]);
    }
  }

  /** However a write breaks, a client reads the first of the frames that passed, and nothing
      else. */
  lemma BrokenOutputReadsFirst(
    inputs: seq<Input>, decode: string -> Option<string>, results: nat -> WriteResult)
    requires PassedClean(inputs, decode)
    ensures Parse(Served(inputs, decode, results).output) <= Passed(inputs, decode)
  {
    hide Parse, Served, Passed, Chunks, AllText, EventsOf, Named, AllClean, EventsClean, AllWritten;
    OutputIsText(inputs, decode, results);
    ChunksCarryPassed(inputs, decode);
    CleanIffEventsClean(Chunks(inputs, decode));
    TextReadIffClean(Chunks(inputs, decode));
    PrefixReadsFirst(Served(inputs, decode, results).output, AllText(Chunks(inputs, decode)));
  }

  lemma PrefixReadsFirst(a: string, b: string)
    requires a <= b
    ensures Parse(a) <= Parse(b)
  {
    hide Feed;
    assert b == a + b[|a|..];
    FeedConcat(FRESH, a, b[|a|..]);
    FeedKeepsEvents(Feed(FRESH, a), b[|a|..]);
  }

  lemma {:induction false} OutputGrows(
    inputs: seq<Input>, n: nat, decode: string -> Option<string>, results: nat -> WriteResult)
    requires n <= |inputs|
    ensures Served(inputs[..n], decode, results).output <= Served(inputs, decode, results).output
  {
    if n == |inputs| {
      assert inputs[..n] == inputs;
    } else {
      hide Text, FrameEvent;
      var front := inputs[..|inputs| - 1];
      assert front[..n] == inputs[..n];
      OutputGrows(front, n, decode, results);
    }
  }

  /** While no write has broken and the loop has not stopped, every frame that passed has
      reached the client, and stays there whatever comes after. */
  lemma NothingBeforeABreakIsLost(
    inputs: seq<Input>, n: nat, decode: string -> Option<string>, results: nat -> WriteResult)
    requires n <= |inputs| && !Served(inputs[..n], decode, results).closed
    requires PassedClean(inputs[..n], decode)
    ensures Passed(inputs[..n], decode) <= Parse(Served(inputs, decode, results).output)
  {
    hide Parse, Served, Passed, Chunks, AllText, EventsOf, Named, AllClean, EventsClean, AllWritten;
    OutputIsText(inputs[..n], decode, results);
    ChunksCarryPassed(inputs[..n], decode);
    CleanIffEventsClean(Chunks(inputs[..n], decode));
    TextReadIffClean(Chunks(inputs[..n], decode));
    OutputGrows(inputs, n, decode, results);
    PrefixReadsFirst(Served(inputs[..n], decode, results).output, Served(inputs, decode, results).output);
  }

  // ------------------------------------------------------------------ what is written when

  /** Input i is an allowed message with no call to stop before it, and `e` is its payload
      under the event name the payload carries, or under "message" when it carries none. */
  ghost predicate IsFrameOf(inputs: seq<Input>, i: nat, decode: string -> Option<string>, e: Event) {
    && i < |inputs| && inputs[i].Message? && inputs[i].allowed
    && (forall j :: 0 <= j < i ==> inputs[j].Message? || inputs[j].HeartbeatTick?)
    && e.data == inputs[i].payload
    && var found := decode(inputs[i].payload);
       if found.Some? && found.value != "" then e.kind == found.value else e.kind == "message"
  }

  lemma {:induction false} StoppedMeans(inputs: seq<Input>)
    ensures Stopped(inputs) <==>
              !(forall j :: 0 <= j < |inputs| ==> inputs[j].Message? || inputs[j].HeartbeatTick?)
  {
    if inputs != [] {
      var front := inputs[..|inputs| - 1];
      StoppedMeans(front);
      assert forall j :: 0 <= j < |front| ==> front[j] == inputs[j];
    }
  }

  /** The k-th frame that passed is that of one of the inputs, with k frames before it. */
  ghost predicate HasSource(inputs: seq<Input>, decode: string -> Option<string>, k: nat)
    requires k < |Passed(inputs, decode)|
  {
    exists i :: 0 <= i < |inputs| && |Passed(inputs[..i], decode)| == k
                && IsFrameOf(inputs, i, decode, Passed(inputs, decode)[k])
  }

  lemma SourceStays(inputs: seq<Input>, decode: string -> Option<string>, k: nat)
    requires inputs != [] && k < |Passed(inputs[..|inputs| - 1], decode)| <= |Passed(inputs, decode)|
    requires Passed(inputs[..|inputs| - 1], decode)[k] == Passed(inputs, decode)[k]
    requires HasSource(inputs[..|inputs| - 1], decode, k)
    ensures HasSource(inputs, decode, k)
  {
    hide Passed;
    var front, e := inputs[..|inputs| - 1], Passed(inputs, decode)[k];
    var i :| 0 <= i < |front| && |Passed(front[..i], decode)| == k && IsFrameOf(front, i, decode, e);
    assert front[..i] == inputs[..i];
    assert IsFrameOf(inputs, i, decode, e);
  }

  lemma LastIsSource(inputs: seq<Input>, decode: string -> Option<string>)
    requires inputs != []
    ensures var front := inputs[..|inputs| - 1];
            |Passed(front, decode)| < |Passed(inputs, decode)| ==> HasSource(inputs, decode, |Passed(front, decode)|)
  {
    var front, n := inputs[..|inputs| - 1], |inputs| - 1;
    StoppedMeans(front);
    PassedSnoc(inputs, decode);
    hide Passed, Stopped;
    if |Passed(front, decode)| < |Passed(inputs, decode)| {
      assert IsFrameOf(inputs, n, decode, Passed(inputs, decode)[|Passed(front, decode)|]);
    }
  }

  lemma {:induction false} FramesHaveSources(inputs: seq<Input>, decode: string -> Option<string>)
    ensures forall k :: 0 <= k < |Passed(inputs, decode)| ==> HasSource(inputs, decode, k)
  {
    if inputs != [] {
      var front := inputs[..|inputs| - 1];
      FramesHaveSources(front, decode);
      PassedSnoc(inputs, decode);
      LastIsSource(inputs, decode);
      hide Passed, Stopped, HasSource, FrameEvent;
      forall k | 0 <= k < |Passed(inputs, decode)| ensures HasSource(inputs, decode, k) {
        if k < |Passed(front, decode)| {
          SourceStays(inputs, decode, k);
        }
      }
    }
  }

  lemma PassedSnoc(inputs: seq<Input>, decode: string -> Option<string>)
    requires inputs != []
    ensures var front, last := inputs[..|inputs| - 1], inputs[|inputs| - 1];
            Passed(inputs, decode) == Passed(front, decode)
              + if !Stopped(front) && last.Message? && last.allowed
                then [Event(FrameEvent(decode, last.payload), last.payload)] else []
  {
  }

  lemma {:induction false} PassedGrows(inputs: seq<Input>, n: nat, decode: string -> Option<string>)
    requires n <= |inputs|
    ensures Passed(inputs[..n], decode) <= Passed(inputs, decode)
    decreases |inputs|
  {
    if n == |inputs| {
      assert inputs[..n] == inputs;
    } else {
      PassedSnoc(inputs, decode);
      hide Passed, Stopped, FrameEvent;
      var front := inputs[..|inputs| - 1];
      assert front[..n] == inputs[..n];
      PassedGrows(front, n, decode);
    }
  }

  lemma MessagePasses(inputs: seq<Input>, i: nat, decode: string -> Option<string>, e: Event)
    requires IsFrameOf(inputs, i, decode, e)
    ensures |Passed(inputs[..i], decode)| < |Passed(inputs, decode)|
    ensures Passed(inputs, decode)[|Passed(inputs[..i], decode)|] == e
  {
    var here := inputs[..i + 1];
    assert here[..i] == inputs[..i];
    StoppedMeans(inputs[..i]);
    PassedSnoc(here, decode);
    PassedGrows(inputs, i + 1, decode);
    hide Passed, Stopped;
  }

  /** The frames that passed, one for one and in order: the n-th is the payload of the n-th
      allowed message before the loop was told to stop, under the name that payload carries. */
  lemma PassedMeans(inputs: seq<Input>, decode: string -> Option<string>)
    ensures forall k :: 0 <= k < |Passed(inputs, decode)| ==> HasSource(inputs, decode, k)
    ensures forall i: nat, e :: IsFrameOf(inputs, i, decode, e) ==>
              |Passed(inputs[..i], decode)| < |Passed(inputs, decode)|
              && Passed(inputs, decode)[|Passed(inputs[..i], decode)|] == e
  {
    FramesHaveSources(inputs, decode);
    forall i: nat, e | IsFrameOf(inputs, i, decode, e)
      ensures |Passed(inputs[..i], decode)| < |Passed(inputs, decode)|
              && Passed(inputs, decode)[|Passed(inputs[..i], decode)|] == e
    {
      MessagePasses(inputs, i, decode, e);
    }
  }

  lemma NextTurn(inputs: seq<Input>, input: Input, decode: string -> Option<string>, results: nat -> WriteResult)
    ensures Served(inputs + [input], decode, results)
            == Turn(Served(inputs, decode, results), input, decode, results)
  {
    hide Turn;
    assert (inputs + [input])[..|inputs|] == inputs;
  }

  /** The frame of an allowed message, character for character. */
  lemma FrameWritten(
    inputs: seq<Input>, payload: string, decode: string -> Option<string>, results: nat -> WriteResult)
    requires !Served(inputs, decode, results).closed
    requires results(Served(inputs, decode, results).writes).Written?
    ensures var before, after := Served(inputs, decode, results).output,
                                 Served(inputs + [Message(payload, true)], decode, results);
            && !after.closed
            && (decode(payload) in [None, Some("")] ==>
                  after.output == before + ("event: message\n" + ("data: " + payload + "\n\n")))
            && (decode(payload) !in [None, Some("")] ==>
                  after.output == before + ("event: " + decode(payload).value + "\n" + ("data: " + payload + "\n\n")))
  {
    NextTurn(inputs, Message(payload, true), decode, results);
    hide Served;
    var kind := FrameEvent(decode, payload);
    FrameSpelled(kind, payload);
    assert "event: " + "message" + "\n" == "event: message\n";
  }

  lemma FrameSpelled(name: string, payload: string)
    ensures Text(Frame(name, payload)) == "event: " + name + "\n" + ("data: " + payload + "\n\n")
  {
    assert "data: " + payload + "\n\n" == "data: " + payload + "\n" + "\n";
  }

  /** What every other input does: a tick writes the comment line, a refused frame is passed
      over, and a broken write or the end of the subscription or of the request closes the stream. */
  lemma OtherTurns(inputs: seq<Input>, input: Input, decode: string -> Option<string>, results: nat -> WriteResult)
    requires !Served(inputs, decode, results).closed
    ensures var before, after := Served(inputs, decode, results), Served(inputs + [input], decode, results);
            && (input.HeartbeatTick? && results(before.writes).Written? ==>
                  !after.closed && after.output == before.output + ": keepalive\n\n")
            && (input.Message? && !input.allowed ==> after == before)
            && (input.ContextDone? || input.ChannelClosed? ==> after.closed && after.output == before.output)
            && (input.HeartbeatTick? || (input.Message? && input.allowed) ==>
                  after.closed == results(before.writes).Broken?)
  {
    NextTurn(inputs, input, decode, results);
    hide Served;
    assert Text(Keepalive) == ": keepalive\n\n";
  }
}
