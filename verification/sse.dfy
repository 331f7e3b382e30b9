/** The line-oriented parser of server-sent events. */
module Sse {
  import opened Collections
  import opened Utf8
  import opened Uuids

  datatype Frame = Frame(eventType: Option<string>, data: Option<string>)

  const NO_FRAME := Frame(None, None)

  datatype Parser = Parser(lineBuf: string, current: Frame)

  const START := Parser("", NO_FRAME)

  /** The Unicode White_Space characters. */
  predicate IsWhitespace(c: char) {
    var n := c as int;
    9 <= n <= 13 || n == 32 || n == 0x85 || n == 0xA0 || n == 0x1680 || 0x2000 <= n <= 0x200A
    || n == 0x2028 || n == 0x2029 || n == 0x202F || n == 0x205F || n == 0x3000
  }

  function TrimStart(s: string): string {
    if s != "" && IsWhitespace(s[0]) then TrimStart(s[1..]) else s
  }

  function TrimEnd(s: string): string {
    if s != "" && IsWhitespace(s[|s| - 1]) then TrimEnd(s[..|s| - 1]) else s
  }

  function Trim(s: string): string {
    TrimEnd(TrimStart(s))
  }

  function TrimEndCr(s: string): string {
    if s != "" && s[|s| - 1] == '\r' then TrimEndCr(s[..|s| - 1]) else s
  }

  function AfterPrefix(s: string, prefix: string): Option<string> {
    if prefix <= s then Some(s[|prefix|..]) else None
  }

  /** The Unicode White_Space property, code point by code point. */
  const WHITE_SPACE: set<int> := {
    0x9, 0xA, 0xB, 0xC, 0xD, 0x20, 0x85, 0xA0, 0x1680, 0x2000, 0x2001, 0x2002, 0x2003, 0x2004, 0x2005, 0x2006,
    0x2007, 0x2008, 0x2009, 0x200A, 0x2028, 0x2029, 0x202F, 0x205F, 0x3000
  }

  ghost predicate White(s: string) {
    forall c :: c in s ==> c as int in WHITE_SPACE
  }

  ghost predicate StartsInText(s: string) {
    s != "" ==> s[0] as int !in WHITE_SPACE
  }

  ghost predicate EndsInText(s: string) {
    s != "" ==> s[|s| - 1] as int !in WHITE_SPACE
  }

  lemma {:induction false} TrimStartExactly(s: string)
    ensures exists a :: White(a) && s == a + TrimStart(s) && StartsInText(TrimStart(s))
  {
    if s == "" || !IsWhitespace(s[0]) {
      assert White("") && s == "" + TrimStart(s);
    } else {
      TrimStartExactly(s[1..]);
      var a :| White(a) && s[1..] == a + TrimStart(s[1..]) && StartsInText(TrimStart(s[1..]));
      assert White([s[0]] + a) && s == [s[0]] + a + TrimStart(s);
    }
  }

  lemma {:induction false} TrimEndExactly(s: string)
    ensures exists b :: White(b) && s == TrimEnd(s) + b && EndsInText(TrimEnd(s))
  {
    if s == "" || !IsWhitespace(s[|s| - 1]) {
      assert White("") && s == TrimEnd(s) + "";
    } else {
      var c, front := s[|s| - 1], s[..|s| - 1];
      TrimEndExactly(front);
      assert TrimEnd(s) == TrimEnd(front);
      assert c as int in WHITE_SPACE;
      hide TrimEnd, EndsInText, IsWhitespace;
      var b :| White(b) && front == TrimEnd(front) + b && EndsInText(TrimEnd(front));
      assert White(b + [c]) && s == TrimEnd(s) + (b + [c]);
    }
  }

  /** Trimming takes all white space off both ends, and nothing else. */
  lemma TrimExactly(s: string)
    ensures exists a, b :: White(a) && White(b) && s == a + Trim(s) + b && StartsInText(Trim(s)) && EndsInText(Trim(s))
  {
    var start, text := TrimStart(s), Trim(s);
    TrimStartExactly(s);
    TrimEndExactly(start);
    var a :| White(a) && s == a + start && StartsInText(start);
    var b :| White(b) && start == text + b && EndsInText(text);
    assert s == a + text + b;
  }

  ghost predicate Returns(s: string) {
    forall c :: c in s ==> c == '\r'
  }

  ghost predicate EndsPlain(s: string) {
    s != "" ==> s[|s| - 1] != '\r'
  }

  /** All carriage returns are taken off the end, and nothing else. */
  lemma {:induction false} TrimEndCrExactly(s: string)
    ensures exists b :: Returns(b) && s == TrimEndCr(s) + b && EndsPlain(TrimEndCr(s))
  {
    if s == "" || s[|s| - 1] != '\r' {
      assert Returns("") && s == TrimEndCr(s) + "";
    } else {
      var front := s[..|s| - 1];
      TrimEndCrExactly(front);
      var b :| Returns(b) && front == TrimEndCr(front) + b && EndsPlain(TrimEndCr(front));
      assert Returns(b + "\r") && s == TrimEndCr(s) + (b + "\r");
    }
  }

  lemma AfterPrefixExactly(s: string, prefix: string, rest: string)
    ensures AfterPrefix(s, prefix) == Some(rest) <==> s == prefix + rest
  {
  }

  /** The parser's new state, and the frames that were completed. */
  datatype Fed = Fed(parser: Parser, frames: seq<Frame>)

  /** What the parser does at a newline. */
  function EndLine(p: Parser): Fed {
    var line := TrimEndCr(p.lineBuf);
    if line == "" then
      if p.current.data.Some? || p.current.eventType.Some? then Fed(START, [p.current])
      else Fed(Parser("", p.current), [])
    else if AfterPrefix(line, "event:").Some? then
      Fed(Parser("", p.current.(eventType := Some(Trim(AfterPrefix(line, "event:").value)))), [])
    else if AfterPrefix(line, "data:").Some? then
      Fed(Parser("", p.current.(data := Some(Trim(AfterPrefix(line, "data:").value)))), [])
    else Fed(Parser("", p.current), [])
  }

  function Step(p: Parser, c: char): Fed {
    if c == '\n' then EndLine(p) else Fed(p.(lineBuf := p.lineBuf + [c]), [])
  }

  function Feed(p: Parser, text: string): Fed {
    if text == "" then Fed(p, [])
    else
      var before := Feed(p, text[..|text| - 1]);
      var after := Step(before.parser, text[|text| - 1]);
      Fed(after.parser, before.frames + after.frames)
  }

  lemma FeedNone(p: Parser)
    ensures Feed(p, "") == Fed(p, [])
  {
  }

  lemma FeedSnoc(p: Parser, text: string, c: char)
    ensures var before := Feed(p, text);
      Feed(p, text + [c]) == Fed(Step(before.parser, c).parser, before.frames + Step(before.parser, c).frames)
  {
    assert (text + [c])[..|text|] == text;
  }

  class SseLineParser {
    var lineBuf: string
    var current: Frame

    function Contents(): Parser
      reads this
    {
      Parser(lineBuf, current)
    }

    constructor ()
      ensures Contents() == START
    {
      lineBuf, current := "", NO_FRAME;
    }

    /** A slice of bytes is decoded by itself, whatever is cut at its ends. */
    method FeedChunk(bytes: seq<byte>) returns (frames: seq<Frame>)
      modifies this
      ensures Fed(Contents(), frames) == Feed(old(Contents()), Lossy(bytes))
    {
      hide Lossy, Feed, Trim, TrimEndCr, AfterPrefix;
      var chunk := Lossy(bytes);
      frames := [];
      FeedNone(Contents());
      for i := 0 to |chunk|
        invariant Fed(Contents(), frames) == Feed(old(Contents()), chunk[..i])
      {
        var c := chunk[i];
        FeedSnoc(old(Contents()), chunk[..i], c);
        assert chunk[..i + 1] == chunk[..i] + [c];
        if c == '\n' {
          var line := lineBuf;
          lineBuf := "";
          var trimmed := TrimEndCr(line);
          var event := AfterPrefix(trimmed, "event:");
          var data := AfterPrefix(trimmed, "data:");
          if trimmed == "" {
            if current.data.Some? || current.eventType.Some? {
              frames := frames + [current];
              current := NO_FRAME;
            }
          } else if event.Some? {
            current := current.(eventType := Some(Trim(event.value)));
          } else if data.Some? {
            current := current.(data := Some(Trim(data.value)));
          }
        } else {
          lineBuf := lineBuf + [c];
        }
      }
      assert chunk[..|chunk|] == chunk;
    }
  }

  // ---- slicing independence -------------------------------------------------------------------

  function Then(fed: Fed, text: string): Fed {
    Fed(Feed(fed.parser, text).parser, fed.frames + Feed(fed.parser, text).frames)
  }

  lemma {:induction false} FeedConcat(p: Parser, a: string, b: string)
    ensures Feed(p, a + b) == Then(Feed(p, a), b)
  {
    hide Step;
    if b == "" {
      assert a + b == a;
    } else {
      var n := |b| - 1;
      FeedConcat(p, a, b[..n]);
      FeedSnoc(p, a + b[..n], b[n]);
      FeedSnoc(Feed(p, a).parser, b[..n], b[n]);
      assert b[..n] + [b[n]] == b;
      assert a + b[..n] + [b[n]] == a + b;
    }
  }

  /** Feeding a stream piece by piece. */
  function FeedPieces(p: Parser, pieces: seq<string>): Fed {
    if pieces == [] then Fed(p, []) else Then(FeedPieces(p, pieces[..|pieces| - 1]), pieces[|pieces| - 1])
  }

  /** However a stream is cut into pieces, the frames and the parser's final state are the same. */
  lemma {:induction false} SlicingIndependent(p: Parser, pieces: seq<string>)
    ensures FeedPieces(p, pieces) == Feed(p, Flatten(pieces))
  {
    if pieces != [] {
      var n := |pieces| - 1;
      SlicingIndependent(p, pieces[..n]);
      FeedConcat(p, Flatten(pieces[..n]), pieces[n]);
    }
  }

  /** Feeding slices of bytes, each decoded by itself. */
  function FeedSlices(p: Parser, slices: seq<seq<byte>>): Fed {
    if slices == [] then Fed(p, [])
    else Then(FeedSlices(p, slices[..|slices| - 1]), Lossy(slices[|slices| - 1]))
  }

  /** However the bytes are sliced, what is parsed is the text that the slices decode to. With no
      character cut, that is the text of the whole, and so are the frames and the final state. */
  lemma {:induction false} ByteSlicesParse(p: Parser, slices: seq<seq<byte>>)
    ensures FeedSlices(p, slices) == Feed(p, Decoded(slices))
    ensures Uncut(slices) ==> FeedSlices(p, slices) == Feed(p, Lossy(Flatten(slices)))
  {
    UncutExactly(slices);
    hide Feed, Lossy, Uncut;
    if slices == [] {
      FeedNone(p);
    } else {
      var n := |slices| - 1;
      ByteSlicesParse(p, slices[..n]);
      FeedConcat(p, Decoded(slices[..n]), Lossy(slices[n]));
    }
  }

  // ---- the batch reading of a stream ------------------------------------------------------------

  datatype Line = Blank | EventLine(value: string) | DataLine(value: string) | OtherLine

  function Classify(raw: string): Line {
    var line := TrimEndCr(raw);
    if line == "" then Blank
    else if AfterPrefix(line, "event:").Some? then EventLine(Trim(AfterPrefix(line, "event:").value))
    else if AfterPrefix(line, "data:").Some? then DataLine(Trim(AfterPrefix(line, "data:").value))
    else OtherLine
  }

  datatype Split = Split(lines: seq<string>, rest: string)

  /** The finished lines of a text, and what follows its last newline. */
  function Lines(text: string): Split {
    if text == "" then Split([], "")
    else
      var before := Lines(text[..|text| - 1]);
      if text[|text| - 1] == '\n' then Split(before.lines + [before.rest], "")
      else before.(rest := before.rest + [text[|text| - 1]])
  }

  function Classified(lines: seq<string>): seq<Line> {
    seq(|lines|, i requires 0 <= i < |lines| => Classify(lines[i]))
  }

  datatype Grouping = Grouping(groups: seq<seq<Line>>, open: seq<Line>)

  /** Lines grouped by the blank lines that end them, and the group still open. */
  function Groups(lines: seq<Line>): Grouping {
    if lines == [] then Grouping([], [])
    else
      var before := Groups(lines[..|lines| - 1]);
      var line := lines[|lines| - 1];
      if line.Blank? then Grouping(before.groups + [before.open], []) else before.(open := before.open + [line])
  }

  /** The last value wins. */
  function LastEvent(group: seq<Line>): Option<string> {
    if group == [] then None
    else if group[|group| - 1].EventLine? then Some(group[|group| - 1].value)
    else LastEvent(group[..|group| - 1])
  }

  function LastData(group: seq<Line>): Option<string> {
    if group == [] then None
    else if group[|group| - 1].DataLine? then Some(group[|group| - 1].value)
    else LastData(group[..|group| - 1])
  }

  function FrameOf(group: seq<Line>): Frame {
    Frame(LastEvent(group), LastData(group))
  }

  function Emitted(f: Frame): seq<Frame> {
    if f == NO_FRAME then [] else [f]
  }

  /** One frame per finished group that says anything. */
  function FramesOf(groups: seq<seq<Line>>): seq<Frame> {
    if groups == [] then [] else FramesOf(groups[..|groups| - 1]) + Emitted(FrameOf(groups[|groups| - 1]))
  }

  function Batch(text: string): Fed {
    var split := Lines(text);
    var grouping := Groups(Classified(split.lines));
    Fed(Parser(split.rest, FrameOf(grouping.open)), FramesOf(grouping.groups))
  }

  /** A newline, by the class of the line it ends. */
  lemma EndLineByClass(p: Parser)
    ensures EndLine(p) == match Classify(p.lineBuf)
      case Blank => Fed(START, Emitted(p.current))
      case EventLine(v) => Fed(Parser("", p.current.(eventType := Some(v))), [])
      case DataLine(v) => Fed(Parser("", p.current.(data := Some(v))), [])
      case OtherLine => Fed(Parser("", p.current), [])
  {
  }

  /** One more line, as the batch reading sees it. */
  lemma BatchLine(lines: seq<Line>, line: Line)
    ensures var (before, after) := (Groups(lines), Groups(lines + [line]));
      match line
      case Blank =>
        && FrameOf(after.open) == NO_FRAME
        && FramesOf(after.groups) == FramesOf(before.groups) + Emitted(FrameOf(before.open))
      case EventLine(v) =>
        after.groups == before.groups && FrameOf(after.open) == FrameOf(before.open).(eventType := Some(v))
      case DataLine(v) => after.groups == before.groups && FrameOf(after.open) == FrameOf(before.open).(data := Some(v))
      case OtherLine => after.groups == before.groups && FrameOf(after.open) == FrameOf(before.open)
  {
    assert (lines + [line])[..|lines|] == lines;
    var before := Groups(lines);
    assert (before.open + [line])[..|before.open|] == before.open;
    assert (before.groups + [before.open])[..|before.groups|] == before.groups;
  }

  /** A newline moves the batch reading as it moves the parser. */
  lemma BatchNewline(text: string)
    ensures var before := Batch(text);
      Batch(text + "\n") == Fed(EndLine(before.parser).parser, before.frames + EndLine(before.parser).frames)
  {
    assert (text + "\n")[..|text|] == text;
    var split := Lines(text);
    assert Lines(text + "\n") == Split(split.lines + [split.rest], "");
    var lines, line := Classified(split.lines), Classify(split.rest);
    assert Classified(split.lines + [split.rest]) == lines + [line];
    EndLineByClass(Batch(text).parser);
    BatchLine(lines, line);
    hide EndLine, Classify, Groups, FramesOf, FrameOf, Lines;
  }

  lemma BatchCharacter(text: string, c: char)
    requires c != '\n'
    ensures var before := Batch(text);
      Batch(text + [c]) == Fed(before.parser.(lineBuf := before.parser.lineBuf + [c]), before.frames + [])
  {
    assert (text + [c])[..|text|] == text;
    hide Groups, FramesOf, FrameOf, Classified;
  }

  lemma BatchNone()
    ensures Batch("") == Fed(START, [])
  {
  }

  /** Character by character is the batch reading: split into lines, drop trailing CRs, group by
      blank lines, last `event:` and `data:` of a group win. */
  lemma {:induction false} FeedIsBatch(text: string)
    ensures Feed(START, text) == Batch(text)
  {
    hide Feed, Batch, EndLine;
    if text == "" {
      FeedNone(START);
      BatchNone();
    } else {
      var n := |text| - 1;
      FeedIsBatch(text[..n]);
      FeedSnoc(START, text[..n], text[n]);
      assert text == text[..n] + [text[n]];
      if text[n] == '\n' {
        BatchNewline(text[..n]);
      } else {
        BatchCharacter(text[..n], text[n]);
      }
    }
  }

  // ---- printed frames parse back -------------------------------------------------------------------

  /** A value that survives a line: no newline, no white space at either end. */
  predicate Printable(s: string) {
    '\n' !in s && (s == "" || (!IsWhitespace(s[0]) && !IsWhitespace(s[|s| - 1])))
  }

  /** These are the one-line values that trimming leaves alone. */
  lemma PrintableExactly(s: string)
    ensures Printable(s) <==> '\n' !in s && Trim(s) == s
  {
    TrimExactly(s);
    if Printable(s) {
      assert TrimStart(s) == s;
    }
  }

  /** How the server prints an event. */
  function Printed(eventType: string, data: string): string {
    "event: " + eventType + "\n" + "data: " + data + "\n" + "\n"
  }

  lemma {:induction false} FeedLine(p: Parser, line: string)
    requires '\n' !in line
    ensures Feed(p, line) == Fed(p.(lineBuf := p.lineBuf + line), [])
  {
    if line == "" {
      assert p.lineBuf + line == p.lineBuf;
    } else {
      var n := |line| - 1;
      FeedLine(p, line[..n]);
      FeedSnoc(p, line[..n], line[n]);
      assert line == line[..n] + [line[n]];
      assert p.lineBuf + line == p.lineBuf + line[..n] + [line[n]];
    }
  }

  /** A whole line at once. */
  lemma FeedWholeLine(current: Frame, line: string)
    requires '\n' !in line
    ensures Feed(Parser("", current), line + "\n") == EndLine(Parser(line, current))
  {
    hide EndLine, Feed;
    FeedLine(Parser("", current), line);
    FeedSnoc(Parser("", current), line, '\n');
    assert "" + line == line && [] + EndLine(Parser(line, current)).frames == EndLine(Parser(line, current)).frames;
  }

  lemma TrimKeeps(s: string)
    requires Printable(s)
    ensures Trim(" " + s) == s
  {
    assert (" " + s)[1..] == s;
    assert TrimStart(" " + s) == TrimStart(s);
  }

  lemma FieldLine(prefix: string, s: string)
    requires Printable(s) && |prefix| > 0 && prefix[|prefix| - 1] == ':'
    ensures var line := prefix + " " + s;
      && '\n' !in s && TrimEndCr(line) == line && line != ""
      && AfterPrefix(line, prefix) == Some(" " + s)
  {
    var line := prefix + " " + s;
    assert line[|line| - 1] == if s == "" then ' ' else s[|s| - 1];
    assert line[|prefix|..] == " " + s;
    assert line[..|prefix|] == prefix;
  }

  lemma EventLineRead(current: Frame, eventType: string)
    requires Printable(eventType)
    ensures Feed(Parser("", current), "event:" + " " + eventType + "\n") ==
      Fed(Parser("", current.(eventType := Some(eventType))), [])
  {
    FieldLine("event:", eventType);
    TrimKeeps(eventType);
    FeedWholeLine(current, "event:" + " " + eventType);
  }

  lemma DataLineRead(current: Frame, data: string)
    requires Printable(data)
    ensures Feed(Parser("", current), "data:" + " " + data + "\n") == Fed(Parser("", current.(data := Some(data))), [])
  {
    var line := "data:" + " " + data;
    FieldLine("data:", data);
    TrimKeeps(data);
    assert line[0] == 'd' && "event:"[0] == 'e';
    assert AfterPrefix(line, "event:").None?;
    FeedWholeLine(current, line);
  }

  lemma BlankLineRead(current: Frame)
    ensures Feed(Parser("", current), "\n") == Fed(START, Emitted(current))
  {
    FeedWholeLine(current, "");
    assert "" + "\n" == "\n";
  }

  lemma FeedThree(p: Parser, a: string, b: string, c: string, q: Parser, r: Parser)
    requires Feed(p, a) == Fed(q, []) && Feed(q, b) == Fed(r, [])
    ensures Feed(p, a + b + c) == Feed(r, c)
  {
    FeedConcat(p, a, b);
    FeedConcat(p, a + b, c);
    hide Feed;
    assert [] + Feed(r, c).frames == Feed(r, c).frames;
  }

  lemma PrintedIsLines(eventType: string, data: string)
    ensures Printed(eventType, data) == ("event:" + " " + eventType + "\n") + ("data:" + " " + data + "\n") + "\n"
  {
    assert "event:" + " " == "event: " && "data:" + " " == "data: ";
  }

  /** One printed frame, read from a clean state, gives that frame and leaves the state clean. */
  lemma PrintedParses(eventType: string, data: string)
    requires Printable(eventType) && Printable(data)
    ensures Feed(START, Printed(eventType, data)) == Fed(START, [Frame(Some(eventType), Some(data))])
  {
    var after1, after2 := Frame(Some(eventType), None), Frame(Some(eventType), Some(data));
    EventLineRead(NO_FRAME, eventType);
    DataLineRead(after1, data);
    BlankLineRead(after2);
    PrintedIsLines(eventType, data);
    hide Feed, Printed, Printable;
    FeedThree(START, "event:" + " " + eventType + "\n", "data:" + " " + data + "\n", "\n",
              Parser("", after1), Parser("", after2));
  }

  // ---- chunked transfer framing -----------------------------------------------------------------

  /** A chunk-size line without its CRLF (section 7.1 of RFC 9112). */
  predicate ChunkSize(s: string) {
    s != "" && forall c :: c in s ==> c in "0123456789abcdefABCDEF"
  }

  lemma ChunkSizeIsOther(s: string)
    requires ChunkSize(s)
    ensures '\n' !in s + "\r" && Classify(s + "\r").OtherLine?
  {
    var line := s + "\r";
    assert line[..|s|] == s && s[|s| - 1] in s;
    assert TrimEndCr(line) == s;
    if |s| > 5 {
      assert s[4] in s && s[5] in s;
      assert "event:"[5] == ':' && "data:"[4] == ':';
    } else if |s| > 4 {
      assert s[4] in s && "data:"[4] == ':';
    }
  }

  lemma SizeLineSkipped(current: Frame, size: string)
    requires ChunkSize(size)
    ensures Feed(Parser("", current), size + "\r\n") == Fed(Parser("", current), [])
  {
    ChunkSizeIsOther(size);
    FeedWholeLine(current, size + "\r");
    assert size + "\r\n" == size + "\r" + "\n";
    EndLineByClass(Parser(size + "\r", current));
  }

  /** Ending one chunk and starting the next, wherever it happens. */
  function Boundary(size: string): string {
    "\r\n" + (size + "\r\n")
  }

  lemma BoundaryEffect(p: Parser, size: string)
    requires ChunkSize(size)
    ensures Feed(p, Boundary(size)) == EndLine(p.(lineBuf := p.lineBuf + "\r"))
  {
    var q := p.(lineBuf := p.lineBuf + "\r");
    FeedLine(p, "\r");
    FeedSnoc(p, "\r", '\n');
    assert "\r" + ['\n'] == "\r\n";
    EndLineByClass(q);
    SizeLineSkipped(EndLine(q).parser.current, size);
    FeedConcat(p, "\r\n", size + "\r\n");
    hide Feed, EndLine, Classify;
  }

  /** Between frames a boundary leaves no trace. */
  lemma BoundaryBetweenFrames(size: string)
    requires ChunkSize(size)
    ensures Feed(START, Boundary(size)) == Fed(START, [])
  {
    BoundaryEffect(START, size);
    EndLineByClass(START.(lineBuf := "\r"));
    assert "" + "\r" == "\r" && TrimEndCr("\r") == "" && Classify("\r").Blank?;
  }

  /** A boundary ends the line, and if that line is blank, the frame. */
  lemma BoundaryEndsLine(p: Parser, size: string)
    requires ChunkSize(size)
    ensures var after := Feed(p, Boundary(size));
      && after.parser.lineBuf == ""
      && (after.frames == [] || (after.frames == [p.current] && TrimEndCr(p.lineBuf) == ""))
      && (TrimEndCr(p.lineBuf) == "" ==> after == Fed(START, Emitted(p.current)))
  {
    BoundaryEffect(p, size);
    var line := p.lineBuf + "\r";
    EndLineByClass(p.(lineBuf := line));
    assert line[..|line| - 1] == p.lineBuf && TrimEndCr(line) == TrimEndCr(p.lineBuf);
    hide Feed;
  }

  function DataGroup(y: string): string {
    "data:" + " " + y + "\n" + "\n"
  }

  /** A data line and a blank line, when no line is begun. */
  lemma DataThenBlank(current: Frame, y: string)
    requires Printable(y)
    ensures Feed(Parser("", current), DataGroup(y)) == Fed(START, [current.(data := Some(y))])
  {
    DataLineRead(current, y);
    BlankLineRead(current.(data := Some(y)));
    FeedConcat(Parser("", current), "data:" + " " + y + "\n", "\n");
    hide Feed;
  }

  lemma {:induction false} TailKeepsItsEnd(s: string, tail: string)
    requires Printable(tail) && tail != ""
    ensures |Trim(s + tail)| >= |tail|
  {
    if s == "" || !IsWhitespace(s[0]) {
      var all := s + tail;
      assert all[|all| - 1] == tail[|tail| - 1] && (s == "" ==> all == tail);
      assert TrimStart(all) == all && TrimEnd(all) == all;
    } else {
      TailKeepsItsEnd(s[1..], tail);
      assert (s + tail)[1..] == s[1..] + tail;
    }
  }

  /** A data line that is the tail of another line does not give its value. */
  lemma TailOfLine(lineBuf: string, y: string)
    requires lineBuf != "" && Printable(y) && y != ""
    ensures var line := lineBuf + ("data:" + " " + y);
      && TrimEndCr(line) == line
      && (AfterPrefix(line, "event:").None? && AfterPrefix(line, "data:").Some? ==>
           Trim(AfterPrefix(line, "data:").value) != y)
  {
    var tail := "data:" + " " + y;
    var line := lineBuf + tail;
    assert line[|line| - 1] == y[|y| - 1];
    assert line[|lineBuf|] == tail[0] == 'd';
    assert forall k :: 1 <= k < 5 ==> "data:"[k] != 'd';
    if AfterPrefix(line, "data:").Some? {
      assert line[..5] == "data:" && forall k :: 0 <= k < 5 ==> line[k] == line[..5][k];
      assert |lineBuf| >= 5;
      assert tail[0] == 'd' && tail[|tail| - 1] == y[|y| - 1] && '\n' !in tail;
      TailKeepsItsEnd(lineBuf[5..], tail);
      assert line[5..] == lineBuf[5..] + tail;
    }
  }

  /** The same two lines, when a line is begun. */
  lemma BegunLineThenBlank(p: Parser, y: string)
    requires p.lineBuf != "" && Printable(y) && y != "" && p.current.data != Some(y)
    ensures forall f :: f in Feed(p, DataGroup(y)).frames ==> f.data != Some(y)
  {
    var tail := "data:" + " " + y;
    var line := p.lineBuf + tail;
    TailOfLine(p.lineBuf, y);
    assert '\n' !in tail;
    FeedLine(p, tail);
    FeedSnoc(p, tail, '\n');
    assert tail + ['\n'] == tail + "\n";
    var ended := EndLine(Parser(line, p.current));
    EndLineByClass(Parser(line, p.current));
    assert ended.frames == [] && ended.parser.lineBuf == "" && ended.parser.current.data != Some(y);
    BlankLineRead(ended.parser.current);
    FeedConcat(p, tail + "\n", "\n");
    hide Feed, EndLine;
  }

  /** What a client sees: chunk framing changes no frames, whatever follows, exactly between
      frames: with no line begun and no field collected. Anywhere else it ends a line or a frame
      early. */
  lemma FramingInvisibleExactly(p: Parser, size: string)
    requires ChunkSize(size)
    ensures (forall text :: Feed(p, Boundary(size) + text).frames == Feed(p, text).frames) <==> p == START
  {
    hide Boundary, ChunkSize;
    if p == START {
      forall text
        ensures Feed(p, Boundary(size) + text).frames == Feed(p, text).frames
      {
        BoundaryBetweenFrames(size);
        FeedConcat(p, Boundary(size), text);
      }
    } else {
      var text := FramingShows(p, size);
      assert Feed(p, Boundary(size) + text).frames != Feed(p, text).frames;
    }
  }

  /** What may follow to make a client notice. */
  lemma FramingShows(p: Parser, size: string) returns (text: string)
    requires ChunkSize(size) && p != START
    ensures Feed(p, Boundary(size) + text).frames != Feed(p, text).frames
  {
    BoundaryEndsLine(p, size);
    assert TrimEndCr("") == "";
    hide TrimEndCr, ChunkSize, DataGroup;
    var after := Feed(p, Boundary(size));
    if after.frames != [] {
      text := "";
      FeedNone(p);
      assert Boundary(size) + text == Boundary(size);
    } else {
      var y := if p.current.data == Some("a") then "b" else "a";
      text := DataGroup(y);
      BegunLineThenBlank(p, y);
      DataThenBlank(after.parser.current, y);
      FeedConcat(p, Boundary(size), text);
      hide Feed, Boundary;
      var f := after.parser.current.(data := Some(y));
      assert Feed(p, Boundary(size) + text).frames == [f];
      assert f in [f];
    }
  }

  datatype Event = Event(eventType: string, data: string, size: string)

  predicate Sendable(e: Event) {
    Printable(e.eventType) && Printable(e.data) && ChunkSize(e.size)
  }

  /** One chunk per event, as the server sends them. */
  function Chunked(events: seq<Event>): string {
    if events == [] then ""
    else
      var e := events[|events| - 1];
      Chunked(events[..|events| - 1]) + (e.size + "\r\n" + Printed(e.eventType, e.data) + "\r\n")
  }

  function Sent(events: seq<Event>): seq<Frame> {
    seq(|events|, i requires 0 <= i < |events| => Frame(Some(events[i].eventType), Some(events[i].data)))
  }

  lemma CrlfIgnored()
    ensures Feed(START, "\r\n") == Fed(START, [])
  {
    FeedWholeLine(NO_FRAME, "\r");
    EndLineByClass(Parser("\r", NO_FRAME));
    assert TrimEndCr("\r") == "" && "\r" + "\n" == "\r\n";
  }

  lemma ChunkParses(e: Event)
    requires Sendable(e)
    ensures Feed(START, e.size + "\r\n" + Printed(e.eventType, e.data) + "\r\n") ==
      Fed(START, [Frame(Some(e.eventType), Some(e.data))])
  {
    var head, body := e.size + "\r\n", Printed(e.eventType, e.data);
    SizeLineSkipped(NO_FRAME, e.size);
    PrintedParses(e.eventType, e.data);
    CrlfIgnored();
    FeedConcat(START, head, body);
    FeedConcat(START, head + body, "\r\n");
    hide Feed, Printed, Printable, ChunkSize;
  }

  /** A stream of printed events, each in its own chunk, parses back to those events. */
  lemma {:induction false} ChunkedParses(events: seq<Event>)
    requires forall e :: e in events ==> Sendable(e)
    ensures Feed(START, Chunked(events)) == Fed(START, Sent(events))
  {
    hide Feed, Printed, Sendable;
    if events == [] {
      FeedNone(START);
    } else {
      var n := |events| - 1;
      var e := events[n];
      assert e in events;
      ChunkedParses(events[..n]);
      ChunkParses(e);
      FeedConcat(START, Chunked(events[..n]), e.size + "\r\n" + Printed(e.eventType, e.data) + "\r\n");
      assert Sent(events) == Sent(events[..n]) + [Frame(Some(e.eventType), Some(e.data))];
    }
  }
}
