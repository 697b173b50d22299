/**
 * Reading the reply stream: `data:` lines (in part the framing of section 9.2.6 of the WHATWG HTML standard) arrive in
 * arbitrary chunks, content accumulates, and a timer flushes it to the document in batches.
 */
module Streaming {
  import opened Text

  /** What decoding a payload as JSON and reading `error` and `content` comes to. */
  datatype Payload = Malformed | ErrorEvent | Content(text: string) | Other

  /** JSON decoding, a fixed function of the payload. */
  type Decoder = string -> Payload

  // ---------------------------------------------------------------------------
  // What a text means
  // ---------------------------------------------------------------------------

  /** The event of one line: nothing unless it is a `data: ` line, nothing for the end marker. */
  function LineEvent(json: Decoder, line: string): Payload {
    var trimmed := Trim(line);
    if trimmed == "" || !StartsWith(trimmed, "data: ") then Other
    else if trimmed[6..] == "[DONE]" then Other
    else json(trimmed[6..])
  }

  /** The content of the lines in order, up to the first error event; anything else is skipped. */
  datatype Reading = Reading(text: string, failed: bool)

  function ReadLines(json: Decoder, lines: seq<string>): Reading {
    if lines == [] then Reading("", false)
    else
      match LineEvent(json, lines[0])
      case ErrorEvent => Reading("", true)
      case Content(text) =>
        var rest := ReadLines(json, lines[1..]);
        Reading(text + rest.text, rest.failed)
      case _ => ReadLines(json, lines[1..])
  }

  function Last(parts: seq<string>): string
    requires parts != []
  {
    parts[|parts| - 1]
  }

  /** The lines that a newline ends; what follows the last newline is not read. */
  function EndedLines(text: string): seq<string> {
    var parts := Split(text, '\n');
    parts[..|parts| - 1]
  }

  function Meaning(json: Decoder, text: string): Reading {
    ReadLines(json, EndedLines(text))
  }

  // ---------------------------------------------------------------------------
  // The reader
  // ---------------------------------------------------------------------------

  /** `flushTimer` is 0 for null; `timers` are the timers that the runtime may still fire. */
  datatype Stream = Stream(
    buffer: string, fullText: string, pending: string, paragraph: string,
    flushTimer: nat, timers: set<nat>, nextTimer: nat, failed: bool)

  const START := Stream("", "", "", "", 0, {}, 0, false)

  function Flush(st: Stream): Stream {
    st.(paragraph := st.paragraph + st.pending, pending := "")
  }

  function ScheduleFlush(st: Stream): Stream {
    if st.flushTimer == 0 then
      var id := st.nextTimer + 1;
      st.(flushTimer := id, timers := st.timers + {id}, nextTimer := id)
    else st
  }

  /** Content arrives; an empty content is no content. */
  function Receive(st: Stream, text: string): Stream {
    if text == "" then st
    else ScheduleFlush(st.(fullText := st.fullText + text, pending := st.pending + text))
  }

  /** A chunk is read: complete lines are taken from the buffer; an error event ends the reading. */
  function Feed(json: Decoder, st: Stream, chunk: string): Stream {
    if st.failed then st
    else
      var parts := Split(st.buffer + chunk, '\n');
      var r := ReadLines(json, parts[..|parts| - 1]);
      Receive(st, r.text).(buffer := Last(parts), failed := r.failed)
  }

  /** A timer fires: flush, then forget the timer. */
  function Fire(st: Stream, id: nat): Stream {
    if id in st.timers && !st.failed then Flush(st).(flushTimer := 0, timers := st.timers - {id}) else st
  }

  /** Reading ends, by the end of the stream or by an exception: cancel the timer, flush the rest. */
  function Finish(st: Stream): Stream {
    Flush(st.(timers := if st.flushTimer != 0 then st.timers - {st.flushTimer} else st.timers))
  }

  datatype Event = Chunk(text: string) | Timer(id: nat)

  function Apply(json: Decoder, st: Stream, e: Event): Stream {
    match e
    case Chunk(text) => Feed(json, st, text)
    case Timer(id) => Fire(st, id)
  }

  function Run(json: Decoder, st: Stream, events: seq<Event>): Stream
    decreases events
  {
    if events == [] then st else Run(json, Apply(json, st, events[0]), events[1..])
  }

  /** The text that the chunks of a run add up to. */
  function Received(events: seq<Event>): string {
    if events == [] then ""
    else (match events[0] case Chunk(text) => text case Timer(_) => "") + Received(events[1..])
  }

  // ---------------------------------------------------------------------------
  // Chunking
  // ---------------------------------------------------------------------------

  lemma {:induction false} ReadLinesConcat(json: Decoder, a: seq<string>, b: seq<string>)
    ensures var x, y := ReadLines(json, a), ReadLines(json, b);
            ReadLines(json, a + b) == if x.failed then x else Reading(x.text + y.text, y.failed)
  {
    if a == [] {
      assert a + b == b;
    } else {
      assert (a + b)[0] == a[0] && (a + b)[1..] == a[1..] + b;
      ReadLinesConcat(json, a[1..], b);
      hide LineEvent;
    }
  }

  /** All parts but the last, and the last with `tail` continued. */
  function Continue(parts: seq<string>, tail: string, d: char): seq<string>
    requires parts != []
  {
    parts[..|parts| - 1] + Split(Last(parts) + tail, d)
  }

  lemma ContinueAfterDelimiter(parts: seq<string>, tail: string, d: char)
    requires parts != []
    ensures Continue([""] + parts, tail, d) == [""] + Continue(parts, tail, d)
  {
    hide Split;
    var whole := [""] + parts;
    assert whole[..|whole| - 1] == [""] + parts[..|parts| - 1] && Last(whole) == Last(parts);
  }

  lemma ContinueExtended(c: char, parts: seq<string>, tail: string, d: char)
    requires parts != [] && c != d
    ensures Continue(Extend(c, parts), tail, d) == Extend(c, Continue(parts, tail, d))
  {
    if |parts| == 1 {
      var inner := parts[0] + tail;
      assert ([c] + inner)[1..] == inner;
      assert Split([c] + inner, d) == Extend(c, Split(inner, d));
      hide Split;
      assert [c] + inner == [c] + parts[0] + tail;
      assert Extend(c, parts)[..0] + Split([c] + inner, d) == Split([c] + inner, d);
      assert parts[..0] + Split(inner, d) == Split(inner, d);
    } else {
      hide Split;
      var front, y := parts[..|parts| - 1], Split(Last(parts) + tail, d);
      assert (front + y)[0] == parts[0] && (front + y)[1..] == front[1..] + y;
      assert Extend(c, parts)[..|parts| - 1] == [[c] + parts[0]] + front[1..];
    }
  }

  /** Cutting a text anywhere: the lines ended in the first part stay, its last line goes on into the second. */
  lemma {:induction false} SplitAppend(a: string, b: string, d: char)
    ensures Split(a + b, d) == Continue(Split(a, d), b, d)
  {
    if a == "" {
      assert a + b == b && Last([""]) + b == b;
      assert [""][..0] + Split(b, d) == Split(b, d);
    } else {
      SplitAppend(a[1..], b, d);
      assert (a + b)[0] == a[0] && (a + b)[1..] == a[1..] + b;
      hide Continue, Extend;
      var x := Split(a[1..], d);
      if a[0] == d {
        ContinueAfterDelimiter(x, b, d);
      } else {
        ContinueExtended(a[0], x, b, d);
      }
    }
  }

  /** The reader has understood `text`: what it holds is the meaning of the text read so far. */
  ghost predicate Understood(json: Decoder, st: Stream, text: string) {
    && Meaning(json, text) == Reading(st.fullText, st.failed)
    && (!st.failed ==> st.buffer == Last(Split(text, '\n')))
  }

  lemma ReceivedText(st: Stream, text: string)
    ensures Receive(st, text).fullText == st.fullText + text
  {
    assert st.fullText + "" == st.fullText;
  }

  lemma FeedUnderstands(json: Decoder, st: Stream, text: string, chunk: string)
    requires Understood(json, st, text)
    ensures Understood(json, Feed(json, st, chunk), text + chunk)
  {
    hide Split, ReadLines, Receive;
    SplitAppend(text, chunk, '\n');
    var x, all := Split(text, '\n'), Split(text + chunk, '\n');
    var y := Split(Last(x) + chunk, '\n');
    assert all[..|all| - 1] == x[..|x| - 1] + y[..|y| - 1];
    assert Last(all) == Last(y);
    ReceivedText(st, ReadLines(json, y[..|y| - 1]).text);
    ReadLinesConcat(json, x[..|x| - 1], y[..|y| - 1]);
  }

  lemma {:induction false} RunUnderstands(json: Decoder, st: Stream, text: string, events: seq<Event>)
    requires Understood(json, st, text)
    ensures Understood(json, Run(json, st, events), text + Received(events))
    decreases events
  {
    hide Feed, Understood;
    if events == [] {
      assert text + "" == text;
    } else {
      var e := events[0];
      var next := text + match e case Chunk(chunk) => chunk case Timer(_) => "";
      if e.Chunk? {
        FeedUnderstands(json, st, text, e.text);
      } else {
        FireUnderstands(json, st, text, e.id);
        assert text + "" == text;
      }
      RunUnderstands(json, Apply(json, st, e), next, events[1..]);
      assert text + Received(events) == next + Received(events[1..]);
    }
  }

  lemma FireUnderstands(json: Decoder, st: Stream, text: string, id: nat)
    requires Understood(json, st, text)
    ensures Understood(json, Fire(st, id), text)
  {
  }

  // ---------------------------------------------------------------------------
  // Conservation
  // ---------------------------------------------------------------------------

  /** Nothing is lost between the document and the reader, one timer at most is armed, and waiting text has one. */
  ghost predicate Conserved(st: Stream) {
    && st.paragraph + st.pending == st.fullText
    && st.timers == (if st.flushTimer == 0 then {} else {st.flushTimer})
    && (st.pending != "" ==> st.flushTimer != 0)
    && st.flushTimer <= st.nextTimer
  }

  lemma ApplyConserves(json: Decoder, st: Stream, e: Event)
    requires Conserved(st)
    ensures Conserved(Apply(json, st, e))
  {
    hide ReadLines, Split;
  }

  lemma {:induction false} RunConserves(json: Decoder, st: Stream, events: seq<Event>)
    requires Conserved(st)
    ensures Conserved(Run(json, st, events))
    decreases events
  {
    if events != [] {
      ApplyConserves(json, st, events[0]);
      RunConserves(json, Apply(json, st, events[0]), events[1..]);
    }
  }

  /**
   * Stream outcome, for every way of cutting the text into chunks and every interleaving with timer firings: at each
   * point paragraph and pending text make up the full text and at most one timer is armed; when reading ends, by
   * whatever path, the paragraph holds exactly the meaning of the text received, and no timer is left.
   */
  lemma StreamOutcome(json: Decoder, events: seq<Event>)
    ensures var st, meaning := Run(json, START, events), Meaning(json, Received(events));
            && Conserved(st)
            && st.fullText == meaning.text && st.failed == meaning.failed
            && Finish(st).paragraph == Finish(st).fullText == meaning.text
            && Finish(st).timers == {} && Finish(st).pending == ""
  {
    RunConserves(json, START, events);
    assert Understood(json, START, "");
    RunUnderstands(json, START, "", events);
    assert "" + Received(events) == Received(events);
  }

  /** Chunking independence: two ways of cutting the same text end with the same full text and the same verdict. */
  lemma {:induction false} ChunkingIndependent(json: Decoder, events: seq<Event>, others: seq<Event>)
    requires Received(events) == Received(others)
    ensures var a, b := Run(json, START, events), Run(json, START, others);
            a.fullText == b.fullText && a.failed == b.failed && Finish(a).paragraph == Finish(b).paragraph
  {
    StreamOutcome(json, events);
    StreamOutcome(json, others);
  }

  // ---------------------------------------------------------------------------
  // What the text received says, in terms of the framing alone
  // ---------------------------------------------------------------------------

  /** `line` carries the payload `p`: between white space it reads `data: ` and then `p`, which ends visibly. */
  ghost predicate Carries(line: string, p: string) {
    && p != "" && !IsSpace(p[|p| - 1])
    && exists before, after :: Between(line, before, "data: " + p, after)
  }

  /** A payload other than the end marker decodes to an error. */
  ghost predicate Fails(json: Decoder, line: string) {
    exists p :: Carries(line, p) && p != "[DONE]" && json(p) == ErrorEvent
  }

  /** What a line that does not fail says: the content of its payload, or nothing when there is none. */
  ghost predicate Adds(json: Decoder, line: string, text: string) {
    || (exists p :: Carries(line, p) && p != "[DONE]" && json(p) == Content(text))
    || (text == "" && forall p :: Carries(line, p) && p != "[DONE]" ==> json(p) == Malformed || json(p) == Other)
  }

  /** Line by line, `texts` is what the lines say, up to the end or to the first line that fails. */
  ghost predicate Told(json: Decoder, lines: seq<string>, texts: seq<string>, failed: bool) {
    && |texts| <= |lines| && (failed <==> |texts| < |lines|)
    && (forall k :: 0 <= k < |texts| ==> Adds(json, lines[k], texts[k]))
    && (failed ==> Fails(json, lines[|texts|]))
  }

  lemma CarriesExact(line: string, p: string)
    ensures Carries(line, p) <==> StartsWith(Trim(line), "data: ") && p == Trim(line)[6..]
  {
    hide Trim, Between, IsSpace;
    var whole := "data: " + p;
    TrimExact(line, Trim(line));
    TrimExact(line, whole);
    assert whole[6..] == p && |whole| == |p| + 6;
    LetterIsVisible();
    if p != "" {
      assert whole[|whole| - 1] == p[|p| - 1];
    } else {
      BlankAtEnd(whole);
    }
    if StartsWith(Trim(line), "data: ") && p == Trim(line)[6..] {
      assert Trim(line) == whole;
    }
  }

  lemma LetterIsVisible()
    ensures !IsSpace('d') && IsSpace(' ')
  {
  }

  lemma BlankAtEnd(whole: string)
    requires whole == "data: "
    ensures !Trimmed(whole)
  {
  }

  /** A line carries one payload at most, and its event is what the decoder makes of it. */
  lemma LineExact(json: Decoder, line: string)
    ensures LineEvent(json, line).ErrorEvent? <==> Fails(json, line)
    ensures forall text :: Adds(json, line, text) <==> !Fails(json, line) && text == EventText(json, line)
  {
    hide Trim, Carries;
    forall p
      ensures Carries(line, p) <==> StartsWith(Trim(line), "data: ") && p == Trim(line)[6..]
    {
      CarriesExact(line, p);
    }
  }

  lemma {:induction false} ToldIsRead(json: Decoder, lines: seq<string>, texts: seq<string>, failed: bool)
    requires Told(json, lines, texts, failed)
    ensures ReadLines(json, lines) == Reading(Join(texts, ""), failed)
  {
    hide LineEvent, Fails, Adds;
    if lines != [] {
      LineExact(json, lines[0]);
      if texts != [] {
        assert Adds(json, lines[0], texts[0]);
        assert Told(json, lines[1..], texts[1..], failed);
        ToldIsRead(json, lines[1..], texts[1..], failed);
        JoinFirst(texts);
        assert "" + Join(texts[1..], "") == Join(texts[1..], "");
      }
    }
  }

  /** Every list of lines tells something. */
  lemma {:induction false} LinesTell(json: Decoder, lines: seq<string>) returns (texts: seq<string>, failed: bool)
    ensures Told(json, lines, texts, failed)
  {
    hide Fails, Adds, EventText;
    texts, failed := [], false;
    if lines != [] {
      LineExact(json, lines[0]);
      if Fails(json, lines[0]) {
        failed := true;
      } else {
        var rest, last := LinesTell(json, lines[1..]);
        texts, failed := [EventText(json, lines[0])] + rest, last;
        assert failed ==> Fails(json, lines[1..][|rest|]);
      }
    }
  }

  lemma EndedLinesOf(lines: seq<string>, rest: string)
    requires Clean(lines + [rest], '\n')
    ensures EndedLines(Join(lines + [rest], "\n")) == lines
  {
    hide Split, Join, Clean;
    SplitJoin(lines + [rest], '\n');
    assert (lines + [rest])[..|lines|] == lines;
  }

  /**
   * The stream in terms of its framing alone. When the chunks add up to the given lines, each ended by a newline, and a
   * rest without one, the full text is what the lines say up to the first that fails, and reading fails if and only if
   * one does.
   */
  lemma {:induction false} StreamSays(json: Decoder, events: seq<Event>, lines: seq<string>, rest: string)
    requires Clean(lines + [rest], '\n') && Received(events) == Join(lines + [rest], "\n")
    ensures var st := Run(json, START, events);
            && (exists texts :: Told(json, lines, texts, st.failed))
            && (forall texts, failed :: Told(json, lines, texts, failed) ==>
                  st.failed == failed && st.fullText == Join(texts, ""))
  {
    hide *;
    Meant(json, events, lines, rest);
    var texts, failed := LinesTell(json, lines);
    ToldIsRead(json, lines, texts, failed);
    forall texts, failed | Told(json, lines, texts, failed)
      ensures ReadLines(json, lines) == Reading(Join(texts, ""), failed)
    {
      ToldIsRead(json, lines, texts, failed);
    }
  }

  lemma Meant(json: Decoder, events: seq<Event>, lines: seq<string>, rest: string)
    requires Clean(lines + [rest], '\n') && Received(events) == Join(lines + [rest], "\n")
    ensures ReadLines(json, lines) == Reading(Run(json, START, events).fullText, Run(json, START, events).failed)
  {
    hide Clean, Join, Run, ReadLines, EndedLines, Received, Conserved, Finish;
    StreamOutcome(json, events);
    EndedLinesOf(lines, rest);
  }

  /**
   * One `data: ` line, with any white space around it and however it is cut: the full text is the content of its
   * payload, and reading fails if and only if the payload decodes to an error; the end marker says nothing.
   */
  lemma DataLineIsRead(json: Decoder, events: seq<Event>, before: string, p: string, after: string)
    requires White(before) && White(after) && '\n' !in before && '\n' !in p && '\n' !in after
    requires p != "" && Trimmed(p)
    requires Received(events) == before + "data: " + p + after + "\n"
    ensures var st := Run(json, START, events);
            && (st.failed <==> p != "[DONE]" && json(p) == ErrorEvent)
            && st.fullText == (if p != "[DONE]" && json(p).Content? then json(p).text else "")
  {
    hide *;
    var line := before + ("data: " + p) + after;
    OneLine(before, p, after, line);
    Meant(json, events, [line], "");
    OneLineCarries(before, p, after, line);
    OnlyPayload(json, line, p);
    ReadSingle(json, line);
  }

  lemma OneLine(before: string, p: string, after: string, line: string)
    requires '\n' !in before && '\n' !in p && '\n' !in after && line == before + ("data: " + p) + after
    ensures Clean([line] + [""], '\n')
    ensures Join([line] + [""], "\n") == before + "data: " + p + after + "\n"
  {
    var lines := [line] + [""];
    assert lines[1..] == [""];
    ConcatAssociates(before, "data: ", p);
    assert line + "\n" + "" == line + "\n";
  }

  lemma OneLineCarries(before: string, p: string, after: string, line: string)
    requires White(before) && White(after) && p != "" && Trimmed(p) && line == before + ("data: " + p) + after
    ensures Carries(line, p)
  {
    hide White;
    assert Between(line, before, "data: " + p, after);
  }

  lemma OnlyPayload(json: Decoder, line: string, p: string)
    requires Carries(line, p)
    ensures LineEvent(json, line) == (if p == "[DONE]" then Other else json(p))
    ensures EventText(json, line) == (if p != "[DONE]" && json(p).Content? then json(p).text else "")
  {
    hide Carries, Trim;
    CarriesExact(line, p);
  }

  /** Without a line that carries a payload the text stays empty, without a failure, whatever the decoder. */
  lemma OtherLinesAreSkipped(json: Decoder, events: seq<Event>, lines: seq<string>, rest: string)
    requires Clean(lines + [rest], '\n') && Received(events) == Join(lines + [rest], "\n")
    requires forall k, p :: 0 <= k < |lines| ==> !Carries(lines[k], p)
    ensures var st := Run(json, START, events);
            st.fullText == "" && !st.failed && Finish(st).paragraph == ""
  {
    hide *;
    StreamOutcome(json, events);
    Meant(json, events, lines, rest);
    SkippedLines(json, lines);
  }

  lemma {:induction false} SkippedLines(json: Decoder, lines: seq<string>)
    requires forall k, p :: 0 <= k < |lines| ==> !Carries(lines[k], p)
    ensures ReadLines(json, lines) == Reading("", false)
  {
    hide Carries, Trim, LineEvent;
    if lines != [] {
      SkippedLine(json, lines[0]);
      SkippedLines(json, lines[1..]);
    }
  }

  lemma SkippedLine(json: Decoder, line: string)
    requires forall p :: !Carries(line, p)
    ensures LineEvent(json, line) == Other
  {
    hide Carries, Trim;
    if StartsWith(Trim(line), "data: ") {
      CarriesExact(line, Trim(line)[6..]);
    }
  }

  // ---------------------------------------------------------------------------
  // The reader as written
  // ---------------------------------------------------------------------------

  /** The variables of the reading loop and of its flush timer. */
  class Reader {
    var sseBuffer: string
    var fullText: string
    var pendingText: string
    var paragraph: string
    var flushTimer: nat
    var timers: set<nat>
    var nextTimer: nat
    var failed: bool

    constructor ()
      ensures State() == START
    {
      sseBuffer, fullText, pendingText, paragraph := "", "", "", "";
      flushTimer, timers, nextTimer, failed := 0, {}, 0, false;
    }

    function State(): Stream
      reads this
    {
      Stream(sseBuffer, fullText, pendingText, paragraph, flushTimer, timers, nextTimer, failed)
    }

    method FlushPending()
      modifies this
      ensures State() == Flush(old(State()))
    {
      if pendingText != "" {
        paragraph := paragraph + pendingText;
        pendingText := "";
      }
    }

    method Schedule()
      modifies this
      ensures State() == ScheduleFlush(old(State()))
    {
      if flushTimer == 0 {
        nextTimer := nextTimer + 1;
        flushTimer := nextTimer;
        timers := timers + {nextTimer};
      }
    }

    method OnTimer(id: nat)
      requires id in timers && !failed
      modifies this
      ensures State() == Fire(old(State()), id)
      ensures Conserved(old(State())) ==>
                Conserved(State()) && paragraph == fullText == old(fullText) && pendingText == "" && timers == {}
    {
      timers := timers - {id};
      FlushPending();
      flushTimer := 0;
    }

    /** One line of the chunk; true when it is an error event. */
    method OnLine(json: Decoder, line: string) returns (error: bool)
      modifies this
      ensures error <==> LineEvent(json, line).ErrorEvent?
      ensures State() == Receive(old(State()), EventText(json, line)).(failed := old(failed) || error)
    {
      hide LineEvent;
      var event := LineEvent(json, line);
      error := event.ErrorEvent?;
      if error {
        failed := true;
      } else if event.Content? && event.text != "" {
        fullText := fullText + event.text;
        pendingText := pendingText + event.text;
        Schedule();
      }
    }

    /** The loop over the complete lines of a chunk; an error event leaves it at once. */
    method OnLines(json: Decoder, lines: seq<string>)
      requires !failed
      modifies this
      ensures State() == Receive(old(State()), ReadLines(json, lines).text).(failed := ReadLines(json, lines).failed)
    {
      ghost var base := State();
      for k := 0 to |lines|
        invariant !ReadLines(json, lines[..k]).failed
        invariant State() == Receive(base, ReadLines(json, lines[..k]).text)
      {
        hide LineEvent, Receive, ReadLines, EventText;
        ReadOneMore(json, lines, k);
        ReceiveTwice(base, ReadLines(json, lines[..k]).text, EventText(json, lines[k]));
        ReceiveKeeps(base, ReadLines(json, lines[..k + 1]).text);
        var error := OnLine(json, lines[k]);
        if error {
          return;
        }
      }
      assert lines[..|lines|] == lines;
    }

    method OnChunk(json: Decoder, chunk: string)
      requires !failed
      modifies this
      ensures State() == Feed(json, old(State()), chunk)
      ensures Conserved(old(State())) ==> Conserved(State())
    {
      hide Split, ReadLines;
      sseBuffer := sseBuffer + chunk;
      var parts := Split(sseBuffer, '\n');
      sseBuffer := Last(parts);
      OnLines(json, parts[..|parts| - 1]);
    }

    /** The `finally` block: nothing is left waiting, in the buffer of the flush or on a timer. */
    method Close()
      modifies this
      ensures State() == Finish(old(State()))
      ensures Conserved(old(State())) ==> paragraph == fullText == old(fullText) && pendingText == "" && timers == {}
    {
      if flushTimer != 0 {
        timers := timers - {flushTimer};
      }
      FlushPending();
    }
  }

  /** What a line adds to the text. */
  function EventText(json: Decoder, line: string): string {
    var event := LineEvent(json, line);
    if event.Content? then event.text else ""
  }

  /** Reading one more line adds its text; reading through an error line is reading up to it. */
  lemma ReadOneMore(json: Decoder, lines: seq<string>, k: nat)
    requires k < |lines| && !ReadLines(json, lines[..k]).failed
    ensures var error := LineEvent(json, lines[k]).ErrorEvent?;
            && ReadLines(json, lines[..k + 1]) ==
               Reading(ReadLines(json, lines[..k]).text + EventText(json, lines[k]), error)
            && (error ==> ReadLines(json, lines) == ReadLines(json, lines[..k + 1]))
  {
    hide ReadLines, LineEvent, EventText;
    ReadSingle(json, lines[k]);
    assert lines[..k + 1] == lines[..k] + [lines[k]];
    ReadLinesConcat(json, lines[..k], [lines[k]]);
    assert lines == lines[..k + 1] + lines[k + 1..];
    ReadLinesConcat(json, lines[..k + 1], lines[k + 1..]);
  }

  lemma ReadSingle(json: Decoder, line: string)
    ensures ReadLines(json, [line]) == Reading(EventText(json, line), LineEvent(json, line).ErrorEvent?)
  {
    hide LineEvent;
    assert [line][1..] == [];
    var event := LineEvent(json, line);
    assert event.Content? ==> event.text + "" == event.text;
  }

  lemma ReceiveKeeps(st: Stream, text: string)
    ensures Receive(st, text).buffer == st.buffer && Receive(st, text).failed == st.failed
    ensures Receive(st, text).(buffer := st.buffer) == Receive(st, text)
  {
  }

  lemma ReceiveTwice(st: Stream, a: string, b: string)
    ensures Receive(Receive(st, a), b) == Receive(st, a + b)
  {
    assert st.fullText + a + b == st.fullText + (a + b);
    assert st.pending + a + b == st.pending + (a + b);
    assert "" + b == b && a + "" == a;
  }
}
