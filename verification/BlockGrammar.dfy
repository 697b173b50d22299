/**
 * The grammar of markdown blocks, written out line by line without reference to the parser, and the parser's exact
 * relation to it: its output is the one partition of the lines that the grammar allows.
 */
module BlockGrammar {
  import opened Text
  import opened Markdown
  import opened MarkdownRoundTrip
  import Dom

  // ---------------------------------------------------------------------------
  // The forms of lines
  // ---------------------------------------------------------------------------

  /** White space, one of `-`, `*` and `+`, one white space character, the item. */
  predicate BulletWritten(line: string, ws: string, m: char, sp: char, item: string) {
    White(ws) && (m == '-' || m == '*' || m == '+') && IsSpace(sp) && line == ws + [m, sp] + item
  }

  ghost predicate BulletForm(line: string, item: string) {
    exists ws, m, sp :: BulletWritten(line, ws, m, sp, item)
  }

  /** White space, digits, a dot, one white space character, the item. */
  predicate OrderedWritten(line: string, ws: string, ds: string, sp: char, item: string) {
    White(ws) && ds != "" && AllDigits(ds) && IsSpace(sp) && line == ws + ds + ['.', sp] + item
  }

  ghost predicate OrderedForm(line: string, item: string) {
    exists ws, ds, sp :: OrderedWritten(line, ws, ds, sp, item)
  }

  /** A line of a quote: `>`, at most one white space character, which is taken when there is one, and the content. */
  predicate QuoteForm(line: string, content: string) {
    && line != "" && line[0] == '>'
    && if |line| > 1 && IsSpace(line[1]) then line[2..] == content else line[1..] == content
  }

  /** A quote begins with `>` and a blank. */
  predicate QuoteOpens(line: string) {
    |line| >= 2 && line[0] == '>' && line[1] == ' '
  }

  /** Three or more `-`, or `*`, or `_`, between white space. */
  predicate RuleWritten(line: string, before: string, m: char, n: nat, after: string) {
    Between(line, before, Dom.Repeat(m, n), after) && n >= 3 && (m == '-' || m == '*' || m == '_')
  }

  ghost predicate RuleForm(line: string) {
    exists before, m, n, after :: RuleWritten(line, before, m, n, after)
  }

  /** White space, three backticks, and the language between white space. */
  predicate FenceWritten(line: string, ws: string, rest: string) {
    White(ws) && line == ws + "```" + rest
  }

  ghost predicate FenceForm(line: string, language: string) {
    exists ws, rest :: FenceWritten(line, ws, rest) && language == Trim(rest)
  }

  ghost predicate FenceLine(line: string) {
    exists ws, rest :: FenceWritten(line, ws, rest)
  }

  /**
   * `level` hashes, white space up to `p`, and content from `p` to `q`, where the line or its first line terminator after
   * `p` ends it.
   */
  predicate HeadingSplit(line: string, level: int, p: int, q: int) {
    && 1 <= level <= 6 && level < p < q <= |line|
    && (forall n :: 0 <= n < level ==> line[n] == '#')
    && (forall n :: level <= n < p ==> IsSpace(line[n]))
    && (forall n :: p <= n < q ==> !IsLineTerminator(line[n]))
    && (q < |line| ==> IsLineTerminator(line[q]))
  }

  ghost predicate LongestWhite(line: string, p: int) {
    forall l: int, p': int, q': int :: HeadingSplit(line, l, p', q') ==> p' <= p
  }

  /** A heading is split so that the white space is as long as it can be. */
  ghost predicate HeadingForm(line: string, level: nat, content: string) {
    exists p: int, q: int ::
      && HeadingSplit(line, level, p, q) && content == line[p..q]
      && LongestWhite(line, p)
  }

  ghost predicate HeadingLine(line: string) {
    exists level: int, p: int, q: int :: HeadingSplit(line, level, p, q)
  }

  /** None of the other forms. */
  ghost predicate PlainForm(line: string) {
    && !White(line) && !FenceLine(line) && !HeadingLine(line) && !RuleForm(line) && !QuoteOpens(line)
    && (forall item :: !BulletForm(line, item)) && (forall item :: !OrderedForm(line, item))
  }

  // ---------------------------------------------------------------------------
  // The line patterns accept exactly their forms
  // ---------------------------------------------------------------------------

  lemma BlankExact(line: string)
    ensures IsBlank(line) <==> White(line)
  {
    hide Trim;
    TrimFacts(line);
  }

  lemma {:induction false} SkipSpacesAre(line: string, i: nat, w: nat)
    requires i <= w <= |line|
    requires forall n :: i <= n < w ==> IsSpace(line[n])
    requires w < |line| ==> !IsSpace(line[w])
    ensures SkipSpaces(line, i) == w
    decreases w - i
  {
    hide IsSpace;
    if i < w {
      SkipSpacesAre(line, i + 1, w);
    }
  }

  /** White space in front of something visible. */
  lemma AfterWhite(ws: string, rest: string)
    requires White(ws) && rest != "" && !IsSpace(rest[0])
    ensures SkipSpaces(ws + rest, 0) == |ws| && (ws + rest)[|ws|..] == rest
  {
    hide IsSpace;
    var line := ws + rest;
    assert line[|ws|] == rest[0];
    forall n | 0 <= n < |ws|
      ensures IsSpace(line[n])
    {
      assert line[n] == ws[n] && ws[n] in ws;
    }
    SkipSpacesAre(line, 0, |ws|);
  }

  lemma LeadingWhite(line: string)
    ensures var w := SkipSpaces(line, 0); White(line[..w]) && (w < |line| ==> !IsSpace(line[w])) && line == line[..w] + line[w..]
  {
    hide IsSpace, SkipSpaces;
    SkipSpacesFacts(line, 0);
    WhiteSlice(line, SkipSpaces(line, 0));
  }

  lemma WhiteSlice(line: string, w: nat)
    requires w <= |line| && forall n :: 0 <= n < w ==> IsSpace(line[n])
    ensures White(line[..w]) && line == line[..w] + line[w..]
  {
    hide IsSpace;
    forall c | c in line[..w]
      ensures IsSpace(c)
    {
      var n :| 0 <= n < w && line[..w][n] == c;
      assert line[n] == c;
    }
  }

  lemma BulletExact(line: string, item: string)
    ensures BulletForm(line, item) <==> IsBullet(line) && BulletRest(line) == item
  {
    if ws, m, sp :| BulletWritten(line, ws, m, sp, item) {
      ConcatAssociates(ws, [m, sp], item);
      AfterWhite(ws, [m, sp] + item);
      assert line[|ws|..] == [m, sp] + item;
      assert line[|ws|] == m && line[|ws| + 1] == sp && line[|ws| + 2..] == item;
    }
    if IsBullet(line) && BulletRest(line) == item {
      LeadingWhite(line);
      var w := SkipSpaces(line, 0);
      assert line == line[..w] + [line[w], line[w + 1]] + line[w + 2..];
      assert BulletWritten(line, line[..w], line[w], line[w + 1], item);
    }
  }

  lemma DigitsAre(line: string, w: nat, e: nat)
    requires w <= e <= |line| && AllDigits(line[w..e]) && (e < |line| ==> !IsDigit(line[e]))
    ensures SkipDigits(line, w) == e
  {
    forall n | w <= n < e
      ensures IsDigit(line[n])
    {
      assert line[n] == line[w..e][n - w];
    }
    SkipDigitsAre(line, w, e);
  }

  lemma {:induction false} SkippedDigits(line: string, i: nat)
    requires i <= |line|
    ensures forall n :: i <= n < SkipDigits(line, i) ==> IsDigit(line[n])
    decreases |line| - i
  {
    if i < |line| && IsDigit(line[i]) {
      SkippedDigits(line, i + 1);
    }
  }

  lemma DigitsBetween(line: string, w: nat)
    requires w <= |line|
    ensures AllDigits(line[w..SkipDigits(line, w)])
  {
    hide SkipDigits;
    SkippedDigits(line, w);
  }

  lemma OrderedExact(line: string, item: string)
    ensures OrderedForm(line, item) <==> IsOrdered(line) && OrderedRest(line) == item
  {
    if ws, ds, sp :| OrderedWritten(line, ws, ds, sp, item) {
      OrderedIsRead(line, ws, ds, sp, item);
    }
    if IsOrdered(line) && OrderedRest(line) == item {
      OrderedIsWritten(line);
    }
  }

  lemma OrderedIsRead(line: string, ws: string, ds: string, sp: char, item: string)
    requires OrderedWritten(line, ws, ds, sp, item)
    ensures IsOrdered(line) && OrderedRest(line) == item
  {
    var tail := ['.', sp] + item;
    ConcatAssociates(ws + ds, ['.', sp], item);
    ConcatAssociates(ws, ds, tail);
    assert ds[0] in ds && (ds + tail)[0] == ds[0];
    AfterWhite(ws, ds + tail);
    var w, e := |ws|, |ws| + |ds|;
    assert line[w..e] == ds && line[e] == '.' && line[e + 1] == sp && line[e + 2..] == item;
    DigitsAre(line, w, e);
  }

  lemma OrderedIsWritten(line: string)
    requires IsOrdered(line)
    ensures OrderedForm(line, OrderedRest(line))
  {
    LeadingWhite(line);
    var w := SkipSpaces(line, 0);
    var e := SkipDigits(line, w);
    hide SkipDigits, SkipSpaces;
    DigitsBetween(line, w);
    FourParts(line, w, e);
    assert OrderedWritten(line, line[..w], line[w..e], line[e + 1], OrderedRest(line));
  }

  lemma FourParts(line: string, w: nat, e: nat)
    requires w <= e && e + 1 < |line|
    ensures line == line[..w] + line[w..e] + [line[e], line[e + 1]] + line[e + 2..]
  {
  }

  lemma StartsWithExact(line: string, prefix: string)
    ensures StartsWith(line, prefix) <==> exists rest :: line == prefix + rest
  {
    if StartsWith(line, prefix) {
      assert line == prefix + line[|prefix|..];
    }
  }

  lemma QuoteExact(line: string, content: string)
    ensures QuoteForm(line, content) <==> InQuote(line) && QuoteRest(line) == content
    ensures QuoteOpens(line) <==> OpensQuote(line)
  {
    InQuoteIsStartsWith(line);
    if line != "" {
      assert line[..1] == [line[0]];
    }
    if |line| >= 2 {
      assert line[..2] == [line[0], line[1]];
    }
    assert "> " == ['>', ' '];
  }

  lemma RuleExact(line: string)
    ensures RuleForm(line) <==> IsRule(line)
  {
    hide Trim;
    if before, m, n, after :| RuleWritten(line, before, m, n, after) {
      TrimExact(line, Dom.Repeat(m, n));
    }
    if IsRule(line) {
      TrimExact(line, Trim(line));
      var t := Trim(line);
      assert t == Dom.Repeat(t[0], |t|);
      var before, after :| Between(line, before, t, after);
      assert RuleWritten(line, before, t[0], |t|, after);
    }
  }

  /** A fence line, trimmed, is the fence and what follows it, trimmed at its end. */
  lemma FenceIsRead(line: string, ws: string, rest: string)
    requires FenceWritten(line, ws, rest)
    ensures IsFence(line) && |Trim(line)| >= 3 && Trim(Trim(line)[3..]) == Trim(rest)
  {
    hide Trim, Trimmed, Between, FenceWritten;
    var before, after := RestParts(rest);
    var t := Trim(rest);
    TrimFacts(rest);
    FenceWhole(line, ws, rest, before, t, after);
    if t == "" {
      TrimExact(line, "```");
      EmptyLanguage();
    } else {
      var inner := before + t;
      TrimExact(line, "```" + inner);
      assert ("```" + inner)[..3] == "```" && ("```" + inner)[3..] == inner;
      InnerBetween(before, t, rest, after);
      TrimExact(inner, t);
    }
  }

  lemma EmptyLanguage()
    ensures StartsWith("```", "```") && "```"[3..] == "" && Trim("") == ""
  {
    assert "```"[3..] == "" && "```"[..3] == "```";
  }

  lemma InnerBetween(before: string, t: string, rest: string, after: string)
    requires Between(rest, before, t, after)
    ensures Between(before + t, before, t, "")
  {
    assert before + t + "" == before + t;
  }

  lemma RestParts(rest: string) returns (before: string, after: string)
    ensures Between(rest, before, Trim(rest), after)
  {
    hide Trim;
    TrimExact(rest, Trim(rest));
    before, after :| Between(rest, before, Trim(rest), after);
  }

  lemma FenceWhole(line: string, ws: string, rest: string, before: string, t: string, after: string)
    requires FenceWritten(line, ws, rest) && Between(rest, before, t, after) && Trimmed(t)
    ensures t == "" ==> Trimmed("```") && Between(line, ws, "```", rest)
    ensures t != "" ==> Trimmed("```" + (before + t)) && Between(line, ws, "```" + (before + t), after)
  {
    if t == "" {
      assert before + t == before;
      WhiteParts(before, after);
    } else {
      var inner := "```" + (before + t);
      assert inner[|inner| - 1] == t[|t| - 1] && inner[0] == '`';
      assert line == ws + inner + after;
    }
  }

  lemma FenceExact(line: string, language: string)
    ensures FenceLine(line) <==> IsFence(line)
    ensures FenceForm(line, language) <==> IsFence(line) && |Trim(line)| >= 3 && language == Trim(Trim(line)[3..])
  {
    hide Trim;
    forall ws, rest | FenceWritten(line, ws, rest)
      ensures IsFence(line) && |Trim(line)| >= 3 && Trim(Trim(line)[3..]) == Trim(rest)
    {
      FenceIsRead(line, ws, rest);
    }
    if IsFence(line) {
      var ws, rest := FenceIsWritten(line);
      FenceIsRead(line, ws, rest);
    }
  }

  lemma FenceIsWritten(line: string) returns (ws: string, rest: string)
    requires IsFence(line)
    ensures FenceWritten(line, ws, rest)
  {
    hide Trim;
    var after;
    ws, after := RestParts(line);
    var t := Trim(line);
    assert t == "```" + t[3..];
    rest := t[3..] + after;
    assert line == ws + "```" + rest;
  }

  lemma HeadingIsRead(line: string, level: int, p: int, q: int)
    requires HeadingSplit(line, level, p, q)
    ensures SkipHashes(line, 0) == level
    ensures MatchHeading(line).SomeHeading? && MatchHeading(line).level == level
    ensures var w := SkipSpaces(line, level); p <= w && (w == |line| ==> p <= LastDot(line, level + 1, w))
  {
    hide LastDot;
    assert IsSpace(line[level]);
    SkipHashesAre(line, 0, level);
    SkipSpacesFacts(line, level);
    var w := SkipSpaces(line, level);
    if w == |line| {
      assert !IsLineTerminator(line[p]);
      LastDotFacts(line, level + 1, w);
    }
  }

  /** Where the heading pattern splits a line. */
  lemma HeadingIsSplit(line: string) returns (p: int, q: int)
    requires MatchHeading(line).SomeHeading?
    ensures HeadingSplit(line, MatchHeading(line).level, p, q) && MatchHeading(line).content == line[p..q]
    ensures LongestWhite(line, p)
  {
    hide LastDot, SkipHashes;
    var h := SkipHashes(line, 0);
    var w := SkipSpaces(line, h);
    HashesBefore(line, 0);
    SkipSpacesFacts(line, h);
    if w < |line| {
      p := w;
    } else {
      LastDotFacts(line, h + 1, w);
      p := LastDot(line, h + 1, w);
    }
    DotRunFacts(line, p);
    q := DotRun(line, p);
    forall l: int, p': int, q': int | HeadingSplit(line, l, p', q')
      ensures p' <= p
    {
      HeadingIsRead(line, l, p', q');
    }
  }

  lemma {:induction false} HashesBefore(line: string, i: nat)
    requires i <= |line|
    ensures forall n :: i <= n < SkipHashes(line, i) ==> line[n] == '#'
    decreases |line| - i
  {
    if i < |line| && line[i] == '#' {
      HashesBefore(line, i + 1);
    }
  }

  lemma HeadingExact(line: string, level: nat, content: string)
    ensures HeadingForm(line, level, content) <==> MatchHeading(line) == SomeHeading(level, content)
    ensures HeadingLine(line) <==> MatchHeading(line).SomeHeading?
  {
    hide MatchHeading, HeadingSplit, SkipHashes;
    if l: int, p: int, q: int :| HeadingSplit(line, l, p, q) {
      HeadingIsRead(line, l, p, q);
    }
    if MatchHeading(line).SomeHeading? {
      var p, q := HeadingIsSplit(line);
      if HeadingForm(line, level, content) {
        HeadingIsUnique(line, level, content, MatchHeading(line).level, p, q);
      }
    }
  }

  lemma HeadingIsUnique(line: string, level: nat, content: string, k: int, p: int, q: int)
    requires HeadingForm(line, level, content) && HeadingSplit(line, k, p, q) && LongestWhite(line, p)
    ensures level == k && content == line[p..q]
  {
    hide LongestWhite;
    var p': int, q': int :| HeadingSplit(line, level, p', q') && content == line[p'..q'] && LongestWhite(line, p');
    LongestOf(line, p, level, p', q');
    LongestOf(line, p', k, p, q);
    HeadingIsRead(line, level, p', q');
    HeadingIsRead(line, k, p, q);
    SameEnd(line, k, p, q, level, p', q');
  }

  lemma LongestOf(line: string, p: int, l: int, p': int, q': int)
    requires LongestWhite(line, p) && HeadingSplit(line, l, p', q')
    ensures p' <= p
  {
  }

  lemma SameEnd(line: string, k: int, p: int, q: int, l: int, p': int, q': int)
    requires HeadingSplit(line, k, p, q) && HeadingSplit(line, l, p', q') && p <= p' && p' <= p
    ensures p == p' && q == q'
  {
  }

  lemma PlainExact(line: string)
    ensures PlainForm(line) <==> IsPlainLine(line)
  {
    hide IsBlank, IsFence, MatchHeading, IsRule, IsBullet, IsOrdered, OpensQuote, BulletRest, OrderedRest, Trim, White;
    hide BulletForm, OrderedForm, FenceLine, HeadingLine, RuleForm, QuoteOpens, FenceForm, HeadingForm, QuoteForm;
    BlankExact(line);
    FenceExact(line, "");
    HeadingExact(line, 0, "");
    RuleExact(line);
    QuoteExact(line, "");
    BulletExact(line, BulletRest(line));
    OrderedExact(line, OrderedRest(line));
    forall item
      ensures BulletForm(line, item) <==> IsBullet(line) && BulletRest(line) == item
      ensures OrderedForm(line, item) <==> IsOrdered(line) && OrderedRest(line) == item
    {
      BulletExact(line, item);
      OrderedExact(line, item);
    }
  }

  // ---------------------------------------------------------------------------
  // No line has two forms
  // ---------------------------------------------------------------------------

  lemma {:induction false} TrimStartIs(line: string, i: nat)
    requires i <= |line|
    ensures TrimStart(line[i..]) == line[SkipSpaces(line, i)..]
    decreases |line| - i
  {
    hide IsSpace;
    if i < |line| && IsSpace(line[i]) {
      assert line[i..][0] == line[i] && line[i..][1..] == line[i + 1..];
      TrimStartIs(line, i + 1);
    } else if i < |line| {
      assert line[i..][0] == line[i];
    }
  }

  /** The first visible character of a line, and those after it up to the trailing white space. */
  lemma FirstVisible(line: string)
    ensures var w, t := SkipSpaces(line, 0), Trim(line); |t| <= |line| - w && forall n :: 0 <= n < |t| ==> t[n] == line[w + n]
  {
    TrimStartIs(line, 0);
    assert line[0..] == line;
    var rest := line[SkipSpaces(line, 0)..];
    TrimStartFacts(line);
    TrimEndFacts(rest);
    hide TrimStart, TrimEnd, SkipSpaces, IsSpace;
    assert TrimEnd(rest) == rest[..|TrimEnd(rest)|];
  }

  /** What the first visible character of each form is. */
  lemma FirstCharacters(line: string)
    ensures var w := SkipSpaces(line, 0);
            && (IsFence(line) ==> w < |line| && line[w] == '`')
            && (MatchHeading(line).SomeHeading? ==> w < |line| && line[w] == '#')
            && (IsRule(line) ==> w + 1 < |line| && line[w] in "-*_" && line[w + 1] == line[w])
            && (IsBullet(line) ==> w + 1 < |line| && line[w] in "-*+" && IsSpace(line[w + 1]))
            && (IsOrdered(line) ==> w < |line| && IsDigit(line[w]))
            && (OpensQuote(line) ==> w < |line| && line[w] == '>')
  {
    hide IsFence, IsRule, OpensQuote, MatchHeading, SkipSpaces, SkipDigits;
    TrimmedFirst(line);
    HeadingFirst(line);
    QuoteFirst(line);
    OrderedFirst(line);
  }

  lemma TrimmedFirst(line: string)
    ensures var w := SkipSpaces(line, 0);
            && (IsFence(line) ==> w < |line| && line[w] == '`')
            && (IsRule(line) ==> w + 1 < |line| && line[w] in "-*_" && line[w + 1] == line[w])
  {
    hide Trim, SkipSpaces, IsFence, IsRule;
    FirstVisible(line);
    FenceTrimmed(line);
    RuleTrimmed(line);
  }

  lemma FenceTrimmed(line: string)
    ensures IsFence(line) ==> |Trim(line)| >= 3 && Trim(line)[0] == '`'
  {
    hide Trim;
    if IsFence(line) {
      assert Trim(line)[..3][0] == '`';
    }
  }

  lemma RuleTrimmed(line: string)
    ensures IsRule(line) ==> |Trim(line)| >= 3 && Trim(line)[0] in "-*_" && Trim(line)[1] == Trim(line)[0]
  {
    hide Trim;
  }

  lemma HeadingFirst(line: string)
    ensures MatchHeading(line).SomeHeading? ==> SkipSpaces(line, 0) < |line| && line[SkipSpaces(line, 0)] == '#'
  {
    hide LastDot, DotRun;
    HashesBefore(line, 0);
  }

  lemma OrderedFirst(line: string)
    ensures IsOrdered(line) ==> SkipSpaces(line, 0) < |line| && IsDigit(line[SkipSpaces(line, 0)])
  {
    hide SkipSpaces;
  }

  lemma QuoteFirst(line: string)
    ensures OpensQuote(line) ==> SkipSpaces(line, 0) < |line| && line[SkipSpaces(line, 0)] == '>'
  {
    if OpensQuote(line) {
      assert line[..2][0] == '>';
    }
  }

  lemma KindsExclude(line: string)
    ensures IsFence(line) ==>
              MatchHeading(line).NoHeading? && !IsRule(line) && !IsBullet(line) && !IsOrdered(line) && !OpensQuote(line)
    ensures MatchHeading(line).SomeHeading? ==>
              !IsRule(line) && !IsBullet(line) && !IsOrdered(line) && !OpensQuote(line)
    ensures IsRule(line) ==> !IsBullet(line) && !IsOrdered(line) && !OpensQuote(line)
    ensures IsBullet(line) ==> !IsOrdered(line) && !OpensQuote(line)
    ensures IsOrdered(line) ==> !OpensQuote(line)
  {
    hide IsFence, MatchHeading, IsRule, IsBullet, IsOrdered, OpensQuote, SkipSpaces;
    FirstCharacters(line);
  }

  // ---------------------------------------------------------------------------
  // The forms of blocks
  // ---------------------------------------------------------------------------

  ghost predicate BulletFormed(line: string) {
    exists item :: BulletForm(line, item)
  }

  ghost predicate OrderedFormed(line: string) {
    exists item :: OrderedForm(line, item)
  }

  predicate QuotedLine(line: string) {
    line != "" && line[0] == '>'
  }

  ghost predicate QuoteParts(lines: seq<string>, parts: seq<string>) {
    |parts| == |lines| && forall k :: 0 <= k < |lines| ==> QuoteForm(lines[k], parts[k])
  }

  /** The lines after the opening fence, up to the closing one at the end if there is one. */
  ghost function FenceBody(lines: seq<string>): seq<string>
    requires lines != []
  {
    lines[1..if |lines| > 1 && FenceLine(lines[|lines| - 1]) then |lines| - 1 else |lines|]
  }

  /** The last line closes the fence, or the text ends; no line in between is a fence. */
  ghost predicate FenceEnded(lines: seq<string>, tail: seq<string>)
    requires lines != []
  {
    && ((|lines| > 1 && FenceLine(lines[|lines| - 1])) || tail == [])
    && forall k :: 0 <= k < |FenceBody(lines)| ==> !FenceLine(FenceBody(lines)[k])
  }

  /**
   * What a block says about its source lines, followed by `tail`. Runs are as long as they can be, fenced lines are
   * kept verbatim, and a fence is open only at the end of the text.
   */
  ghost predicate Denotes(b: Block, lines: seq<string>, tail: seq<string>) {
    && lines != [] && !White(lines[0])
    && match b
       case Paragraph(content) => lines == [content] && PlainForm(content)
       case Heading(level, content) => |lines| == 1 && HeadingForm(lines[0], level, content)
       case HorizontalRule => |lines| == 1 && RuleForm(lines[0])
       case BulletList(items) =>
         && |items| == |lines| && (forall k :: 0 <= k < |lines| ==> BulletForm(lines[k], items[k]))
         && (tail != [] ==> !BulletFormed(tail[0]))
       case OrderedList(items) =>
         && |items| == |lines| && (forall k :: 0 <= k < |lines| ==> OrderedForm(lines[k], items[k]))
         && (tail != [] ==> !OrderedFormed(tail[0]))
       case Blockquote(content) =>
         && QuoteOpens(lines[0]) && (exists parts :: QuoteParts(lines, parts) && content == Join(parts, "\n"))
         && (tail != [] ==> !QuotedLine(tail[0]))
       case CodeBlock(language, content) =>
         FenceForm(lines[0], language) && content == Join(FenceBody(lines), "\n") && FenceEnded(lines, tail)
  }

  lemma ItemFormsExact(line: string)
    ensures BulletFormed(line) <==> IsBullet(line)
    ensures OrderedFormed(line) <==> IsOrdered(line)
  {
    hide IsBullet, IsOrdered, BulletForm, OrderedForm, BulletRest, OrderedRest;
    if IsBullet(line) {
      BulletExact(line, BulletRest(line));
    }
    if IsOrdered(line) {
      OrderedExact(line, OrderedRest(line));
    }
    if item :| BulletForm(line, item) {
      BulletExact(line, item);
    }
    if item :| OrderedForm(line, item) {
      OrderedExact(line, item);
    }
  }

  lemma QuotedLineExact(line: string)
    ensures QuotedLine(line) <==> InQuote(line)
  {
    InQuoteIsStartsWith(line);
    if line != "" {
      assert line[..1] == [line[0]];
    }
  }

  lemma BulletsExact(items: seq<string>, lines: seq<string>, tail: seq<string>)
    requires lines != []
    ensures (|items| == |lines| && (forall k :: 0 <= k < |lines| ==> BulletForm(lines[k], items[k]))
             && (tail != [] ==> !BulletFormed(tail[0]))) <==>
            IsBullet(lines[0]) && RunOf(lines + tail, 0, IsBullet) == |lines| && items == MapLines(lines, BulletRest)
  {
    hide IsBullet, BulletForm, BulletFormed, BulletRest;
    forall k | 0 <= k < |lines|
      ensures forall item :: BulletForm(lines[k], item) <==> IsBullet(lines[k]) && BulletRest(lines[k]) == item
    {
      forall item { BulletExact(lines[k], item); }
    }
    if tail != [] {
      ItemFormsExact(tail[0]);
    }
    RunSplits(lines, tail, IsBullet);
  }

  lemma OrderedItemsExact(items: seq<string>, lines: seq<string>, tail: seq<string>)
    requires lines != []
    ensures (|items| == |lines| && (forall k :: 0 <= k < |lines| ==> OrderedForm(lines[k], items[k]))
             && (tail != [] ==> !OrderedFormed(tail[0]))) <==>
            IsOrdered(lines[0]) && RunOf(lines + tail, 0, IsOrdered) == |lines| && items == MapLines(lines, OrderedRest)
  {
    hide IsOrdered, OrderedForm, OrderedFormed, OrderedRest;
    forall k | 0 <= k < |lines|
      ensures forall item :: OrderedForm(lines[k], item) <==> IsOrdered(lines[k]) && OrderedRest(lines[k]) == item
    {
      forall item { OrderedExact(lines[k], item); }
    }
    if tail != [] {
      ItemFormsExact(tail[0]);
    }
    RunSplits(lines, tail, IsOrdered);
  }

  lemma QuotesExact(content: string, lines: seq<string>, tail: seq<string>)
    requires lines != []
    ensures (QuoteOpens(lines[0]) && (exists parts :: QuoteParts(lines, parts) && content == Join(parts, "\n"))
             && (tail != [] ==> !QuotedLine(tail[0]))) <==>
            OpensQuote(lines[0]) && RunOf(lines + tail, 0, InQuote) == |lines| && content == Join(MapLines(lines, QuoteRest), "\n")
  {
    hide OpensQuote, InQuote, QuoteForm, QuoteOpens, QuotedLine, QuoteRest, Join;
    QuoteExact(lines[0], "");
    var rests := MapLines(lines, QuoteRest);
    forall k | 0 <= k < |lines|
      ensures forall item :: QuoteForm(lines[k], item) <==> InQuote(lines[k]) && QuoteRest(lines[k]) == item
    {
      forall item { QuoteExact(lines[k], item); }
    }
    if tail != [] {
      QuotedLineExact(tail[0]);
    }
    RunSplits(lines, tail, InQuote);
    forall parts | QuoteParts(lines, parts)
      ensures parts == rests
    {
    }
    if forall k :: 0 <= k < |lines| ==> InQuote(lines[k]) {
      assert QuoteParts(lines, rests);
    }
  }

  /** A run ends where the lines do exactly when they all satisfy `p` and the tail does not go on. */
  lemma RunSplits(lines: seq<string>, tail: seq<string>, p: string -> bool)
    ensures RunOf(lines + tail, 0, p) == |lines| <==>
            (forall k :: 0 <= k < |lines| ==> p(lines[k])) && (tail != [] ==> !p(tail[0]))
  {
    hide RunOf;
    var all := lines + tail;
    var n := RunOf(all, 0, p);
    if n == |lines| {
      assert forall k :: 0 <= k < |lines| ==> all[k] == lines[k];
      assert tail != [] ==> all[n] == tail[0];
    }
    if (forall k :: 0 <= k < |lines| ==> p(lines[k])) && (tail != [] ==> !p(tail[0])) {
      RunIs(all, 0, p, |lines|);
    }
  }

  lemma CodeExact(language: string, content: string, lines: seq<string>, tail: seq<string>)
    requires lines != []
    ensures Denotes(CodeBlock(language, content), lines, tail) <==>
            IsFence(lines[0]) && FencedBlock(lines + tail) == Parsed(CodeBlock(language, content), |lines|)
  {
    hide IsFence, FenceForm, FenceLine, Trim, White, Join, RunOf, Closes, BodyOf;
    assert (lines + tail)[0] == lines[0];
    FenceExact(lines[0], language);
    ClosesExact(lines, tail);
    DenotesCode(language, content, lines, tail);
    if IsFence(lines[0]) {
      FenceIsVisible(lines[0]);
      FenceLanguage(lines[0]);
    }
  }

  /** The lines between the fences. */
  function BodyOf(lines: seq<string>): seq<string>
    requires lines != []
  {
    lines[1..if |lines| > 1 && IsFence(lines[|lines| - 1]) then |lines| - 1 else |lines|]
  }

  ghost predicate Closes(lines: seq<string>, tail: seq<string>)
    requires lines != []
  {
    && ((|lines| > 1 && IsFence(lines[|lines| - 1])) || tail == [])
    && forall k :: 0 <= k < |BodyOf(lines)| ==> !IsFence(BodyOf(lines)[k])
  }

  lemma DenotesCode(language: string, content: string, lines: seq<string>, tail: seq<string>)
    requires lines != []
    ensures Denotes(CodeBlock(language, content), lines, tail) <==>
            !White(lines[0]) && FenceForm(lines[0], language) && content == Join(BodyOf(lines), "\n") && Closes(lines, tail)
  {
    hide IsFence, FenceForm, FenceLine, White, Join;
    FenceLineExact(lines[|lines| - 1]);
    assert FenceBody(lines) == BodyOf(lines);
    forall k | 0 <= k < |BodyOf(lines)|
      ensures FenceLine(FenceBody(lines)[k]) <==> IsFence(BodyOf(lines)[k])
    {
      FenceLineExact(BodyOf(lines)[k]);
    }
    hide FenceBody, BodyOf;
    assert FenceEnded(lines, tail) <==> Closes(lines, tail);
  }

  lemma FenceLineExact(line: string)
    ensures FenceLine(line) <==> IsFence(line)
  {
    hide *;
    FenceExact(line, "");
  }

  lemma FenceIsVisible(line: string)
    requires IsFence(line)
    ensures !White(line)
  {
    BlankExact(line);
  }

  /** Where a fence closes, in the lines of the block and in the lines of the text. */
  lemma ClosesExact(lines: seq<string>, tail: seq<string>)
    requires lines != []
    ensures var all, n := lines + tail, RunOf(lines + tail, 1, NotFence);
            && (Closes(lines, tail) <==> (if n < |all| then n + 1 else n) == |lines|)
            && (Closes(lines, tail) ==> all[1..n] == BodyOf(lines))
  {
    hide RunOf, Closes, BodyOf;
    var n := RunOf(lines + tail, 1, NotFence);
    if Closes(lines, tail) {
      ClosesRun(lines, tail);
    }
    if (if n < |lines + tail| then n + 1 else n) == |lines| {
      RunCloses(lines, tail, n);
    }
  }

  lemma ClosesRun(lines: seq<string>, tail: seq<string>)
    requires lines != [] && Closes(lines, tail)
    ensures var all, n := lines + tail, RunOf(lines + tail, 1, NotFence);
            (if n < |all| then n + 1 else n) == |lines| && all[1..n] == BodyOf(lines)
  {
    hide IsFence, RunOf;
    var all, body := lines + tail, BodyOf(lines);
    var m := 1 + |body|;
    forall k | 1 <= k < m
      ensures NotFence(all[k])
    {
      assert body[k - 1] == lines[k] == all[k];
    }
    assert m < |all| ==> all[m] == lines[m];
    RunIs(all, 1, NotFence, m);
    assert all[1..m] == body;
  }

  lemma RunCloses(lines: seq<string>, tail: seq<string>, n: nat)
    requires lines != [] && n == RunOf(lines + tail, 1, NotFence)
    requires (if n < |lines + tail| then n + 1 else n) == |lines|
    ensures Closes(lines, tail) && (lines + tail)[1..n] == BodyOf(lines)
  {
    hide IsFence, RunOf;
    var all := lines + tail;
    assert forall k :: 0 <= k < |lines| ==> all[k] == lines[k];
    if n < |all| {
      assert lines[|lines| - 1] == all[n] && !NotFence(all[n]);
    } else {
      assert tail == [] && all == lines;
      assert |lines| > 1 ==> NotFence(all[|lines| - 1]);
    }
    assert all[1..n] == BodyOf(lines);
    forall k | 0 <= k < |BodyOf(lines)|
      ensures NotFence(BodyOf(lines)[k])
    {
      assert BodyOf(lines)[k] == all[k + 1];
    }
  }

  lemma FencedIsCode(lines: seq<string>)
    requires lines != []
    ensures FencedBlock(lines).block.CodeBlock?
  {
  }

  /**
   * One block, exactly: it is what the parser reads from the first line on, and takes these lines, if and only if it has
   * the form that denotes them before this tail.
   */
  lemma NextBlockExact(b: Block, lines: seq<string>, tail: seq<string>)
    requires lines != [] && !White(lines[0])
    ensures Denotes(b, lines, tail) <==> NextBlock(lines + tail) == Parsed(b, |lines|)
  {
    hide IsFence, MatchHeading, IsRule, IsBullet, IsOrdered, OpensQuote, InQuote, BulletRest, OrderedRest, QuoteRest, White;
    hide FencedBlock, BulletForm, OrderedForm, BulletFormed, OrderedFormed, QuoteOpens, QuotedLine, QuoteParts, RuleForm, PlainForm;
    hide HeadingForm, FenceForm, FenceLine, Join, RunOf, MapLines;
    var line := lines[0];
    assert (lines + tail)[0] == line && (lines + tail)[..|lines|] == lines;
    KindsExclude(line);
    FencedIsCode(lines + tail);
    match b
    case Paragraph(content) =>
      PlainExact(line);
      BlankExact(line);
    case Heading(level, content) => HeadingExact(line, level, content);
    case HorizontalRule => RuleExact(line);
    case BulletList(items) => BulletsExact(items, lines, tail);
    case OrderedList(items) => OrderedItemsExact(items, lines, tail);
    case Blockquote(content) => QuotesExact(content, lines, tail);
    case CodeBlock(language, content) => CodeExact(language, content, lines, tail);
  }

  // ---------------------------------------------------------------------------
  // The partition of the lines
  // ---------------------------------------------------------------------------

  /** A piece of the input: a skipped blank line, or the source lines of one block. */
  datatype Piece = Blank(line: string) | Source(block: Block, lines: seq<string>)

  function PieceLines(p: Piece): seq<string> {
    match p
    case Blank(line) => [line]
    case Source(_, lines) => lines
  }

  function AllLines(pieces: seq<Piece>): seq<string> {
    if pieces == [] then [] else PieceLines(pieces[0]) + AllLines(pieces[1..])
  }

  function AllBlocks(pieces: seq<Piece>): seq<Block> {
    if pieces == [] then []
    else (if pieces[0].Source? then [pieces[0].block] else []) + AllBlocks(pieces[1..])
  }

  /** A piece is a blank line, or the lines that its block denotes when `tail` follows. */
  ghost predicate FaithfulPiece(p: Piece, tail: seq<string>) {
    match p
    case Blank(line) => White(line)
    case Source(block, lines) => Denotes(block, lines, tail)
  }

  ghost predicate Faithful(pieces: seq<Piece>) {
    forall k :: 0 <= k < |pieces| ==> FaithfulPiece(pieces[k], AllLines(pieces[k + 1..]))
  }

  function Pieces(lines: seq<string>): seq<Piece>
    decreases |lines|
  {
    if lines == [] then []
    else if IsBlank(lines[0]) then [Blank(lines[0])] + Pieces(lines[1..])
    else
      var r := NextBlock(lines);
      [Source(r.block, lines[..r.used])] + Pieces(lines[r.used..])
  }

  /**
   * Line partition: the source ranges of the blocks and the skipped blank lines, in order, are exactly the lines of the
   * text; they carry exactly the parsed blocks; and each block denotes its own range.
   */
  lemma {:induction false} LinePartition(lines: seq<string>)
    ensures AllLines(Pieces(lines)) == lines
    ensures AllBlocks(Pieces(lines)) == ParseLines(lines)
    ensures Faithful(Pieces(lines))
    decreases |lines|
  {
    hide IsBlank, NextBlock, Denotes, Faithful, White;
    if lines == [] {
      NothingIsFaithful();
    } else if IsBlank(lines[0]) {
      var rest := lines[1..];
      BlankExact(lines[0]);
      LinePartition(rest);
      FirstPiece(Blank(lines[0]), Pieces(rest));
      assert lines == [lines[0]] + rest;
      assert [] + AllBlocks(Pieces(rest)) == AllBlocks(Pieces(rest));
    } else {
      var r := NextBlock(lines);
      var rest := lines[r.used..];
      assert lines == lines[..r.used] + rest && lines[..r.used][0] == lines[0];
      BlankExact(lines[0]);
      NextBlockExact(r.block, lines[..r.used], rest);
      LinePartition(rest);
      FirstPiece(Source(r.block, lines[..r.used]), Pieces(rest));
    }
  }

  lemma NothingIsFaithful()
    ensures Faithful([])
  {
    hide Denotes, IsBlank;
  }

  /** One piece in front of others. */
  lemma FirstPiece(first: Piece, rest: seq<Piece>)
    ensures AllLines([first] + rest) == PieceLines(first) + AllLines(rest)
    ensures AllBlocks([first] + rest) == (if first.Source? then [first.block] else []) + AllBlocks(rest)
    ensures Faithful(rest) && FaithfulPiece(first, AllLines(rest)) ==> Faithful([first] + rest)
  {
    hide FaithfulPiece, PieceLines;
    var pieces := [first] + rest;
    assert pieces[1..] == rest;
    forall k | 0 < k < |pieces|
      ensures pieces[k] == rest[k - 1] && pieces[k + 1..] == rest[k..]
    {
    }
  }

  lemma SplitFirst(pieces: seq<Piece>)
    requires pieces != []
    ensures AllLines(pieces) == PieceLines(pieces[0]) + AllLines(pieces[1..])
    ensures AllBlocks(pieces) == (if pieces[0].Source? then [pieces[0].block] else []) + AllBlocks(pieces[1..])
    ensures Faithful(pieces) ==> FaithfulPiece(pieces[0], AllLines(pieces[1..])) && Faithful(pieces[1..])
  {
    hide FaithfulPiece, PieceLines;
    forall k | 0 <= k < |pieces| - 1
      ensures pieces[1..][k] == pieces[k + 1] && pieces[1..][k + 1..] == pieces[k + 1 + 1..]
    {
    }
  }

  /** The partition is the only one: what the grammar allows to be said about the lines is what the parser says. */
  lemma {:induction false} PartitionIsUnique(pieces: seq<Piece>)
    requires Faithful(pieces)
    ensures ParseLines(AllLines(pieces)) == AllBlocks(pieces)
    decreases |pieces|
  {
    hide IsBlank, NextBlock, Faithful, White, AllLines, AllBlocks;
    if pieces == [] {
      NoPieces();
    } else {
      SplitFirst(pieces);
      PartitionIsUnique(pieces[1..]);
      var tail := AllLines(pieces[1..]);
      match pieces[0]
      case Blank(line) =>
        BlankExact(line);
        assert ([line] + tail)[0] == line && ([line] + tail)[1..] == tail;
        assert [] + AllBlocks(pieces[1..]) == AllBlocks(pieces[1..]);
      case Source(block, lines) =>
        BlankExact(lines[0]);
        NextBlockExact(block, lines, tail);
        assert (lines + tail)[0] == lines[0] && (lines + tail)[|lines|..] == tail;
    }
  }

  lemma NoPieces()
    ensures AllLines([]) == [] && AllBlocks([]) == []
  {
  }

  ghost predicate Grammatical(text: string, blocks: seq<Block>) {
    exists pieces :: AllLines(pieces) == Split(text, '\n') && AllBlocks(pieces) == blocks && Faithful(pieces)
  }

  /**
   * The parser, exactly: it reads a text as a list of blocks if and only if the lines of the text can be cut, in order,
   * into blank lines and ranges that the blocks denote.
   */
  lemma ParserExact(text: string, blocks: seq<Block>)
    ensures ParseBlocks(text) == blocks <==> Grammatical(text, blocks)
  {
    hide Faithful, ParseLines, Split, AllLines, AllBlocks, Pieces;
    LinePartition(Split(text, '\n'));
    if pieces :| AllLines(pieces) == Split(text, '\n') && AllBlocks(pieces) == blocks && Faithful(pieces) {
      PartitionIsUnique(pieces);
    }
  }

  // ---------------------------------------------------------------------------
  // Texts of one line
  // ---------------------------------------------------------------------------

  /** A line on its own, exactly: it is read as one block if and only if it has the form of that block. */
  lemma SingleLineExact(line: string, b: Block)
    requires '\n' !in line && !White(line)
    ensures ParseBlocks(line) == [b] <==> Denotes(b, [line], [])
  {
    hide Denotes, White, Split, NextBlock;
    SplitWithout(line, '\n');
    BlankExact(line);
    NextBlockExact(b, [line], []);
    assert [line] + [] == [line];
    OneBlock(line);
    var r := NextBlock([line]);
    assert r == Parsed(r.block, r.used);
  }

  lemma OneBlock(line: string)
    requires !IsBlank(line)
    ensures NextBlock([line]).used == 1 && ParseLines([line]) == [NextBlock([line]).block]
  {
    hide NextBlock, IsBlank;
    assert [line][1..] == [];
    assert ParseLines([line]) == [NextBlock([line]).block] + ParseLines([]);
  }

  lemma Visible(ws: string, rest: string)
    requires rest != "" && !IsSpace(rest[0])
    ensures !White(ws + rest)
  {
    assert (ws + rest)[|ws|] == rest[0];
    assert rest[0] in ws + rest;
  }

  /** Every bullet, with every one of the three markers. */
  lemma BulletText(ws: string, m: char, item: string)
    requires White(ws) && (m == '-' || m == '*' || m == '+') && '\n' !in ws && '\n' !in item
    ensures ParseBlocks(ws + [m] + " " + item) == [BulletList([item])]
  {
    var line := ws + [m] + " " + item;
    assert line == ws + [m, ' '] + item && line == ws + ([m, ' '] + item);
    assert BulletWritten(line, ws, m, ' ', item);
    Visible(ws, [m, ' '] + item);
    SingleLineExact(line, BulletList([item]));
  }

  lemma OrderedText(ws: string, ds: string, item: string)
    requires White(ws) && ds != "" && AllDigits(ds) && '\n' !in ws && '\n' !in item
    ensures ParseBlocks(ws + ds + ". " + item) == [OrderedList([item])]
  {
    var line := ws + ds + ". " + item;
    assert ". " == ['.', ' '];
    assert OrderedWritten(line, ws, ds, ' ', item);
    assert line == ws + (ds + ". " + item);
    assert ds[0] in ds;
    Visible(ws, ds + ". " + item);
    SingleLineExact(line, OrderedList([item]));
  }

  lemma QuoteText(content: string)
    requires '\n' !in content
    ensures ParseBlocks("> " + content) == [Blockquote(content)]
  {
    var line := "> " + content;
    assert line[2..] == content && line[0] == '>';
    assert line[0] in line;
    assert QuoteParts([line], [content]);
    assert Join([content], "\n") == content;
    SingleLineExact(line, Blockquote(content));
  }

  lemma RuleText(before: string, m: char, n: nat, after: string)
    requires White(before) && White(after) && '\n' !in before && '\n' !in after
    requires n >= 3 && (m == '-' || m == '*' || m == '_')
    ensures ParseBlocks(before + Dom.Repeat(m, n) + after) == [HorizontalRule]
  {
    var line := before + Dom.Repeat(m, n) + after;
    assert RuleWritten(line, before, m, n, after);
    assert line == before + (Dom.Repeat(m, n) + after);
    Visible(before, Dom.Repeat(m, n) + after);
    SingleLineExact(line, HorizontalRule);
  }

  lemma FenceText(ws: string, rest: string)
    requires White(ws) && '\n' !in ws && '\n' !in rest
    ensures ParseBlocks(ws + "```" + rest) == [CodeBlock(Trim(rest), "")]
  {
    hide Trim;
    var line := ws + "```" + rest;
    assert FenceWritten(line, ws, rest);
    assert line == ws + ("```" + rest);
    Visible(ws, "```" + rest);
    assert FenceBody([line]) == [];
    SingleLineExact(line, CodeBlock(Trim(rest), ""));
  }

  lemma HeadingText(level: nat, content: string)
    requires 1 <= level <= 6 && content != "" && !IsSpace(content[0]) && forall c :: c in content ==> !IsLineTerminator(c)
    ensures ParseBlocks(Dom.Repeat('#', level) + " " + content) == [Heading(level, content)]
  {
    var line := Dom.Repeat('#', level) + " " + content;
    MarkdownRoundTrip.HeadingLine(level, content);
    assert line[0] == '#' && line[0] in line;
    forall c | c in line
      ensures c != '\n'
    {
      var k :| 0 <= k < |line| && line[k] == c;
    }
    HeadingReparses(level, content);
    HeadingExact(line, level, content);
    SingleLineExact(line, Heading(level, content));
  }
}
