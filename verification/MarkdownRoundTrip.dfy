/**
 * What the markdown parser and the serializer are to each other: the parser's image is canonical, and parsing what was
 * printed gives the blocks back exactly when no quote loses its shape in print.
 */
module MarkdownRoundTrip {
  import opened Text
  import opened InlineMarks
  import opened Markdown
  import Dom

  // ---------------------------------------------------------------------------
  // The shape of parsed blocks
  // ---------------------------------------------------------------------------

  /** What every parsed block satisfies. */
  ghost predicate WellFormed(b: Block) {
    match b
    case Heading(level, content) =>
      && 1 <= level <= 6 && content != ""
      && (forall c :: c in content ==> !IsLineTerminator(c))
      && (IsSpace(content[0]) ==> |content| == 1)
    case Paragraph(content) => '\n' !in content && IsPlainLine(content)
    case BulletList(items) => items != [] && Clean(items, '\n')
    case OrderedList(items) => items != [] && Clean(items, '\n')
    case Blockquote(_) => true
    case CodeBlock(language, content) => Trimmed(language) && '\n' !in language && NoFence(Split(content, '\n'))
    case HorizontalRule => true
  }

  predicate NoFence(lines: seq<string>) {
    forall k :: 0 <= k < |lines| ==> NotFence(lines[k])
  }

  /** A quote keeps its shape in print exactly when it is one non-empty line; every other block always does. */
  predicate Survives(b: Block) {
    b.Blockquote? ==> b.content != "" && '\n' !in b.content
  }

  ghost predicate AllWellFormed(blocks: seq<Block>) {
    forall k :: 0 <= k < |blocks| ==> WellFormed(blocks[k])
  }

  predicate AllSurvive(blocks: seq<Block>) {
    forall k :: 0 <= k < |blocks| ==> Survives(blocks[k])
  }

  lemma {:induction false} SkipSpacesFacts(s: string, i: nat)
    requires i <= |s|
    ensures forall n :: i <= n < SkipSpaces(s, i) ==> IsSpace(s[n])
    ensures SkipSpaces(s, i) < |s| ==> !IsSpace(s[SkipSpaces(s, i)])
    decreases |s| - i
  {
    if i < |s| && IsSpace(s[i]) {
      SkipSpacesFacts(s, i + 1);
    }
  }

  lemma {:induction false} DotRunFacts(s: string, i: nat)
    requires i <= |s|
    ensures forall n :: i <= n < DotRun(s, i) ==> !IsLineTerminator(s[n])
    ensures DotRun(s, i) < |s| ==> IsLineTerminator(s[DotRun(s, i)])
    decreases |s| - i
  {
    if i < |s| && !IsLineTerminator(s[i]) {
      DotRunFacts(s, i + 1);
    }
  }

  lemma {:induction false} LastDotFacts(s: string, lo: nat, i: nat)
    requires lo <= i <= |s|
    ensures var p := LastDot(s, lo, i);
            && (p >= lo ==> p < i && !IsLineTerminator(s[p]))
            && forall n :: p < n < i && n >= lo ==> IsLineTerminator(s[n])
    decreases i
  {
    if i > lo && IsLineTerminator(s[i - 1]) {
      LastDotFacts(s, lo, i - 1);
    }
  }

  /** A slice of the line can be the content of a heading. */
  ghost predicate HeadingContent(line: string, p: nat, q: nat) {
    && p < q <= |line|
    && (forall n :: p <= n < q ==> !IsLineTerminator(line[n]))
    && (IsSpace(line[p]) ==> q == p + 1)
  }

  lemma VisibleContent(line: string, w: nat)
    requires w < |line| && !IsSpace(line[w])
    ensures HeadingContent(line, w, DotRun(line, w))
  {
    DotRunFacts(line, w);
  }

  lemma BlankContent(line: string, lo: nat)
    requires lo <= |line| && LastDot(line, lo, |line|) >= lo
    ensures var p := LastDot(line, lo, |line|);
            lo <= p < |line| && DotRun(line, p) <= |line| && HeadingContent(line, p, DotRun(line, p))
  {
    LastDotFacts(line, lo, |line|);
    var p: nat := LastDot(line, lo, |line|);
    DotRunFacts(line, p);
    assert DotRun(line, p) == p + 1;
  }

  lemma ContentIsWellFormed(line: string, p: nat, q: nat, level: nat)
    requires HeadingContent(line, p, q) && 1 <= level <= 6
    ensures WellFormed(Heading(level, line[p..q]))
  {
    forall c | c in line[p..q]
      ensures !IsLineTerminator(c)
    {
      var n :| 0 <= n < q - p && line[p..q][n] == c;
      assert line[p..q][n] == line[p + n];
    }
  }

  /** A matched heading takes its content from the line, on one line, starting visibly unless it is one blank. */
  lemma MatchHeadingFacts(line: string)
    requires MatchHeading(line).SomeHeading?
    ensures WellFormed(Heading(MatchHeading(line).level, MatchHeading(line).content))
    ensures exists p: nat, q: nat :: p <= q <= |line| && MatchHeading(line).content == line[p..q]
  {
    hide SkipHashes, SkipSpaces, DotRun, LastDot, WellFormed, HeadingContent;
    var h := SkipHashes(line, 0);
    var w := SkipSpaces(line, h);
    SkipSpacesFacts(line, h);
    var p: nat := w;
    if w < |line| {
      VisibleContent(line, w);
    } else {
      BlankContent(line, h + 1);
      p := LastDot(line, h + 1, w);
    }
    ContentIsWellFormed(line, p, DotRun(line, p), h);
    assert MatchHeading(line).content == line[p..DotRun(line, p)];
  }

  /** Joining no lines at all still prints one empty line. */
  function Printable(lines: seq<string>): seq<string> {
    if lines == [] then [""] else lines
  }

  lemma SplitsTo(lines: seq<string>)
    requires Clean(lines, '\n')
    ensures Split(Join(lines, "\n"), '\n') == Printable(lines)
  {
    if lines != [] {
      SplitJoin(lines, '\n');
    }
  }

  lemma FenceLanguage(line: string)
    requires IsFence(line)
    ensures |Trim(line)| >= 3
    ensures Trimmed(Trim(Trim(line)[3..])) && forall c :: c in Trim(Trim(line)[3..]) ==> c in line
  {
    hide Trim;
    TrimFacts(line);
    TrimFacts(Trim(line)[3..]);
    assert forall c :: c in Trim(line)[3..] ==> c in Trim(line);
  }

  lemma FencedBlockIsWellFormed(lines: seq<string>)
    requires lines != [] && Clean(lines, '\n') && IsFence(lines[0])
    ensures WellFormed(FencedBlock(lines).block)
  {
    hide Trim, Split, IsFence, Trimmed, Join, RunOf;
    FenceLanguage(lines[0]);
    BlankEnds();
    SplitsTo(lines[1..RunOf(lines, 1, NotFence)]);
  }

  lemma ItemsAreClean(lines: seq<string>, f: string -> string)
    requires Clean(lines, '\n')
    requires forall line :: '\n' !in line ==> '\n' !in f(line)
    ensures Clean(MapLines(lines, f), '\n')
  {
  }

  lemma NextBlockIsWellFormed(lines: seq<string>)
    requires lines != [] && Clean(lines, '\n') && !IsBlank(lines[0])
    ensures WellFormed(NextBlock(lines).block)
  {
    hide IsFence, IsRule, OpensQuote, InQuote, QuoteRest;
    var line := lines[0];
    if IsFence(line) {
      FencedBlockIsWellFormed(lines);
    } else if MatchHeading(line).SomeHeading? {
      MatchHeadingFacts(line);
    } else if IsRule(line) {
    } else if IsBullet(line) {
      ItemsAreClean(lines[..RunOf(lines, 0, IsBullet)], BulletRest);
    } else if IsOrdered(line) {
      ItemsAreClean(lines[..RunOf(lines, 0, IsOrdered)], OrderedRest);
    }
  }

  /** The parser's image: every block it produces is well formed. */
  lemma {:induction false} ParsedBlocksAreWellFormed(lines: seq<string>)
    requires Clean(lines, '\n')
    ensures AllWellFormed(ParseLines(lines))
    decreases |lines|
  {
    hide IsBlank, NextBlock, WellFormed;
    if lines == [] {
    } else if IsBlank(lines[0]) {
      ParsedBlocksAreWellFormed(lines[1..]);
    } else {
      NextBlockIsWellFormed(lines);
      ParsedBlocksAreWellFormed(lines[NextBlock(lines).used..]);
    }
  }

  lemma InQuoteIsStartsWith(line: string)
    ensures InQuote(line) <==> StartsWith(line, ">")
  {
    if StartsWith(line, "> ") {
      assert line[..1] == line[..2][..1];
    }
  }

  // ---------------------------------------------------------------------------
  // Printed lines
  // ---------------------------------------------------------------------------

  function BulletLine(item: string): string {
    "- " + item
  }

  function NumberedLines(items: seq<string>, number: nat): (r: seq<string>)
    ensures |r| == |items|
  {
    if items == [] then [] else [Dom.Decimal(number) + ". " + items[0]] + NumberedLines(items[1..], number + 1)
  }

  /** The lines in which a block is printed. */
  function BlockLines(b: Block): (r: seq<string>)
    requires WellFormed(b)
    ensures r != []
  {
    match b
    case Heading(level, content) => [Dom.Repeat('#', level) + " " + content]
    case Paragraph(content) => [content]
    case BulletList(items) => MapLines(items, BulletLine)
    case OrderedList(items) => NumberedLines(items, 1)
    case Blockquote(content) => if content == "" then [""] else Split("> " + content, '\n')
    case CodeBlock(language, content) => ["```" + language] + Split(content, '\n') + ["```"]
    case HorizontalRule => ["---"]
  }

  lemma SerializeLine(content: string)
    ensures Dom.SerializeInline([Dom.Run(FormattedText(content))]) == content
    ensures Dom.SerializeNode(Line(content)) == content
    ensures Dom.SerializeListItem([Line(content)]) == content
  {
    hide FormattedText;
    FormattedTextRoundTrip(content);
    var children := [Dom.Run(FormattedText(content))];
    assert children[1..] == [];
    assert Dom.SerializeInline(children) == content + "";
    var item := [Line(content)];
    assert item[1..] == [] && item[0].Paragraph? && item[0].children == children;
    assert Dom.ItemParts(item[1..]) == [];
    assert Dom.SerializeInline(item[0].children) == content;
    assert Dom.ItemParts(item) == (if content != "" then [content] else []) + Dom.ItemParts(item[1..]);
    assert Dom.ItemParts(item) == if content != "" then [content] else [];
  }

  lemma {:induction false} SerializeBullets(items: seq<string>)
    ensures Dom.BulletLines(ItemNodes(items)) == MapLines(items, BulletLine)
  {
    hide Line;
    if items != [] {
      SerializeLine(items[0]);
      SerializeBullets(items[1..]);
      var nodes := ItemNodes(items);
      assert nodes[0] == Dom.ListItem([Line(items[0])]) && nodes[1..] == ItemNodes(items[1..]);
      assert Dom.BulletLines(nodes) == [BulletLine(items[0])] + MapLines(items[1..], BulletLine);
    }
  }

  lemma {:induction false} SerializeNumbered(items: seq<string>, number: nat)
    ensures Dom.OrderedLines(ItemNodes(items), number) == NumberedLines(items, number)
  {
    hide Line;
    if items != [] {
      SerializeLine(items[0]);
      SerializeNumbered(items[1..], number + 1);
      var nodes := ItemNodes(items);
      assert nodes[0] == Dom.ListItem([Line(items[0])]) && nodes[1..] == ItemNodes(items[1..]);
    }
  }

  lemma SerializeVerbatim(content: string)
    ensures Dom.SerializeInline([Verbatim(content)]) == content
  {
    var children := [Verbatim(content)];
    assert children[1..] == [];
    if content != "" {
      var segs := [Segment(content, PLAIN)];
      assert segs[1..] == [];
      assert PrintSegments(segs) == content + "";
    }
  }

  /** The text that a block prints as. */
  function BlockText(b: Block): string
    requires WellFormed(b)
  {
    match b
    case Heading(level, content) => Dom.Repeat('#', level) + " " + content
    case Paragraph(content) => content
    case BulletList(items) => Join(MapLines(items, BulletLine), "\n")
    case OrderedList(items) => Join(NumberedLines(items, 1), "\n")
    case Blockquote(content) => if content == "" then "" else "> " + content
    case CodeBlock(language, content) => "```" + language + "\n" + content + "\n```"
    case HorizontalRule => "---"
  }

  lemma QuoteLinesOf(child: Dom.Node)
    ensures var text := Dom.SerializeNode(child);
            Dom.QuoteLines([child]) == if text != "" then ["> " + text] else []
  {
    hide Dom.SerializeNode;
    assert [child][1..] == [];
  }

  lemma SerializeQuote(content: string)
    ensures Dom.SerializeNode(Dom.Blockquote([Line(content)])) == if content == "" then "" else "> " + content
  {
    hide *;
    SerializeLine(content);
    QuoteLinesOf(Line(content));
    QuoteJoined([Line(content)]);
    OneOrNone("> " + content);
  }

  lemma QuoteJoined(children: seq<Dom.Node>)
    ensures Dom.SerializeNode(Dom.Blockquote(children)) == Join(Dom.QuoteLines(children), "\n")
  {
    hide Dom.QuoteLines, Join;
  }

  lemma OneOrNone(text: string)
    ensures Join([text], "\n") == text && Join([], "\n") == ""
  {
  }

  lemma SerializeBlock(b: Block)
    requires WellFormed(b)
    ensures Dom.SerializeNode(BlockNode(b)) == BlockText(b)
  {
    hide IsPlainLine, IsFence, NoFence, Trimmed, FormattedText, Verbatim, MapLines, NumberedLines, ItemNodes;
    hide Dom.SerializeInline, Dom.BulletLines, Dom.OrderedLines, Dom.QuoteLines, Join;
    match b
    case Heading(level, content) => SerializeLine(content);
    case Paragraph(content) => SerializeLine(content);
    case BulletList(items) => SerializeBullets(items);
    case OrderedList(items) => SerializeNumbered(items, 1);
    case Blockquote(content) => SerializeQuote(content);
    case CodeBlock(language, content) => SerializeVerbatim(content);
    case HorizontalRule =>
  }

  lemma {:induction false} NumberedLinesAt(items: seq<string>, number: nat, k: nat)
    requires k < |items|
    ensures NumberedLines(items, number)[k] == Dom.Decimal(number + k) + ". " + items[k]
  {
    if k > 0 {
      NumberedLinesAt(items[1..], number + 1, k - 1);
    }
  }

  lemma NumberedLinesAreClean(items: seq<string>)
    requires Clean(items, '\n')
    ensures Clean(NumberedLines(items, 1), '\n')
  {
    forall k | 0 <= k < |items|
      ensures '\n' !in NumberedLines(items, 1)[k]
    {
      NumberedLinesAt(items, 1, k);
      Dom.DecimalIsDigits(1 + k);
      assert '\n' !in Dom.Decimal(1 + k);
    }
  }

  lemma SplitFenced(language: string, content: string)
    requires '\n' !in language
    ensures Split("```" + language + "\n" + content + "\n```", '\n') == ["```" + language] + Split(content, '\n') + ["```"]
  {
    hide Split;
    var open, rest := "```" + language, content + "\n" + "```";
    SplitConcat(open, '\n', rest);
    SplitConcat(content, '\n', "```");
    SplitWithout(open, '\n');
    SplitWithout("```", '\n');
    assert open + "\n" + content + "\n```" == open + "\n" + rest;
    assert [open] + (Split(content, '\n') + ["```"]) == [open] + Split(content, '\n') + ["```"];
  }

  lemma SplitBlockText(b: Block)
    requires WellFormed(b)
    ensures Split(BlockText(b), '\n') == BlockLines(b)
  {
    hide IsPlainLine, IsFence;
    match b
    case Heading(level, content) =>
      assert '\n' !in content;
      SplitWithout(BlockText(b), '\n');
    case Paragraph(content) => SplitWithout(content, '\n');
    case BulletList(items) => SplitJoin(MapLines(items, BulletLine), '\n');
    case OrderedList(items) =>
      NumberedLinesAreClean(items);
      SplitJoin(NumberedLines(items, 1), '\n');
    case Blockquote(content) =>
    case CodeBlock(language, content) =>
      SplitFenced(language, content);
    case HorizontalRule => SplitWithout("---", '\n');
  }

  /** The lines of a printed document: the printed blocks, one blank line between neighbours. */
  function DocLines(blocks: seq<Block>): (r: seq<string>)
    requires AllWellFormed(blocks)
    ensures r != []
  {
    if blocks == [] then [""]
    else if |blocks| == 1 then BlockLines(blocks[0])
    else BlockLines(blocks[0]) + [""] + DocLines(blocks[1..])
  }

  function QuoteLine(line: string): string {
    "> " + line
  }

  /** The lines of a block when every line of a quote has its mark, as the serializer gives it to the first one only. */
  function MarkedLines(b: Block): (r: seq<string>)
    requires WellFormed(b)
    ensures r != []
  {
    if b.Blockquote? then MapLines(Split(b.content, '\n'), QuoteLine) else BlockLines(b)
  }

  function MarkedDocument(blocks: seq<Block>): (r: seq<string>)
    requires AllWellFormed(blocks)
    ensures r != []
  {
    if blocks == [] then [""]
    else if |blocks| == 1 then MarkedLines(blocks[0])
    else MarkedLines(blocks[0]) + [""] + MarkedDocument(blocks[1..])
  }

  lemma PairOfNewlines(a: string, b: string)
    ensures a + "\n\n" + b == a + ['\n'] + (['\n'] + b)
  {
  }

  /** Splitting texts joined by an empty line. */
  lemma SplitParagraphs(texts: seq<string>)
    requires |texts| > 1
    ensures Split(Join(texts, "\n\n"), '\n') == Split(texts[0], '\n') + [""] + Split(Join(texts[1..], "\n\n"), '\n')
  {
    hide *;
    var first, rest := texts[0], Join(texts[1..], "\n\n");
    JoinFirst(texts, "\n\n");
    PairOfNewlines(first, rest);
    SplitConcat(first, '\n', ['\n'] + rest);
    SplitLeading(rest, '\n');
    ConcatAssociates(Split(first, '\n'), [""], Split(rest, '\n'));
  }

  lemma JoinFirst(texts: seq<string>, sep: string)
    requires |texts| > 1
    ensures Join(texts, sep) == texts[0] + sep + Join(texts[1..], sep)
  {
  }

  lemma SplitLeading(s: string, d: char)
    ensures Split([d] + s, d) == [""] + Split(s, d)
  {
    assert ([d] + s)[0] == d && ([d] + s)[1..] == s;
  }

  lemma {:induction false} PrintedLines(blocks: seq<Block>)
    requires AllWellFormed(blocks)
    ensures Split(Dom.SerializeDocument(BlockNodes(blocks)), '\n') == DocLines(blocks)
  {
    hide BlockNode, BlockLines, BlockText, WellFormed, Dom.SerializeNode, Split;
    if blocks == [] {
      SplitWithout("", '\n');
    } else {
      var nodes, first := BlockNodes(blocks), blocks[0];
      assert nodes[0] == BlockNode(first) && nodes[1..] == BlockNodes(blocks[1..]);
      SerializeBlock(first);
      SplitBlockText(first);
      var texts := Dom.SerializeAll(nodes);
      assert texts[0] == BlockText(first) && texts[1..] == Dom.SerializeAll(nodes[1..]);
      SerializeAllLength(nodes[1..]);
      if |blocks| > 1 {
        PrintedLines(blocks[1..]);
        SplitParagraphs(texts);
      }
    }
  }

  lemma {:induction false} SerializeAllLength(nodes: seq<Dom.Node>)
    ensures |Dom.SerializeAll(nodes)| == |nodes|
  {
    if nodes != [] {
      SerializeAllLength(nodes[1..]);
    }
  }

  // ---------------------------------------------------------------------------
  // Parsing printed lines
  // ---------------------------------------------------------------------------

  /** A line that starts visibly: not blank, and trimming only shortens it at the end. */
  lemma VisibleStart(line: string)
    requires line != "" && !IsSpace(line[0])
    ensures !IsBlank(line) && SkipSpaces(line, 0) == 0
    ensures Trim(line)[0] == line[0] && Trim(line) <= line
    ensures line[0] != '`' ==> !IsFence(line)
    ensures line[0] != '#' ==> MatchHeading(line).NoHeading?
    ensures line[0] !in "-*_" ==> !IsRule(line)
    ensures |line| > 1 && line[1] != line[0] ==> !IsRule(line)
  {
    TrimFacts(line);
    if IsFence(line) {
      assert Trim(line)[..3][0] == '`';
    }
  }

  lemma {:induction false} SkipHashesAre(line: string, i: nat, h: nat)
    requires i <= h <= |line|
    requires forall n :: i <= n < h ==> line[n] == '#'
    requires h < |line| ==> line[h] != '#'
    ensures SkipHashes(line, i) == h
    decreases h - i
  {
    if i < h {
      SkipHashesAre(line, i + 1, h);
    }
  }

  lemma {:induction false} DotRunIs(line: string, i: nat)
    requires i <= |line|
    requires forall n :: i <= n < |line| ==> !IsLineTerminator(line[n])
    ensures DotRun(line, i) == |line|
    decreases |line| - i
  {
    if i < |line| {
      DotRunIs(line, i + 1);
    }
  }

  lemma HeadingReparses(level: nat, content: string)
    requires WellFormed(Heading(level, content))
    ensures MatchHeading(Dom.Repeat('#', level) + " " + content) == SomeHeading(level, content)
  {
    hide SkipHashes, SkipSpaces, DotRun, LastDot;
    var line := Dom.Repeat('#', level) + " " + content;
    HeadingLine(level, content);
    SkipHashesAre(line, 0, level);
    DotRunIs(line, level + 1);
    if IsSpace(content[0]) {
      assert |line| == level + 2;
      BlankHeading(line, level);
    } else {
      OneSpace(line, level);
    }
  }

  /** The characters of a printed heading. */
  lemma HeadingLine(level: nat, content: string)
    ensures var line := Dom.Repeat('#', level) + " " + content;
            && |line| == level + 1 + |content| && line[level] == ' ' && line[level + 1..] == content
            && (forall n :: 0 <= n < level ==> line[n] == '#')
            && (forall n :: level + 1 <= n < |line| ==> line[n] == content[n - level - 1])
  {
  }

  lemma OneSpace(line: string, i: nat)
    requires i + 1 < |line| && IsSpace(line[i]) && !IsSpace(line[i + 1])
    ensures SkipSpaces(line, i) == i + 1
  {
    assert SkipSpaces(line, i + 1) == i + 1;
  }

  lemma BlankHeading(line: string, i: nat)
    requires |line| == i + 2 && IsSpace(line[i]) && IsSpace(line[i + 1]) && !IsLineTerminator(line[i + 1])
    ensures SkipSpaces(line, i) == i + 2 && LastDot(line, i + 1, i + 2) == i + 1
  {
    assert SkipSpaces(line, i + 2) == i + 2;
    assert SkipSpaces(line, i + 1) == i + 2;
  }

  lemma {:induction false} SkipDigitsAre(line: string, i: nat, e: nat)
    requires i <= e <= |line|
    requires forall n :: i <= n < e ==> IsDigit(line[n])
    requires e < |line| ==> !IsDigit(line[e])
    ensures SkipDigits(line, i) == e
    decreases e - i
  {
    if i < e {
      SkipDigitsAre(line, i + 1, e);
    }
  }

  lemma BulletReparses(item: string)
    ensures var line := BulletLine(item);
            && !IsBlank(line) && !IsFence(line) && MatchHeading(line).NoHeading? && !IsRule(line)
            && IsBullet(line) && BulletRest(line) == item
  {
    VisibleStart(BulletLine(item));
  }

  lemma NumberedReparses(number: nat, item: string)
    ensures var line := Dom.Decimal(number) + ". " + item;
            && !IsBlank(line) && !IsFence(line) && MatchHeading(line).NoHeading? && !IsRule(line)
            && !IsBullet(line) && IsOrdered(line) && OrderedRest(line) == item
  {
    Dom.DecimalIsDigits(number);
    var d := Dom.Decimal(number);
    var line := d + ". " + item;
    assert line[0] == d[0] && d[0] in d;
    VisibleStart(line);
    forall n | 0 <= n < |d|
      ensures IsDigit(line[n])
    {
      assert line[n] == d[n] && d[n] in d;
    }
    SkipDigitsAre(line, 0, |d|);
    assert line[|d| + 2..] == item;
  }

  lemma QuoteReparses(content: string)
    ensures var line := "> " + content;
            && !IsBlank(line) && !IsFence(line) && MatchHeading(line).NoHeading? && !IsRule(line)
            && !IsBullet(line) && !IsOrdered(line) && OpensQuote(line) && InQuote(line) && QuoteRest(line) == content
  {
    var line := "> " + content;
    VisibleStart(line);
    assert line[..2] == "> " && line[..1] == ">";
    assert SkipDigits(line, 0) == 0;
  }

  lemma BlankEnds()
    ensures IsBlank("") && !IsFence("") && !IsBullet("") && !IsOrdered("") && !InQuote("")
  {
  }

  /** The tail after a printed block: the end of the document or a blank line. */
  predicate Separated(tail: seq<string>) {
    tail == [] || tail[0] == ""
  }

  lemma BulletsReparse(items: seq<string>, tail: seq<string>)
    requires items != [] && Separated(tail)
    ensures var lines := MapLines(items, BulletLine);
            !IsBlank(lines[0]) && NextBlock(lines + tail) == Parsed(BulletList(items), |items|)
  {
    hide IsBlank, IsFence, MatchHeading, IsRule, IsBullet, BulletLine;
    var lines := MapLines(items, BulletLine);
    BlankEnds();
    forall k | 0 <= k < |items|
      ensures IsBullet((lines + tail)[k]) && BulletRest(lines[k]) == items[k]
    {
      BulletReparses(items[k]);
    }
    BulletReparses(items[0]);
    RunIs(lines + tail, 0, IsBullet, |items|);
    assert (lines + tail)[..|items|] == lines;
    assert MapLines(lines, BulletRest) == items;
  }

  lemma NumberedLineReparses(items: seq<string>, k: nat)
    requires k < |items|
    ensures var line := NumberedLines(items, 1)[k];
            && !IsBlank(line) && !IsFence(line) && MatchHeading(line).NoHeading? && !IsRule(line)
            && !IsBullet(line) && IsOrdered(line) && OrderedRest(line) == items[k]
  {
    NumberedLinesAt(items, 1, k);
    NumberedReparses(1 + k, items[k]);
  }

  lemma NumberedReparse(items: seq<string>, tail: seq<string>)
    requires items != [] && Separated(tail)
    ensures var lines := NumberedLines(items, 1);
            !IsBlank(lines[0]) && NextBlock(lines + tail) == Parsed(OrderedList(items), |items|)
  {
    hide IsBlank, IsFence, MatchHeading, IsRule, IsBullet, IsOrdered, OrderedRest, NumberedLines;
    var lines := NumberedLines(items, 1);
    BlankEnds();
    forall k | 0 <= k < |items|
      ensures IsOrdered((lines + tail)[k]) && OrderedRest(lines[k]) == items[k]
    {
      NumberedLineReparses(items, k);
    }
    NumberedLineReparses(items, 0);
    RunIs(lines + tail, 0, IsOrdered, |items|);
    assert (lines + tail)[..|items|] == lines;
    assert MapLines(lines, OrderedRest) == items;
  }

  /** A quote with a mark on each of its lines. */
  lemma QuoteReparse(content: string, tail: seq<string>)
    requires Separated(tail)
    ensures var lines := MapLines(Split(content, '\n'), QuoteLine);
            !IsBlank(lines[0]) && NextBlock(lines + tail) == Parsed(Blockquote(content), |lines|)
  {
    hide IsBlank, IsFence, MatchHeading, IsRule, IsBullet, IsOrdered, OpensQuote, InQuote, QuoteRest, Split, Join, QuoteLine;
    var parts := Split(content, '\n');
    var lines := MapLines(parts, QuoteLine);
    BlankEnds();
    forall k | 0 <= k < |parts|
      ensures InQuote((lines + tail)[k]) && QuoteRest(lines[k]) == parts[k]
    {
      QuoteReparses(parts[k]);
      QuoteLineIs(parts[k]);
    }
    QuoteReparses(parts[0]);
    QuoteLineIs(parts[0]);
    RunIs(lines + tail, 0, InQuote, |lines|);
    assert (lines + tail)[..|lines|] == lines;
    assert MapLines(lines, QuoteRest) == parts;
    JoinSplit(content, '\n');
  }

  lemma QuoteLineIs(line: string)
    ensures QuoteLine(line) == "> " + line
  {
  }

  lemma FenceReparses(language: string)
    requires Trimmed(language)
    ensures var line := "```" + language;
            !IsBlank(line) && IsFence(line) && Trim(line)[3..] == language && Trim(Trim(line)[3..]) == language
  {
    var line := "```" + language;
    assert Trimmed(line);
    TrimTrimmed(line);
    TrimTrimmed(language);
    assert line[..3] == "```" && line[3..] == language;
  }

  lemma FenceRun(open: string, body: seq<string>, rest: seq<string>)
    requires NoFence(body) && rest != [] && IsFence(rest[0])
    ensures RunOf([open] + (body + rest), 1, NotFence) == 1 + |body|
  {
    hide IsFence, RunOf;
    Sandwich(open, body, rest);
    var lines := [open] + (body + rest);
    assert forall k :: 1 <= k < 1 + |body| ==> NotFence(lines[k]);
    assert !NotFence(lines[1 + |body|]);
    RunIs(lines, 1, NotFence, 1 + |body|);
  }

  lemma FenceCloses(open: string, body: seq<string>, rest: seq<string>)
    requires IsFence(open) && NoFence(body) && rest != [] && IsFence(rest[0])
    ensures FencedBlock([open] + (body + rest)) ==
            Parsed(CodeBlock(Trim(Trim(open)[3..]), Join(body, "\n")), |body| + 2)
  {
    hide Trim, IsFence, Join, RunOf, Trimmed, NoFence;
    FenceLanguage(open);
    FenceRun(open, body, rest);
    Sandwich(open, body, rest);
  }

  lemma Sandwich(open: string, body: seq<string>, rest: seq<string>)
    requires rest != []
    ensures var lines := [open] + (body + rest);
            && lines[0] == open && lines[1 + |body|] == rest[0] && lines[1..1 + |body|] == body
            && forall k :: 1 <= k < 1 + |body| ==> lines[k] == body[k - 1]
  {
  }

  lemma ThreeSlices(lines: seq<string>, n: nat, m: nat)
    requires 1 <= n <= m <= |lines|
    ensures lines[..m] == [lines[0]] + lines[1..n] + lines[n..m]
  {
  }

  lemma CodeReparse(language: string, content: string, tail: seq<string>)
    requires WellFormed(CodeBlock(language, content))
    ensures var lines := ["```" + language] + Split(content, '\n') + ["```"];
            !IsBlank(lines[0]) && NextBlock(lines + tail) == Parsed(CodeBlock(language, content), |lines|)
  {
    FenceReparses(language);
    FenceReparses("");
    assert "```" + "" == "```";
    JoinSplit(content, '\n');
    assert NoFence(Split(content, '\n'));
    hide IsBlank, IsFence, Trim, Split, FencedBlock, WellFormed, Join;
    var open, body := "```" + language, Split(content, '\n');
    FenceCloses(open, body, ["```"] + tail);
    Reassociate(open, body, "```", tail);
  }

  lemma Reassociate(open: string, body: seq<string>, close: string, tail: seq<string>)
    ensures [open] + body + [close] + tail == [open] + (body + ([close] + tail))
    ensures ([open] + body + [close] + tail)[0] == open
  {
  }

  /** A printed block is parsed back, whole, whatever follows after the separator, if its quote has all its marks. */
  lemma BlockReparses(b: Block, tail: seq<string>)
    requires WellFormed(b) && Separated(tail)
    ensures !IsBlank(MarkedLines(b)[0])
    ensures NextBlock(MarkedLines(b) + tail) == Parsed(b, |MarkedLines(b)|)
  {
    match b
    case Heading(level, content) =>
      HeadingReparses(level, content);
      VisibleStart(BlockLines(b)[0]);
    case Paragraph(content) =>
    case BulletList(items) => BulletsReparse(items, tail);
    case OrderedList(items) => NumberedReparse(items, tail);
    case Blockquote(content) => QuoteReparse(content, tail);
    case CodeBlock(language, content) => CodeReparse(language, content, tail);
    case HorizontalRule =>
      VisibleStart("---");
      TrimTrimmed("---");
  }

  /** A quote that survives is printed with all its marks: it has one line. */
  lemma SurvivingLines(b: Block)
    requires WellFormed(b) && Survives(b)
    ensures MarkedLines(b) == BlockLines(b)
  {
    if b.Blockquote? {
      SplitWithout("> " + b.content, '\n');
      SplitWithout(b.content, '\n');
    }
  }

  lemma {:induction false} SurvivingDocument(blocks: seq<Block>)
    requires AllWellFormed(blocks) && AllSurvive(blocks)
    ensures MarkedDocument(blocks) == DocLines(blocks)
  {
    hide BlockLines, MarkedLines, WellFormed, Survives;
    if blocks != [] {
      SurvivingLines(blocks[0]);
      SurvivingDocument(blocks[1..]);
    }
  }

  /** Parse after print with all marks is the identity on well-formed blocks. */
  lemma {:induction false} MarkedReparses(blocks: seq<Block>)
    requires AllWellFormed(blocks)
    ensures ParseLines(MarkedDocument(blocks)) == blocks
  {
    hide MarkedLines, WellFormed, NextBlock, IsBlank;
    if blocks == [] {
      BlankEnds();
      assert [""][1..] == [];
    } else {
      var first := blocks[0];
      var tail := if |blocks| == 1 then [] else [""] + MarkedDocument(blocks[1..]);
      BlockReparses(first, tail);
      var lines := MarkedLines(first) + tail;
      assert MarkedDocument(blocks) == lines;
      assert lines[0] == MarkedLines(first)[0];
      assert lines[|MarkedLines(first)|..] == tail;
      if |blocks| == 1 {
        assert blocks == [first];
      } else {
        BlankEnds();
        assert tail[1..] == MarkedDocument(blocks[1..]);
        MarkedReparses(blocks[1..]);
      }
    }
  }

  /** Parse after print is the identity on well-formed blocks whose quotes survive. */
  lemma DocumentReparses(blocks: seq<Block>)
    requires AllWellFormed(blocks) && AllSurvive(blocks)
    ensures ParseLines(DocLines(blocks)) == blocks
  {
    hide *;
    SurvivingDocument(blocks);
    MarkedReparses(blocks);
  }

  // ---------------------------------------------------------------------------
  // Printing never adds a quote mark
  // ---------------------------------------------------------------------------

  function Angles(s: string): nat {
    multiset(s)['>']
  }

  function TotalAngles(lines: seq<string>): nat {
    if lines == [] then 0 else Angles(lines[0]) + TotalAngles(lines[1..])
  }

  lemma {:induction false} TotalAnglesConcat(a: seq<string>, b: seq<string>)
    ensures TotalAngles(a + b) == TotalAngles(a) + TotalAngles(b)
  {
    hide Angles;
    if a == [] {
      assert a + b == b;
    } else {
      TotalAnglesConcat(a[1..], b);
      assert (a + b)[1..] == a[1..] + b;
    }
  }

  lemma MarksOfSlice(s: string, i: nat, j: nat)
    requires i <= j <= |s|
    ensures Angles(s[i..j]) <= Angles(s)
  {
    assert s == s[..i] + s[i..j] + s[j..];
  }

  lemma NoMarks(s: string)
    requires '>' !in s
    ensures Angles(s) == 0
  {
  }

  /** Line by line, `after` has at most the quote marks of `before`, less `drop` on each line. */
  lemma {:induction false} TotalAnglesCompare(after: seq<string>, before: seq<string>, drop: nat)
    requires |after| == |before|
    requires forall k :: 0 <= k < |after| ==> Angles(after[k]) + drop <= Angles(before[k])
    ensures TotalAngles(after) + drop * |after| <= TotalAngles(before)
  {
    hide Angles;
    if after != [] {
      TotalAnglesCompare(after[1..], before[1..], drop);
    }
  }

  lemma BulletLineMarks(line: string)
    requires IsBullet(line)
    ensures Angles(BulletLine(BulletRest(line))) <= Angles(line)
  {
    var p := SkipSpaces(line, 0) + 2;
    assert line[p..|line|] == BulletRest(line);
    MarksOfSlice(line, p, |line|);
    NoMarks("- ");
  }

  lemma BulletMarks(lines: seq<string>)
    requires forall k :: 0 <= k < |lines| ==> IsBullet(lines[k])
    ensures TotalAngles(MapLines(MapLines(lines, BulletRest), BulletLine)) <= TotalAngles(lines)
  {
    hide Angles, IsBullet, BulletRest, BulletLine;
    var after := MapLines(MapLines(lines, BulletRest), BulletLine);
    forall k | 0 <= k < |lines|
      ensures Angles(after[k]) <= Angles(lines[k])
    {
      BulletLineMarks(lines[k]);
    }
    TotalAnglesCompare(after, lines, 0);
  }

  lemma NumberedLineMarks(line: string, number: nat)
    requires IsOrdered(line)
    ensures Angles(Dom.Decimal(number) + ". " + OrderedRest(line)) <= Angles(line)
  {
    var p := SkipDigits(line, SkipSpaces(line, 0)) + 2;
    assert line[p..|line|] == OrderedRest(line);
    MarksOfSlice(line, p, |line|);
    Dom.DecimalIsDigits(number);
    assert '>' !in Dom.Decimal(number);
    NoMarks(Dom.Decimal(number) + ". ");
    assert Angles(Dom.Decimal(number) + ". " + OrderedRest(line)) == Angles(Dom.Decimal(number) + ". ") + Angles(OrderedRest(line));
  }

  lemma NumberedMarks(lines: seq<string>)
    requires forall k :: 0 <= k < |lines| ==> IsOrdered(lines[k])
    ensures TotalAngles(NumberedLines(MapLines(lines, OrderedRest), 1)) <= TotalAngles(lines)
  {
    hide Angles, IsOrdered, OrderedRest, NumberedLines;
    var items := MapLines(lines, OrderedRest);
    var after := NumberedLines(items, 1);
    forall k | 0 <= k < |lines|
      ensures Angles(after[k]) <= Angles(lines[k])
    {
      NumberedLinesAt(items, 1, k);
      NumberedLineMarks(lines[k], 1 + k);
    }
    TotalAnglesCompare(after, lines, 0);
  }

  lemma QuoteLineMarks(line: string)
    requires StartsWith(line, ">")
    ensures Angles(QuoteRest(line)) + 1 <= Angles(line)
    ensures '\n' !in line ==> '\n' !in QuoteRest(line)
  {
    assert line[..1][0] == '>';
    var p := if |line| > 1 && IsSpace(line[1]) then 2 else 1;
    assert line == line[..p] + line[p..];
    assert '>' in line[..p] by { assert line[..p][0] == '>'; }
  }

  /** Each quote line loses its mark; the print puts back one mark at most. */
  lemma QuoteMarks(lines: seq<string>)
    requires lines != [] && Clean(lines, '\n')
    requires forall k :: 0 <= k < |lines| ==> StartsWith(lines[k], ">")
    ensures var b := Blockquote(Join(MapLines(lines, QuoteRest), "\n"));
            && TotalAngles(BlockLines(b)) <= TotalAngles(lines)
            && (!Survives(b) ==> TotalAngles(BlockLines(b)) < TotalAngles(lines))
  {
    hide Angles, QuoteRest;
    var rests := MapLines(lines, QuoteRest);
    var content := Join(rests, "\n");
    forall k | 0 <= k < |lines|
      ensures Angles(rests[k]) + 1 <= Angles(lines[k]) && '\n' !in rests[k]
    {
      QuoteLineMarks(lines[k]);
    }
    EmptyMarks();
    TotalAnglesCompare(rests, lines, 1);
    if content != "" {
      SplitJoin(rests, '\n');
      SplitPrefixed(content);
      if |rests| > 1 {
        JoinHasDelimiter(rests, '\n');
      }
    }
  }

  /** Splitting a prefixed text prefixes the first part. */
  lemma SplitPrefixed(content: string)
    ensures TotalAngles(Split("> " + content, '\n')) == 1 + TotalAngles(Split(content, '\n'))
  {
    var parts := Split(content, '\n');
    var inner := " " + content;
    var outer := ">" + inner;
    assert inner[1..] == content && outer[1..] == inner && outer == "> " + content;
    var one := Split(inner, '\n');
    assert one == Extend(' ', parts);
    var two := Split(outer, '\n');
    assert two == Extend('>', one);
    assert two[0] == ">" + (" " + parts[0]) && two[1..] == parts[1..];
    assert Angles(two[0]) == 1 + Angles(parts[0]);
  }

  lemma FenceLanguageMarks(line: string)
    requires IsFence(line)
    ensures Angles("```" + Trim(Trim(line)[3..])) <= Angles(line)
  {
    hide Trim;
    TrimFacts(line);
    TrimFacts(Trim(line)[3..]);
    MarksOfSlice(Trim(line), 3, |Trim(line)|);
    assert Trim(line)[3..] == Trim(line)[3..|Trim(line)|];
  }

  lemma FencedMarks(lines: seq<string>)
    requires lines != [] && Clean(lines, '\n') && IsFence(lines[0])
    requires WellFormed(FencedBlock(lines).block)
    ensures var r := FencedBlock(lines); TotalAngles(BlockLines(r.block)) <= TotalAngles(lines[..r.used])
  {
    hide *;
    FenceLanguageMarks(lines[0]);
    var open, printed, body, close := FencedPrinted(lines);
    FencedMarksBound(open, printed, lines[0], body, close);
  }

  lemma FencedMarksBound(open: string, printed: seq<string>, first: string, body: seq<string>, close: seq<string>)
    requires Angles(open) <= Angles(first) && TotalAngles(printed) == TotalAngles(body)
    ensures TotalAngles([open] + printed + ["```"]) <= TotalAngles([first] + body + close)
  {
    hide Angles;
    NoMarks("```");
    FencedMarksSum(open, printed, "```");
    TotalAnglesConcat([first] + body, close);
    TotalAnglesConcat([first], body);
    assert [first][1..] == [];
  }

  lemma FencedPrinted(lines: seq<string>)
    returns (open: string, printed: seq<string>, body: seq<string>, close: seq<string>)
    requires lines != [] && Clean(lines, '\n') && IsFence(lines[0])
    requires WellFormed(FencedBlock(lines).block)
    ensures |Trim(lines[0])| >= 3 && open == "```" + Trim(Trim(lines[0])[3..])
    ensures BlockLines(FencedBlock(lines).block) == [open] + printed + ["```"]
    ensures lines[..FencedBlock(lines).used] == [lines[0]] + body + close
    ensures TotalAngles(printed) == TotalAngles(body)
  {
    hide Trim, Trimmed, IsFence, WellFormed, Split, Angles, TotalAngles, RunOf, Join, BlockLines, Printable;
    FenceLanguage(lines[0]);
    var n := RunOf(lines, 1, NotFence);
    open := "```" + Trim(Trim(lines[0])[3..]);
    body := lines[1..n];
    printed := Printable(body);
    close := lines[n..FencedBlock(lines).used];
    ThreeSlices(lines, n, FencedBlock(lines).used);
    CodeBlockLines(Trim(Trim(lines[0])[3..]), body);
    PrintableMarks(body);
  }

  lemma CodeBlockLines(language: string, body: seq<string>)
    requires Clean(body, '\n') && WellFormed(CodeBlock(language, Join(body, "\n")))
    ensures BlockLines(CodeBlock(language, Join(body, "\n"))) == ["```" + language] + Printable(body) + ["```"]
  {
    hide WellFormed, Split, Join;
    SplitsTo(body);
  }

  lemma PrintableMarks(lines: seq<string>)
    ensures TotalAngles(Printable(lines)) == TotalAngles(lines)
  {
    EmptyMarks();
  }

  lemma FencedMarksSum(open: string, body: seq<string>, close: string)
    ensures TotalAngles([open] + body + [close]) == Angles(open) + TotalAngles(body) + Angles(close)
  {
    hide Angles;
    TotalAnglesConcat([open] + body, [close]);
    TotalAnglesConcat([open], body);
    assert [open][1..] == [] && [close][1..] == [];
  }

  /** One block: its print has at most the quote marks of its source lines, and fewer when its quote does not survive. */
  lemma NextBlockMarks(lines: seq<string>)
    requires lines != [] && Clean(lines, '\n') && !IsBlank(lines[0])
    ensures WellFormed(NextBlock(lines).block)
    ensures var r := NextBlock(lines);
            && TotalAngles(BlockLines(r.block)) <= TotalAngles(lines[..r.used])
            && (!Survives(r.block) ==> TotalAngles(BlockLines(r.block)) < TotalAngles(lines[..r.used]))
  {
    hide IsBlank, IsFence, IsRule, IsBullet, IsOrdered, IsPlainLine, QuoteRest, BulletRest, OrderedRest;
    NextBlockIsWellFormed(lines);
    var line, r := lines[0], NextBlock(lines);
    if IsFence(line) {
      FencedMarks(lines);
    } else if MatchHeading(line).SomeHeading? {
      HeadingMarks(line);
      SingleLineMarks(lines);
    } else if IsRule(line) {
      SingleLineMarks(lines);
      assert ["---"][1..] == [];
    } else if IsBullet(line) {
      BulletMarks(lines[..r.used]);
    } else if IsOrdered(line) {
      NumberedMarks(lines[..r.used]);
    } else if OpensQuote(line) {
      forall l { InQuoteIsStartsWith(l); }
      QuoteMarks(lines[..r.used]);
    } else {
      assert lines[..1] == [line];
    }
  }

  lemma SingleLineMarks(lines: seq<string>)
    requires lines != []
    ensures TotalAngles(lines[..1]) == Angles(lines[0])
  {
    assert lines[..1][1..] == [];
  }

  lemma HeadingMarks(line: string)
    requires MatchHeading(line).SomeHeading?
    requires WellFormed(Heading(MatchHeading(line).level, MatchHeading(line).content))
    ensures TotalAngles(BlockLines(Heading(MatchHeading(line).level, MatchHeading(line).content))) <= Angles(line)
  {
    hide MatchHeading;
    MatchHeadingFacts(line);
    var m := MatchHeading(line);
    var p: nat, q: nat :| p <= q <= |line| && m.content == line[p..q];
    MarksOfSlice(line, p, q);
    var printed := Dom.Repeat('#', m.level) + " " + m.content;
    NoMarks(Dom.Repeat('#', m.level));
    NoMarks(" ");
    assert [printed][1..] == [];
  }

  lemma DocLinesMarks(blocks: seq<Block>)
    requires blocks != [] && AllWellFormed(blocks)
    ensures TotalAngles(DocLines(blocks)) == TotalAngles(BlockLines(blocks[0])) + TotalAngles(DocLines(blocks[1..]))
  {
    hide BlockLines, WellFormed, Angles;
    EmptyMarks();
    if |blocks| > 1 {
      TotalAnglesConcat(BlockLines(blocks[0]) + [""], DocLines(blocks[1..]));
      TotalAnglesConcat(BlockLines(blocks[0]), [""]);
    }
  }

  /** Printing `blocks` takes at most the quote marks of `lines`, and fewer when some quote does not survive. */
  ghost predicate PrintBound(blocks: seq<Block>, lines: seq<string>) {
    && AllWellFormed(blocks)
    && TotalAngles(DocLines(blocks)) <= TotalAngles(lines)
    && (!AllSurvive(blocks) ==> TotalAngles(DocLines(blocks)) < TotalAngles(lines))
  }

  lemma CombineMarks(b: Block, rest: seq<Block>, first: seq<string>, others: seq<string>)
    requires WellFormed(b) && PrintBound(rest, others)
    requires TotalAngles(BlockLines(b)) <= TotalAngles(first)
    requires !Survives(b) ==> TotalAngles(BlockLines(b)) < TotalAngles(first)
    ensures PrintBound([b] + rest, first + others)
  {
    hide TotalAngles, DocLines, BlockLines, WellFormed, Survives;
    var blocks := [b] + rest;
    assert blocks[0] == b && blocks[1..] == rest;
    DocLinesMarks(blocks);
    TotalAnglesConcat(first, others);
    if Survives(b) && AllSurvive(rest) {
      forall k | 0 <= k < |blocks|
        ensures Survives(blocks[k])
      {
        assert k > 0 ==> blocks[k] == rest[k - 1];
      }
    }
  }

  lemma BlankLineMarks(blocks: seq<Block>, lines: seq<string>)
    requires lines != [] && PrintBound(blocks, lines[1..])
    ensures PrintBound(blocks, lines)
  {
    hide DocLines, WellFormed, Survives;
  }

  /** A whole document: printing its parse never adds a quote mark, and loses one as soon as a quote does not survive. */
  lemma {:induction false} DocumentMarks(lines: seq<string>)
    requires Clean(lines, '\n')
    ensures PrintBound(ParseLines(lines), lines)
    decreases |lines|
  {
    hide IsBlank, NextBlock, BlockLines, PrintBound, WellFormed, Survives, TotalAngles, Clean;
    CleanSlices(lines);
    if lines == [] {
      EmptyBound();
    } else if IsBlank(lines[0]) {
      DocumentMarks(lines[1..]);
      BlankLineMarks(ParseLines(lines[1..]), lines);
    } else {
      NextBlockMarks(lines);
      var used := NextBlock(lines).used;
      DocumentMarks(lines[used..]);
      CombineMarks(NextBlock(lines).block, ParseLines(lines[used..]), lines[..used], lines[used..]);
      assert lines == lines[..used] + lines[used..];
    }
  }

  lemma EmptyBound()
    ensures PrintBound([], [])
  {
    EmptyMarks();
  }

  lemma CleanSlices(lines: seq<string>)
    requires Clean(lines, '\n')
    ensures forall n :: 0 <= n <= |lines| ==> Clean(lines[n..], '\n')
  {
  }

  lemma EmptyMarks()
    ensures TotalAngles([""]) == TotalAngles([]) == 0
  {
    assert [""][1..] == [];
  }

  // ---------------------------------------------------------------------------
  // Main results
  // ---------------------------------------------------------------------------

  /**
   * Block round trip, exactly: for every text, serializing the elements of its parsed blocks and parsing the result
   * gives the same blocks if and only if every blockquote among them is one non-empty line.
   */
  lemma BlockRoundTripExact(text: string)
    ensures var blocks := ParseBlocks(text);
            ParseBlocks(Dom.SerializeDocument(BlockNodes(blocks))) == blocks <==> AllSurvive(blocks)
  {
    var lines := Split(text, '\n');
    var blocks := ParseBlocks(text);
    SplitIsClean(text, '\n');
    ParsedBlocksAreWellFormed(lines);
    PrintedLines(blocks);
    var printed := DocLines(blocks);
    SplitIsClean(Dom.SerializeDocument(BlockNodes(blocks)), '\n');
    if AllSurvive(blocks) {
      DocumentReparses(blocks);
    }
    if ParseLines(printed) == blocks {
      DocumentMarks(printed);
    }
  }

  /** The same statement for blocks built by hand: parse after print is the identity on canonical blocks. */
  lemma CanonicalBlocksReparse(blocks: seq<Block>)
    requires AllWellFormed(blocks) && AllSurvive(blocks)
    ensures ParseBlocks(Dom.SerializeDocument(BlockNodes(blocks))) == blocks
  {
    PrintedLines(blocks);
    DocumentReparses(blocks);
  }

  lemma MarkedLinesAreClean(b: Block)
    requires WellFormed(b)
    ensures Clean(MarkedLines(b), '\n')
  {
    hide WellFormed, BlockLines, BlockText, Split;
    if b.Blockquote? {
      SplitIsClean(b.content, '\n');
    } else {
      SplitBlockText(b);
      SplitIsClean(BlockText(b), '\n');
    }
  }

  lemma {:induction false} MarkedDocumentIsClean(blocks: seq<Block>)
    requires AllWellFormed(blocks)
    ensures Clean(MarkedDocument(blocks), '\n')
  {
    hide WellFormed, MarkedLines;
    if blocks != [] {
      MarkedLinesAreClean(blocks[0]);
      MarkedDocumentIsClean(blocks[1..]);
    }
  }

  /** The parser's image, exactly: some text is parsed into the blocks if and only if they are well formed. */
  lemma CanonicalExact(blocks: seq<Block>)
    ensures AllWellFormed(blocks) <==> exists text :: ParseBlocks(text) == blocks
  {
    hide WellFormed, ParseLines, Split, Join, MarkedDocument;
    if AllWellFormed(blocks) {
      var lines := MarkedDocument(blocks);
      MarkedDocumentIsClean(blocks);
      SplitJoin(lines, '\n');
      MarkedReparses(blocks);
      assert ParseBlocks(Join(lines, "\n")) == blocks;
    }
    if text :| ParseBlocks(text) == blocks {
      SplitIsClean(text, '\n');
      ParsedBlocksAreWellFormed(Split(text, '\n'));
    }
  }
}
