/** Markdown blocks: the line-based parser, and the document nodes that blocks become. */
module Markdown {
  import opened Text
  import opened InlineMarks
  import Dom

  datatype Block =
    | Heading(level: nat, content: string)
    | Paragraph(content: string)
    | BulletList(items: seq<string>)
    | OrderedList(items: seq<string>)
    | Blockquote(content: string)
    | CodeBlock(language: string, content: string)
    | HorizontalRule

  // ---------------------------------------------------------------------------
  // Line patterns
  // ---------------------------------------------------------------------------

  predicate IsBlank(line: string) {
    Trim(line) == ""
  }

  predicate IsFence(line: string) {
    StartsWith(Trim(line), "```")
  }

  predicate IsRule(line: string) {
    var t := Trim(line);
    |t| >= 3 && t[0] in "-*_" && forall k :: 0 <= k < |t| ==> t[k] == t[0]
  }

  /** First index at or after `i` that does not hold white space. */
  function SkipSpaces(s: string, i: nat): (j: nat)
    requires i <= |s|
    ensures i <= j <= |s|
    decreases |s| - i
  {
    if i < |s| && IsSpace(s[i]) then SkipSpaces(s, i + 1) else i
  }

  /** First index at or after `i` that does not hold a digit. */
  function SkipDigits(s: string, i: nat): (j: nat)
    requires i <= |s|
    ensures i <= j <= |s|
    decreases |s| - i
  {
    if i < |s| && IsDigit(s[i]) then SkipDigits(s, i + 1) else i
  }

  /** First index at or after `i` that does not hold `#`. */
  function SkipHashes(s: string, i: nat): (j: nat)
    requires i <= |s|
    ensures i <= j <= |s|
    decreases |s| - i
  {
    if i < |s| && s[i] == '#' then SkipHashes(s, i + 1) else i
  }

  /** End of the run at `i` that `.+` takes: up to a line terminator or the end. */
  function DotRun(s: string, i: nat): (j: nat)
    requires i <= |s|
    ensures i <= j <= |s|
    decreases |s| - i
  {
    if i < |s| && !IsLineTerminator(s[i]) then DotRun(s, i + 1) else i
  }

  /** The last index below `i` and at least `lo` that holds no line terminator, or `lo - 1` when there is none. */
  function LastDot(s: string, lo: nat, i: nat): (j: int)
    requires lo <= i <= |s|
    ensures lo - 1 <= j < i || j == lo - 1
    decreases i
  {
    if i == lo then lo - 1
    else if !IsLineTerminator(s[i - 1]) then i - 1
    else LastDot(s, lo, i - 1)
  }

  datatype HeadingMatch = NoHeading | SomeHeading(level: nat, content: string)

  /**
   * One to six `#`, white space, then content. White space is matched greedily; when nothing follows it, the matcher
   * gives back just enough for the content to be the last white space character that is not a line terminator.
   */
  function MatchHeading(line: string): HeadingMatch {
    var h := SkipHashes(line, 0);
    if 1 <= h <= 6 && h < |line| && IsSpace(line[h]) then
      var w := SkipSpaces(line, h);
      if w < |line| then SomeHeading(h, line[w..DotRun(line, w)])
      else
        var p := LastDot(line, h + 1, w);
        if p > h then SomeHeading(h, line[p..DotRun(line, p)]) else NoHeading
    else NoHeading
  }

  predicate IsBullet(line: string) {
    var w := SkipSpaces(line, 0);
    w + 1 < |line| && line[w] in "-*+" && IsSpace(line[w + 1])
  }

  function BulletRest(line: string): string {
    if IsBullet(line) then line[SkipSpaces(line, 0) + 2..] else line
  }

  predicate IsOrdered(line: string) {
    var w := SkipSpaces(line, 0);
    var e := SkipDigits(line, w);
    w < e && e + 1 < |line| && line[e] == '.' && IsSpace(line[e + 1])
  }

  function OrderedRest(line: string): string {
    if IsOrdered(line) then line[SkipDigits(line, SkipSpaces(line, 0)) + 2..] else line
  }

  predicate OpensQuote(line: string) {
    StartsWith(line, "> ")
  }

  predicate InQuote(line: string) {
    StartsWith(line, "> ") || StartsWith(line, ">")
  }

  function QuoteRest(line: string): string {
    if StartsWith(line, ">") then
      if |line| > 1 && IsSpace(line[1]) then line[2..] else line[1..]
    else line
  }

  predicate NotFence(line: string) {
    !IsFence(line)
  }

  /** None of the block patterns: the line is a paragraph of its own. */
  predicate IsPlainLine(line: string) {
    && !IsBlank(line) && !IsFence(line) && MatchHeading(line).NoHeading? && !IsRule(line)
    && !IsBullet(line) && !IsOrdered(line) && !OpensQuote(line)
  }

  // ---------------------------------------------------------------------------
  // Parsing lines
  // ---------------------------------------------------------------------------

  /** End of the longest run of lines from `i` on that satisfy `p`. */
  function RunOf(lines: seq<string>, i: nat, p: string -> bool): (j: nat)
    requires i <= |lines|
    ensures i <= j <= |lines|
    ensures forall k :: i <= k < j ==> p(lines[k])
    ensures j < |lines| ==> !p(lines[j])
    decreases |lines| - i
  {
    if i < |lines| && p(lines[i]) then RunOf(lines, i + 1, p) else i
  }

  function MapLines(lines: seq<string>, f: string -> string): (r: seq<string>)
    ensures |r| == |lines|
    ensures forall k :: 0 <= k < |lines| ==> r[k] == f(lines[k])
  {
    seq(|lines|, k requires 0 <= k < |lines| => f(lines[k]))
  }

  datatype Parsed = Parsed(block: Block, used: nat)

  /** The fence that opens at the first line: verbatim lines up to a closing fence or the end of the text. */
  function FencedBlock(lines: seq<string>): (r: Parsed)
    requires lines != []
    ensures 1 <= r.used <= |lines|
  {
    var line := Trim(lines[0]);
    var language := if |line| >= 3 then Trim(line[3..]) else "";
    var n := RunOf(lines, 1, NotFence);
    Parsed(CodeBlock(language, Join(lines[1..n], "\n")), if n < |lines| then n + 1 else n)
  }

  /** The block that starts at the first line, which is not blank, and how many lines it takes. */
  function NextBlock(lines: seq<string>): (r: Parsed)
    requires lines != []
    ensures 1 <= r.used <= |lines|
  {
    var line := lines[0];
    if IsFence(line) then FencedBlock(lines)
    else if MatchHeading(line).SomeHeading? then
      Parsed(Heading(MatchHeading(line).level, MatchHeading(line).content), 1)
    else if IsRule(line) then Parsed(HorizontalRule, 1)
    else if IsBullet(line) then
      var n := RunOf(lines, 0, IsBullet);
      Parsed(BulletList(MapLines(lines[..n], BulletRest)), n)
    else if IsOrdered(line) then
      var n := RunOf(lines, 0, IsOrdered);
      Parsed(OrderedList(MapLines(lines[..n], OrderedRest)), n)
    else if OpensQuote(line) then
      var n := RunOf(lines, 0, InQuote);
      Parsed(Blockquote(Join(MapLines(lines[..n], QuoteRest), "\n")), n)
    else Parsed(Paragraph(line), 1)
  }

  function ParseLines(lines: seq<string>): seq<Block>
    decreases |lines|
  {
    if lines == [] then []
    else if IsBlank(lines[0]) then ParseLines(lines[1..])
    else [NextBlock(lines).block] + ParseLines(lines[NextBlock(lines).used..])
  }

  function ParseBlocks(text: string): seq<Block> {
    ParseLines(Split(text, '\n'))
  }

  lemma RunIs(lines: seq<string>, i: nat, p: string -> bool, j: nat)
    requires i <= j <= |lines|
    requires forall k :: i <= k < j ==> p(lines[k])
    requires j < |lines| ==> !p(lines[j])
    ensures RunOf(lines, i, p) == j
  {
  }

  /** A run found in the lines is the run found in what is left of them. */
  lemma RunOfRest(lines: seq<string>, start: nat, i: nat, p: string -> bool)
    requires start <= i <= |lines|
    ensures RunOf(lines[start..], i - start, p) == RunOf(lines, i, p) - start
  {
    hide RunOf;
    var rest, j := lines[start..], RunOf(lines, i, p);
    forall k | i - start <= k < j - start
      ensures p(rest[k])
    {
      assert rest[k] == lines[start + k];
    }
    RunIs(rest, i - start, p, j - start);
  }

  /** Collect a run of lines that satisfy `p`, each stripped by `f`. */
  method CollectRun(lines: seq<string>, start: nat, p: string -> bool, f: string -> string)
    returns (collected: seq<string>, i: nat)
    requires start <= |lines|
    ensures i == RunOf(lines, start, p)
    ensures collected == MapLines(lines[start..i], f)
  {
    collected, i := [], start;
    while i < |lines| && p(lines[i])
      invariant start <= i <= |lines|
      invariant forall k :: start <= k < i ==> p(lines[k])
      invariant |collected| == i - start
      invariant forall k :: 0 <= k < i - start ==> collected[k] == f(lines[start + k])
    {
      collected := collected + [f(lines[i])];
      i := i + 1;
    }
    RunIs(lines, start, p, i);
  }

  /** The same, told of the lines from `start` on. */
  method CollectFrom(lines: seq<string>, start: nat, p: string -> bool, f: string -> string)
    returns (collected: seq<string>, i: nat)
    requires start <= |lines|
    ensures i == start + RunOf(lines[start..], 0, p) <= |lines|
    ensures collected == MapLines(lines[start..][..i - start], f)
  {
    collected, i := CollectRun(lines, start, p, f);
    RunOfRest(lines, start, start, p);
    assert lines[start..][..i - start] == lines[start..i];
  }

  /** The branches of the parser at a line that is not blank: the block and the index after it. */
  method TakeBlock(lines: seq<string>, start: nat) returns (block: Block, i: nat)
    requires start < |lines|
    ensures i == start + NextBlock(lines[start..]).used <= |lines|
    ensures block == NextBlock(lines[start..]).block
  {
    hide IsFence, MatchHeading, IsRule, IsBullet, IsOrdered, OpensQuote, InQuote, BulletRest, OrderedRest, QuoteRest, RunOf;
    var line := lines[start];
    ghost var rest := lines[start..];
    i := start;
    if IsFence(line) {
      block, i := TakeFence(lines, start);
      return;
    }
    var heading := MatchHeading(line);
    if heading.SomeHeading? {
      return Heading(heading.level, heading.content), i + 1;
    }
    if IsRule(line) {
      return HorizontalRule, i + 1;
    }
    if IsBullet(line) {
      var items;
      items, i := CollectFrom(lines, i, IsBullet, BulletRest);
      return BulletList(items), i;
    }
    if IsOrdered(line) {
      var items;
      items, i := CollectFrom(lines, i, IsOrdered, OrderedRest);
      return OrderedList(items), i;
    }
    if OpensQuote(line) {
      var quoteLines;
      quoteLines, i := CollectFrom(lines, i, InQuote, QuoteRest);
      return Blockquote(Join(quoteLines, "\n")), i;
    }
    return Paragraph(line), i + 1;
  }

  method TakeFence(lines: seq<string>, start: nat) returns (block: Block, i: nat)
    requires start < |lines| && IsFence(lines[start])
    ensures i == start + FencedBlock(lines[start..]).used <= |lines|
    ensures block == FencedBlock(lines[start..]).block
  {
    ghost var rest := lines[start..];
    var language := Trim(Trim(lines[start])[3..]);
    var codeLines;
    codeLines, i := CollectRun(lines, start + 1, NotFence, l => l);
    RunOfRest(lines, start, start + 1, NotFence);
    assert codeLines == lines[start + 1..i] == rest[1..i - start];
    block := CodeBlock(language, Join(codeLines, "\n"));
    if i < |lines| {
      i := i + 1;
    }
  }

  /** The parser as written: an index into the lines, blocks pushed as they are recognised. */
  method ParseMarkdownBlocks(text: string) returns (blocks: seq<Block>)
    ensures blocks == ParseBlocks(text)
  {
    var lines := Split(text, '\n');
    blocks := [];
    var i := 0;
    while i < |lines|
      invariant i <= |lines|
      invariant blocks + ParseLines(lines[i..]) == ParseLines(lines)
      decreases |lines| - i
    {
      hide IsBlank, NextBlock;
      ghost var rest := lines[i..];
      if IsBlank(lines[i]) {
        assert rest[1..] == lines[i + 1..];
        i := i + 1;
      } else {
        ghost var before, start := blocks, i;
        var block;
        block, i := TakeBlock(lines, i);
        blocks := blocks + [block];
        assert rest[i - start..] == lines[i..];
        ConcatAssociates(before, [block], ParseLines(lines[i..]));
      }
    }
  }

  // ---------------------------------------------------------------------------
  // From blocks to document nodes
  // ---------------------------------------------------------------------------

  /** A paragraph around one formatted line. */
  function Line(content: string): Dom.Node {
    Dom.Paragraph([Dom.Run(FormattedText(content))])
  }

  function ItemNodes(items: seq<string>): seq<Dom.Node> {
    if items == [] then [] else [Dom.ListItem([Line(items[0])])] + ItemNodes(items[1..])
  }

  /** A plain text node: no run at all for the empty text. */
  function Verbatim(content: string): Dom.Node {
    Dom.Run(if content == "" then [] else [Segment(content, PLAIN)])
  }

  function BlockNode(block: Block): Dom.Node {
    match block
    case Heading(level, content) => Dom.Heading(level, [Dom.Run(FormattedText(content))])
    case Paragraph(content) => Line(content)
    case BulletList(items) => Dom.BulletList(ItemNodes(items))
    case OrderedList(items) => Dom.OrderedList(ItemNodes(items))
    case Blockquote(content) => Dom.Blockquote([Line(content)])
    case CodeBlock(language, content) => Dom.CodeBlock(language, [Verbatim(content)])
    case HorizontalRule => Dom.HorizontalRule
  }

  function BlockNodes(blocks: seq<Block>): seq<Dom.Node> {
    if blocks == [] then [] else [BlockNode(blocks[0])] + BlockNodes(blocks[1..])
  }

  lemma {:induction false} BlockNodesAppend(blocks: seq<Block>, block: Block)
    ensures BlockNodes(blocks + [block]) == BlockNodes(blocks) + [BlockNode(block)]
  {
    hide BlockNode;
    if blocks == [] {
      assert blocks + [block] == [block];
    } else {
      BlockNodesAppend(blocks[1..], block);
      assert (blocks + [block])[1..] == blocks[1..] + [block];
    }
  }

  lemma {:induction false} ItemNodesAppend(items: seq<string>, item: string)
    ensures ItemNodes(items + [item]) == ItemNodes(items) + [Dom.ListItem([Line(item)])]
  {
    hide Line;
    if items == [] {
      assert items + [item] == [item];
    } else {
      ItemNodesAppend(items[1..], item);
      assert (items + [item])[1..] == items[1..] + [item];
    }
  }

  method ItemsToElements(items: seq<string>) returns (nodes: seq<Dom.Node>)
    ensures nodes == ItemNodes(items)
  {
    nodes := [];
    for idx := 0 to |items|
      invariant nodes == ItemNodes(items[..idx])
    {
      var text := CreateFormattedText(items[idx]);
      ItemNodesAppend(items[..idx], items[idx]);
      assert items[..idx + 1] == items[..idx] + [items[idx]];
      nodes := nodes + [Dom.ListItem([Dom.Paragraph([Dom.Run(text)])])];
    }
    assert items[..|items|] == items;
  }

  method BlockToElement(block: Block) returns (el: Dom.Node)
    ensures el == BlockNode(block)
  {
    match block
    case Heading(level, content) =>
      var text := CreateFormattedText(content);
      el := Dom.Heading(level, [Dom.Run(text)]);
    case Paragraph(content) =>
      var text := CreateFormattedText(content);
      el := Dom.Paragraph([Dom.Run(text)]);
    case BulletList(items) =>
      var children := ItemsToElements(items);
      el := Dom.BulletList(children);
    case OrderedList(items) =>
      var children := ItemsToElements(items);
      el := Dom.OrderedList(children);
    case Blockquote(content) =>
      var text := CreateFormattedText(content);
      el := Dom.Blockquote([Dom.Paragraph([Dom.Run(text)])]);
    case CodeBlock(language, content) => el := Dom.CodeBlock(language, [Verbatim(content)]);
    case HorizontalRule => el := Dom.HorizontalRule;
  }

  method BlocksToElements(blocks: seq<Block>) returns (elements: seq<Dom.Node>)
    ensures elements == BlockNodes(blocks)
  {
    elements := [];
    for k := 0 to |blocks|
      invariant elements == BlockNodes(blocks[..k])
    {
      var el := BlockToElement(blocks[k]);
      BlockNodesAppend(blocks[..k], blocks[k]);
      assert blocks[..k + 1] == blocks[..k] + [blocks[k]];
      elements := elements + [el];
    }
    assert blocks[..|blocks|] == blocks;
  }
}
