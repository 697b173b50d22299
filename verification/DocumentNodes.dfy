/**
 * Document nodes, exactly: the element that each block becomes, and how documents that were not made by the parser read:
 * headings of any level, mentions, line breaks, nested content, replies still being streamed.
 */
module DocumentNodes {
  import opened Text
  import opened InlineMarks
  import opened Markdown
  import BlockGrammar
  import MarkdownRoundTrip
  import Dom

  // ---------------------------------------------------------------------------
  // The element of a block
  // ---------------------------------------------------------------------------

  /** A text node with the leftmost segments of the content, or without any run when there is none. */
  ghost predicate IsFormatted(n: Dom.Node, content: string) {
    n.Run? && if content == "" then n.segments == [] else Leftmost(n.segments, content, 0)
  }

  ghost predicate IsLine(n: Dom.Node, content: string) {
    n.Paragraph? && |n.children| == 1 && IsFormatted(n.children[0], content)
  }

  /** One item for each text, in order, with its paragraph. */
  ghost predicate AreItems(nodes: seq<Dom.Node>, items: seq<string>) {
    && |nodes| == |items|
    && forall k :: 0 <= k < |items| ==>
         nodes[k].ListItem? && |nodes[k].children| == 1 && IsLine(nodes[k].children[0], items[k])
  }

  /** A text node that holds the text as it is, without marks. */
  predicate IsUnformatted(n: Dom.Node, content: string) {
    n.Run? && if content == "" then n.segments == [] else n.segments == [Segment(content, Marks(false, false, false, false))]
  }

  ghost predicate IsElement(n: Dom.Node, block: Block) {
    match block
    case Heading(level, content) =>
      n.Heading? && n.level == level && |n.children| == 1 && IsFormatted(n.children[0], content)
    case Paragraph(content) => IsLine(n, content)
    case BulletList(items) => n.BulletList? && AreItems(n.children, items)
    case OrderedList(items) => n.OrderedList? && AreItems(n.children, items)
    case Blockquote(content) => n.Blockquote? && |n.children| == 1 && IsLine(n.children[0], content)
    case CodeBlock(language, content) =>
      n.CodeBlock? && n.language == language && |n.children| == 1 && IsUnformatted(n.children[0], content)
    case HorizontalRule => n.HorizontalRule?
  }

  lemma FormattedExact(n: Dom.Node, content: string)
    ensures IsFormatted(n, content) <==> n == Dom.Run(FormattedText(content))
  {
    hide ParseInline;
    if content != "" && n.Run? {
      InlineExact(content, n.segments);
    }
  }

  lemma LineExact(n: Dom.Node, content: string)
    ensures IsLine(n, content) <==> n == Line(content)
  {
    hide IsFormatted, FormattedText;
    if n.Paragraph? && |n.children| == 1 {
      FormattedExact(n.children[0], content);
      assert n.children == [n.children[0]];
    }
    FormattedExact(Dom.Run(FormattedText(content)), content);
  }

  lemma {:induction false} ItemsExact(nodes: seq<Dom.Node>, items: seq<string>)
    ensures AreItems(nodes, items) <==> nodes == ItemNodes(items)
  {
    hide IsLine, Line;
    if nodes != [] && items != [] {
      ItemsExact(nodes[1..], items[1..]);
      FirstItem(nodes, items);
      var item := Dom.ListItem([Line(items[0])]);
      assert nodes == [nodes[0]] + nodes[1..];
      assert ([item] + ItemNodes(items[1..]))[1..] == ItemNodes(items[1..]);
    }
  }

  lemma FirstItem(nodes: seq<Dom.Node>, items: seq<string>)
    requires nodes != [] && items != []
    ensures AreItems(nodes, items) <==> nodes[0] == Dom.ListItem([Line(items[0])]) && AreItems(nodes[1..], items[1..])
  {
    hide IsLine, Line;
    ItemExact(nodes[0], items[0]);
    if nodes[0] == Dom.ListItem([Line(items[0])]) && AreItems(nodes[1..], items[1..]) {
      forall k | 0 <= k < |items|
        ensures nodes[k].ListItem? && |nodes[k].children| == 1 && IsLine(nodes[k].children[0], items[k])
      {
        if k > 0 {
          assert nodes[k] == nodes[1..][k - 1] && items[k] == items[1..][k - 1];
        }
      }
    }
  }

  lemma ItemExact(n: Dom.Node, item: string)
    ensures n.ListItem? && |n.children| == 1 && IsLine(n.children[0], item) <==> n == Dom.ListItem([Line(item)])
  {
    hide IsLine, Line;
    if n.ListItem? && |n.children| == 1 {
      LineExact(n.children[0], item);
      assert n.children == [n.children[0]];
    }
    LineExact(Line(item), item);
  }

  lemma OnlyChild(children: seq<Dom.Node>, child: Dom.Node)
    ensures children == [child] <==> |children| == 1 && children[0] == child
  {
  }

  /** Each block becomes the one element that the description of its kind admits. */
  lemma ElementExact(n: Dom.Node, block: Block)
    ensures IsElement(n, block) <==> n == BlockNode(block)
  {
    hide IsFormatted, IsLine, AreItems, Line, ItemNodes, FormattedText;
    var children := Dom.Children(n);
    match block
    case Heading(level, content) =>
      OnlyChild(children, Dom.Run(FormattedText(content)));
      if children != [] {
        FormattedExact(children[0], content);
      }
    case Paragraph(content) => LineExact(n, content);
    case BulletList(items) => ItemsExact(children, items);
    case OrderedList(items) => ItemsExact(children, items);
    case Blockquote(content) =>
      OnlyChild(children, Line(content));
      if children != [] {
        LineExact(children[0], content);
      }
    case CodeBlock(language, content) => OnlyChild(children, Verbatim(content));
    case HorizontalRule =>
  }

  /** The elements of a document are those of its blocks, one for each, in order. */
  lemma {:induction false} ElementsExact(nodes: seq<Dom.Node>, blocks: seq<Block>)
    ensures nodes == BlockNodes(blocks) <==>
            |nodes| == |blocks| && forall k :: 0 <= k < |blocks| ==> IsElement(nodes[k], blocks[k])
  {
    hide IsElement, BlockNode;
    BlockNodesAt(blocks);
    forall k | 0 <= k < |blocks| && k < |nodes|
      ensures IsElement(nodes[k], blocks[k]) <==> nodes[k] == BlockNode(blocks[k])
    {
      ElementExact(nodes[k], blocks[k]);
    }
  }

  lemma {:induction false} BlockNodesAt(blocks: seq<Block>)
    ensures |BlockNodes(blocks)| == |blocks|
    ensures forall k :: 0 <= k < |blocks| ==> BlockNodes(blocks)[k] == BlockNode(blocks[k])
  {
    hide BlockNode;
    if blocks != [] {
      BlockNodesAt(blocks[1..]);
      var rest := BlockNodes(blocks[1..]);
      forall k | 0 <= k < |blocks|
        ensures BlockNodes(blocks)[k] == BlockNode(blocks[k])
      {
        if k > 0 {
          assert rest[k - 1] == BlockNode(blocks[1..][k - 1]);
        }
      }
    }
  }

  // ---------------------------------------------------------------------------
  // How documents read
  // ---------------------------------------------------------------------------

  /** A heading of any level reads as one of the levels 1 to 6, the nearest to its own. */
  lemma HeadingLevels(level: nat, content: string)
    requires content != "" && !IsSpace(content[0]) && forall c :: c in content ==> !IsLineTerminator(c)
    ensures var shown := if level < 1 then 1 else if level > 6 then 6 else level;
            ParseBlocks(Dom.SerializeNode(Dom.Heading(level, [Dom.Run(FormattedText(content))]))) == [Heading(shown, content)]
  {
    hide ParseBlocks, FormattedText, Dom.SerializeInline, IsSpace, IsLineTerminator;
    MarkdownRoundTrip.SerializeLine(content);
    BlockGrammar.HeadingText(if level < 1 then 1 else if level > 6 then 6 else level, content);
  }

  /** Inline content reads from left to right, child by child. */
  lemma {:induction false} InlineReads(a: seq<Dom.Node>, b: seq<Dom.Node>)
    ensures Dom.SerializeInline(a + b) == Dom.SerializeInline(a) + Dom.SerializeInline(b)
  {
    hide Dom.SerializeInlineChild;
    if a == [] {
      assert a + b == b;
    } else {
      InlineReads(a[1..], b);
      assert (a + b)[0] == a[0] && (a + b)[1..] == a[1..] + b;
      ConcatAssociates(Dom.SerializeInlineChild(a[0]), Dom.SerializeInline(a[1..]), Dom.SerializeInline(b));
    }
  }

  /** One child: marked text, the name of a mention, a line break, and whatever is nested in any other element. */
  lemma InlineChildReads(n: Dom.Node)
    ensures var text := Dom.SerializeInline([n]);
            if n.Run? then text == PrintSegments(n.segments)
            else if n.Mention? then text == "@" + (if n.displayName == "" then n.username else n.displayName)
            else if n.HardBreak? then text == "\n"
            else text == Dom.SerializeInline(Dom.Children(n))
  {
    hide PrintSegments;
    assert [n][1..] == [];
    var text := Dom.SerializeInlineChild(n);
    assert Dom.SerializeInline([n]) == text + "";
    assert Dom.SerializeInline([]) == "";
  }

  /** A reply still being streamed reads as the text that has arrived. */
  lemma StreamedReplyReads(text: string)
    ensures Dom.SerializeNode(Dom.AiResponseBlock([Dom.Paragraph([Verbatim(text)])])) == text
  {
    hide Verbatim, Dom.SerializeInline;
    MarkdownRoundTrip.SerializeVerbatim(text);
    var paragraph := Dom.Paragraph([Verbatim(text)]);
    assert [paragraph][1..] == [];
    assert Dom.NonEmptyParts([paragraph]) == if text != "" then [text] else [];
  }

  /** The wrapper around nodes none of which is empty does not show: they read as if they stood there themselves. */
  lemma {:induction false} WrapperIsTransparent(nodes: seq<Dom.Node>)
    requires forall k :: 0 <= k < |nodes| ==> Dom.SerializeNode(nodes[k]) != ""
    ensures Dom.NonEmptyParts(nodes) == Dom.SerializeAll(nodes)
    ensures Dom.SerializeNode(Dom.AiResponseBlock(nodes)) == Dom.SerializeDocument(nodes)
  {
    if nodes != [] {
      WrapperIsTransparent(nodes[1..]);
    }
  }

  /** Nodes without a form of their own read as their inline content; a mention reads as its name wherever it stands. */
  lemma PlainNodesRead(n: Dom.Node)
    ensures var text := Dom.SerializeNode(n);
            && (n.Paragraph? || n.ListItem? || n.Other? || n.HardBreak? ==> text == Dom.SerializeInline(Dom.Children(n)))
            && (n.Run? || n.Mention? ==> text == Dom.SerializeInline([n]))
            && (n.HorizontalRule? ==> text == "---")
  {
    hide PrintSegments;
    assert [n][1..] == [];
    assert n.HardBreak? ==> Dom.SerializeInline(Dom.Children(n)) == "";
    assert Dom.SerializeInline([n]) == Dom.SerializeInlineChild(n) + "";
  }

  /** Children of a quote, of a list item and of the wrapper read one by one; the empty ones do not show. */
  lemma PartRead(n: Dom.Node)
    ensures var text := Dom.SerializeNode(n);
            && Dom.QuoteLines([n]) == (if text == "" then [] else ["> " + text])
            && Dom.ItemParts([n]) == (if text == "" then [] else [text])
            && Dom.NonEmptyParts([n]) == (if text == "" then [] else [text])
  {
    hide Dom.SerializeNode;
    assert [n][1..] == [];
    if n.Paragraph? {
      PlainNodesRead(n);
    }
  }

  lemma {:induction false} QuoteLinesConcat(a: seq<Dom.Node>, b: seq<Dom.Node>)
    ensures Dom.QuoteLines(a + b) == Dom.QuoteLines(a) + Dom.QuoteLines(b)
  {
    hide Dom.SerializeNode;
    if a == [] {
      assert a + b == b;
    } else {
      QuoteLinesConcat(a[1..], b);
      assert (a + b)[0] == a[0] && (a + b)[1..] == a[1..] + b;
      var text := Dom.SerializeNode(a[0]);
      var first := if text != "" then ["> " + text] else [];
      assert Dom.QuoteLines(a) == first + Dom.QuoteLines(a[1..]);
      ConcatAssociates(first, Dom.QuoteLines(a[1..]), Dom.QuoteLines(b));
    }
  }

  lemma {:induction false} ItemPartsConcat(a: seq<Dom.Node>, b: seq<Dom.Node>)
    ensures Dom.ItemParts(a + b) == Dom.ItemParts(a) + Dom.ItemParts(b)
  {
    hide Dom.SerializeNode, Dom.SerializeInline;
    if a == [] {
      assert a + b == b;
    } else {
      ItemPartsConcat(a[1..], b);
      assert (a + b)[0] == a[0] && (a + b)[1..] == a[1..] + b;
      var text := if a[0].Paragraph? then Dom.SerializeInline(a[0].children) else Dom.SerializeNode(a[0]);
      var first := if text != "" then [text] else [];
      assert Dom.ItemParts(a) == first + Dom.ItemParts(a[1..]);
      ConcatAssociates(first, Dom.ItemParts(a[1..]), Dom.ItemParts(b));
    }
  }

  lemma {:induction false} NonEmptyPartsConcat(a: seq<Dom.Node>, b: seq<Dom.Node>)
    ensures Dom.NonEmptyParts(a + b) == Dom.NonEmptyParts(a) + Dom.NonEmptyParts(b)
  {
    hide Dom.SerializeNode, Dom.SerializeInline;
    if a == [] {
      assert a + b == b;
    } else {
      NonEmptyPartsConcat(a[1..], b);
      assert (a + b)[0] == a[0] && (a + b)[1..] == a[1..] + b;
      var text := Dom.SerializeNode(a[0]);
      var first := if text != "" then [text] else [];
      assert Dom.NonEmptyParts(a) == first + Dom.NonEmptyParts(a[1..]);
      ConcatAssociates(first, Dom.NonEmptyParts(a[1..]), Dom.NonEmptyParts(b));
    }
  }

  lemma PartsRead(a: seq<Dom.Node>, b: seq<Dom.Node>)
    ensures Dom.QuoteLines(a + b) == Dom.QuoteLines(a) + Dom.QuoteLines(b)
    ensures Dom.ItemParts(a + b) == Dom.ItemParts(a) + Dom.ItemParts(b)
    ensures Dom.NonEmptyParts(a + b) == Dom.NonEmptyParts(a) + Dom.NonEmptyParts(b)
  {
    hide *;
    QuoteLinesConcat(a, b);
    ItemPartsConcat(a, b);
    NonEmptyPartsConcat(a, b);
  }

  function Paragraphs(texts: seq<string>): (r: seq<Dom.Node>)
    ensures |r| == |texts|
  {
    seq(|texts|, k requires 0 <= k < |texts| => Line(texts[k]))
  }

  function Quoted(texts: seq<string>): seq<string> {
    seq(|texts|, k requires 0 <= k < |texts| => "> " + texts[k])
  }

  /** Paragraphs that are not empty: those of a list item share its line, those of a quote have one each. */
  lemma ParagraphsRead(texts: seq<string>)
    requires "" !in texts
    ensures Dom.SerializeListItem(Paragraphs(texts)) == Join(texts, " ")
    ensures Dom.SerializeNode(Dom.Blockquote(Paragraphs(texts))) == Join(Quoted(texts), "\n")
  {
    hide Join, Paragraphs, Quoted, Dom.ItemParts, Dom.QuoteLines;
    ParagraphParts(texts);
  }

  lemma {:induction false} ParagraphParts(texts: seq<string>)
    requires "" !in texts
    ensures Dom.ItemParts(Paragraphs(texts)) == texts && Dom.QuoteLines(Paragraphs(texts)) == Quoted(texts)
  {
    hide Line, Dom.SerializeNode;
    if texts != [] {
      assert texts[0] in texts && forall t :: t in texts[1..] ==> t in texts;
      ParagraphParts(texts[1..]);
      var first, rest := Line(texts[0]), Paragraphs(texts[1..]);
      assert Paragraphs(texts) == [first] + rest;
      assert Quoted(texts) == ["> " + texts[0]] + Quoted(texts[1..]);
      assert texts == [texts[0]] + texts[1..];
      MarkdownRoundTrip.SerializeLine(texts[0]);
      hide Dom.ItemParts, Dom.QuoteLines;
      PartRead(first);
      PartsRead([first], rest);
    }
  }

  /** In a list only the items are shown and counted: a child of another kind changes nothing, wherever it stands. */
  lemma {:induction false} OnlyItemsCount(a: seq<Dom.Node>, other: Dom.Node, b: seq<Dom.Node>, number: nat)
    requires !other.ListItem?
    ensures Dom.BulletLines(a + [other] + b) == Dom.BulletLines(a + b)
    ensures Dom.OrderedLines(a + [other] + b, number) == Dom.OrderedLines(a + b, number)
  {
    hide Dom.SerializeListItem;
    if a == [] {
      assert a + [other] + b == [other] + b && ([other] + b)[1..] == b && a + b == b;
    } else {
      var whole := a + [other] + b;
      assert whole[0] == a[0] && whole[1..] == a[1..] + [other] + b;
      assert (a + b)[0] == a[0] && (a + b)[1..] == a[1..] + b;
      OnlyItemsCount(a[1..], other, b, if a[0].ListItem? then number + 1 else number);
    }
  }

  /** Items are numbered in decimal, one by one. */
  lemma ItemsAreNumbered(items: seq<string>, number: nat, k: nat)
    requires k < |items|
    ensures |Dom.OrderedLines(ItemNodes(items), number)| == |items|
    ensures Dom.OrderedLines(ItemNodes(items), number)[k] == Dom.Decimal(number + k) + ". " + items[k]
    ensures Writes(Dom.Decimal(number + k), number + k)
  {
    hide *;
    MarkdownRoundTrip.SerializeNumbered(items, number);
    NumberedAt(items, number, k);
    DecimalWrites(number + k);
  }

  lemma {:induction false} NumberedAt(items: seq<string>, number: nat, k: nat)
    requires k < |items|
    ensures var lines := MarkdownRoundTrip.NumberedLines(items, number);
            |lines| == |items| && lines[k] == Dom.Decimal(number + k) + ". " + items[k]
  {
    hide Dom.Decimal;
    if |items| > 1 {
      NumberedAt(items[1..], number + 1, if k > 0 then k - 1 else 0);
    }
  }

  /** The decimal numeral of a number, without leading zeros. */
  ghost predicate Writes(digits: string, n: nat) {
    AllDigits(digits) && ParseInt(digits) == n && digits != "" && (digits[0] == '0' ==> n == 0)
  }

  lemma {:induction false} DecimalWrites(n: nat)
    ensures Writes(Dom.Decimal(n), n)
  {
    var digits := Dom.Decimal(n);
    if n >= 10 {
      DecimalWrites(n / 10);
      assert digits[..|digits| - 1] == Dom.Decimal(n / 10);
    } else {
      assert digits[..0] == "";
    }
  }
}
