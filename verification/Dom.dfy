/** The collaborative document tree and its serialization to markdown. */
module Dom {
  import opened Text
  import opened InlineMarks

  /** Elements and text nodes; a text node is the list of runs inserted into it. */
  datatype Node =
    | Run(segments: seq<Segment>)
    | Heading(level: nat, children: seq<Node>)
    | Paragraph(children: seq<Node>)
    | BulletList(children: seq<Node>)
    | OrderedList(children: seq<Node>)
    | ListItem(children: seq<Node>)
    | Blockquote(children: seq<Node>)
    | CodeBlock(language: string, children: seq<Node>)
    | HorizontalRule
    | Mention(id: nat, userId: string, displayName: string, username: string)
    | HardBreak
    | AiResponseBlock(children: seq<Node>)
    | Other(name: string, children: seq<Node>)

  /** The direct children of a node; leaves have none. */
  function Children(n: Node): seq<Node> {
    match n
    case Run(_) => []
    case HorizontalRule => []
    case Mention(_, _, _, _) => []
    case HardBreak => []
    case Heading(_, children) => children
    case Paragraph(children) => children
    case BulletList(children) => children
    case OrderedList(children) => children
    case ListItem(children) => children
    case Blockquote(children) => children
    case CodeBlock(_, children) => children
    case AiResponseBlock(children) => children
    case Other(_, children) => children
  }

  function Repeat(c: char, n: nat): string {
    seq(n, _ => c)
  }

  function Decimal(n: nat): string {
    if n < 10 then [('0' as int + n) as char] else Decimal(n / 10) + [('0' as int + n % 10) as char]
  }

  lemma {:induction false} DecimalIsDigits(n: nat)
    ensures Decimal(n) != "" && forall c :: c in Decimal(n) ==> IsDigit(c)
  {
    if n >= 10 {
      DecimalIsDigits(n / 10);
    }
  }

  function MentionText(displayName: string, username: string): string {
    "@" + if displayName != "" then displayName else username
  }

  function SerializeNode(n: Node): string
    decreases n, 1
  {
    match n
    case Run(segments) => PrintSegments(segments)
    case Heading(level, children) =>
      var shown := if level == 0 then 1 else level;
      Repeat('#', if shown < 6 then shown else 6) + " " + SerializeInline(children)
    case BulletList(children) => Join(BulletLines(children), "\n")
    case OrderedList(children) => Join(OrderedLines(children, 1), "\n")
    case Blockquote(children) => Join(QuoteLines(children), "\n")
    case CodeBlock(language, children) => "```" + language + "\n" + SerializeInline(children) + "\n```"
    case HorizontalRule => "---"
    case Paragraph(children) => SerializeInline(children)
    case Mention(_, _, displayName, username) => MentionText(displayName, username)
    case AiResponseBlock(children) => Join(NonEmptyParts(children), "\n\n")
    case ListItem(children) => SerializeInline(children)
    case Other(_, children) => SerializeInline(children)
    case HardBreak => ""
  }

  function SerializeInline(children: seq<Node>): string
    decreases children, 0
  {
    if children == [] then "" else SerializeInlineChild(children[0]) + SerializeInline(children[1..])
  }

  function SerializeInlineChild(child: Node): string
    decreases child, 0
  {
    match child
    case Run(segments) => PrintSegments(segments)
    case Mention(_, _, displayName, username) => MentionText(displayName, username)
    case HardBreak => "\n"
    case HorizontalRule => ""
    case Heading(_, children) => SerializeInline(children)
    case Paragraph(children) => SerializeInline(children)
    case BulletList(children) => SerializeInline(children)
    case OrderedList(children) => SerializeInline(children)
    case ListItem(children) => SerializeInline(children)
    case Blockquote(children) => SerializeInline(children)
    case CodeBlock(_, children) => SerializeInline(children)
    case AiResponseBlock(children) => SerializeInline(children)
    case Other(_, children) => SerializeInline(children)
  }

  function BulletLines(children: seq<Node>): seq<string>
    decreases children, 0
  {
    if children == [] then []
    else
      (if children[0].ListItem? then ["- " + SerializeListItem(children[0].children)] else [])
      + BulletLines(children[1..])
  }

  function OrderedLines(children: seq<Node>, number: nat): seq<string>
    decreases children, 0
  {
    if children == [] then []
    else if children[0].ListItem? then
      [Decimal(number) + ". " + SerializeListItem(children[0].children)] + OrderedLines(children[1..], number + 1)
    else OrderedLines(children[1..], number)
  }

  function QuoteLines(children: seq<Node>): seq<string>
    decreases children, 0
  {
    if children == [] then []
    else
      var text := SerializeNode(children[0]);
      (if text != "" then ["> " + text] else []) + QuoteLines(children[1..])
  }

  function NonEmptyParts(children: seq<Node>): seq<string>
    decreases children, 0
  {
    if children == [] then []
    else
      var text := SerializeNode(children[0]);
      (if text != "" then [text] else []) + NonEmptyParts(children[1..])
  }

  function SerializeListItem(children: seq<Node>): string
    decreases children, 2
  {
    Join(ItemParts(children), " ")
  }

  function ItemParts(children: seq<Node>): seq<string>
    decreases children, 0
  {
    if children == [] then []
    else
      var text := if children[0].Paragraph? then SerializeInline(children[0].children) else SerializeNode(children[0]);
      (if text != "" then [text] else []) + ItemParts(children[1..])
  }

  function SerializeAll(nodes: seq<Node>): seq<string> {
    if nodes == [] then [] else [SerializeNode(nodes[0])] + SerializeAll(nodes[1..])
  }

  function SerializeDocument(fragment: seq<Node>): string {
    Join(SerializeAll(fragment), "\n\n")
  }
}
