/** Finding the assistant mentions of a document that are ready to be answered. */
module Mentions {
  import opened Text
  import opened InlineMarks
  import Dom

  const ASSISTANT := "@ai-assistant"

  /** A top-level node of the document fragment: its identity, where it came from and its content. */
  datatype Origin = ByUser | Wrapper | Reply

  datatype Item = Item(id: nat, origin: Origin, node: Dom.Node)

  /** A mention to answer: the element and the index its paragraph had when the batch was collected. */
  datatype Pending = Pending(mention: nat, index: nat, instruction: string)

  datatype Found = NoMention | SomeMention(mention: nat, instruction: string)

  /** A mention element of the assistant whose status is not done; `done` holds the elements whose status is. */
  predicate IsPending(child: Dom.Node, done: set<nat>) {
    child.Mention? && child.userId == ASSISTANT && child.id !in done
  }

  function RunText(segs: seq<Segment>): string {
    if segs == [] then "" else segs[0].text + RunText(segs[1..])
  }

  function ExtractText(n: Dom.Node): string
    decreases n, 1
  {
    match n
    case Run(segs) => RunText(segs)
    case HorizontalRule => ""
    case Mention(_, _, _, _) => ""
    case HardBreak => ""
    case Heading(_, children) => ExtractAll(children)
    case Paragraph(children) => ExtractAll(children)
    case BulletList(children) => ExtractAll(children)
    case OrderedList(children) => ExtractAll(children)
    case ListItem(children) => ExtractAll(children)
    case Blockquote(children) => ExtractAll(children)
    case CodeBlock(_, children) => ExtractAll(children)
    case AiResponseBlock(children) => ExtractAll(children)
    case Other(_, children) => ExtractAll(children)
  }

  function ExtractAll(children: seq<Dom.Node>): string
    decreases children, 0
  {
    if children == [] then "" else ExtractText(children[0]) + ExtractAll(children[1..])
  }

  // ---------------------------------------------------------------------------
  // One paragraph
  // ---------------------------------------------------------------------------

  /** Index of the first pending mention, or the length when there is none. */
  function FirstPending(children: seq<Dom.Node>, done: set<nat>): (k: nat)
    ensures k <= |children|
    ensures k < |children| ==> IsPending(children[k], done)
    ensures forall n :: 0 <= n < k ==> !IsPending(children[n], done)
  {
    if children == [] || IsPending(children[0], done) then 0 else 1 + FirstPending(children[1..], done)
  }

  /** Index of the last pending mention below `n`, or -1. */
  function LastPending(children: seq<Dom.Node>, done: set<nat>, n: nat): (k: int)
    requires n <= |children|
    ensures -1 <= k < n
    ensures k >= 0 ==> IsPending(children[k], done)
    ensures forall m :: k < m < n ==> !IsPending(children[m], done)
  {
    if n == 0 then -1 else if IsPending(children[n - 1], done) then n - 1 else LastPending(children, done, n - 1)
  }

  /** The text of everything that is not itself a pending mention. */
  function InstructionText(children: seq<Dom.Node>, done: set<nat>): string {
    if children == [] then ""
    else (if IsPending(children[0], done) then "" else ExtractText(children[0])) + InstructionText(children[1..], done)
  }

  /** The last pending mention of a paragraph with the text after the first one, unless that text is blank. */
  function FindMention(children: seq<Dom.Node>, done: set<nat>): Found {
    var k := FirstPending(children, done);
    if k == |children| then NoMention
    else
      var instruction := Trim(InstructionText(children[k..], done));
      if instruction == "" then NoMention
      else SomeMention(children[LastPending(children, done, |children|)].id, instruction)
  }

  lemma {:induction false} InstructionAppend(children: seq<Dom.Node>, done: set<nat>, c: Dom.Node)
    ensures InstructionText(children + [c], done) ==
            InstructionText(children, done) + if IsPending(c, done) then "" else ExtractText(c)
  {
    hide IsPending, ExtractText;
    var last := if IsPending(c, done) then "" else ExtractText(c);
    if children == [] {
      assert children + [c] == [c] && [c][1..] == [];
      assert last + "" == "" + last;
    } else {
      InstructionAppend(children[1..], done, c);
      assert (children + [c])[0] == children[0] && (children + [c])[1..] == children[1..] + [c];
      hide InstructionText;
      var first := if IsPending(children[0], done) then "" else ExtractText(children[0]);
      ConcatAssociates(first, InstructionText(children[1..], done), last);
    }
  }

  lemma FirstPendingIs(children: seq<Dom.Node>, done: set<nat>, k: nat)
    requires k <= |children|
    requires k < |children| ==> IsPending(children[k], done)
    requires forall n :: 0 <= n < k ==> !IsPending(children[n], done)
    ensures FirstPending(children, done) == k
  {
    hide IsPending, FirstPending;
  }

  /** The scan as written: the last pending mention wins, text is collected from the first one on. */
  method FindAiMentionInParagraph(children: seq<Dom.Node>, done: set<nat>) returns (found: Found)
    ensures found == FindMention(children, done)
  {
    var mention, parts, collecting := 0, "", false;
    ghost var first := |children|;
    for n := 0 to |children|
      invariant 0 <= first <= |children|
      invariant if collecting then first < n && IsPending(children[first], done) else first == |children|
      invariant forall k :: 0 <= k < n && k < first ==> !IsPending(children[k], done)
      invariant collecting ==> parts == InstructionText(children[first..n], done)
      invariant collecting ==> LastPending(children, done, n) >= 0
      invariant collecting ==> mention == children[LastPending(children, done, n)].id
    {
      hide ExtractText, InstructionText;
      var child := children[n];
      if collecting {
        InstructionAppend(children[first..n], done, child);
        assert children[first..n + 1] == children[first..n] + [child];
      }
      if IsPending(child, done) {
        mention := child.id;
        if !collecting {
          first := n;
          parts := "";
          StartOfText(child, done);
          assert children[n..n + 1] == [child];
        }
        collecting := true;
      } else if collecting {
        parts := parts + ExtractText(child);
      }
    }
    FirstPendingIs(children, done, first);
    if !collecting {
      return NoMention;
    }
    assert children[first..|children|] == children[first..];
    var instruction := Trim(parts);
    if instruction == "" {
      return NoMention;
    }
    return SomeMention(mention, instruction);
  }

  lemma StartOfText(child: Dom.Node, done: set<nat>)
    requires IsPending(child, done)
    ensures InstructionText([child], done) == ""
  {
    assert [child][1..] == [];
  }

  // ---------------------------------------------------------------------------
  // The fragment
  // ---------------------------------------------------------------------------

  predicate IsEmptyParagraph(n: Dom.Node) {
    n.Paragraph? && Trim(Dom.SerializeInline(n.children)) == ""
  }

  /** What the top-level node at `i` contributes: its mention, if an empty paragraph follows. */
  function PendingAt(frag: seq<Item>, done: set<nat>, i: nat): Found
    requires i < |frag|
  {
    if frag[i].node.Run? then NoMention
    else if i + 1 < |frag| && IsEmptyParagraph(frag[i + 1].node) then FindMention(Dom.Children(frag[i].node), done)
    else NoMention
  }

  function FindPending(frag: seq<Item>, done: set<nat>, n: nat): (r: seq<Pending>)
    requires n <= |frag|
    ensures forall k :: 0 <= k < |r| ==> r[k].index < n
  {
    if n == 0 then []
    else
      var found := PendingAt(frag, done, n - 1);
      FindPending(frag, done, n - 1)
      + if found.SomeMention? then [Pending(found.mention, n - 1, found.instruction)] else []
  }

  method FindPendingAiMentions(frag: seq<Item>, done: set<nat>) returns (results: seq<Pending>)
    ensures results == FindPending(frag, done, |frag|)
  {
    results := [];
    for i := 0 to |frag|
      invariant results == FindPending(frag, done, i)
    {
      hide FindMention, IsEmptyParagraph;
      if frag[i].node.Run? {
        continue;
      }
      var info := FindAiMentionInParagraph(Dom.Children(frag[i].node), done);
      if info.NoMention? {
        continue;
      }
      if i + 1 >= |frag| {
        continue;
      }
      if !IsEmptyParagraph(frag[i + 1].node) {
        continue;
      }
      results := results + [Pending(info.mention, i, info.instruction)];
    }
  }

  /** The element `m` is a direct child of the node. */
  ghost predicate HasMention(item: Item, m: nat) {
    exists k :: 0 <= k < |Dom.Children(item.node)|
      && Dom.Children(item.node)[k].Mention? && Dom.Children(item.node)[k].id == m
  }

  /** An element has one place: no two top-level nodes hold the same mention. */
  ghost predicate UniqueMentions(frag: seq<Item>) {
    forall i, j, m :: 0 <= i < j < |frag| && HasMention(frag[i], m) ==> !HasMention(frag[j], m)
  }

  /** A collected mention is a pending element of the node at its index, and an empty paragraph follows that node. */
  ghost predicate Collected(frag: seq<Item>, done: set<nat>, p: Pending) {
    && p.index + 1 < |frag| && IsEmptyParagraph(frag[p.index + 1].node)
    && p.mention !in done && HasMention(frag[p.index], p.mention) && p.instruction != ""
  }

  lemma FoundIsCollected(frag: seq<Item>, done: set<nat>, i: nat)
    requires i < |frag| && PendingAt(frag, done, i).SomeMention?
    ensures var found := PendingAt(frag, done, i);
            Collected(frag, done, Pending(found.mention, i, found.instruction))
  {
    hide IsEmptyParagraph, InstructionText, Trim;
    var children := Dom.Children(frag[i].node);
    var k := FirstPending(children, done);
    var last := LastPending(children, done, |children|);
    assert children[last].Mention? && children[last].id == PendingAt(frag, done, i).mention;
  }

  /**
   * A top-level node is ready: an element with a pending mention, some visible text after the first one that is not
   * itself a pending mention, and an empty paragraph below.
   */
  ghost predicate Ready(frag: seq<Item>, done: set<nat>, i: nat)
    requires i < |frag|
  {
    var children := Dom.Children(frag[i].node);
    && !frag[i].node.Run? && i + 1 < |frag| && IsEmptyParagraph(frag[i + 1].node)
    && exists k :: 0 <= k < |children| && IsPending(children[k], done)
         && (forall n :: 0 <= n < k ==> !IsPending(children[n], done))
         && exists c :: c in InstructionText(children[k..], done) && !IsSpace(c)
  }

  lemma ReadyIsPendingAt(frag: seq<Item>, done: set<nat>, i: nat)
    requires i < |frag|
    ensures Ready(frag, done, i) <==> PendingAt(frag, done, i).SomeMention?
  {
    hide IsEmptyParagraph, InstructionText, Trim, IsPending, IsSpace;
    var children := Dom.Children(frag[i].node);
    var k := FirstPending(children, done);
    if k < |children| {
      TrimFacts(InstructionText(children[k..], done));
    }
  }

  lemma {:induction false} CollectedUpTo(frag: seq<Item>, done: set<nat>, n: nat, i: nat)
    requires n <= |frag| && i < |frag|
    ensures (exists p :: p in FindPending(frag, done, n) && p.index == i) <==> i < n && Ready(frag, done, i)
  {
    hide Ready, PendingAt;
    if n > 0 {
      CollectedUpTo(frag, done, n - 1, i);
      ReadyIsPendingAt(frag, done, n - 1);
      var found, before := PendingAt(frag, done, n - 1), FindPending(frag, done, n - 1);
      if found.SomeMention? {
        var last := Pending(found.mention, n - 1, found.instruction);
        assert FindPending(frag, done, n) == before + [last];
        assert last in before + [last];
        assert forall p :: p in before + [last] <==> p in before || p == last;
      } else {
        assert FindPending(frag, done, n) == before + [] == before;
      }
    }
  }

  /** A batch collects exactly the nodes that are ready. */
  lemma CollectedExact(frag: seq<Item>, done: set<nat>, i: nat)
    requires i < |frag|
    ensures (exists p :: p in FindPending(frag, done, |frag|) && p.index == i) <==> Ready(frag, done, i)
  {
    CollectedUpTo(frag, done, |frag|, i);
  }

  ghost predicate GoodBatch(frag: seq<Item>, done: set<nat>, r: seq<Pending>) {
    && (forall j, k :: 0 <= j < k < |r| ==> r[j].index < r[k].index)
    && (forall k :: 0 <= k < |r| ==> Collected(frag, done, r[k]))
  }

  lemma {:induction false} FindPendingFacts(frag: seq<Item>, done: set<nat>, n: nat)
    requires n <= |frag|
    ensures GoodBatch(frag, done, FindPending(frag, done, n))
  {
    if n > 0 {
      FindPendingFacts(frag, done, n - 1);
      var found := PendingAt(frag, done, n - 1);
      var before := FindPending(frag, done, n - 1);
      if found.SomeMention? {
        FoundIsCollected(frag, done, n - 1);
        hide PendingAt, Collected;
        GrowBatch(frag, done, before, Pending(found.mention, n - 1, found.instruction));
      } else {
        assert before + [] == before;
      }
    }
  }

  lemma GrowBatch(frag: seq<Item>, done: set<nat>, r: seq<Pending>, p: Pending)
    requires GoodBatch(frag, done, r) && Collected(frag, done, p)
    requires forall k :: 0 <= k < |r| ==> r[k].index < p.index
    ensures GoodBatch(frag, done, r + [p])
  {
    hide Collected;
  }

  /** No mention occurs twice in the batch, none is done, and indices ascend below `n`. */
  ghost predicate DistinctBatch(r: seq<Pending>, done: set<nat>, n: nat) {
    && (forall j, k :: 0 <= j < k < |r| ==> r[j].mention != r[k].mention && r[j].index < r[k].index)
    && (forall k :: 0 <= k < |r| ==> r[k].mention !in done && r[k].index + 1 < n)
  }

  /** The batch: no mention is collected twice, and none that is already done; indices ascend. */
  lemma BatchIsDistinct(frag: seq<Item>, done: set<nat>)
    requires UniqueMentions(frag)
    ensures DistinctBatch(FindPending(frag, done, |frag|), done, |frag|)
  {
    FindPendingFacts(frag, done, |frag|);
    GoodBatchIsDistinct(frag, done, FindPending(frag, done, |frag|));
  }

  lemma GoodBatchIsDistinct(frag: seq<Item>, done: set<nat>, r: seq<Pending>)
    requires UniqueMentions(frag) && GoodBatch(frag, done, r)
    ensures DistinctBatch(r, done, |frag|)
  {
    hide IsEmptyParagraph, HasMention;
    assert forall k :: 0 <= k < |r| ==> Collected(frag, done, r[k]);
  }

  // ---------------------------------------------------------------------------
  // The batch, exactly
  // ---------------------------------------------------------------------------

  /** An open question to the assistant. */
  predicate Asks(child: Dom.Node, done: set<nat>) {
    child.Mention? && child.userId == "@ai-assistant" && child.id !in done
  }

  function RunTexts(segs: seq<Segment>): seq<string> {
    seq(|segs|, k requires 0 <= k < |segs| => segs[k].text)
  }

  function Extracts(children: seq<Dom.Node>): seq<string> {
    seq(|children|, k requires 0 <= k < |children| => ExtractText(children[k]))
  }

  /** What each child adds to the instruction. */
  function Said(children: seq<Dom.Node>, done: set<nat>): seq<string> {
    seq(|children|, k requires 0 <= k < |children| =>
      if Asks(children[k], done) then "" else ExtractText(children[k]))
  }

  lemma {:induction false} RunTextExact(segs: seq<Segment>)
    ensures RunText(segs) == Join(RunTexts(segs), "")
  {
    if segs != [] {
      RunTextExact(segs[1..]);
      JoinFirst(RunTexts(segs));
      assert RunTexts(segs)[1..] == RunTexts(segs[1..]);
    }
  }

  lemma {:induction false} ExtractAllExact(children: seq<Dom.Node>)
    ensures ExtractAll(children) == Join(Extracts(children), "")
  {
    hide ExtractText;
    if children != [] {
      ExtractAllExact(children[1..]);
      JoinFirst(Extracts(children));
      assert Extracts(children)[1..] == Extracts(children[1..]);
    }
  }

  /** The text of a node: that of its runs, in document order, whatever elements they are nested in. */
  lemma ExtractExact(n: Dom.Node)
    ensures ExtractText(n) ==
            if n.Run? then Join(RunTexts(n.segments), "") else Join(Extracts(Dom.Children(n)), "")
  {
    hide Extracts, Join, RunTexts;
    if n.Run? {
      RunTextExact(n.segments);
    } else {
      ExtractAllExact(Dom.Children(n));
      NoExtracts();
    }
  }

  lemma NoExtracts()
    ensures Join(Extracts([]), "") == ""
  {
  }

  lemma {:induction false} InstructionExact(children: seq<Dom.Node>, done: set<nat>)
    ensures InstructionText(children, done) == Join(Said(children, done), "")
  {
    hide ExtractText, IsPending, Asks;
    if children != [] {
      InstructionExact(children[1..], done);
      JoinFirst(Said(children, done));
      assert Said(children, done)[1..] == Said(children[1..], done);
      AsksIsPending(children[0], done);
    }
  }

  lemma AsksIsPending(child: Dom.Node, done: set<nat>)
    ensures Asks(child, done) <==> IsPending(child, done)
  {
  }

  /** `first` and `last` are the first and the last open question among the children. */
  ghost predicate Questions(children: seq<Dom.Node>, done: set<nat>, first: nat, last: nat) {
    && first <= last < |children| && Asks(children[first], done) && Asks(children[last], done)
    && forall n :: 0 <= n < first || last < n < |children| ==> !Asks(children[n], done)
  }

  /** The last of the questions with what is said from the first one on, trimmed; there must be something visible in it. */
  ghost predicate Instructs(children: seq<Dom.Node>, done: set<nat>, mention: nat, instruction: string) {
    exists first: nat, last: nat, before, after ::
      && Questions(children, done, first, last) && children[last].id == mention
      && instruction != "" && Trimmed(instruction)
      && Between(Join(Said(children[first..], done), ""), before, instruction, after)
  }

  lemma QuestionsExact(children: seq<Dom.Node>, done: set<nat>, first: nat, last: nat)
    ensures Questions(children, done, first, last) <==>
            && FirstPending(children, done) == first < |children|
            && LastPending(children, done, |children|) == last
  {
    hide IsPending, Asks;
    forall c
      ensures Asks(c, done) <==> IsPending(c, done)
    {
      AsksIsPending(c, done);
    }
  }

  /** One paragraph, exactly. */
  lemma MentionExact(children: seq<Dom.Node>, done: set<nat>, mention: nat, instruction: string)
    ensures FindMention(children, done) == SomeMention(mention, instruction) <==>
            Instructs(children, done, mention, instruction)
  {
    hide Said, Join, InstructionText, Trim, Between, IsPending, Asks, Trimmed, Questions;
    forall first: nat, last: nat
      ensures Questions(children, done, first, last) <==>
              && FirstPending(children, done) == first < |children|
              && LastPending(children, done, |children|) == last
    {
      QuestionsExact(children, done, first, last);
    }
    var first := FirstPending(children, done);
    if first < |children| {
      assert Questions(children, done, first, LastPending(children, done, |children|));
      InstructionExact(children[first..], done);
      TrimExact(InstructionText(children[first..], done), instruction);
    }
  }

  /** An element that instructs the assistant, with nothing but white space in the paragraph below. */
  ghost predicate Collects(frag: seq<Item>, done: set<nat>, p: Pending) {
    && p.index + 1 < |frag| && !frag[p.index].node.Run?
    && frag[p.index + 1].node.Paragraph? && White(Dom.SerializeInline(frag[p.index + 1].node.children))
    && Instructs(Dom.Children(frag[p.index].node), done, p.mention, p.instruction)
  }

  lemma PendingAtExact(frag: seq<Item>, done: set<nat>, p: Pending)
    requires p.index < |frag|
    ensures PendingAt(frag, done, p.index) == SomeMention(p.mention, p.instruction) <==> Collects(frag, done, p)
  {
    hide Instructs, FindMention, Trim, IsSpace;
    MentionExact(Dom.Children(frag[p.index].node), done, p.mention, p.instruction);
    if p.index + 1 < |frag| && frag[p.index + 1].node.Paragraph? {
      TrimFacts(Dom.SerializeInline(frag[p.index + 1].node.children));
    }
  }

  lemma {:induction false} BatchUpTo(frag: seq<Item>, done: set<nat>, n: nat, p: Pending)
    requires n <= |frag|
    ensures p in FindPending(frag, done, n) <==> p.index < n && Collects(frag, done, p)
  {
    hide Collects, PendingAt;
    if n > 0 {
      BatchUpTo(frag, done, n - 1, p);
      var found, before := PendingAt(frag, done, n - 1), FindPending(frag, done, n - 1);
      if p.index == n - 1 {
        PendingAtExact(frag, done, p);
      }
      if found.SomeMention? {
        var last := Pending(found.mention, n - 1, found.instruction);
        assert FindPending(frag, done, n) == before + [last];
        assert p in before + [last] <==> p in before || p == last;
      } else {
        assert FindPending(frag, done, n) == before + [] == before;
      }
    }
  }

  /** The batch holds exactly the questions that `Collects` describes, each with its instruction, by ascending index. */
  lemma BatchExact(frag: seq<Item>, done: set<nat>)
    ensures forall p :: p in FindPending(frag, done, |frag|) <==> Collects(frag, done, p)
    ensures var r := FindPending(frag, done, |frag|); forall j, k :: 0 <= j < k < |r| ==> r[j].index < r[k].index
  {
    hide *;
    forall p
      ensures p in FindPending(frag, done, |frag|) <==> Collects(frag, done, p)
    {
      BatchUpTo(frag, done, |frag|, p);
      CollectsInside(frag, done, p);
    }
    FindPendingFacts(frag, done, |frag|);
    GoodBatchAscends(frag, done, FindPending(frag, done, |frag|));
  }

  lemma CollectsInside(frag: seq<Item>, done: set<nat>, p: Pending)
    ensures Collects(frag, done, p) ==> p.index < |frag|
  {
    hide Instructs;
  }

  lemma GoodBatchAscends(frag: seq<Item>, done: set<nat>, r: seq<Pending>)
    requires GoodBatch(frag, done, r)
    ensures forall j, k :: 0 <= j < k < |r| ==> r[j].index < r[k].index
  {
    hide Collected;
  }
}
