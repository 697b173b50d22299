/**
 * What each event of the run protocol does, exactly: which timers are armed, when a batch opens, what a turn puts into the
 * document, and what a reply leaves there.
 */
module RunSteps {
  import opened Text
  import opened InlineMarks
  import opened Mentions
  import opened RunProtocol
  import Dom

  /** A room for a document of a tenant. */
  ghost predicate ThreeParts(name: string) {
    exists a, b, c :: ':' !in a && ':' !in b && ':' !in c && name == a + ":" + b + ":" + c
  }

  ghost predicate ForDocuments(name: string) {
    exists rest :: name == "document:" + rest
  }

  lemma RoomExact(name: string)
    ensures IsDocumentRoom(name) <==> ForDocuments(name)
  {
    if IsDocumentRoom(name) {
      assert name == "document:" + name[9..];
    }
    if rest :| name == "document:" + rest {
      assert name[..9] == "document:";
    }
  }

  lemma PartsExact(name: string)
    ensures |Split(name, ':')| == 3 <==> ThreeParts(name)
  {
    hide Split, Clean;
    var parts := Split(name, ':');
    SplitIsClean(name, ':');
    JoinSplit(name, ':');
    if |parts| == 3 {
      CleanParts(parts);
      JoinThree(parts[0], parts[1], parts[2]);
      assert parts == [parts[0], parts[1], parts[2]];
    }
    if a, b, c :| ':' !in a && ':' !in b && ':' !in c && name == a + ":" + b + ":" + c {
      JoinThree(a, b, c);
      SplitJoin([a, b, c], ':');
    }
  }

  lemma CleanParts(parts: seq<string>)
    requires Clean(parts, ':') && |parts| == 3
    ensures ':' !in parts[0] && ':' !in parts[1] && ':' !in parts[2]
  {
  }

  // ---------------------------------------------------------------------------
  // Timers
  // ---------------------------------------------------------------------------

  /** `newest` is the one timer of the room now; every other room's timers and the guard are as before. */
  ghost predicate Rearmed(s: Scheduler, t: Scheduler, name: string, newest: nat) {
    && newest !in s.timers
    && (forall id, n :: ArmedFor(t, id, n) <==> if n == name then id == newest else ArmedFor(s, id, n))
    && t.processing == s.processing && t.debounce == s.debounce[name := newest]
  }

  /** A change re-arms the timer of a document's room outside a batch, and does nothing else. */
  lemma ChangeExact(s: Scheduler, name: string)
    requires SchedulerOk(s)
    ensures var t := OnChange(s, name);
            if ForDocuments(name) && name !in s.processing then Rearmed(s, t, name, t.nextTimer - 1) && t.nextTimer > 0
            else t == s
  {
    hide ForDocuments, IsDocumentRoom;
    RoomExact(name);
    var t := OnChange(s, name);
    if IsDocumentRoom(name) && name !in s.processing {
      forall id, n
        ensures ArmedFor(t, id, n) <==> if n == name then id == s.nextTimer else ArmedFor(s, id, n)
      {
      }
    }
  }

  // ---------------------------------------------------------------------------
  // Turns of a batch
  // ---------------------------------------------------------------------------

  ghost predicate InsertedAt(frag: seq<Item>, next: seq<Item>, at: nat, items: seq<Item>) {
    exists before, after :: frag == before + after && |before| == at && next == before + items + after
  }

  ghost predicate Unused(frag: seq<Item>, id: nat) {
    forall k :: 0 <= k < |frag| ==> frag[k].id != id
  }

  /** A wrapper no node stands for yet, empty to a reader of the document. */
  ghost predicate IsNewWrapper(item: Item, frag: seq<Item>) {
    item.origin == Wrapper && item.node.AiResponseBlock? && Unused(frag, item.id) && Dom.SerializeNode(item.node) == ""
  }

  /** A turn with mentions left: the first one's wrapper goes behind its index and its reply is requested. */
  ghost predicate Opens(d: Doc, next: Doc, p: Pending, rest: seq<Pending>, wrapper: Item) {
    && IsNewWrapper(wrapper, d.frag) && InsertedAt(d.frag, next.frag, p.index + 1, [wrapper])
    && next.requested == d.requested + [p.mention] && next.done == d.done
    && next.phase == Active(p.mention, wrapper.id, rest)
  }

  /** One turn with the given mentions left: nothing to do, or no place any more, ends the batch and changes nothing else. */
  ghost predicate TakesTurn(d: Doc, queue: seq<Pending>, next: Doc) {
    if queue == [] || queue[0].index + 1 > |d.frag| then next == d.(phase := NoRun)
    else exists wrapper :: Opens(d, next, queue[0], queue[1..], wrapper)
  }

  lemma WrapperIsEmpty()
    ensures Dom.SerializeNode(WRAPPER_NODE) == ""
  {
    var paragraph := Dom.Paragraph([Dom.Run([])]);
    assert [paragraph][1..] == [] && [Dom.Run([])][1..] == [];
    assert Dom.SerializeInline([Dom.Run([])]) == "";
    assert Dom.SerializeNode(paragraph) == "";
    assert Dom.NonEmptyParts([paragraph]) == [];
  }

  lemma AdvanceExact(d: Doc, queue: seq<Pending>)
    requires FreshIds(d.frag, d.nextId)
    ensures TakesTurn(d, queue, Advance(d.(phase := Between(queue))))
  {
    hide Dom.SerializeNode;
    WrapperIsEmpty();
    if queue != [] && queue[0].index + 1 <= |d.frag| {
      var at, wrapper := queue[0].index + 1, Item(d.nextId, Wrapper, WRAPPER_NODE);
      var next := Advance(d.(phase := Between(queue)));
      assert d.frag == d.frag[..at] + d.frag[at..];
      assert InsertedAt(d.frag, next.frag, at, [wrapper]);
      assert Opens(d, next, queue[0], queue[1..], wrapper);
    }
  }

  /** Storing a turn of the batch in `name`: no other document and no timer changes, and the guard follows the batch. */
  ghost predicate StoredTurn(s: State, t: State, name: string, queue: seq<Pending>) {
    && name in s.docs && t.docs.Keys == s.docs.Keys && TakesTurn(s.docs[name], queue, t.docs[name])
    && (forall n :: n in s.docs && n != name ==> t.docs[n] == s.docs[n])
    && (forall n :: n in t.sched.processing <==> if n == name then !t.docs[name].phase.NoRun? else n in s.sched.processing)
  }

  /** A document in whose room a batch can open: it asks something. */
  ghost predicate HasQuestions(s: State, name: string) {
    name in s.docs && exists p :: Collects(s.docs[name].frag, s.docs[name].done, p)
  }

  /**
   * A timer fires: it is gone, and a batch opens exactly when the room has three parts and its document asks something.
   * The batch is that of `BatchExact`, and its first turn is taken at once.
   */
  lemma FireExact(s: State, id: nat)
    requires Inv(s) && id in s.sched.timers
    ensures Step(s, Fire(id)).To?
    ensures var t, name := Step(s, Fire(id)).state, s.sched.timers[id];
            && t.sched.timers == s.sched.timers - {id} && t.sched.debounce == s.sched.debounce - {name}
            && if ThreeParts(name) && HasQuestions(s, name) then
                 var d := s.docs[name];
                 StoredTurn(s, t, name, FindPending(d.frag, d.done, |d.frag|))
               else t.docs == s.docs && t.sched.processing == s.sched.processing
  {
    hide DocOk, Split, ThreeParts, Collects, FindPending, Advance, TakesTurn;
    var name := s.sched.timers[id];
    PartsExact(name);
    if name in s.docs {
      var d := s.docs[name];
      var pending := FindPending(d.frag, d.done, |d.frag|);
      BatchExact(d.frag, d.done);
      SomePending(pending, d.frag, d.done);
      IdsAreFresh(d);
      AdvanceExact(d, pending);
    }
  }

  lemma SomePending(pending: seq<Pending>, frag: seq<Item>, done: set<nat>)
    requires forall p :: p in pending <==> Collects(frag, done, p)
    ensures pending != [] <==> exists p :: Collects(frag, done, p)
  {
    hide Collects;
    if pending != [] {
      assert pending[0] in pending;
    }
  }

  lemma IdsAreFresh(d: Doc)
    requires DocOk(d)
    ensures FreshIds(d.frag, d.nextId)
  {
    hide UniqueMentions, RequestsOk, WrapperOk;
  }

  /** The next turn of an open batch. */
  lemma TurnExact(s: State, name: string)
    requires Inv(s) && name in s.docs && s.docs[name].phase.Between?
    ensures Step(s, Continue(name)).To?
    ensures var t := Step(s, Continue(name)).state;
            StoredTurn(s, t, name, s.docs[name].phase.queue) && t.sched.timers == s.sched.timers
  {
    hide DocOk, Advance, TakesTurn;
    IdsAreFresh(s.docs[name]);
    AdvanceExact(s.docs[name], s.docs[name].phase.queue);
  }

  // ---------------------------------------------------------------------------
  // Replies
  // ---------------------------------------------------------------------------

  /** New items that hold the nodes of the reply, in order. */
  ghost predicate IsReply(items: seq<Item>, nodes: seq<Dom.Node>, frag: seq<Item>) {
    && |items| == |nodes|
    && (forall k :: 0 <= k < |items| ==>
          items[k].origin == Reply && items[k].node == nodes[k] && Unused(frag, items[k].id))
    && (forall j, k :: 0 <= j < k < |items| ==> items[j].id != items[k].id)
  }

  /** The item `id` gives its place to the items; if it is not there, nothing changes. */
  ghost predicate Replaced(frag: seq<Item>, next: seq<Item>, id: nat, items: seq<Item>) {
    if Unused(frag, id) then next == frag
    else exists before, item: Item, after ::
           item.id == id && frag == before + [item] + after && next == before + items + after
  }

  /**
   * A reply arrives, or fails: its nodes take the wrapper's place, if that is still there; the mention is done in either
   * case, and the batch goes on to the mentions left.
   */
  lemma ReplyExact(s: State, name: string, o: Outcome)
    requires Inv(s) && name in s.docs && s.docs[name].phase.Active?
    ensures Step(s, Finish(name, o)).To?
    ensures var t, d := Step(s, Finish(name, o)).state, s.docs[name];
            && t.sched == s.sched && t.docs.Keys == s.docs.Keys
            && (forall n :: n in s.docs && n != name ==> t.docs[n] == s.docs[n])
            && t.docs[name].done == d.done + {d.phase.mention} && t.docs[name].phase == Between(d.phase.queue)
            && t.docs[name].requested == d.requested
            && exists items ::
                 IsReply(items, OutcomeNodes(o), d.frag) && Replaced(d.frag, t.docs[name].frag, d.phase.wrapper, items)
  {
    hide DocOk, OutcomeNodes, ReplaceItem, IsReply, Replaced, Numbered;
    var d := s.docs[name];
    IdsAreFresh(d);
    var items := Numbered(OutcomeNodes(o), d.nextId);
    NumberedIsReply(OutcomeNodes(o), d);
    ReplaceExact(d.frag, d.phase.wrapper, items);
  }

  lemma NumberedIsReply(nodes: seq<Dom.Node>, d: Doc)
    requires FreshIds(d.frag, d.nextId)
    ensures IsReply(Numbered(nodes, d.nextId), nodes, d.frag)
  {
  }

  lemma ReplaceExact(frag: seq<Item>, id: nat, items: seq<Item>)
    ensures Replaced(frag, ReplaceItem(frag, id, items), id, items)
  {
    var k := IndexOf(frag, id);
    if k < |frag| {
      Parts(frag, k);
      assert frag[k].id == id;
    }
  }

  /** What a document with nothing but the reply to a failed request, or to an empty one, reads as. */
  lemma FailuresRead()
    ensures Dom.SerializeDocument(OutcomeNodes(ApiError)) == "> *Alga AI: " + "Unable to process request." + "*"
    ensures Dom.SerializeDocument(OutcomeNodes(Thrown(""))) == "> *Alga AI: " + "Unable to process request." + "*"
    ensures Dom.SerializeDocument(OutcomeNodes(Ended(""))) == "> *Alga AI: " + "No response generated." + "*"
  {
    hide ErrorNodes, Dom.SerializeDocument;
    ErrorReads("Unable to process request.");
    ErrorReads("No response generated.");
  }

  lemma ErrorReads(message: string)
    ensures Dom.SerializeDocument(ErrorNodes(message)) == "> *Alga AI: " + message + "*"
  {
    hide PrintSegments, Dom.SerializeDocument;
    var text := "Alga AI: " + message;
    var run := Dom.Run([Segment(text, PLAIN.(italic := true))]);
    ItalicReads(text);
    QuotedRunReads(run, "*" + text + "*");
    assert ErrorNodes(message) == [Dom.Blockquote([Dom.Paragraph([run])])];
    assert "> " + ("*" + text + "*") == "> *Alga AI: " + message + "*";
  }

  lemma ItalicReads(text: string)
    requires text != ""
    ensures PrintSegments([Segment(text, PLAIN.(italic := true))]) == "*" + text + "*"
  {
    var segment := Segment(text, PLAIN.(italic := true));
    assert [segment][1..] == [];
    assert PrintSegment(segment) + "" == PrintSegment(segment);
  }

  lemma QuotedRunReads(run: Dom.Node, shown: string)
    requires run.Run? && PrintSegments(run.segments) == shown && shown != ""
    ensures Dom.SerializeDocument([Dom.Blockquote([Dom.Paragraph([run])])]) == "> " + shown
  {
    hide PrintSegments;
    var paragraph := Dom.Paragraph([run]);
    var quote := Dom.Blockquote([paragraph]);
    assert [run][1..] == [] && [paragraph][1..] == [] && [quote][1..] == [];
    assert Dom.SerializeInline([run]) == shown + "";
    assert Dom.SerializeNode(paragraph) == shown;
    assert Dom.QuoteLines([paragraph]) == ["> " + shown] + Dom.QuoteLines([]);
    assert Dom.SerializeAll([quote]) == ["> " + shown];
  }
}
