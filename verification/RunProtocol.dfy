/**
 * Answering assistant mentions: the debounce timer, the re-entrancy guard, and the batch of mentions answered one after
 * the other, with other people's edits between any two steps.
 */
module RunProtocol {
  import opened Text
  import opened InlineMarks
  import opened Mentions
  import Markdown
  import Dom

  // ---------------------------------------------------------------------------
  // Timers and the guard
  // ---------------------------------------------------------------------------

  /** `timers` are the timeouts the runtime may still fire; `debounce` is the extension's own map of them. */
  datatype Scheduler = Scheduler(processing: set<string>, debounce: map<string, nat>, timers: map<nat, string>, nextTimer: nat)

  predicate IsDocumentRoom(name: string) {
    StartsWith(name, "document:")
  }

  function OnChange(s: Scheduler, name: string): Scheduler {
    if !IsDocumentRoom(name) || name in s.processing then s
    else
      var kept := if name in s.debounce then s.timers - {s.debounce[name]} else s.timers;
      s.(timers := kept[s.nextTimer := name], debounce := s.debounce[name := s.nextTimer], nextTimer := s.nextTimer + 1)
  }

  /** The timer callback forgets its timer before it looks at the document. */
  function TimerGone(s: Scheduler, id: nat): Scheduler
    requires id in s.timers
  {
    s.(timers := s.timers - {id}, debounce := s.debounce - {s.timers[id]})
  }

  /** One timer for each entry of the map and none besides; no document waits and is processed at the same time. */
  ghost predicate SchedulerOk(s: Scheduler) {
    && (forall id :: id in s.timers ==>
          id < s.nextTimer && s.timers[id] in s.debounce && s.debounce[s.timers[id]] == id)
    && (forall name :: name in s.debounce ==>
          s.debounce[name] in s.timers && s.timers[s.debounce[name]] == name && name !in s.processing)
  }

  /** The extension's fields, with the runtime's armed timers. */
  class AiParticipant {
    var processingDocs: set<string>
    var debounceTimers: map<string, nat>
    var timers: map<nat, string>
    var nextTimer: nat

    constructor ()
      ensures State() == Scheduler({}, map[], map[], 0) && SchedulerOk(State())
    {
      processingDocs, debounceTimers, timers, nextTimer := {}, map[], map[], 0;
    }

    function State(): Scheduler
      reads this
    {
      Scheduler(processingDocs, debounceTimers, timers, nextTimer)
    }

    /** A change arms a fresh timer in place of the old one, unless the room is of another kind or being processed. */
    method Change(name: string)
      requires SchedulerOk(State())
      modifies this
      ensures State() == OnChange(old(State()), name) && SchedulerOk(State())
    {
      if !IsDocumentRoom(name) {
        return;
      }
      if name in processingDocs {
        return;
      }
      if name in debounceTimers {
        timers := timers - {debounceTimers[name]};
      }
      timers := timers[nextTimer := name];
      debounceTimers := debounceTimers[name := nextTimer];
      nextTimer := nextTimer + 1;
    }

    method Fire(id: nat) returns (name: string)
      requires SchedulerOk(State()) && id in timers
      modifies this
      ensures State() == TimerGone(old(State()), id) && SchedulerOk(State())
      ensures name == old(timers[id]) && name !in debounceTimers && name !in processingDocs
    {
      name := timers[id];
      timers := timers - {id};
      debounceTimers := debounceTimers - {name};
    }
  }

  // ---------------------------------------------------------------------------
  // Replies
  // ---------------------------------------------------------------------------

  /** How answering one mention ends; a thrown error leaves the text received so far. */
  datatype Outcome = ApiError | Ended(fullText: string) | Thrown(fullText: string)

  function ErrorNodes(message: string): seq<Dom.Node> {
    [Dom.Blockquote([Dom.Paragraph([Dom.Run([Segment("Alga AI: " + message, PLAIN.(italic := true))])])])]
  }

  function ReplyNodes(text: string): seq<Dom.Node> {
    var nodes := Markdown.BlockNodes(Markdown.ParseBlocks(text));
    if nodes == [] then [Dom.Paragraph([Markdown.Verbatim(text)])] else nodes
  }

  function OutcomeNodes(o: Outcome): seq<Dom.Node> {
    match o
    case ApiError => ErrorNodes("Unable to process request.")
    case Ended(fullText) => if fullText == "" then ErrorNodes("No response generated.") else ReplyNodes(fullText)
    case Thrown(fullText) => if fullText == "" then ErrorNodes("Unable to process request.") else ReplyNodes(fullText)
  }

  const WRAPPER_NODE := Dom.AiResponseBlock([Dom.Paragraph([Dom.Run([])])])

  function Numbered(nodes: seq<Dom.Node>, from: nat): (r: seq<Item>)
    ensures |r| == |nodes|
  {
    seq(|nodes|, k requires 0 <= k < |nodes| => Item(from + k, Reply, nodes[k]))
  }

  // ---------------------------------------------------------------------------
  // The fragment
  // ---------------------------------------------------------------------------

  function IndexOf(frag: seq<Item>, id: nat): (k: nat)
    ensures k <= |frag|
    ensures k < |frag| ==> frag[k].id == id
    ensures forall n :: 0 <= n < k ==> frag[n].id != id
  {
    if frag == [] || frag[0].id == id then 0 else 1 + IndexOf(frag[1..], id)
  }

  function Insert(frag: seq<Item>, at: nat, items: seq<Item>): seq<Item>
    requires at <= |frag|
  {
    frag[..at] + items + frag[at..]
  }

  /** The wrapper's place is taken by the content; without the wrapper nothing happens. */
  function ReplaceItem(frag: seq<Item>, id: nat, content: seq<Item>): seq<Item> {
    var k := IndexOf(frag, id);
    if k == |frag| then frag else frag[..k] + content + frag[k + 1..]
  }

  /** The top-level nodes of a document, edited in place. */
  class Fragment {
    var nodes: seq<Item>

    constructor (initial: seq<Item>)
      ensures nodes == initial
    {
      nodes := initial;
    }

    /** `indexOf`: the position of an element, or -1. */
    method Find(id: nat) returns (idx: int)
      ensures idx == if IndexOf(nodes, id) < |nodes| then IndexOf(nodes, id) else -1
    {
      idx := 0;
      while idx < |nodes|
        invariant 0 <= idx <= |nodes|
        invariant forall n :: 0 <= n < idx ==> nodes[n].id != id
      {
        if nodes[idx].id == id {
          return;
        }
        idx := idx + 1;
      }
      idx := -1;
    }

    method InsertAt(at: nat, items: seq<Item>)
      requires at <= |nodes|
      modifies this
      ensures nodes == Insert(old(nodes), at, items)
    {
      nodes := nodes[..at] + items + nodes[at..];
    }

    method Delete(at: nat)
      requires at < |nodes|
      modifies this
      ensures nodes == old(nodes)[..at] + old(nodes)[at + 1..]
    {
      nodes := nodes[..at] + nodes[at + 1..];
    }

    /** Delete the wrapper and insert at its index, in one transaction. */
    method ReplaceWrapper(wrapper: nat, content: seq<Item>) returns (replaced: bool)
      modifies this
      ensures nodes == ReplaceItem(old(nodes), wrapper, content)
      ensures replaced <==> IndexOf(old(nodes), wrapper) < |old(nodes)|
    {
      var idx := Find(wrapper);
      if idx == -1 {
        return false;
      }
      Delete(idx);
      InsertAt(idx, content);
      return true;
    }
  }

  // ---------------------------------------------------------------------------
  // One document
  // ---------------------------------------------------------------------------

  /** No batch, a batch between two mentions, or a mention whose reply is awaited. */
  datatype Phase = NoRun | Between(queue: seq<Pending>) | Active(mention: nat, wrapper: nat, queue: seq<Pending>)

  /** `done` are the mention elements whose status is done; `requested` logs the requests in order. */
  datatype Doc = Doc(frag: seq<Item>, nextId: nat, done: set<nat>, phase: Phase, requested: seq<nat>)

  /**
   * The next turn of the batch loop. Inserting the wrapper beyond the end of the fragment throws, which ends the batch;
   * so does an empty queue.
   */
  function Advance(d: Doc): Doc
    requires d.phase.Between?
  {
    if d.phase.queue == [] then d.(phase := NoRun)
    else
      var p := d.phase.queue[0];
      if p.index + 1 > |d.frag| then d.(phase := NoRun)
      else
        d.(frag := Insert(d.frag, p.index + 1, [Item(d.nextId, Wrapper, WRAPPER_NODE)]), nextId := d.nextId + 1,
           requested := d.requested + [p.mention], phase := Active(p.mention, d.nextId, d.phase.queue[1..]))
  }

  /** The reply, or its failure, arrives: the wrapper is replaced and the mention marked done. */
  function Complete(d: Doc, o: Outcome): Doc
    requires d.phase.Active?
  {
    var nodes := OutcomeNodes(o);
    d.(frag := ReplaceItem(d.frag, d.phase.wrapper, Numbered(nodes, d.nextId)), nextId := d.nextId + |nodes|,
       done := d.done + {d.phase.mention}, phase := Between(d.phase.queue))
  }

  // ---------------------------------------------------------------------------
  // All documents
  // ---------------------------------------------------------------------------

  datatype State = State(sched: Scheduler, docs: map<string, Doc>)

  datatype Event =
    | Change(name: string)
    | Fire(id: nat)
    | Continue(name: string)
    | Finish(name: string, outcome: Outcome)
    | UserInsert(name: string, at: nat, node: Dom.Node)
    | UserDelete(name: string, at: nat)
    | UserEdit(name: string, at: nat, node: Dom.Node)
    | UserDone(name: string, mention: nat)

  datatype Next = Disabled | To(state: State)

  /** Store a document after a turn of its batch; the guard is released when the batch has ended. */
  function Store(s: State, name: string, d: Doc): State {
    State(if d.phase.NoRun? then s.sched.(processing := s.sched.processing - {name}) else s.sched, s.docs[name := d])
  }

  /** `processDocument` up to its first `await`. */
  function Process(s: State, name: string): State {
    if name in s.sched.processing || name !in s.docs then s
    else
      var d := s.docs[name];
      var pending := FindPending(d.frag, d.done, |d.frag|);
      if pending == [] || |Split(name, ':')| != 3 then s
      else
        Store(s.(sched := s.sched.(processing := s.sched.processing + {name})), name, Advance(d.(phase := Between(pending))))
  }

  function EditDoc(s: State, name: string, frag: seq<Item>): State
    requires name in s.docs
  {
    var d := s.docs[name];
    s.(docs := s.docs[name := d.(frag := frag, nextId := d.nextId + 1)])
  }

  /** One event. What a user's edit leaves must still be a tree of distinct mention elements. */
  ghost function Step(s: State, e: Event): Next {
    match e
    case Change(name) => To(s.(sched := OnChange(s.sched, name)))
    case Fire(id) =>
      if id !in s.sched.timers then Disabled
      else To(Process(s.(sched := TimerGone(s.sched, id)), s.sched.timers[id]))
    case Continue(name) =>
      if name !in s.docs || !s.docs[name].phase.Between? then Disabled
      else To(Store(s, name, Advance(s.docs[name])))
    case Finish(name, outcome) =>
      if name !in s.docs || !s.docs[name].phase.Active? then Disabled
      else To(Store(s, name, Complete(s.docs[name], outcome)))
    case UserInsert(name, at, node) =>
      if name !in s.docs || at > |s.docs[name].frag| then Disabled
      else
        var frag := Insert(s.docs[name].frag, at, [Item(s.docs[name].nextId, ByUser, node)]);
        if UniqueMentions(frag) then To(EditDoc(s, name, frag)) else Disabled
    case UserDelete(name, at) =>
      if name !in s.docs || at >= |s.docs[name].frag| then Disabled
      else To(EditDoc(s, name, s.docs[name].frag[..at] + s.docs[name].frag[at + 1..]))
    case UserEdit(name, at, node) =>
      if name !in s.docs || at >= |s.docs[name].frag| then Disabled
      else
        var frag := s.docs[name].frag[at := s.docs[name].frag[at].(node := node)];
        if UniqueMentions(frag) then To(EditDoc(s, name, frag)) else Disabled
    case UserDone(name, mention) =>
      if name !in s.docs then Disabled
      else To(s.(docs := s.docs[name := s.docs[name].(done := s.docs[name].done + {mention})]))
  }

  ghost function Run(s: State, events: seq<Event>): Next
    decreases events
  {
    if events == [] then To(s)
    else
      match Step(s, events[0])
      case Disabled => Disabled
      case To(next) => Run(next, events[1..])
  }

  // ---------------------------------------------------------------------------
  // The invariant
  // ---------------------------------------------------------------------------

  ghost predicate FreshIds(frag: seq<Item>, nextId: nat) {
    && (forall k :: 0 <= k < |frag| ==> frag[k].id < nextId)
    && (forall j, k :: 0 <= j < k < |frag| ==> frag[j].id != frag[k].id)
  }

  /** The wrapper in the fragment is that of the mention whose reply is awaited, and nothing else has its identity. */
  ghost predicate WrapperOk(frag: seq<Item>, phase: Phase) {
    forall k :: 0 <= k < |frag| ==> (frag[k].origin == Wrapper <==> phase.Active? && frag[k].id == phase.wrapper)
  }

  ghost predicate Distinct(log: seq<nat>) {
    forall j, k :: 0 <= j < k < |log| ==> log[j] != log[k]
  }

  ghost predicate QueueOk(queue: seq<Pending>, requested: seq<nat>) {
    && (forall j, k :: 0 <= j < k < |queue| ==> queue[j].mention != queue[k].mention)
    && (forall k :: 0 <= k < |queue| ==> queue[k].mention !in requested)
  }

  /** Every request is answered for: its mention is done, or it is the one being answered. */
  ghost predicate RequestsOk(d: Doc) {
    && Distinct(d.requested)
    && (forall m :: m in d.requested ==> m in d.done || (d.phase.Active? && m == d.phase.mention))
    && match d.phase
       case NoRun => true
       case Between(queue) => QueueOk(queue, d.requested)
       case Active(mention, _, queue) => mention in d.requested && QueueOk(queue, d.requested)
  }

  ghost predicate DocOk(d: Doc) {
    && FreshIds(d.frag, d.nextId) && WrapperOk(d.frag, d.phase) && UniqueMentions(d.frag)
    && (d.phase.Active? ==> d.phase.wrapper < d.nextId)
    && RequestsOk(d)
  }

  ghost predicate Inv(s: State) {
    && SchedulerOk(s.sched)
    && (forall name :: name in s.docs ==> DocOk(s.docs[name]))
    && (forall name :: name in s.docs ==> (name in s.sched.processing <==> !s.docs[name].phase.NoRun?))
  }

  lemma OnChangeIsSafe(s: Scheduler, name: string)
    requires SchedulerOk(s)
    ensures SchedulerOk(OnChange(s, name)) && OnChange(s, name).processing == s.processing
  {
  }

  // ---------------------------------------------------------------------------
  // Mentions are not duplicated by replies
  // ---------------------------------------------------------------------------

  ghost predicate NoMentions(items: seq<Item>) {
    forall k, m :: 0 <= k < |items| ==> !HasMention(items[k], m)
  }

  /** None of the node's direct children is a mention. */
  predicate MentionFree(n: Dom.Node) {
    forall k :: 0 <= k < |Dom.Children(n)| ==> !Dom.Children(n)[k].Mention?
  }

  lemma BlockNodeIsMentionFree(b: Markdown.Block)
    ensures MentionFree(Markdown.BlockNode(b))
  {
    match b
    case BulletList(items) => ItemNodesAreItems(items);
    case OrderedList(items) => ItemNodesAreItems(items);
    case _ =>
  }

  lemma {:induction false} ItemNodesAreItems(items: seq<string>)
    ensures forall k :: 0 <= k < |Markdown.ItemNodes(items)| ==> Markdown.ItemNodes(items)[k].ListItem?
  {
    if items != [] {
      ItemNodesAreItems(items[1..]);
    }
  }

  lemma {:induction false} BlockNodesAreMentionFree(blocks: seq<Markdown.Block>, n: nat)
    requires n < |Markdown.BlockNodes(blocks)|
    ensures MentionFree(Markdown.BlockNodes(blocks)[n])
  {
    hide MentionFree, Markdown.BlockNode;
    BlockNodeIsMentionFree(blocks[0]);
    if n > 0 {
      BlockNodesAreMentionFree(blocks[1..], n - 1);
    }
  }

  lemma OutcomeNodesAreMentionFree(o: Outcome, n: nat)
    requires n < |OutcomeNodes(o)|
    ensures MentionFree(OutcomeNodes(o)[n])
  {
    hide Markdown.ParseBlocks;
    if !o.ApiError? && Markdown.BlockNodes(Markdown.ParseBlocks(o.fullText)) != [] && o.fullText != "" {
      BlockNodesAreMentionFree(Markdown.ParseBlocks(o.fullText), n);
    }
  }

  lemma RepliesHaveNoMentions(o: Outcome, from: nat)
    ensures OutcomeNodes(o) != [] && NoMentions(Numbered(OutcomeNodes(o), from))
  {
    assert OutcomeNodes(o) != [];
    hide OutcomeNodes, Dom.Children;
    forall k, m | 0 <= k < |OutcomeNodes(o)|
      ensures !HasMention(Numbered(OutcomeNodes(o), from)[k], m)
    {
      OutcomeNodesAreMentionFree(o, k);
    }
  }

  /** Splicing mention-free items between, or in place of, others keeps mentions unique. */
  lemma SpliceKeepsUnique(frag: seq<Item>, i: nat, j: nat, items: seq<Item>)
    requires i <= j <= |frag| && UniqueMentions(frag) && NoMentions(items)
    ensures UniqueMentions(frag[..i] + items + frag[j..])
  {
    hide HasMention;
    var r := frag[..i] + items + frag[j..];
    var shift := j - i - |items|;
    assert forall k :: i <= k < i + |items| ==> r[k] == items[k - i];
    forall a, b, m | 0 <= a < b < |r| && HasMention(r[a], m)
      ensures !HasMention(r[b], m)
    {
      var a', b' := if a < i then a else a + shift, if b < i then b else b + shift;
      assert !(i <= a < i + |items|) ==> r[a] == frag[a'];
      assert !(i <= b < i + |items|) ==> r[b] == frag[b'];
    }
  }

  lemma SpliceKeepsIds(frag: seq<Item>, nextId: nat, i: nat, j: nat, items: seq<Item>)
    requires i <= j <= |frag| && FreshIds(frag, nextId)
    requires forall k :: 0 <= k < |items| ==> items[k].id == nextId + k
    ensures FreshIds(frag[..i] + items + frag[j..], nextId + |items|)
  {
    var r := frag[..i] + items + frag[j..];
    var shift := j - i - |items|;
    forall a, b | 0 <= a < b < |r|
      ensures r[a].id != r[b].id
    {
      var a', b' := if a < i then a else a + shift, if b < i then b else b + shift;
      assert !(i <= a < i + |items|) ==> r[a] == frag[a'];
      assert !(i <= b < i + |items|) ==> r[b] == frag[b'];
    }
  }

  // ---------------------------------------------------------------------------
  // Steps keep the invariant
  // ---------------------------------------------------------------------------

  lemma AdvanceIsSafe(d: Doc)
    requires DocOk(d) && d.phase.Between?
    ensures DocOk(Advance(d))
  {
    if d.phase.queue != [] && d.phase.queue[0].index + 1 <= |d.frag| {
      var at := d.phase.queue[0].index + 1;
      var items := [Item(d.nextId, Wrapper, WRAPPER_NODE)];
      assert NoMentions(items);
      hide UniqueMentions;
      SpliceKeepsUnique(d.frag, at, at, items);
      SpliceKeepsIds(d.frag, d.nextId, at, at, items);
    }
  }

  lemma CompleteIsSafe(d: Doc, o: Outcome)
    requires DocOk(d) && d.phase.Active?
    ensures DocOk(Complete(d, o))
  {
    hide UniqueMentions, OutcomeNodes, NoMentions, IndexOf;
    var items := Numbered(OutcomeNodes(o), d.nextId);
    RepliesHaveNoMentions(o, d.nextId);
    var k := IndexOf(d.frag, d.phase.wrapper);
    if k < |d.frag| {
      SpliceKeepsUnique(d.frag, k, k + 1, items);
      SpliceKeepsIds(d.frag, d.nextId, k, k + 1, items);
    }
  }

  lemma ProcessIsSafe(s: State, name: string)
    requires Inv(s) && name !in s.sched.debounce
    ensures Inv(Process(s, name))
  {
    if name in s.docs && name !in s.sched.processing {
      var d := s.docs[name];
      BatchIsDistinct(d.frag, d.done);
      var pending := FindPending(d.frag, d.done, |d.frag|);
      hide FindPending, UniqueMentions, Split;
      if pending != [] {
        assert DistinctBatch(pending, d.done, |d.frag|);
        assert QueueOk(pending, d.requested);
        assert WrapperOk(d.frag, Between(pending));
        assert DocOk(d.(phase := Between(pending)));
        AdvanceIsSafe(d.(phase := Between(pending)));
        hide DocOk;
      }
    }
  }

  lemma EditIsSafe(d: Doc, frag: seq<Item>)
    requires DocOk(d) && FreshIds(frag, d.nextId + 1) && WrapperOk(frag, d.phase) && UniqueMentions(frag)
    ensures DocOk(d.(frag := frag, nextId := d.nextId + 1))
  {
    hide FreshIds, WrapperOk, UniqueMentions;
  }

  lemma UserInsertIsSafe(d: Doc, at: nat, node: Dom.Node)
    requires DocOk(d) && at <= |d.frag|
    requires UniqueMentions(Insert(d.frag, at, [Item(d.nextId, ByUser, node)]))
    ensures DocOk(d.(frag := Insert(d.frag, at, [Item(d.nextId, ByUser, node)]), nextId := d.nextId + 1))
  {
    hide UniqueMentions, RequestsOk;
    var items := [Item(d.nextId, ByUser, node)];
    SpliceKeepsIds(d.frag, d.nextId, at, at, items);
    EditIsSafe(d, Insert(d.frag, at, items));
  }

  lemma UserDeleteIsSafe(d: Doc, at: nat)
    requires DocOk(d) && at < |d.frag|
    ensures DocOk(d.(frag := d.frag[..at] + d.frag[at + 1..], nextId := d.nextId + 1))
  {
    hide UniqueMentions, RequestsOk;
    SpliceKeepsUnique(d.frag, at, at + 1, []);
    SpliceKeepsIds(d.frag, d.nextId, at, at + 1, []);
    assert d.frag[..at] + [] + d.frag[at + 1..] == d.frag[..at] + d.frag[at + 1..];
    EditIsSafe(d, d.frag[..at] + d.frag[at + 1..]);
  }

  lemma UserEditIsSafe(d: Doc, at: nat, node: Dom.Node)
    requires DocOk(d) && at < |d.frag|
    requires UniqueMentions(d.frag[at := d.frag[at].(node := node)])
    ensures DocOk(d.(frag := d.frag[at := d.frag[at].(node := node)], nextId := d.nextId + 1))
  {
    hide UniqueMentions, RequestsOk;
    EditIsSafe(d, d.frag[at := d.frag[at].(node := node)]);
  }

  /** Storing a safe document after a turn of its batch, or after an edit that leaves its phase alone. */
  lemma StoreIsSafe(s: State, name: string, d: Doc)
    requires Inv(s) && name in s.docs && !s.docs[name].phase.NoRun? && DocOk(d)
    ensures Inv(Store(s, name, d))
  {
    hide DocOk;
  }

  lemma EditDocIsSafe(s: State, name: string, d: Doc)
    requires Inv(s) && name in s.docs && d.phase == s.docs[name].phase && DocOk(d)
    ensures Inv(s.(docs := s.docs[name := d]))
  {
    hide DocOk;
  }

  lemma DoneIsSafe(d: Doc, mention: nat)
    requires DocOk(d)
    ensures DocOk(d.(done := d.done + {mention}))
  {
    hide UniqueMentions, FreshIds, WrapperOk;
  }

  lemma StepIsSafe(s: State, e: Event)
    requires Inv(s) && Step(s, e).To?
    ensures Inv(Step(s, e).state)
  {
    hide DocOk, Process, Store, Advance, Complete, UniqueMentions;
    match e
    case Change(name) => OnChangeIsSafe(s.sched, name);
    case Fire(id) => ProcessIsSafe(s.(sched := TimerGone(s.sched, id)), s.sched.timers[id]);
    case Continue(name) =>
      AdvanceIsSafe(s.docs[name]);
      StoreIsSafe(s, name, Advance(s.docs[name]));
    case Finish(name, outcome) =>
      CompleteIsSafe(s.docs[name], outcome);
      StoreIsSafe(s, name, Complete(s.docs[name], outcome));
    case UserInsert(name, at, node) => UserInsertIsSafe(s.docs[name], at, node);
    case UserDelete(name, at) => UserDeleteIsSafe(s.docs[name], at);
    case UserEdit(name, at, node) => UserEditIsSafe(s.docs[name], at, node);
    case UserDone(name, mention) =>
      DoneIsSafe(s.docs[name], mention);
      EditDocIsSafe(s, name, s.docs[name].(done := s.docs[name].done + {mention}));
  }

  lemma {:induction false} RunIsSafe(s: State, events: seq<Event>)
    requires Inv(s) && Run(s, events).To?
    ensures Inv(Run(s, events).state)
    decreases events
  {
    hide Step, Inv;
    if events != [] {
      StepIsSafe(s, events[0]);
      RunIsSafe(Step(s, events[0]).state, events[1..]);
    }
  }

  // ---------------------------------------------------------------------------
  // Main results
  // ---------------------------------------------------------------------------

  /** No timers, no batches, no wrappers, no requests; documents of any content. */
  ghost predicate Initial(s: State) {
    && s.sched == Scheduler({}, map[], map[], 0)
    && forall name :: name in s.docs ==>
         var d := s.docs[name];
         && FreshIds(d.frag, d.nextId) && UniqueMentions(d.frag) && d.phase == NoRun && d.requested == []
         && forall k :: 0 <= k < |d.frag| ==> d.frag[k].origin != Wrapper
  }

  predicate ArmedFor(s: Scheduler, timer: nat, name: string) {
    timer in s.timers && s.timers[timer] == name
  }

  /**
   * At most once, over every run of changes, timer firings, outcomes and user edits that never reset a done status: a
   * document has at most one armed timer and never a timer and a batch together; the guard is held exactly while a batch
   * runs; no mention is requested twice; and every requested mention is done unless its reply is still awaited.
   */
  lemma AtMostOnce(s: State, events: seq<Event>, name: string)
    requires Initial(s) && Run(s, events).To? && name in Run(s, events).state.docs
    ensures var last := Run(s, events).state; var d := last.docs[name];
            && (forall t, u :: ArmedFor(last.sched, t, name) && ArmedFor(last.sched, u, name) ==> t == u)
            && (forall t :: ArmedFor(last.sched, t, name) ==> d.phase.NoRun?)
            && (name in last.sched.processing <==> !d.phase.NoRun?)
            && Distinct(d.requested)
            && (forall m :: m in d.requested ==> m in d.done || (d.phase.Active? && d.phase.mention == m))
  {
    assert Inv(s);
    RunIsSafe(s, events);
  }

  /** Wrapper cleanup: once a batch has ended, in whatever way, no wrapper is left in the fragment. */
  lemma WrappersAreCleanedUp(s: State, events: seq<Event>, name: string)
    requires Initial(s) && Run(s, events).To? && name in Run(s, events).state.docs
    ensures var d := Run(s, events).state.docs[name];
            forall k :: 0 <= k < |d.frag| && d.frag[k].origin == Wrapper ==>
              d.phase.Active? && d.frag[k].id == d.phase.wrapper
  {
    assert Inv(s);
    RunIsSafe(s, events);
  }

  /** Turns that a batch still has to take. */
  function TurnsLeft(p: Phase): nat {
    match p
    case NoRun => 0
    case Between(queue) => 2 * |queue| + 1
    case Active(_, _, queue) => 2 * |queue| + 2
  }

  /** The batch of the document is open at every point of the run. */
  ghost predicate StaysOpen(s: State, events: seq<Event>, name: string)
    decreases events
  {
    && name in s.docs && !s.docs[name].phase.NoRun?
    && (events != [] && Step(s, events[0]).To? ==> StaysOpen(Step(s, events[0]).state, events[1..], name))
  }

  predicate IsTurn(e: Event, name: string) {
    (e.Continue? || e.Finish?) && e.name == name
  }

  function Turns(events: seq<Event>, name: string): nat {
    if events == [] then 0 else (if IsTurn(events[0], name) then 1 else 0) + Turns(events[1..], name)
  }

  /** A turn of the batch leaves fewer turns to take, anything else leaves an open batch as it is. */
  lemma TurnsDescend(s: State, e: Event, name: string)
    requires Inv(s) && Step(s, e).To? && name in s.docs && !s.docs[name].phase.NoRun?
    ensures name in Step(s, e).state.docs
    ensures var before, after := s.docs[name].phase, Step(s, e).state.docs[name].phase;
            if IsTurn(e, name) then TurnsLeft(after) < TurnsLeft(before) else after == before
  {
    hide DocOk, SchedulerOk, UniqueMentions, FindPending, OutcomeNodes, ReplaceItem, Split;
  }

  /**
   * Every batch ends, and with it the guard: however edits and other documents interleave, a batch that is still open
   * has taken fewer turns than it had left at the start.
   */
  lemma {:induction false} BatchesEnd(s: State, events: seq<Event>, name: string)
    requires Inv(s) && Run(s, events).To? && StaysOpen(s, events, name)
    ensures name in Run(s, events).state.docs && !Run(s, events).state.docs[name].phase.NoRun?
    ensures Turns(events, name) + TurnsLeft(Run(s, events).state.docs[name].phase) <= TurnsLeft(s.docs[name].phase)
    decreases events
  {
    hide Step, Inv, IsTurn;
    if events != [] {
      StepIsSafe(s, events[0]);
      TurnsDescend(s, events[0], name);
      BatchesEnd(Step(s, events[0]).state, events[1..], name);
    }
  }

  // ---------------------------------------------------------------------------
  // The content of a document
  // ---------------------------------------------------------------------------

  /** Everything but the wrapper: what users wrote and the replies inserted so far. */
  function Content(frag: seq<Item>): seq<Item> {
    if frag == [] then []
    else if frag[0].origin != Wrapper then [frag[0]] + Content(frag[1..])
    else Content(frag[1..])
  }

  lemma {:induction false} ContentConcat(a: seq<Item>, b: seq<Item>)
    ensures Content(a + b) == Content(a) + Content(b)
  {
    if a == [] {
      assert a + b == b;
    } else {
      ContentConcat(a[1..], b);
      assert (a + b)[0] == a[0] && (a + b)[1..] == a[1..] + b;
      assert [a[0]] + (Content(a[1..]) + Content(b)) == [a[0]] + Content(a[1..]) + Content(b);
    }
  }

  lemma {:induction false} WrappersAreNoContent(items: seq<Item>)
    requires forall k :: 0 <= k < |items| ==> items[k].origin == Wrapper
    ensures Content(items) == []
  {
    if items != [] {
      WrappersAreNoContent(items[1..]);
    }
  }

  lemma ContentSplice(a: seq<Item>, items: seq<Item>, b: seq<Item>)
    ensures Content(a + items + b) == Content(a) + Content(items) + Content(b)
  {
    ContentConcat(a + items, b);
    ContentConcat(a, items);
  }

  lemma {:induction false} RepliesAreContent(items: seq<Item>)
    requires forall k :: 0 <= k < |items| ==> items[k].origin != Wrapper
    ensures Content(items) == items
  {
    if items != [] {
      RepliesAreContent(items[1..]);
      assert items == [items[0]] + items[1..];
    }
  }

  /** An edit of the content. */
  datatype Edit = NoEdit | Ins(at: nat, items: seq<Item>) | Del(at: nat) | Upd(at: nat, item: Item)

  function ApplyEdit(content: seq<Item>, e: Edit): seq<Item> {
    match e
    case NoEdit => content
    case Ins(at, items) => if at <= |content| then Insert(content, at, items) else content
    case Del(at) => if at < |content| then content[..at] + content[at + 1..] else content
    case Upd(at, item) => if at < |content| then content[at := item] else content
  }

  /** Position in the content of position `at` in the fragment. */
  function ContentIndex(frag: seq<Item>, at: nat): nat
    requires at <= |frag|
  {
    |Content(frag[..at])|
  }

  /**
   * What an event does to the content of a document: a user's edits of anything but the wrapper, and each reply, whole,
   * at the place of the wrapper at that moment. All other events do nothing.
   */
  function EditOf(s: State, e: Event, name: string): Edit {
    if name !in s.docs then NoEdit
    else
      var d := s.docs[name];
      match e
      case Finish(n, outcome) =>
        if n == name && d.phase.Active? && IndexOf(d.frag, d.phase.wrapper) < |d.frag| then
          Ins(ContentIndex(d.frag, IndexOf(d.frag, d.phase.wrapper)), Numbered(OutcomeNodes(outcome), d.nextId))
        else NoEdit
      case UserInsert(n, at, node) =>
        if n == name && at <= |d.frag| then Ins(ContentIndex(d.frag, at), [Item(d.nextId, ByUser, node)]) else NoEdit
      case UserDelete(n, at) =>
        if n == name && at < |d.frag| && d.frag[at].origin != Wrapper then Del(ContentIndex(d.frag, at)) else NoEdit
      case UserEdit(n, at, node) =>
        if n == name && at < |d.frag| && d.frag[at].origin != Wrapper then
          Upd(ContentIndex(d.frag, at), d.frag[at].(node := node))
        else NoEdit
      case _ => NoEdit
  }

  lemma AdvanceKeepsContent(d: Doc)
    requires d.phase.Between?
    ensures Content(Advance(d).frag) == Content(d.frag)
  {
    if d.phase.queue != [] && d.phase.queue[0].index + 1 <= |d.frag| {
      var at := d.phase.queue[0].index + 1;
      var items := [Item(d.nextId, Wrapper, WRAPPER_NODE)];
      ContentSplice(d.frag[..at], items, d.frag[at..]);
      WrappersAreNoContent(items);
      assert d.frag == d.frag[..at] + [] + d.frag[at..];
      ContentSplice(d.frag[..at], [], d.frag[at..]);
    }
  }

  lemma SingleContent(item: Item)
    ensures Content([item]) == if item.origin != Wrapper then [item] else []
  {
    assert [item][1..] == [];
  }

  /** The content around one position. */
  lemma ContentAround(frag: seq<Item>, at: nat)
    requires at < |frag|
    ensures Content(frag) == Content(frag[..at]) + Content([frag[at]]) + Content(frag[at + 1..])
  {
    hide *;
    Parts(frag, at);
    ContentSplice(frag[..at], [frag[at]], frag[at + 1..]);
  }

  lemma Parts(frag: seq<Item>, at: nat)
    requires at < |frag|
    ensures frag == frag[..at] + [frag[at]] + frag[at + 1..]
  {
  }

  lemma InsertKeepsContent(frag: seq<Item>, at: nat, item: Item)
    requires at <= |frag| && item.origin != Wrapper
    ensures Content(Insert(frag, at, [item])) == ApplyEdit(Content(frag), Ins(ContentIndex(frag, at), [item]))
  {
    hide Content;
    ContentSplice(frag[..at], [item], frag[at..]);
    assert frag == frag[..at] + frag[at..];
    ContentConcat(frag[..at], frag[at..]);
    SingleContent(item);
    InsertBetween(Content(frag[..at]), [item], Content(frag[at..]));
  }

  lemma InsertBetween(a: seq<Item>, items: seq<Item>, b: seq<Item>)
    ensures ApplyEdit(a + b, Ins(|a|, items)) == a + items + b && a + [] + b == a + b
  {
    assert (a + b)[..|a|] == a && (a + b)[|a|..] == b;
  }

  /** Content put in the place of the wrapper is inserted between what stands before it and what stands after it. */
  lemma ReplaceKeepsContent(frag: seq<Item>, id: nat, items: seq<Item>)
    requires IndexOf(frag, id) < |frag| && frag[IndexOf(frag, id)].origin == Wrapper
    requires forall k :: 0 <= k < |items| ==> items[k].origin != Wrapper
    ensures Content(ReplaceItem(frag, id, items)) ==
            ApplyEdit(Content(frag), Ins(ContentIndex(frag, IndexOf(frag, id)), items))
  {
    hide Content, ApplyEdit, IndexOf;
    var k := IndexOf(frag, id);
    ContentSplice(frag[..k], items, frag[k + 1..]);
    RepliesAreContent(items);
    ContentAround(frag, k);
    SingleContent(frag[k]);
    InsertBetween(Content(frag[..k]), items, Content(frag[k + 1..]));
  }

  lemma DeleteKeepsContent(frag: seq<Item>, at: nat)
    requires at < |frag|
    ensures Content(frag[..at] + frag[at + 1..]) ==
            if frag[at].origin != Wrapper then ApplyEdit(Content(frag), Del(ContentIndex(frag, at))) else Content(frag)
  {
    hide Content, ApplyEdit;
    ContentConcat(frag[..at], frag[at + 1..]);
    ContentAround(frag, at);
    SingleContent(frag[at]);
    DeleteMiddle(Content(frag[..at]), frag[at], Content(frag[at + 1..]));
  }

  lemma DeleteMiddle(a: seq<Item>, x: Item, b: seq<Item>)
    ensures ApplyEdit(a + [x] + b, Del(|a|)) == a + b && a + [] + b == a + b
  {
    var all := a + [x] + b;
    assert all[..|a|] == a && all[|a| + 1..] == b;
  }

  lemma EditKeepsContent(frag: seq<Item>, at: nat, item: Item)
    requires at < |frag| && item.origin == frag[at].origin
    ensures Content(frag[at := item]) ==
            if item.origin != Wrapper then ApplyEdit(Content(frag), Upd(ContentIndex(frag, at), item)) else Content(frag)
  {
    hide Content;
    ContentAround(frag, at);
    ContentAround(frag[at := item], at);
    assert frag[at := item][..at] == frag[..at] && frag[at := item][at + 1..] == frag[at + 1..];
    SingleContent(frag[at]);
    SingleContent(item);
    var a, b := Content(frag[..at]), Content(frag[at + 1..]);
    assert (a + [frag[at]] + b)[|a| := item] == a + [item] + b;
  }

  /** Each event does to the content exactly what `EditOf` says. */
  lemma StepKeepsContent(s: State, e: Event, name: string)
    requires Inv(s) && Step(s, e).To? && name in s.docs
    ensures var next := Step(s, e).state;
            && name in next.docs && Inv(next)
            && Content(next.docs[name].frag) == ApplyEdit(Content(s.docs[name].frag), EditOf(s, e, name))
  {
    hide DocOk, SchedulerOk, UniqueMentions, Content, FindPending, ReplaceItem, OutcomeNodes;
    StepIsSafe(s, e);
    var d := s.docs[name];
    match e
    case Change(_) =>
    case Fire(id) =>
      var pending := FindPending(d.frag, d.done, |d.frag|);
      AdvanceKeepsContent(d.(phase := Between(pending)));
      hide Advance;
    case Continue(n) =>
      if n == name {
        AdvanceKeepsContent(d);
      }
      hide Advance;
    case Finish(n, outcome) =>
      if n == name {
        FinishKeepsContent(s, name, outcome);
      }
      hide Complete;
    case UserInsert(n, at, node) =>
      if n == name {
        InsertKeepsContent(d.frag, at, Item(d.nextId, ByUser, node));
      }
    case UserDelete(n, at) =>
      if n == name {
        DeleteKeepsContent(d.frag, at);
      }
    case UserEdit(n, at, node) =>
      if n == name {
        EditKeepsContent(d.frag, at, d.frag[at].(node := node));
      }
    case UserDone(_, _) =>
  }

  lemma FinishKeepsContent(s: State, name: string, o: Outcome)
    requires Inv(s) && name in s.docs && s.docs[name].phase.Active?
    ensures Content(Complete(s.docs[name], o).frag) == ApplyEdit(Content(s.docs[name].frag), EditOf(s, Finish(name, o), name))
  {
    hide Content, OutcomeNodes, IndexOf, ContentIndex, SchedulerOk, UniqueMentions, RequestsOk, FreshIds;
    var d := s.docs[name];
    assert DocOk(d);
    if IndexOf(d.frag, d.phase.wrapper) < |d.frag| {
      hide ApplyEdit;
      ReplaceKeepsContent(d.frag, d.phase.wrapper, Numbered(OutcomeNodes(o), d.nextId));
    }
  }

  ghost function Edits(s: State, events: seq<Event>, name: string): seq<Edit>
    decreases events
  {
    if events == [] then []
    else
      match Step(s, events[0])
      case Disabled => []
      case To(next) => [EditOf(s, events[0], name)] + Edits(next, events[1..], name)
  }

  function ApplyEdits(content: seq<Item>, edits: seq<Edit>): seq<Item>
    decreases edits
  {
    if edits == [] then content else ApplyEdits(ApplyEdit(content, edits[0]), edits[1..])
  }

  lemma {:induction false} RunKeepsContent(s: State, events: seq<Event>, name: string)
    requires Inv(s) && Run(s, events).To? && name in s.docs
    ensures name in Run(s, events).state.docs
    ensures Content(Run(s, events).state.docs[name].frag) ==
            ApplyEdits(Content(s.docs[name].frag), Edits(s, events, name))
    decreases events
  {
    hide Step, Inv, Content, EditOf, ApplyEdit;
    if events != [] {
      StepKeepsContent(s, events[0], name);
      var next := Step(s, events[0]).state;
      RunKeepsContent(next, events[1..], name);
      var edits := Edits(s, events, name);
      assert edits[0] == EditOf(s, events[0], name) && edits[1..] == Edits(next, events[1..], name);
    }
  }

  /**
   * Run preservation, for every interleaving of the assistant's steps with users' edits: the content of a document is,
   * in order, exactly what the users' own edits and the replies, each inserted where its wrapper stood, make of it. The
   * assistant loses, reorders or alters nothing, neither what users wrote nor earlier replies.
   */
  lemma RunPreservesContent(s: State, events: seq<Event>, name: string)
    requires Initial(s) && Run(s, events).To? && name in s.docs
    ensures name in Run(s, events).state.docs
    ensures Content(Run(s, events).state.docs[name].frag) ==
            ApplyEdits(Content(s.docs[name].frag), Edits(s, events, name))
  {
    assert Inv(s);
    RunKeepsContent(s, events, name);
  }

  /** The event is a user's deletion of the node `id`. */
  predicate Deletes(s: State, e: Event, name: string, id: nat) {
    e.UserDelete? && e.name == name && name in s.docs && e.at < |s.docs[name].frag| && s.docs[name].frag[e.at].id == id
  }

  ghost predicate NeverDeleted(s: State, events: seq<Event>, name: string, id: nat)
    decreases events
  {
    || events == []
    || (!Deletes(s, events[0], name, id)
        && (Step(s, events[0]).To? ==> NeverDeleted(Step(s, events[0]).state, events[1..], name, id)))
  }

  /** Node `a` is there, and node `b` is there, not before it. */
  ghost predicate InOrder(content: seq<Item>, a: nat, b: nat) {
    exists i, j :: 0 <= i <= j < |content| && content[i].id == a && content[j].id == b
  }

  lemma InsertKeepsOrder(content: seq<Item>, at: nat, items: seq<Item>, a: nat, b: nat)
    requires at <= |content| && InOrder(content, a, b)
    ensures InOrder(Insert(content, at, items), a, b)
  {
    var i, j :| 0 <= i <= j < |content| && content[i].id == a && content[j].id == b;
    var r := Insert(content, at, items);
    var i', j' := if i < at then i else i + |items|, if j < at then j else j + |items|;
    assert r[i'] == content[i] && r[j'] == content[j];
  }

  lemma DeleteKeepsOrder(content: seq<Item>, at: nat, a: nat, b: nat)
    requires at < |content| && content[at].id != a && content[at].id != b && InOrder(content, a, b)
    ensures InOrder(content[..at] + content[at + 1..], a, b)
  {
    var i, j :| 0 <= i <= j < |content| && content[i].id == a && content[j].id == b;
    var r := content[..at] + content[at + 1..];
    var i', j' := if i < at then i else i - 1, if j < at then j else j - 1;
    assert r[i'] == content[i] && r[j'] == content[j];
  }

  lemma UpdateKeepsOrder(content: seq<Item>, at: nat, item: Item, a: nat, b: nat)
    requires at < |content| && item.id == content[at].id && InOrder(content, a, b)
    ensures InOrder(content[at := item], a, b)
  {
    var i, j :| 0 <= i <= j < |content| && content[i].id == a && content[j].id == b;
    assert content[at := item][i].id == a && content[at := item][j].id == b;
  }

  /** Where an item of the fragment stands in the content. */
  lemma ContentAt(frag: seq<Item>, at: nat)
    requires at < |frag| && frag[at].origin != Wrapper
    ensures ContentIndex(frag, at) < |Content(frag)| && Content(frag)[ContentIndex(frag, at)] == frag[at]
  {
    hide Content;
    ContentAround(frag, at);
    SingleContent(frag[at]);
  }

  lemma StepKeepsOrder(s: State, e: Event, name: string, a: nat, b: nat)
    requires Inv(s) && Step(s, e).To? && name in s.docs && InOrder(Content(s.docs[name].frag), a, b)
    requires !Deletes(s, e, name, a) && !Deletes(s, e, name, b)
    ensures name in Step(s, e).state.docs && InOrder(Content(Step(s, e).state.docs[name].frag), a, b)
  {
    hide Inv, Step, Content, InOrder, ContentIndex, OutcomeNodes, Insert, IndexOf;
    StepKeepsContent(s, e, name);
    var frag := s.docs[name].frag;
    match EditOf(s, e, name)
    case NoEdit =>
    case Ins(at, items) =>
      if at <= |Content(frag)| {
        InsertKeepsOrder(Content(frag), at, items, a, b);
      }
    case Del(at) =>
      ContentAt(frag, e.at);
      DeleteKeepsOrder(Content(frag), at, a, b);
    case Upd(at, item) =>
      ContentAt(frag, e.at);
      UpdateKeepsOrder(Content(frag), at, item, a, b);
  }

  lemma {:induction false} RunKeepsOrder(s: State, events: seq<Event>, name: string, a: nat, b: nat)
    requires Inv(s) && Run(s, events).To? && name in s.docs && InOrder(Content(s.docs[name].frag), a, b)
    requires NeverDeleted(s, events, name, a) && NeverDeleted(s, events, name, b)
    ensures var last := Run(s, events).state; name in last.docs && InOrder(Content(last.docs[name].frag), a, b)
    decreases events
  {
    hide Inv, Step, Content, InOrder, Deletes;
    if events != [] {
      StepKeepsOrder(s, events[0], name, a, b);
      StepIsSafe(s, events[0]);
      RunKeepsOrder(Step(s, events[0]).state, events[1..], name, a, b);
    }
  }

  lemma InitialIsSafe(s: State)
    requires Initial(s)
    ensures Inv(s)
  {
    hide UniqueMentions, FreshIds;
  }

  /**
   * Nothing is lost or moved: of two nodes, written by users or inserted with a reply, that are in a document at any
   * point and that no user deletes from then on, both are still there at the end of the run, in the same order.
   */
  lemma NothingIsLost(start: State, history: seq<Event>, events: seq<Event>, name: string, a: nat, b: nat)
    requires Initial(start) && Run(start, history).To?
    requires var s := Run(start, history).state;
             && Run(s, events).To? && name in s.docs && InOrder(Content(s.docs[name].frag), a, b)
             && NeverDeleted(s, events, name, a) && NeverDeleted(s, events, name, b)
    ensures var last := Run(Run(start, history).state, events).state;
            name in last.docs && InOrder(Content(last.docs[name].frag), a, b)
  {
    hide *;
    InitialIsSafe(start);
    RunIsSafe(start, history);
    RunKeepsOrder(Run(start, history).state, events, name, a, b);
  }

  /** The content of a reply takes exactly the wrapper's place, between the nodes that surround it at that moment. */
  lemma ReplyTakesWrappersPlace(d: Doc, o: Outcome, before: seq<Item>, wrapper: Item, after: seq<Item>)
    requires DocOk(d) && d.phase.Active?
    requires d.frag == before + [wrapper] + after && wrapper.id == d.phase.wrapper
    ensures Complete(d, o).frag == before + Numbered(OutcomeNodes(o), d.nextId) + after
    ensures OutcomeNodes(o) != []
  {
    hide OutcomeNodes, UniqueMentions, RequestsOk;
    RepliesHaveNoMentions(o, d.nextId);
    var k := IndexOf(d.frag, d.phase.wrapper);
    assert d.frag[|before|] == wrapper;
    assert k == |before|;
    assert d.frag[..k] == before && d.frag[k + 1..] == after;
  }
}
