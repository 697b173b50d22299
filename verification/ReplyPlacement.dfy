/** Where the replies of a batch come to stand, when they arrive and in the end. */
module ReplyPlacement {
  import opened Text
  import opened InlineMarks
  import opened Mentions
  import opened RunProtocol
  import Markdown
  import Dom

  // ---------------------------------------------------------------------------
  // Where a reply lands
  // ---------------------------------------------------------------------------

  /** Without edits in between, answering a mention inserts its reply behind the index collected for the batch. */
  lemma UndisturbedTurn(d: Doc, o: Outcome)
    requires DocOk(d) && d.phase.Between? && d.phase.queue != [] && d.phase.queue[0].index + 1 <= |d.frag|
    ensures Advance(d).phase.Active?
    ensures Complete(Advance(d), o).frag ==
            Insert(d.frag, d.phase.queue[0].index + 1, Numbered(OutcomeNodes(o), d.nextId + 1))
  {
    hide DocOk, OutcomeNodes, IndexOf;
    AdvanceIsSafe(d);
    var at := d.phase.queue[0].index + 1;
    var wrapper := Item(d.nextId, Wrapper, WRAPPER_NODE);
    ReplyTakesWrappersPlace(Advance(d), o, d.frag[..at], wrapper, d.frag[at..]);
  }

  /** The turns of a batch that nothing disturbs: each mention is requested, then its reply arrives. */
  function BatchTurns(name: string, outcomes: seq<Outcome>): seq<Event> {
    if outcomes == [] then []
    else [Continue(name), Finish(name, outcomes[0])] + BatchTurns(name, outcomes[1..])
  }

  /** Places in the document for the next replies: their indices ascend and lie in the fragment. */
  ghost predicate Ahead(queue: seq<Pending>, n: nat) {
    && (forall j, k :: 0 <= j < k < |queue| ==> queue[j].index < queue[k].index)
    && (forall k :: 0 <= k < |queue| ==> queue[k].index < n)
  }

  /** The items of the reply that came in last. */
  function LastReply(d: Doc, o: Outcome): seq<Item> {
    Numbered(OutcomeNodes(o), if d.nextId >= |OutcomeNodes(o)| then d.nextId - |OutcomeNodes(o)| else 0)
  }

  predicate StandAt(frag: seq<Item>, items: seq<Item>, k: int) {
    0 <= k <= |frag| - |items| && frag[k..k + |items|] == items
  }

  /** The items stand together in the fragment, and `x` stands directly before the first of them. */
  ghost predicate DirectlyBehind(frag: seq<Item>, x: Item, items: seq<Item>) {
    exists k :: StandAt(frag, items, k) && k > 0 && frag[k - 1] == x
  }

  /** The items stand together in the fragment, and `x` stands somewhere after them. */
  ghost predicate Before(frag: seq<Item>, items: seq<Item>, x: Item) {
    exists k, p :: StandAt(frag, items, k) && k + |items| <= p < |frag| && frag[p] == x
  }

  lemma RepliesAreNotEmpty(d: Doc, o: Outcome)
    ensures |LastReply(d, o)| == |OutcomeNodes(o)| > 0
  {
    RepliesHaveNoMentions(o, 0);
  }

  /** Where the items stand is settled by where their first one stands. */
  lemma BehindExact(frag: seq<Item>, nextId: nat, x: Item, items: seq<Item>, at: nat)
    requires FreshIds(frag, nextId) && items != [] && at > 0 && StandAt(frag, items, at)
    ensures DirectlyBehind(frag, x, items) <==> frag[at - 1] == x
  {
    assert frag[at] == frag[at..at + |items|][0];
    if DirectlyBehind(frag, x, items) {
      var k :| StandAt(frag, items, k) && k > 0 && frag[k - 1] == x;
      assert frag[k] == frag[k..k + |items|][0];
      assert k == at;
    }
  }

  /** What an insertion does to the positions around it. */
  lemma InsertPlaces(frag: seq<Item>, at: nat, items: seq<Item>, pos: nat)
    requires at <= |frag| && pos < |frag|
    ensures var r := Insert(frag, at, items);
            && |r| == |frag| + |items| && StandAt(r, items, at)
            && (if pos < at then r[pos] == frag[pos] else r[pos + |items|] == frag[pos])
  {
    var r := Insert(frag, at, items);
    if pos >= at {
      assert r[pos + |items|] == frag[at..][pos - at];
    }
  }

  /** One undisturbed turn, as two events of the protocol. */
  lemma BatchTurn(s: State, name: string, o: Outcome)
    requires Inv(s) && name in s.docs && s.docs[name].phase.Between? && s.docs[name].phase.queue != []
    requires s.docs[name].phase.queue[0].index < |s.docs[name].frag|
    ensures var begun := Step(s, Continue(name)); begun.To? && Step(begun.state, Finish(name, o)).To?
    ensures var d, next := s.docs[name], Step(Step(s, Continue(name)).state, Finish(name, o)).state;
            && Inv(next) && name in next.docs && next.docs[name].phase == Between(d.phase.queue[1..])
            && next.docs[name].frag == Insert(d.frag, d.phase.queue[0].index + 1, LastReply(next.docs[name], o))
  {
    hide DocOk, SchedulerOk, OutcomeNodes, ReplaceItem;
    StepIsSafe(s, Continue(name));
    var d := s.docs[name];
    UndisturbedTurn(d, o);
    assert Step(s, Continue(name)).state.docs[name] == Advance(d);
    StepIsSafe(Step(s, Continue(name)).state, Finish(name, o));
  }

  lemma RunTwo(s: State, first: Event, second: Event, rest: seq<Event>)
    requires Step(s, first).To? && Step(Step(s, first).state, second).To?
    ensures Run(s, [first, second] + rest) == Run(Step(Step(s, first).state, second).state, rest)
  {
    hide Step;
    assert ([first, second] + rest)[1..] == [second] + rest;
    assert ([second] + rest)[1..] == rest;
  }

  /**
   * Over the turns of a batch, a node at or after the paragraph of the last mention answered: it comes to stand directly
   * before the last reply if it is that paragraph and no other reply came before; else it comes to stand after the reply.
   */
  lemma {:induction false} RepliesPushOn(s: State, name: string, outcomes: seq<Outcome>, pos: nat)
    requires Inv(s) && name in s.docs && s.docs[name].phase.Between?
    requires var d := s.docs[name]; var queue := d.phase.queue;
             && 0 < |outcomes| <= |queue| && Ahead(queue, |d.frag|) && queue[|outcomes| - 1].index <= pos < |d.frag|
    ensures var d, r := s.docs[name], Run(s, BatchTurns(name, outcomes));
            && r.To? && name in r.state.docs
            && var reply, at := LastReply(r.state.docs[name], outcomes[|outcomes| - 1]), d.phase.queue[|outcomes| - 1].index;
            var frag, x := r.state.docs[name].frag, d.frag[pos];
            && (DirectlyBehind(frag, x, reply) <==> |outcomes| == 1 && pos == at)
            && (Before(frag, reply, x) <== |outcomes| > 1 || pos > at)
    decreases |outcomes|
  {
    hide Inv, Step, Run, Insert, LastReply;
    var d := s.docs[name];
    var queue, o := d.phase.queue, outcomes[0];
    BatchTurn(s, name, o);
    var next := Step(Step(s, Continue(name)).state, Finish(name, o)).state;
    RunTwo(s, Continue(name), Finish(name, o), BatchTurns(name, outcomes[1..]));
    var reply, at := LastReply(next.docs[name], o), queue[0].index + 1;
    RepliesAreNotEmpty(next.docs[name], o);
    InsertPlaces(d.frag, at, reply, pos);
    if |outcomes| == 1 {
      LastTurn(s, next, name, o, pos);
    } else {
      assert pos >= at;
      assert outcomes[1..][|outcomes| - 2] == outcomes[|outcomes| - 1];
      assert queue[1..][|outcomes| - 2] == queue[|outcomes| - 1];
      RepliesPushOn(next, name, outcomes[1..], pos + |reply|);
    }
  }

  lemma LastTurn(s: State, next: State, name: string, o: Outcome, pos: nat)
    requires Inv(next) && name in s.docs && name in next.docs
    requires s.docs[name].phase.Between? && s.docs[name].phase.queue != []
    requires s.docs[name].phase.queue[0].index <= pos < |s.docs[name].frag|
    requires var d := s.docs[name];
             next.docs[name].frag == Insert(d.frag, d.phase.queue[0].index + 1, LastReply(next.docs[name], o))
    ensures Run(next, BatchTurns(name, [])) == To(next)
    ensures var at, x := s.docs[name].phase.queue[0].index, s.docs[name].frag[pos];
            var frag, reply := next.docs[name].frag, LastReply(next.docs[name], o);
            (DirectlyBehind(frag, x, reply) <==> pos == at) && (Before(frag, reply, x) <== pos > at)
  {
    hide SchedulerOk, UniqueMentions, RequestsOk, WrapperOk, Insert, OutcomeNodes, DirectlyBehind, LastReply, StandAt;
    var d, after := s.docs[name], next.docs[name];
    var at, reply := d.phase.queue[0].index, LastReply(after, o);
    RepliesAreNotEmpty(after, o);
    assert DocOk(after);
    InsertPlaces(d.frag, at + 1, reply, pos);
    InsertPlaces(d.frag, at + 1, reply, at);
    BehindExact(after.frag, after.nextId, d.frag[pos], reply, at + 1);
    if pos > at {
      assert after.frag[pos + |reply|] == d.frag[pos];
      assert after.frag[pos + |reply|].id != after.frag[at].id;
    }
  }

  /** The state in which a firing timer has collected its batch, before the first turn. */
  function Gathered(s: State, timer: nat): State
    requires timer in s.sched.timers && s.sched.timers[timer] in s.docs
  {
    var name, sched := s.sched.timers[timer], TimerGone(s.sched, timer);
    var d := s.docs[name];
    State(sched.(processing := sched.processing + {name}),
          s.docs[name := d.(phase := Between(FindPending(d.frag, d.done, |d.frag|)))])
  }

  lemma GatheredIsSafe(s: State, timer: nat)
    requires Inv(s) && timer in s.sched.timers && s.sched.timers[timer] in s.docs
    ensures Inv(Gathered(s, timer))
    ensures var d := s.docs[s.sched.timers[timer]]; Ahead(FindPending(d.frag, d.done, |d.frag|), |d.frag|)
  {
    hide FindPending, UniqueMentions;
    var d := s.docs[s.sched.timers[timer]];
    BatchIsDistinct(d.frag, d.done);
    var pending := FindPending(d.frag, d.done, |d.frag|);
    assert DistinctBatch(pending, d.done, |d.frag|);
    assert QueueOk(pending, d.requested);
    assert WrapperOk(d.frag, Between(pending));
    assert DocOk(d.(phase := Between(pending)));
    hide DocOk;
  }

  lemma FiringIsFirstTurn(s: State, timer: nat)
    requires Inv(s) && timer in s.sched.timers && s.sched.timers[timer] in s.docs
    requires var name := s.sched.timers[timer]; var d := s.docs[name];
             FindPending(d.frag, d.done, |d.frag|) != [] && |Split(name, ':')| == 3
    ensures Step(s, Fire(timer)) == Step(Gathered(s, timer), Continue(s.sched.timers[timer]))
  {
    hide DocOk, FindPending, Split, Advance;
    var name, d := s.sched.timers[timer], s.docs[s.sched.timers[timer]];
    var begun := Advance(d.(phase := Between(FindPending(d.frag, d.done, |d.frag|))));
    assert Gathered(s, timer).docs[name := begun] == s.docs[name := begun];
  }

  lemma RunSameStart(s: State, e: Event, t: State, f: Event, rest: seq<Event>)
    requires Step(s, e) == Step(t, f)
    ensures Run(s, [e] + rest) == Run(t, [f] + rest)
  {
    hide Step;
    assert ([e] + rest)[1..] == rest && ([f] + rest)[1..] == rest;
  }

  /** A timer fires and the first mentions of its batch are answered, with nothing else happening in between. */
  function UndisturbedBatch(timer: nat, name: string, outcomes: seq<Outcome>): seq<Event>
    requires outcomes != []
  {
    [Fire(timer), Finish(name, outcomes[0])] + BatchTurns(name, outcomes[1..])
  }

  /** The timer is armed for a document room with at least `n` mentions ready to be answered. */
  ghost predicate ReadyBatch(s: State, timer: nat, n: nat) {
    && timer in s.sched.timers && s.sched.timers[timer] in s.docs && |Split(s.sched.timers[timer], ':')| == 3
    && var d := s.docs[s.sched.timers[timer]]; 0 < n <= |FindPending(d.frag, d.done, |d.frag|)|
  }

  /**
   * The undisturbed batch runs, and when the last of its replies has arrived, that reply stands directly behind the
   * paragraph of its own mention exactly when it is also the first; otherwise it stands before that paragraph.
   */
  ghost predicate LandsExactly(s: State, timer: nat, outcomes: seq<Outcome>)
    requires ReadyBatch(s, timer, |outcomes|)
  {
    var name, j := s.sched.timers[timer], |outcomes| - 1;
    var d, r := s.docs[name], Run(s, UndisturbedBatch(timer, name, outcomes));
    var batch := FindPending(d.frag, d.done, |d.frag|);
    && r.To? && name in r.state.docs
    && var after := r.state.docs[name];
    var paragraph, reply := d.frag[batch[j].index], LastReply(after, outcomes[j]);
    && (DirectlyBehind(after.frag, paragraph, reply) <==> j == 0)
    && (j > 0 ==> Before(after.frag, reply, paragraph))
  }

  /** The events from the firing on, as turns of the collected batch. */
  lemma BatchFromGathered(s: State, timer: nat, outcomes: seq<Outcome>)
    requires Inv(s) && ReadyBatch(s, timer, |outcomes|)
    ensures var name := s.sched.timers[timer];
            Run(s, UndisturbedBatch(timer, name, outcomes)) == Run(Gathered(s, timer), BatchTurns(name, outcomes))
  {
    hide Inv, Step, Run, FindPending, Split, TimerGone, UndisturbedBatch, BatchTurns, Gathered;
    var name := s.sched.timers[timer];
    FiringIsFirstTurn(s, timer);
    FirstTurns(timer, name, outcomes);
    RunSameStart(s, Fire(timer), Gathered(s, timer), Continue(name),
                 [Finish(name, outcomes[0])] + BatchTurns(name, outcomes[1..]));
  }

  lemma FirstTurns(timer: nat, name: string, outcomes: seq<Outcome>)
    requires outcomes != []
    ensures var rest := [Finish(name, outcomes[0])] + BatchTurns(name, outcomes[1..]);
            UndisturbedBatch(timer, name, outcomes) == [Fire(timer)] + rest && BatchTurns(name, outcomes) == [Continue(name)] + rest
  {
    ConcatAssociates([Fire(timer)], [Finish(name, outcomes[0])], BatchTurns(name, outcomes[1..]));
    ConcatAssociates([Continue(name)], [Finish(name, outcomes[0])], BatchTurns(name, outcomes[1..]));
  }

  lemma BatchLands(s: State, timer: nat, outcomes: seq<Outcome>)
    requires Inv(s) && ReadyBatch(s, timer, |outcomes|)
    ensures LandsExactly(s, timer, outcomes)
  {
    hide Inv, Step, Run, FindPending, LastReply, DirectlyBehind, Before, Split, TimerGone;
    var name, gathered := s.sched.timers[timer], Gathered(s, timer);
    GatheredIsSafe(s, timer);
    BatchFromGathered(s, timer, outcomes);
    RepliesPushOn(gathered, name, outcomes, gathered.docs[name].phase.queue[|outcomes| - 1].index);
  }

  /**
   * Where replies land, exactly. Whatever happened before, when a timer fires and nothing disturbs the batch, a reply
   * stands directly after the paragraph of its mention, at the moment it arrives, if and only if the mention is the first
   * of the batch; every later reply comes to stand before its own paragraph.
   */
  lemma OnlyFirstReplyLandsInPlace(start: State, history: seq<Event>, timer: nat, outcomes: seq<Outcome>)
    requires Initial(start) && Run(start, history).To? && ReadyBatch(Run(start, history).state, timer, |outcomes|)
    ensures LandsExactly(Run(start, history).state, timer, outcomes)
  {
    hide *;
    InitialIsSafe(start);
    RunIsSafe(start, history);
    BatchLands(Run(start, history).state, timer, outcomes);
  }

  // ---------------------------------------------------------------------------
  // Where a reply stands in the end
  // ---------------------------------------------------------------------------

  lemma {:induction false} RunConcat(s: State, a: seq<Event>, b: seq<Event>)
    requires Run(s, a).To?
    ensures Run(s, a + b) == Run(Run(s, a).state, b)
    decreases a
  {
    hide Step;
    if a == [] {
      assert a + b == b;
    } else {
      assert (a + b)[0] == a[0] && (a + b)[1..] == a[1..] + b;
      RunConcat(Step(s, a[0]).state, a[1..], b);
    }
  }

  lemma {:induction false} TurnsConcat(name: string, a: seq<Outcome>, b: seq<Outcome>)
    ensures BatchTurns(name, a + b) == BatchTurns(name, a) + BatchTurns(name, b)
  {
    if a == [] {
      assert a + b == b;
      assert [] + BatchTurns(name, b) == BatchTurns(name, b);
    } else {
      assert (a + b)[0] == a[0] && (a + b)[1..] == a[1..] + b;
      TurnsConcat(name, a[1..], b);
      hide BatchTurns;
      ConcatAssociates([Continue(name), Finish(name, a[0])], BatchTurns(name, a[1..]), BatchTurns(name, b));
    }
  }

  /** A document between two turns of a batch whose next `n` mentions have their places in the fragment. */
  ghost predicate Due(s: State, name: string, n: nat) {
    && Inv(s) && name in s.docs && s.docs[name].phase.Between?
    && n <= |s.docs[name].phase.queue| && Ahead(s.docs[name].phase.queue, |s.docs[name].frag|)
  }

  /** One turn of such a batch. */
  lemma DueTurn(s: State, name: string, outcomes: seq<Outcome>)
    requires Due(s, name, |outcomes|) && outcomes != []
    ensures var d, next := s.docs[name], Step(Step(s, Continue(name)).state, Finish(name, outcomes[0])).state;
            && Step(s, Continue(name)).To? && Step(Step(s, Continue(name)).state, Finish(name, outcomes[0])).To?
            && Run(s, BatchTurns(name, outcomes)) == Run(next, BatchTurns(name, outcomes[1..]))
            && Due(next, name, |outcomes| - 1) && next.docs[name].phase.queue == d.phase.queue[1..]
            && next.docs[name].frag == Insert(d.frag, d.phase.queue[0].index + 1, LastReply(next.docs[name], outcomes[0]))
            && |LastReply(next.docs[name], outcomes[0])| > 0
  {
    hide Inv, Step, Run, LastReply;
    BatchTurn(s, name, outcomes[0]);
    var next := Step(Step(s, Continue(name)).state, Finish(name, outcomes[0])).state;
    RunTwo(s, Continue(name), Finish(name, outcomes[0]), BatchTurns(name, outcomes[1..]));
    RepliesAreNotEmpty(next.docs[name], outcomes[0]);
  }

  /** The turns run through, and leave the rest of the batch due. */
  lemma {:induction false} TurnsRun(s: State, name: string, outcomes: seq<Outcome>)
    requires Due(s, name, |outcomes|)
    ensures var r := Run(s, BatchTurns(name, outcomes));
            && r.To? && Due(r.state, name, 0)
            && r.state.docs[name].phase.queue == s.docs[name].phase.queue[|outcomes|..]
    decreases |outcomes|
  {
    hide Inv, Ahead, Step, LastReply, Insert;
    if outcomes == [] {
      assert BatchTurns(name, outcomes) == [];
    } else {
      hide Run, BatchTurns;
      DueTurn(s, name, outcomes);
      var next := Step(Step(s, Continue(name)).state, Finish(name, outcomes[0])).state;
      TurnsRun(next, name, outcomes[1..]);
      Drops(s.docs[name].phase.queue, |outcomes|);
    }
  }

  lemma Drops(queue: seq<Pending>, n: nat)
    requires 0 < n <= |queue|
    ensures queue[1..][n - 1..] == queue[n..]
  {
  }

  /** The turns of a batch in two parts. */
  lemma TurnsSplit(s: State, name: string, outcomes: seq<Outcome>, n: nat)
    requires Due(s, name, |outcomes|) && n <= |outcomes|
    ensures var mid := Run(s, BatchTurns(name, outcomes[..n]));
            && mid.To? && Due(mid.state, name, |outcomes| - n)
            && mid.state.docs[name].phase.queue == s.docs[name].phase.queue[n..]
            && Run(s, BatchTurns(name, outcomes)) == Run(mid.state, BatchTurns(name, outcomes[n..]))
  {
    hide Inv, Run, BatchTurns;
    TurnsRun(s, name, outcomes[..n]);
    assert outcomes == outcomes[..n] + outcomes[n..];
    TurnsConcat(name, outcomes[..n], outcomes[n..]);
    RunConcat(s, BatchTurns(name, outcomes[..n]), BatchTurns(name, outcomes[n..]));
  }

  /** `a` stands before `b`, `gap` or more places apart. */
  ghost predicate Spaced(frag: seq<Item>, a: Item, b: Item, gap: int) {
    exists k, p :: 0 <= k < p < |frag| && frag[k] == a && frag[p] == b && p - k >= gap
  }

  lemma InsertSpaced(frag: seq<Item>, at: nat, items: seq<Item>, a: Item, b: Item, gap: int)
    requires at <= |frag| && Spaced(frag, a, b, gap)
    ensures Spaced(Insert(frag, at, items), a, b, gap)
  {
    hide Insert;
    var k, p :| 0 <= k < p < |frag| && frag[k] == a && frag[p] == b && p - k >= gap;
    InsertPlaces(frag, at, items, k);
    InsertPlaces(frag, at, items, p);
    var r := Insert(frag, at, items);
    var k', p' := if k < at then k else k + |items|, if p < at then p else p + |items|;
    assert r[k'] == a && r[p'] == b;
  }

  /** Further turns keep the order of what is there, and bring nothing closer together. */
  lemma {:induction false} TurnsKeepSpaced(s: State, name: string, outcomes: seq<Outcome>, a: Item, b: Item, gap: int)
    requires Due(s, name, |outcomes|) && Spaced(s.docs[name].frag, a, b, gap)
    ensures var r := Run(s, BatchTurns(name, outcomes));
            r.To? && name in r.state.docs && Spaced(r.state.docs[name].frag, a, b, gap)
    decreases |outcomes|
  {
    hide Inv, Step, LastReply, Insert, Spaced;
    if outcomes == [] {
      assert BatchTurns(name, outcomes) == [];
    } else {
      hide Run, BatchTurns;
      DueTurn(s, name, outcomes);
      var next := Step(Step(s, Continue(name)).state, Finish(name, outcomes[0])).state;
      var d := s.docs[name];
      InsertSpaced(d.frag, d.phase.queue[0].index + 1, LastReply(next.docs[name], outcomes[0]), a, b, gap);
      TurnsKeepSpaced(next, name, outcomes[1..], a, b, gap);
    }
  }

  /** Further turns leave alone what stands before the places of their replies. */
  lemma {:induction false} TurnsKeepPrefix(s: State, name: string, outcomes: seq<Outcome>, n: nat)
    requires Due(s, name, |outcomes|) && n <= |s.docs[name].frag|
    requires outcomes != [] ==> n <= s.docs[name].phase.queue[0].index + 1
    ensures var r := Run(s, BatchTurns(name, outcomes));
            r.To? && name in r.state.docs && n <= |r.state.docs[name].frag|
            && r.state.docs[name].frag[..n] == s.docs[name].frag[..n]
    decreases |outcomes|
  {
    hide Inv, Step, LastReply, Insert;
    if outcomes == [] {
      assert BatchTurns(name, outcomes) == [];
    } else {
      hide Run, BatchTurns;
      DueTurn(s, name, outcomes);
      var next := Step(Step(s, Continue(name)).state, Finish(name, outcomes[0])).state;
      var d := s.docs[name];
      PrefixKept(d.frag, d.phase.queue[0].index + 1, LastReply(next.docs[name], outcomes[0]), n);
      TurnsKeepPrefix(next, name, outcomes[1..], n);
    }
  }

  lemma PrefixKept(frag: seq<Item>, at: nat, items: seq<Item>, n: nat)
    requires n <= at <= |frag|
    ensures n <= |Insert(frag, at, items)| && Insert(frag, at, items)[..n] == frag[..n]
  {
  }

  /** Two neighbours of a whole reply, or the node before it and its first item, are not spaced apart. */
  lemma SpacedIsNotBehind(frag: seq<Item>, nextId: nat, x: Item, items: seq<Item>, i: nat)
    requires FreshIds(frag, nextId) && i + 1 < |items| && Spaced(frag, items[i], items[i + 1], 2)
    ensures !DirectlyBehind(frag, x, items)
  {
    hide *;
    if DirectlyBehind(frag, x, items) {
      NeighboursTouch(frag, nextId, x, items, i);
    }
  }

  lemma NeighboursTouch(frag: seq<Item>, nextId: nat, x: Item, items: seq<Item>, i: nat)
    requires FreshIds(frag, nextId) && i + 1 < |items| && DirectlyBehind(frag, x, items)
    ensures !Spaced(frag, items[i], items[i + 1], 2)
  {
    var k :| StandAt(frag, items, k) && k > 0 && frag[k - 1] == x;
    assert frag[k + i] == frag[k..k + |items|][i] && frag[k + i + 1] == frag[k..k + |items|][i + 1];
    forall p, q | 0 <= p < q < |frag| && frag[p] == items[i] && frag[q] == items[i + 1]
      ensures q - p == 1
    {
    }
  }

  lemma AfterIsNotBehind(frag: seq<Item>, nextId: nat, x: Item, items: seq<Item>)
    requires FreshIds(frag, nextId) && items != [] && Spaced(frag, items[0], x, 1)
    ensures !DirectlyBehind(frag, x, items)
  {
    hide *;
    if DirectlyBehind(frag, x, items) {
      BehindIsAfter(frag, nextId, x, items);
    }
  }

  lemma BehindIsAfter(frag: seq<Item>, nextId: nat, x: Item, items: seq<Item>)
    requires FreshIds(frag, nextId) && items != [] && DirectlyBehind(frag, x, items)
    ensures !Spaced(frag, items[0], x, 1)
  {
    var k :| StandAt(frag, items, k) && k > 0 && frag[k - 1] == x;
    assert frag[k] == frag[k..k + |items|][0];
    forall p, q | 0 <= p < |frag| && 0 <= q < |frag| && frag[p] == items[0] && frag[q] == x
      ensures q == p - 1
    {
    }
  }

  lemma DueIsFresh(s: State, name: string, n: nat)
    requires Due(s, name, n)
    ensures FreshIds(s.docs[name].frag, s.docs[name].nextId)
  {
    hide SchedulerOk, UniqueMentions, RequestsOk, WrapperOk;
    assert DocOk(s.docs[name]);
  }

  /** A reply that came to stand before its paragraph is never directly behind it. */
  lemma LaterReplyAtEnd(s: State, name: string, outcomes: seq<Outcome>, x: Item, items: seq<Item>)
    requires Due(s, name, |outcomes|) && items != [] && Before(s.docs[name].frag, items, x)
    ensures var r := Run(s, BatchTurns(name, outcomes));
            r.To? && name in r.state.docs && !DirectlyBehind(r.state.docs[name].frag, x, items)
  {
    hide Inv, Run, DirectlyBehind, Ahead;
    var frag := s.docs[name].frag;
    var k, p :| StandAt(frag, items, k) && k + |items| <= p < |frag| && frag[p] == x;
    assert frag[k] == frag[k..k + |items|][0];
    TurnsKeepSpaced(s, name, outcomes, items[0], x, 1);
    TurnsRun(s, name, outcomes);
    var last := Run(s, BatchTurns(name, outcomes)).state;
    DueIsFresh(last, name, 0);
    AfterIsNotBehind(last.docs[name].frag, last.docs[name].nextId, x, items);
  }

  /**
   * A reply that stands directly behind `x`, before further turns: it still does after them exactly when the next reply
   * is not inserted inside it.
   */
  lemma FirstReplyAtEnd(s: State, name: string, outcomes: seq<Outcome>, x: Item, items: seq<Item>, at: nat)
    requires Due(s, name, |outcomes|) && at > 0 && StandAt(s.docs[name].frag, items, at) && items != []
    requires s.docs[name].frag[at - 1] == x
    requires outcomes != [] ==> at <= s.docs[name].phase.queue[0].index
    ensures var r := Run(s, BatchTurns(name, outcomes));
            && r.To? && name in r.state.docs
            && (DirectlyBehind(r.state.docs[name].frag, x, items) <==>
                outcomes == [] || at + |items| <= s.docs[name].phase.queue[0].index + 1)
  {
    hide Inv, Run, DirectlyBehind, Ahead;
    var d, n := s.docs[name], at + |items|;
    TurnsRun(s, name, outcomes);
    var last := Run(s, BatchTurns(name, outcomes)).state;
    DueIsFresh(last, name, 0);
    if outcomes == [] || n <= d.phase.queue[0].index + 1 {
      TurnsKeepPrefix(s, name, outcomes, n);
      var frag := last.docs[name].frag;
      assert frag[at..n] == frag[..n][at..] == d.frag[..n][at..] == d.frag[at..n];
      assert frag[at - 1] == frag[..n][at - 1] == d.frag[..n][at - 1];
      BehindExact(frag, last.docs[name].nextId, x, items, at);
    } else {
      CutApart(s, name, outcomes, items, at);
      SpacedIsNotBehind(last.docs[name].frag, last.docs[name].nextId, x, items, d.phase.queue[0].index - at);
    }
  }

  /** The next reply is inserted inside the items and parts two neighbours for good. */
  lemma CutApart(s: State, name: string, outcomes: seq<Outcome>, items: seq<Item>, at: nat)
    requires Due(s, name, |outcomes|) && outcomes != [] && StandAt(s.docs[name].frag, items, at)
    requires at <= s.docs[name].phase.queue[0].index < at + |items| - 1
    ensures var r, i := Run(s, BatchTurns(name, outcomes)), s.docs[name].phase.queue[0].index - at;
            r.To? && name in r.state.docs && Spaced(r.state.docs[name].frag, items[i], items[i + 1], 2)
  {
    hide Inv, Step, Run, LastReply, Ahead, Insert, BatchTurns, Spaced;
    var d := s.docs[name];
    var p := d.phase.queue[0].index;
    DueTurn(s, name, outcomes);
    var next := Step(Step(s, Continue(name)).state, Finish(name, outcomes[0])).state;
    InsertParts(d.frag, items, at, p, LastReply(next.docs[name], outcomes[0]));
    TurnsKeepSpaced(next, name, outcomes[1..], items[p - at], items[p - at + 1], 2);
  }

  lemma InsertParts(frag: seq<Item>, items: seq<Item>, at: nat, p: nat, reply: seq<Item>)
    requires StandAt(frag, items, at) && at <= p < at + |items| - 1 && reply != []
    ensures Spaced(Insert(frag, p + 1, reply), items[p - at], items[p - at + 1], 2)
  {
    assert frag[p] == frag[at..at + |items|][p - at] && frag[p + 1] == frag[at..at + |items|][p + 1 - at];
    InsertPlaces(frag, p + 1, reply, p);
    InsertPlaces(frag, p + 1, reply, p + 1);
    hide Insert;
    var r := Insert(frag, p + 1, reply);
    assert r[p] == items[p - at] && r[p + 1 + |reply|] == items[p - at + 1];
  }

  /**
   * The undisturbed batch runs, and in the end the reply that came `j`-th stands whole, directly behind the paragraph of
   * its own mention, exactly when it was the first and is not longer than the way to the next paragraph of the batch.
   */
  ghost predicate StandsExactly(s: State, timer: nat, outcomes: seq<Outcome>, j: nat)
    requires j < |outcomes| && ReadyBatch(s, timer, |outcomes|)
  {
    var name := s.sched.timers[timer];
    var d := s.docs[name];
    var batch := FindPending(d.frag, d.done, |d.frag|);
    var arrived := Run(s, UndisturbedBatch(timer, name, outcomes[..j + 1]));
    var last := Run(s, UndisturbedBatch(timer, name, outcomes));
    && arrived.To? && name in arrived.state.docs && last.To? && name in last.state.docs
    && var paragraph, reply := d.frag[batch[j].index], LastReply(arrived.state.docs[name], outcomes[j]);
    DirectlyBehind(last.state.docs[name].frag, paragraph, reply) <==>
      j == 0 && (|outcomes| == 1 || |reply| <= batch[1].index - batch[0].index)
  }

  lemma BatchStands(s: State, timer: nat, outcomes: seq<Outcome>, j: nat)
    requires Inv(s) && j < |outcomes| && ReadyBatch(s, timer, |outcomes|)
    ensures StandsExactly(s, timer, outcomes, j)
  {
    hide Inv, Step, Run, FindPending, LastReply, DirectlyBehind, Before, Split, TimerGone, BatchTurns, UndisturbedBatch;
    var name, gathered := s.sched.timers[timer], Gathered(s, timer);
    var d, first := s.docs[name], outcomes[..j + 1];
    GatheredIsSafe(s, timer);
    BatchFromGathered(s, timer, outcomes);
    BatchFromGathered(s, timer, first);
    BatchLands(s, timer, first);
    TurnsSplit(gathered, name, outcomes, j + 1);
    var mid := Run(gathered, BatchTurns(name, first)).state;
    var batch, rest := FindPending(d.frag, d.done, |d.frag|), outcomes[j + 1..];
    var x, reply := d.frag[batch[j].index], LastReply(mid.docs[name], outcomes[j]);
    RepliesAreNotEmpty(mid.docs[name], outcomes[j]);
    if j > 0 {
      LaterReplyAtEnd(mid, name, rest, x, reply);
    } else {
      FirstPlace(gathered, name, outcomes);
      FirstReplyAtEnd(mid, name, rest, x, reply, batch[0].index + 1);
    }
  }

  /** The first reply, when it arrives. */
  lemma FirstPlace(s: State, name: string, outcomes: seq<Outcome>)
    requires Due(s, name, |outcomes|) && outcomes != []
    ensures var d, r := s.docs[name], Run(s, BatchTurns(name, outcomes[..1]));
            && r.To? && name in r.state.docs
            && var frag, at := r.state.docs[name].frag, d.phase.queue[0].index + 1;
            StandAt(frag, LastReply(r.state.docs[name], outcomes[0]), at) && frag[at - 1] == d.frag[at - 1]
  {
    hide Inv, Step, LastReply, StandAt, Insert;
    var d := s.docs[name];
    assert outcomes[..1] == [outcomes[0]] && [outcomes[0]][1..] == [];
    DueTurn(s, name, outcomes[..1]);
    var next := Step(Step(s, Continue(name)).state, Finish(name, outcomes[0])).state;
    assert Run(next, BatchTurns(name, [])) == To(next);
    InsertPlaces(d.frag, d.phase.queue[0].index + 1, LastReply(next.docs[name], outcomes[0]), d.phase.queue[0].index);
  }

  /**
   * Where replies stand in the end, exactly. Whatever happened before, when a timer fires and nothing disturbs the batch,
   * then after any number of its replies the `j`-th of them stands whole and directly behind its paragraph if and only
   * if it is the first and either the only one so far or not longer than the way from its paragraph to the next one.
   */
  lemma RepliesInPlaceExact(start: State, history: seq<Event>, timer: nat, outcomes: seq<Outcome>, j: nat)
    requires Initial(start) && Run(start, history).To?
    requires j < |outcomes| && ReadyBatch(Run(start, history).state, timer, |outcomes|)
    ensures StandsExactly(Run(start, history).state, timer, outcomes, j)
  {
    hide *;
    InitialIsSafe(start);
    RunIsSafe(start, history);
    BatchStands(Run(start, history).state, timer, outcomes, j);
  }

  // ---------------------------------------------------------------------------
  // A document with two questions
  // ---------------------------------------------------------------------------

  const ROOM := "document:t:d"

  /** A paragraph that asks the assistant for `x`. */
  function Ask(mention: nat): Dom.Node {
    Dom.Paragraph([Dom.Mention(mention, ASSISTANT, "", ""), Dom.Run([Segment("x", PLAIN)])])
  }

  const TWO_QUESTIONS := [
    Item(0, ByUser, Ask(1)), Item(1, ByUser, Dom.Paragraph([])),
    Item(2, ByUser, Ask(2)), Item(3, ByUser, Dom.Paragraph([]))]

  const QUIET := State(Scheduler({}, map[], map[], 0), map[ROOM := Doc(TWO_QUESTIONS, 4, {}, NoRun, [])])

  lemma AskIsFound(mention: nat)
    ensures FindMention(Dom.Children(Ask(mention)), {}) == SomeMention(mention, "x")
  {
    var children := Dom.Children(Ask(mention));
    assert children[0..] == children && children[1..] == [Dom.Run([Segment("x", PLAIN)])] && children[1..][1..] == [];
    assert ["x"][1..] == [];
    assert RunText([Segment("x", PLAIN)]) == "x" + RunText([]);
    assert InstructionText(children[1..], {}) == "x" + "";
    TrimTrimmed("x");
  }

  /** The questions are found, the empty paragraphs contribute nothing. */
  lemma Questions()
    ensures PendingAt(TWO_QUESTIONS, {}, 0) == SomeMention(1, "x") && PendingAt(TWO_QUESTIONS, {}, 1) == NoMention
    ensures PendingAt(TWO_QUESTIONS, {}, 2) == SomeMention(2, "x") && PendingAt(TWO_QUESTIONS, {}, 3) == NoMention
  {
    hide FindMention, IsEmptyParagraph;
    AskIsFound(1);
    AskIsFound(2);
    EmptyParagraph();
  }

  lemma EmptyParagraph()
    ensures IsEmptyParagraph(Dom.Paragraph([])) && FindMention([], {}) == NoMention
  {
    assert Dom.SerializeInline([]) == "";
  }

  lemma TwoAreReady()
    ensures FindPending(TWO_QUESTIONS, {}, 4) == [Pending(1, 0, "x"), Pending(2, 2, "x")]
  {
    hide PendingAt, Ask;
    Questions();
    assert FindPending(TWO_QUESTIONS, {}, 1) == [Pending(1, 0, "x")];
    assert FindPending(TWO_QUESTIONS, {}, 2) == [Pending(1, 0, "x")];
    assert FindPending(TWO_QUESTIONS, {}, 3) == [Pending(1, 0, "x"), Pending(2, 2, "x")];
  }

  lemma QuietIsInitial()
    ensures Initial(QUIET)
  {
    forall i, j, m | 0 <= i < j < |TWO_QUESTIONS| && HasMention(TWO_QUESTIONS[i], m)
      ensures !HasMention(TWO_QUESTIONS[j], m)
    {
    }
  }

  lemma RoomHasThreeParts()
    ensures IsDocumentRoom(ROOM) && |Split(ROOM, ':')| == 3
  {
    hide Split;
    assert ROOM == "document" + [':'] + "t:d" && "t:d" == "t" + [':'] + "d";
    SplitConcat("document", ':', "t:d");
    SplitConcat("t", ':', "d");
    SplitWithout("document", ':');
    SplitWithout("t", ':');
    SplitWithout("d", ':');
  }

  /** After the first change: one timer is armed for the room. */
  const ARMED := State(Scheduler({}, map[ROOM := 0], map[0 := ROOM], 1), map[ROOM := Doc(TWO_QUESTIONS, 4, {}, NoRun, [])])

  lemma ArmedIsReady()
    ensures Step(QUIET, Change(ROOM)) == To(ARMED) && Run(QUIET, [Change(ROOM)]) == To(ARMED)
    ensures ReadyBatch(ARMED, 0, 2)
  {
    hide FindPending, Split, UniqueMentions;
    TwoAreReady();
    RoomHasThreeParts();
    assert [Change(ROOM)][1..] == [];
  }

  /** A concrete misplaced reply: of two questions answered in one batch, the second reply is not behind its paragraph. */
  lemma SecondReplyIsMisplaced()
    ensures Initial(QUIET)
    ensures var r := Run(QUIET, [Change(ROOM)] + UndisturbedBatch(0, ROOM, [ApiError, ApiError]));
            && r.To? && ROOM in r.state.docs
            && var after := r.state.docs[ROOM];
            && !DirectlyBehind(after.frag, TWO_QUESTIONS[2], LastReply(after, ApiError))
            && Before(after.frag, LastReply(after, ApiError), TWO_QUESTIONS[2])
  {
    hide *;
    QuietIsInitial();
    ArmedIsReady();
    OnlyFirstReplyLandsInPlace(QUIET, [Change(ROOM)], 0, [ApiError, ApiError]);
    RunFirst(QUIET, Change(ROOM), UndisturbedBatch(0, ROOM, [ApiError, ApiError]));
    SecondOfTwo();
  }

  lemma SecondOfTwo()
    ensures var r := Run(ARMED, UndisturbedBatch(0, ROOM, [ApiError, ApiError]));
            ReadyBatch(ARMED, 0, 2) && LandsExactly(ARMED, 0, [ApiError, ApiError]) ==>
              && r.To? && ROOM in r.state.docs
              && var after := r.state.docs[ROOM];
              && !DirectlyBehind(after.frag, TWO_QUESTIONS[2], LastReply(after, ApiError))
              && Before(after.frag, LastReply(after, ApiError), TWO_QUESTIONS[2])
  {
    hide FindPending, Split, Run, DirectlyBehind, Before, LastReply, UndisturbedBatch;
    TwoAreReady();
  }

  lemma RunFirst(s: State, e: Event, rest: seq<Event>)
    requires Step(s, e).To?
    ensures Run(s, [e] + rest) == Run(Step(s, e).state, rest)
  {
    hide Step;
    assert ([e] + rest)[1..] == rest;
  }

  const THREE_LINES := "a\nb\nc"

  lemma LetterFirst(c: char, rest: seq<string>)
    requires 'a' <= c <= 'c'
    ensures Markdown.ParseLines([[c]] + rest) == [Markdown.Paragraph([c])] + Markdown.ParseLines(rest)
  {
    hide Markdown.IsFence, Markdown.MatchHeading, Markdown.IsRule, Markdown.IsBullet, Markdown.IsOrdered, Markdown.OpensQuote;
    LetterIsPlain(c);
    var lines := [[c]] + rest;
    assert lines[0] == [c] && lines[1..] == rest;
    assert Markdown.NextBlock(lines) == Markdown.Parsed(Markdown.Paragraph([c]), 1);
  }

  lemma LetterIsPlain(c: char)
    requires 'a' <= c <= 'c'
    ensures Markdown.IsPlainLine([c])
  {
    TrimTrimmed([c]);
    assert Markdown.SkipSpaces([c], 0) == 0 && Markdown.SkipHashes([c], 0) == 0;
  }

  lemma ThreeLines()
    ensures Split(THREE_LINES, '\n') == ["a", "b", "c"]
  {
    hide Split;
    assert THREE_LINES == "a" + ['\n'] + "b\nc" && "b\nc" == "b" + ['\n'] + "c";
    SplitConcat("a", '\n', "b\nc");
    SplitConcat("b", '\n', "c");
    SplitWithout("a", '\n');
    SplitWithout("b", '\n');
    SplitWithout("c", '\n');
  }

  lemma ThreeBlocks()
    ensures |OutcomeNodes(Ended(THREE_LINES))| == 3
  {
    hide Markdown.NextBlock, Markdown.BlockNode, Split;
    ThreeLines();
    LetterFirst('a', ["b", "c"]);
    LetterFirst('b', ["c"]);
    LetterFirst('c', []);
    hide Markdown.ParseLines;
    assert ["a"] + ["b", "c"] == ["a", "b", "c"] && ["b"] + ["c"] == ["b", "c"] && ["c"] + [] == ["c"];
    NodePerBlock(Markdown.ParseBlocks(THREE_LINES));
  }

  lemma {:induction false} NodePerBlock(blocks: seq<Markdown.Block>)
    ensures |Markdown.BlockNodes(blocks)| == |blocks|
  {
    if blocks != [] {
      NodePerBlock(blocks[1..]);
    }
  }

  const CUTTING := [Ended(THREE_LINES), ApiError]

  /** A concrete reply cut in two: of three blocks, it stands in its place until the second reply is put inside it. */
  lemma SecondReplyCutsFirst()
    ensures Initial(QUIET)
    ensures var early, last := Run(QUIET, [Change(ROOM)] + UndisturbedBatch(0, ROOM, CUTTING[..1])),
                               Run(QUIET, [Change(ROOM)] + UndisturbedBatch(0, ROOM, CUTTING));
            && early.To? && ROOM in early.state.docs && last.To? && ROOM in last.state.docs
            && var reply := LastReply(early.state.docs[ROOM], CUTTING[0]);
            && DirectlyBehind(early.state.docs[ROOM].frag, TWO_QUESTIONS[0], reply)
            && !DirectlyBehind(last.state.docs[ROOM].frag, TWO_QUESTIONS[0], reply)
  {
    hide *;
    QuietIsInitial();
    ArmedIsReady();
    TwoOutcomes();
    FewerAreReady(ARMED, 0);
    OnlyFirstReplyLandsInPlace(QUIET, [Change(ROOM)], 0, CUTTING[..1]);
    RepliesInPlaceExact(QUIET, [Change(ROOM)], 0, CUTTING, 0);
    RunFirst(QUIET, Change(ROOM), UndisturbedBatch(0, ROOM, CUTTING[..1]));
    RunFirst(QUIET, Change(ROOM), UndisturbedBatch(0, ROOM, CUTTING));
    FirstOfTwo();
  }

  lemma TwoOutcomes()
    ensures |CUTTING| == 2 && |CUTTING[..1]| == 1
  {
  }

  lemma FewerAreReady(s: State, timer: nat)
    ensures ReadyBatch(s, timer, 2) ==> ReadyBatch(s, timer, 1)
  {
    hide FindPending, Split;
  }

  lemma FirstOfTwo()
    ensures var early, last := Run(ARMED, UndisturbedBatch(0, ROOM, CUTTING[..1])), Run(ARMED, UndisturbedBatch(0, ROOM, CUTTING));
            && ReadyBatch(ARMED, 0, 2) && LandsExactly(ARMED, 0, CUTTING[..1]) && StandsExactly(ARMED, 0, CUTTING, 0) ==>
              && early.To? && ROOM in early.state.docs && last.To? && ROOM in last.state.docs
              && var reply := LastReply(early.state.docs[ROOM], CUTTING[0]);
              && DirectlyBehind(early.state.docs[ROOM].frag, TWO_QUESTIONS[0], reply)
              && !DirectlyBehind(last.state.docs[ROOM].frag, TWO_QUESTIONS[0], reply)
  {
    hide FindPending, Split, Run, DirectlyBehind, Before, LastReply, UndisturbedBatch, OutcomeNodes;
    TwoAreReady();
    ThreeBlocks();
    assert CUTTING[..0 + 1] == CUTTING[..1];
    var early := Run(ARMED, UndisturbedBatch(0, ROOM, CUTTING[..1]));
    if early.To? && ROOM in early.state.docs {
      RepliesAreNotEmpty(early.state.docs[ROOM], CUTTING[0]);
    }
  }
}
