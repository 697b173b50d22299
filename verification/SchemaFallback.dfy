/**
 * What a call for a test database does when building or cloning a template fails: it falls back to the rebuild, remembers
 * the answer, and leaves no half-built template behind.
 */
module SchemaFallback {
  import opened Text
  import opened SchemaTemplates

  /** The statements and steps of `resolveSchemaTemplate` after its early returns. */
  predicate TemplatePart(pc: Pc) {
    BuildPart(pc) || pc == CheckFinal || pc == Publish || pc == Abandon
  }

  /** The steps that build a template, from the role to the outcome of the renaming. */
  predicate BuildPart(pc: Pc) {
    pc in {EnsureRole, DropOld, Create, Rename, CheckLost, DropLoser} || pc.Bootstrap?
  }

  /** The statements on the suite database that nothing stands in for when they fail. */
  predicate SuitePart(pc: Pc) {
    pc.DropSuite? || pc == CreateSuite || pc.GrantSuite? || pc.BootSuite? || pc == ResetGucs
  }

  /** The steps of the way that copies the template. */
  predicate Cloning(pc: Pc) {
    pc in {DropSuite(true), CloneSuite, GrantSuite(true)}
  }

  /**
   * The cache decides the way of a call: templates are asked for when they are enabled and only while no answer is
   * remembered; afterwards there is one; and only a positive answer is followed by a copy.
   */
  predicate Routed(q: Proc) {
    && (TemplatePart(q.pc) ==> q.enabled && q.key !in q.ready)
    && (q.enabled && (SuitePart(q.pc) || q.pc == CloneSuite || q.pc == Finished) ==> q.key in q.ready)
    && (Cloning(q.pc) ==> q.enabled && q.key in q.ready && q.ready[q.key])
  }

  /** Routed, with a free name where the suite database is created, and neither failed nor idle. */
  predicate OnTrack(dbs: map<Name, Content>, q: Proc) {
    && Routed(q) && q.pc != Failed && q.pc != Idle
    && (q.pc == CloneSuite || q.pc == CreateSuite ==> Suite(q.suite) !in dbs)
  }

  // ---------------------------------------------------------------------------
  // One step
  // ---------------------------------------------------------------------------

  lemma BuildActStaysOnTrack(script: Script, dbs: map<Name, Content>, q: Proc)
    requires OnTrack(dbs, q) && BuildPart(q.pc)
    ensures var r := Execute(script, dbs, q); OnTrack(r.0, r.1)
  {
  }

  lemma AnswerStaysOnTrack(script: Script, dbs: map<Name, Content>, q: Proc)
    requires OnTrack(dbs, q) && (q.pc == CheckFinal || q.pc == Publish || q.pc == Abandon)
    ensures var r := Execute(script, dbs, q); OnTrack(r.0, r.1)
  {
  }

  lemma SuiteActStaysOnTrack(script: Script, dbs: map<Name, Content>, q: Proc)
    requires BuildOk(script, dbs, q) && SuiteOk(script, dbs, q) && OnTrack(dbs, q)
    requires SuitePart(q.pc) || q.pc == CloneSuite
    ensures var r := Execute(script, dbs, q); OnTrack(r.0, r.1)
  {
    hide IsProduction;
  }

  lemma FirstActsStayOnTrack(script: Script, dbs: map<Name, Content>, q: Proc)
    requires OnTrack(dbs, q) && (q.pc == Verify || q.pc == Resolve) && !IsProduction(q.suite)
    ensures var r := Execute(script, dbs, q); OnTrack(r.0, r.1)
  {
    hide IsProduction;
  }

  lemma PartsAreAll(pc: Pc)
    ensures Running(pc) ==>
              || BuildPart(pc) || pc == CheckFinal || pc == Publish || pc == Abandon
              || SuitePart(pc) || pc == CloneSuite || pc == Verify || pc == Resolve
  {
  }

  lemma ActStaysOnTrack(script: Script, dbs: map<Name, Content>, q: Proc)
    requires BuildOk(script, dbs, q) && SuiteOk(script, dbs, q) && !IsProduction(q.suite)
    requires OnTrack(dbs, q) && Running(q.pc)
    ensures var r := Execute(script, dbs, q); OnTrack(r.0, r.1)
  {
    hide *;
    PartsAreAll(q.pc);
    if BuildPart(q.pc) {
      BuildActStaysOnTrack(script, dbs, q);
    } else if q.pc == CheckFinal || q.pc == Publish || q.pc == Abandon {
      AnswerStaysOnTrack(script, dbs, q);
    } else if SuitePart(q.pc) || q.pc == CloneSuite {
      SuiteActStaysOnTrack(script, dbs, q);
    } else {
      FirstActsStayOnTrack(script, dbs, q);
    }
  }

  lemma VerifyIsOnTrack(dbs: map<Name, Content>, q: Proc)
    requires q.pc == Verify
    ensures OnTrack(dbs, q)
  {
  }

  /** What a failing statement leads to, exactly: the end of the call if and only if it is one of the suite's. */
  lemma FailureExact(dbs: map<Name, Content>, q: Proc)
    requires OnTrack(dbs, q) && CanFail(q.pc)
    ensures Break(q).pc == Failed <==> SuitePart(q.pc)
    ensures !SuitePart(q.pc) ==> OnTrack(dbs, Break(q))
  {
  }

  /** Other processes, with suites of their own, do not lead a call off its track. */
  lemma OthersLeaveTrack(before: map<Name, Content>, after: map<Name, Content>, other: Proc, q: Proc)
    requires Framed(before, after, other) && other.suite != q.suite && OnTrack(before, q)
    ensures OnTrack(after, q)
  {
    hide IsProduction, Routed;
  }

  /** One event, seen from the databases: nothing changes, or a process takes a framed step. */
  lemma EventIsFramed(script: Script, s: State, e: Event)
    requires Inv(script, s) && Step(script, s, e).To?
    ensures var next := Step(script, s, e).state;
            if e.Act? || e.Dirty? then e.p in s.procs && Framed(s.dbs, next.dbs, s.procs[e.p]) else next.dbs == s.dbs
  {
    hide IsProduction, Execute, Break, BuildOk, Framed;
    match e
    case Act(p) => ExecuteIsSafe(script, s.dbs, s.procs[p]);
    case Dirty(p, content) => DirtyIsOk(script, s.dbs, s.procs[p], content);
    case _ =>
  }

  /** The event makes a statement of the suite fail for the process. */
  predicate FailsSuite(s: State, e: Event, p: nat) {
    e == Fail(p) && p in s.procs && SuitePart(s.procs[p].pc)
  }

  lemma StepStaysOnTrack(script: Script, s: State, e: Event, p: nat)
    requires Inv(script, s) && SuitesOk(script, s) && SuitesDiffer(s.procs) && Step(script, s, e).To?
    requires p in s.procs && Running(s.procs[p].pc) && p in Step(script, s, e).state.procs
    requires OnTrack(s.dbs, s.procs[p]) && !IsProduction(s.procs[p].suite) && !FailsSuite(s, e, p)
    ensures var next := Step(script, s, e).state;
            && OnTrack(next.dbs, next.procs[p])
            && next.procs[p].suite == s.procs[p].suite && next.procs[p].key == s.procs[p].key
            && next.procs[p].enabled == s.procs[p].enabled
  {
    hide IsProduction, Execute, Break, BuildOk, SuiteOk, OnTrack, Framed, SuitePart;
    var q := s.procs[p];
    if e == Act(p) {
      ActStaysOnTrack(script, s.dbs, q);
      StepKeepsCall(script, s.dbs, q);
    } else if e == Fail(p) {
      FailureExact(s.dbs, q);
      BreakKeepsCall(q);
    } else {
      OthersLeaveCall(script, s, e, p);
      EventIsFramed(script, s, e);
      if e.Act? || e.Dirty? {
        OthersLeaveTrack(s.dbs, Step(script, s, e).state.dbs, s.procs[e.p], q);
      }
    }
  }

  lemma StepKeepsCall(script: Script, dbs: map<Name, Content>, q: Proc)
    ensures var r := Execute(script, dbs, q).1;
            r.suite == q.suite && r.key == q.key && r.enabled == q.enabled && r.pid == q.pid
  {
  }

  lemma BreakKeepsCall(q: Proc)
    ensures Break(q).suite == q.suite && Break(q).key == q.key && Break(q).enabled == q.enabled && Break(q).pid == q.pid
  {
  }

  // ---------------------------------------------------------------------------
  // Slower, not wrong
  // ---------------------------------------------------------------------------

  /** No statement of the process's suite fails on the way; any statement on templates may. */
  ghost predicate SuiteSpared(script: Script, s: State, events: seq<Event>, p: nat)
    decreases events
  {
    || events == []
    || (!FailsSuite(s, events[0], p)
        && (Step(script, s, events[0]).To? ==> SuiteSpared(script, Step(script, s, events[0]).state, events[1..], p)))
  }

  lemma {:induction false} RunStaysOnTrack(script: Script, s: State, events: seq<Event>, p: nat)
    requires Inv(script, s) && SuitesOk(script, s) && SuitesApart(script, s, events) && Run(script, s, events).To?
    requires InOneCall(script, s, events, p) && SuiteSpared(script, s, events, p)
    requires OnTrack(s.dbs, s.procs[p]) && !IsProduction(s.procs[p].suite)
    ensures var last := Run(script, s, events).state;
            && p in last.procs && OnTrack(last.dbs, last.procs[p])
            && last.procs[p].suite == s.procs[p].suite && last.procs[p].key == s.procs[p].key
            && last.procs[p].enabled == s.procs[p].enabled
    decreases events
  {
    hide IsProduction, Step, Inv, SuitesOk, OnTrack, FailsSuite, Running, SuitesDiffer;
    if events != [] {
      StepIsSafe(script, s, events[0]);
      StepStaysOnTrack(script, s, events[0], p);
      RunStaysOnTrack(script, Step(script, s, events[0]).state, events[1..], p);
    }
  }

  /**
   * Template failures are harmless: over every interleaving of processes with suites of their own, a call for a
   * non-production database in which only statements on templates fail, in whatever number, never fails itself. When it
   * is over, the suite holds what the rebuild would have put there, and if templates are enabled, the answer about
   * them is remembered.
   */
  lemma TemplateFailuresAreHarmless(script: Script, s: State, events: seq<Event>, p: nat)
    requires Inv(script, s) && SuitesOk(script, s) && SuitesApart(script, s, events) && Run(script, s, events).To?
    requires InOneCall(script, s, events, p) && SuiteSpared(script, s, events, p)
    requires s.procs[p].pc == Verify && !IsProduction(s.procs[p].suite)
    ensures var last, q := Run(script, s, events).state, s.procs[p];
            && p in last.procs
            && (!Running(last.procs[p].pc) ==>
                  && last.procs[p].pc == Finished && Holds(last.dbs, Suite(q.suite), script(q.key))
                  && (q.enabled ==> q.key in last.procs[p].ready))
  {
    hide IsProduction, Step, Inv, SuitesDiffer, FailsSuite, SuitePart, TemplatePart;
    VerifyIsOnTrack(s.dbs, s.procs[p]);
    RunStaysOnTrack(script, s, events, p);
    SuitesStayOk(script, s, events);
  }

  // ---------------------------------------------------------------------------
  // Nothing is left behind
  // ---------------------------------------------------------------------------

  /** The steps at which a call's private database may exist. */
  predicate MayHoldBuild(pc: Pc) {
    pc.Bootstrap? || pc in {Rename, CheckLost, DropLoser, Abandon}
  }

  predicate Tidy(dbs: map<Name, Content>, q: Proc) {
    Building(q.key, q.pid) in dbs ==> MayHoldBuild(q.pc)
  }

  lemma ActStaysTidy(script: Script, dbs: map<Name, Content>, q: Proc)
    requires Tidy(dbs, q)
    ensures var r := Execute(script, dbs, q); Tidy(r.0, r.1)
  {
  }

  lemma BreakStaysTidy(dbs: map<Name, Content>, q: Proc)
    requires Tidy(dbs, q) && CanFail(q.pc) && q.pc != Abandon
    ensures Tidy(dbs, Break(q))
  {
  }

  lemma OthersStayTidy(before: map<Name, Content>, after: map<Name, Content>, other: Proc, q: Proc)
    requires Framed(before, after, other) && other.pid != q.pid && Tidy(before, q)
    ensures Tidy(after, q)
  {
    hide IsProduction, MayHoldBuild;
  }

  lemma StepStaysTidy(script: Script, s: State, e: Event, p: nat)
    requires Inv(script, s) && Step(script, s, e).To?
    requires p in s.procs && Running(s.procs[p].pc) && p in Step(script, s, e).state.procs
    requires Tidy(s.dbs, s.procs[p]) && !(e == Fail(p) && s.procs[p].pc == Abandon)
    ensures var next := Step(script, s, e).state;
            && Tidy(next.dbs, next.procs[p])
            && next.procs[p].key == s.procs[p].key && next.procs[p].pid == s.procs[p].pid
  {
    hide IsProduction, Execute, Break, BuildOk, Tidy, Framed;
    var q := s.procs[p];
    if e == Act(p) {
      ActStaysTidy(script, s.dbs, q);
      StepKeepsCall(script, s.dbs, q);
    } else if e == Fail(p) {
      BreakStaysTidy(s.dbs, q);
      BreakKeepsCall(q);
    } else {
      OthersLeaveCall(script, s, e, p);
      EventIsFramed(script, s, e);
      if e.Act? || e.Dirty? {
        OthersStayTidy(s.dbs, Step(script, s, e).state.dbs, s.procs[e.p], q);
      }
    }
  }

  /** The last drop of the private database, when it is given up, does not fail. */
  ghost predicate DropsSucceed(script: Script, s: State, events: seq<Event>, p: nat)
    decreases events
  {
    || events == []
    || (!(events[0] == Fail(p) && p in s.procs && s.procs[p].pc == Abandon)
        && (Step(script, s, events[0]).To? ==> DropsSucceed(script, Step(script, s, events[0]).state, events[1..], p)))
  }

  lemma {:induction false} RunStaysTidy(script: Script, s: State, events: seq<Event>, p: nat)
    requires Inv(script, s) && Run(script, s, events).To? && InOneCall(script, s, events, p)
    requires DropsSucceed(script, s, events, p) && Tidy(s.dbs, s.procs[p])
    ensures var last := Run(script, s, events).state;
            && p in last.procs && Tidy(last.dbs, last.procs[p])
            && last.procs[p].key == s.procs[p].key && last.procs[p].pid == s.procs[p].pid
    decreases events
  {
    hide IsProduction, Step, Inv, Tidy, Running;
    if events != [] {
      StepIsSafe(script, s, events[0]);
      StepStaysTidy(script, s, events[0], p);
      RunStaysTidy(script, Step(script, s, events[0]).state, events[1..], p);
    }
  }

  /**
   * Nothing is left behind: over every interleaving, a call that starts without a leftover of its own name leaves none
   * when it is over, however often building fails, unless the very drop of the build it gives up fails.
   */
  lemma NothingIsLeftBehind(script: Script, s: State, events: seq<Event>, p: nat)
    requires Inv(script, s) && Run(script, s, events).To? && InOneCall(script, s, events, p)
    requires DropsSucceed(script, s, events, p) && Building(s.procs[p].key, s.procs[p].pid) !in s.dbs
    ensures var last := Run(script, s, events).state;
            p in last.procs && (!Running(last.procs[p].pc) ==> Building(s.procs[p].key, s.procs[p].pid) !in last.dbs)
  {
    hide IsProduction, Step, Inv;
    RunStaysTidy(script, s, events, p);
  }

  // ---------------------------------------------------------------------------
  // A template is built once
  // ---------------------------------------------------------------------------

  /** The template is there and the process is not building one. */
  predicate Reuses(dbs: map<Name, Content>, q: Proc) {
    Template(q.key) in dbs && !BuildPart(q.pc)
  }

  lemma ActStaysReusing(script: Script, dbs: map<Name, Content>, q: Proc)
    requires Reuses(dbs, q) && Running(q.pc)
    ensures var r := Execute(script, dbs, q);
            && Reuses(r.0, r.1)
            && (Building(q.key, q.pid) in r.0 ==> Building(q.key, q.pid) in dbs)
  {
  }

  lemma StepStaysReusing(script: Script, s: State, e: Event, p: nat)
    requires Inv(script, s) && Step(script, s, e).To?
    requires p in s.procs && Running(s.procs[p].pc) && p in Step(script, s, e).state.procs
    requires Reuses(s.dbs, s.procs[p])
    ensures var next := Step(script, s, e).state; var build := Building(s.procs[p].key, s.procs[p].pid);
            && Reuses(next.dbs, next.procs[p]) && (build in next.dbs ==> build in s.dbs)
            && next.procs[p].key == s.procs[p].key && next.procs[p].pid == s.procs[p].pid
  {
    hide IsProduction, Execute, BuildOk, Framed;
    StepIsSafe(script, s, e);
    EventIsFramed(script, s, e);
    var q := s.procs[p];
    if e == Act(p) {
      ActStaysReusing(script, s.dbs, q);
      StepKeepsCall(script, s.dbs, q);
    } else if e == Fail(p) {
      BreakKeepsCall(q);
    } else {
      OthersLeaveCall(script, s, e, p);
      if e.Act? || e.Dirty? {
        OthersKeepBuild(s.dbs, Step(script, s, e).state.dbs, s.procs[e.p], q);
      }
    }
  }

  lemma OthersKeepBuild(before: map<Name, Content>, after: map<Name, Content>, other: Proc, q: Proc)
    requires Framed(before, after, other) && other.pid != q.pid
    ensures Building(q.key, q.pid) in after ==> Building(q.key, q.pid) in before
  {
    hide IsProduction;
  }

  /** A template is built once: a call that finds it published never builds, whatever other processes do meanwhile. */
  lemma {:induction false} PublishedIsReused(script: Script, s: State, events: seq<Event>, p: nat)
    requires Inv(script, s) && Run(script, s, events).To? && InOneCall(script, s, events, p)
    requires Reuses(s.dbs, s.procs[p])
    ensures var last, build := Run(script, s, events).state, Building(s.procs[p].key, s.procs[p].pid);
            && p in last.procs && !BuildPart(last.procs[p].pc)
            && Holds(last.dbs, Template(s.procs[p].key), script(s.procs[p].key))
            && (build in last.dbs ==> build in s.dbs)
    decreases events
  {
    hide IsProduction, Step, BuildOk, Running, BuildPart;
    if events != [] {
      StepIsSafe(script, s, events[0]);
      StepStaysReusing(script, s, events[0], p);
      PublishedIsReused(script, Step(script, s, events[0]).state, events[1..], p);
    }
  }

  /** With the template there: still asking for it, its own build lost or won, or remembering that it is there. */
  predicate Winning(dbs: map<Name, Content>, q: Proc) {
    && Template(q.key) in dbs
    && (|| q.pc in {CheckFinal, Rename, CheckLost, DropLoser, Publish}
        || (q.key in q.ready && q.ready[q.key] && !TemplatePart(q.pc) && q.pc != Verify && q.pc != Resolve))
  }

  lemma ActStaysWinning(script: Script, dbs: map<Name, Content>, q: Proc)
    requires Winning(dbs, q) && Running(q.pc)
    ensures var r := Execute(script, dbs, q); Winning(r.0, r.1)
  {
  }

  lemma StepStaysWinning(script: Script, s: State, e: Event, p: nat)
    requires Inv(script, s) && Step(script, s, e).To? && e != Fail(p)
    requires p in s.procs && Running(s.procs[p].pc) && p in Step(script, s, e).state.procs
    requires Winning(s.dbs, s.procs[p])
    ensures var next := Step(script, s, e).state;
            Winning(next.dbs, next.procs[p]) && next.procs[p].key == s.procs[p].key
  {
    hide IsProduction, Execute, Break, BuildOk, TemplatePart;
    StepIsSafe(script, s, e);
    if e == Act(p) {
      ActStaysWinning(script, s.dbs, s.procs[p]);
      StepKeepsCall(script, s.dbs, s.procs[p]);
    } else {
      OthersLeaveCall(script, s, e, p);
    }
  }

  /**
   * A lost race is a won template: a process that is about to rename its build and finds the name taken uses the
   * template of the process that was first. While none of its own statements fails, its call ends with a positive
   * answer, however other processes go on.
   */
  lemma {:induction false} LostRaceUsesTheirs(script: Script, s: State, events: seq<Event>, p: nat)
    requires Inv(script, s) && Run(script, s, events).To? && InOneCall(script, s, events, p)
    requires Winning(s.dbs, s.procs[p]) && Fail(p) !in events
    ensures var last, key := Run(script, s, events).state, s.procs[p].key;
            && p in last.procs && Holds(last.dbs, Template(key), script(key))
            && (!Running(last.procs[p].pc) ==> key in last.procs[p].ready && last.procs[p].ready[key])
    decreases events
  {
    hide IsProduction, Step, BuildOk;
    if events != [] {
      assert forall e :: e in events[1..] ==> e in events;
      StepIsSafe(script, s, events[0]);
      StepStaysWinning(script, s, events[0], p);
      LostRaceUsesTheirs(script, Step(script, s, events[0]).state, events[1..], p);
    }
  }

  /** The names that are refused, in whatever case they are written. */
  lemma ProductionExact(name: string)
    ensures IsProduction(name) <==>
            var lower := ToLower(name);
            lower == "sebastian_prod" || lower == "production" || lower == "prod" || lower == "server"
  {
  }
}
