/**
 * Test databases cloned from schema templates. Processes share one server; each statement is one atomic step that can
 * fail, and a process can crash between any two steps.
 */
module SchemaTemplates {
  import opened Text

  type Key = string

  /** The bootstrap actions applied to a database so far, oldest first. */
  type Content = seq<string>

  /** The migrations and seeds behind a template name: the name is a hash of their sources. */
  type Script = Key -> seq<string>

  datatype Name = Template(key: Key) | Building(key: Key, pid: nat) | Suite(name: string)

  /** Where a process stands in `createTestDbConnection`; `Idle` is between calls. */
  datatype Pc =
    | Idle
    | Verify
    | Resolve
    | CheckFinal
    | EnsureRole
    | DropOld
    | Create
    | Bootstrap(n: nat)
    | Rename
    | CheckLost
    | DropLoser
    | Publish
    | Abandon
    | DropSuite(fromTemplate: bool)
    | CloneSuite
    | CreateSuite
    | GrantSuite(cloned: bool)
    | BootSuite(n: nat)
    | ResetGucs
    | Finished
    | Failed

  /** `ready` is the process-wide cache: true for a template name, false for null. */
  datatype Proc = Proc(pid: nat, enabled: bool, suite: string, key: Key, pc: Pc, ready: map<Key, bool>)

  datatype State = State(dbs: map<Name, Content>, procs: map<nat, Proc>)

  datatype Event =
    | Start(p: nat, pid: nat, enabled: bool, suite: string)
    | Crash(p: nat)
    | Call(p: nat, key: Key, suite: string)
    | Act(p: nat)
    | Fail(p: nat)
    | Dirty(p: nat, content: Content)

  datatype Next = Disabled | To(state: State)

  predicate IsProduction(name: string) {
    ToLower(name) in ["sebastian_prod", "production", "prod", "server"]
  }

  /** Where control goes when the statement at `pc` raises an error. */
  function AfterError(pc: Pc): Pc {
    match pc
    case CheckFinal => Abandon
    case EnsureRole => Abandon
    case DropOld => Abandon
    case Create => Abandon
    case Bootstrap(_) => Abandon
    case Rename => CheckLost
    case CheckLost => Abandon
    case DropLoser => Abandon
    case CloneSuite => DropSuite(false)
    case _ => Failed
  }

  /** One successful step of a process, or the error the server raises at that point. */
  function Execute(script: Script, dbs: map<Name, Content>, q: Proc): (map<Name, Content>, Proc) {
    var building, final, suite := Building(q.key, q.pid), Template(q.key), Suite(q.suite);
    var error := (dbs, q.(pc := AfterError(q.pc)));
    match q.pc
    case Verify => (dbs, q.(pc := if IsProduction(q.suite) then Failed else Resolve))
    case Resolve =>
      if !q.enabled then (dbs, q.(pc := DropSuite(false)))
      else if q.key in q.ready then (dbs, q.(pc := DropSuite(q.ready[q.key])))
      else (dbs, q.(pc := CheckFinal))
    case CheckFinal => (dbs, q.(pc := if final in dbs then Publish else EnsureRole))
    case EnsureRole => (dbs, q.(pc := DropOld))
    case DropOld => (dbs - {building}, q.(pc := Create))
    case Create => if building in dbs then error else (dbs[building := []], q.(pc := Bootstrap(0)))
    case Bootstrap(n) =>
      if building !in dbs then error
      else if n < |script(q.key)| then
        (dbs[building := dbs[building] + [script(q.key)[n]]], q.(pc := Bootstrap(n + 1)))
      else (dbs, q.(pc := Rename))
    case Rename =>
      if building in dbs && final !in dbs then ((dbs - {building})[final := dbs[building]], q.(pc := Publish)) else error
    case CheckLost => if final in dbs then (dbs, q.(pc := DropLoser)) else error
    case DropLoser => (dbs - {building}, q.(pc := Publish))
    case Publish => (dbs, q.(pc := DropSuite(true), ready := q.ready[q.key := true]))
    case Abandon => (dbs - {building}, q.(pc := DropSuite(false), ready := q.ready[q.key := false]))
    case DropSuite(fromTemplate) => (dbs - {suite}, q.(pc := if fromTemplate then CloneSuite else CreateSuite))
    case CloneSuite =>
      if final in dbs && suite !in dbs then (dbs[suite := dbs[final]], q.(pc := GrantSuite(true))) else error
    case CreateSuite => if suite in dbs then error else (dbs[suite := []], q.(pc := GrantSuite(false)))
    case GrantSuite(cloned) => if suite in dbs then (dbs, q.(pc := if cloned then ResetGucs else BootSuite(0))) else error
    case BootSuite(n) =>
      if suite !in dbs then error
      else if n < |script(q.key)| then
        (dbs[suite := dbs[suite] + [script(q.key)[n]]], q.(pc := BootSuite(n + 1)))
      else (dbs, q.(pc := ResetGucs))
    case ResetGucs => if suite in dbs then (dbs, q.(pc := Finished)) else error
    case Idle => (dbs, q)
    case Finished => (dbs, q)
    case Failed => (dbs, q)
  }

  /** A statement that fails for a reason of its own changes nothing; the cleanup in the handler ignores its errors. */
  function Break(q: Proc): Proc {
    if q.pc == Abandon then q.(pc := DropSuite(false), ready := q.ready[q.key := false])
    else q.(pc := AfterError(q.pc))
  }

  predicate Running(pc: Pc) {
    pc != Idle && pc != Finished && pc != Failed
  }

  /** Purely local steps cannot fail. */
  predicate CanFail(pc: Pc) {
    Running(pc) && pc != Verify && pc != Resolve && pc != Publish
  }

  /** Live processes differ in pid. */
  predicate PidsDiffer(procs: map<nat, Proc>) {
    forall p, q :: p in procs && q in procs && p != q ==> procs[p].pid != procs[q].pid
  }

  /** Live processes use different suite databases. */
  predicate SuitesDiffer(procs: map<nat, Proc>) {
    forall p, q :: p in procs && q in procs && p != q ==> procs[p].suite != procs[q].suite
  }

  function Put(s: State, p: nat, r: (map<Name, Content>, Proc)): State {
    State(r.0, s.procs[p := r.1])
  }

  /** One event. A new process may reuse the pid of a dead one, never that of a live one. */
  function Step(script: Script, s: State, e: Event): Next {
    match e
    case Start(p, pid, enabled, suite) =>
      var started := s.procs[p := Proc(pid, enabled, suite, "", Idle, map[])];
      if p !in s.procs && PidsDiffer(started) then To(State(s.dbs, started)) else Disabled
    case Crash(p) => if p in s.procs then To(State(s.dbs, s.procs - {p})) else Disabled
    case Call(p, key, suite) =>
      if p in s.procs && !Running(s.procs[p].pc) then
        To(Put(s, p, (s.dbs, s.procs[p].(key := key, suite := suite, pc := Verify))))
      else Disabled
    case Act(p) =>
      if p in s.procs && Running(s.procs[p].pc) then To(Put(s, p, Execute(script, s.dbs, s.procs[p]))) else Disabled
    case Fail(p) =>
      if p in s.procs && CanFail(s.procs[p].pc) then To(Put(s, p, (s.dbs, Break(s.procs[p])))) else Disabled
    case Dirty(p, content) =>
      if p in s.procs && s.procs[p].pc == Finished then
        To(Put(s, p, (s.dbs[Suite(s.procs[p].suite) := content], s.procs[p].(pc := Idle))))
      else Disabled
  }

  function Run(script: Script, s: State, events: seq<Event>): Next
    decreases events
  {
    if events == [] then To(s)
    else
      match Step(script, s, events[0])
      case Disabled => Disabled
      case To(next) => Run(script, next, events[1..])
  }

  // ---------------------------------------------------------------------------
  // The invariant
  // ---------------------------------------------------------------------------

  /** A database that exists under a final template name is complete. */
  ghost predicate TemplatesComplete(script: Script, dbs: map<Name, Content>) {
    forall k :: Template(k) in dbs ==> dbs[Template(k)] == script(k)
  }

  predicate Holds(dbs: map<Name, Content>, name: Name, content: Content) {
    name in dbs && dbs[name] == content
  }

  /** What a process may rely on at each point, of the templates and of its own build. */
  ghost predicate BuildOk(script: Script, dbs: map<Name, Content>, q: Proc) {
    var building, final, full := Building(q.key, q.pid), Template(q.key), script(q.key);
    && (forall k :: k in q.ready && q.ready[k] ==> Template(k) in dbs)
    && (q.pc != Idle && q.pc != Verify && q.pc != Failed ==> !IsProduction(q.suite))
    && match q.pc
       case Bootstrap(n) => n <= |full| && Holds(dbs, building, full[..n])
       case Rename => Holds(dbs, building, full)
       case DropLoser => final in dbs
       case Publish => final in dbs
       case DropSuite(fromTemplate) => fromTemplate ==> final in dbs
       case CloneSuite => final in dbs
       case _ => true
  }

  /** What it may rely on of its suite database, as long as no other live process uses that one. */
  ghost predicate SuiteOk(script: Script, dbs: map<Name, Content>, q: Proc) {
    var suite, full := Suite(q.suite), script(q.key);
    match q.pc
    case GrantSuite(cloned) => Holds(dbs, suite, if cloned then full else [])
    case BootSuite(n) => n <= |full| && Holds(dbs, suite, full[..n])
    case ResetGucs => Holds(dbs, suite, full)
    case Finished => Holds(dbs, suite, full)
    case _ => true
  }

  ghost predicate Inv(script: Script, s: State) {
    && TemplatesComplete(script, s.dbs)
    && PidsDiffer(s.procs)
    && forall p :: p in s.procs ==> BuildOk(script, s.dbs, s.procs[p])
  }

  ghost predicate SuitesOk(script: Script, s: State) {
    forall p :: p in s.procs ==> SuiteOk(script, s.dbs, s.procs[p])
  }

  /** The names that a process may touch: its private build, a new final template, its own suite database. */
  predicate Own(q: Proc, name: Name) {
    name == Building(q.key, q.pid) || name == Suite(q.suite)
  }

  /** The effect of a process's own step on everything else. */
  ghost predicate Framed(before: map<Name, Content>, after: map<Name, Content>, q: Proc) {
    && (forall name :: !Own(q, name) && name in before ==> Holds(after, name, before[name]))
    && (forall name :: !Own(q, name) && name != Template(q.key) && name in after ==> name in before)
    && (forall name: Name :: name.Suite? && IsProduction(name.name) ==>
          (name in before <==> name in after) && (name in before ==> before[name] == after[name]))
  }

  /** What one step must establish: its own part of the invariant, and no effect on what others rely on. */
  ghost predicate SafeStep(script: Script, dbs: map<Name, Content>, q: Proc, r: (map<Name, Content>, Proc)) {
    && TemplatesComplete(script, r.0) && BuildOk(script, r.0, r.1) && Framed(dbs, r.0, q)
    && (SuiteOk(script, dbs, q) ==> SuiteOk(script, r.0, r.1))
    && r.1.pid == q.pid && r.1.suite == q.suite && r.1.key == q.key
  }

  lemma DropIsSafe(script: Script, dbs: map<Name, Content>, q: Proc)
    requires TemplatesComplete(script, dbs) && BuildOk(script, dbs, q)
    requires q.pc.DropOld? || q.pc.DropLoser?
    ensures SafeStep(script, dbs, q, Execute(script, dbs, q))
  {
    hide IsProduction;
  }

  lemma AbandonIsSafe(script: Script, dbs: map<Name, Content>, q: Proc)
    requires TemplatesComplete(script, dbs) && BuildOk(script, dbs, q)
    requires q.pc.Abandon?
    ensures SafeStep(script, dbs, q, Execute(script, dbs, q))
  {
    hide IsProduction;
  }

  lemma CreateIsSafe(script: Script, dbs: map<Name, Content>, q: Proc)
    requires TemplatesComplete(script, dbs) && BuildOk(script, dbs, q)
    requires q.pc.Create?
    ensures SafeStep(script, dbs, q, Execute(script, dbs, q))
  {
    hide IsProduction;
  }

  lemma BootstrapIsSafe(script: Script, dbs: map<Name, Content>, q: Proc)
    requires TemplatesComplete(script, dbs) && BuildOk(script, dbs, q)
    requires q.pc.Bootstrap?
    ensures SafeStep(script, dbs, q, Execute(script, dbs, q))
  {
    hide IsProduction;
    var n, full := q.pc.n, script(q.key);
    if n < |full| {
      assert full[..n + 1] == full[..n] + [full[n]];
    } else {
      assert full[..n] == full;
    }
  }

  lemma RenameIsSafe(script: Script, dbs: map<Name, Content>, q: Proc)
    requires TemplatesComplete(script, dbs) && BuildOk(script, dbs, q)
    requires q.pc.Rename?
    ensures SafeStep(script, dbs, q, Execute(script, dbs, q))
  {
    hide IsProduction;
  }

  lemma PublishingIsSafe(script: Script, dbs: map<Name, Content>, q: Proc)
    requires TemplatesComplete(script, dbs) && BuildOk(script, dbs, q)
    requires q.pc.CheckLost? || q.pc.Publish?
    ensures SafeStep(script, dbs, q, Execute(script, dbs, q))
  {
    hide IsProduction;
  }

  lemma CloneIsSafe(script: Script, dbs: map<Name, Content>, q: Proc)
    requires TemplatesComplete(script, dbs) && BuildOk(script, dbs, q)
    requires q.pc.CloneSuite?
    ensures SafeStep(script, dbs, q, Execute(script, dbs, q))
  {
    hide IsProduction;
  }

  lemma CreateSuiteIsSafe(script: Script, dbs: map<Name, Content>, q: Proc)
    requires TemplatesComplete(script, dbs) && BuildOk(script, dbs, q)
    requires q.pc.CreateSuite?
    ensures SafeStep(script, dbs, q, Execute(script, dbs, q))
  {
    hide IsProduction;
  }

  lemma DropSuiteIsSafe(script: Script, dbs: map<Name, Content>, q: Proc)
    requires TemplatesComplete(script, dbs) && BuildOk(script, dbs, q)
    requires q.pc.DropSuite?
    ensures SafeStep(script, dbs, q, Execute(script, dbs, q))
  {
    hide IsProduction;
  }

  lemma GrantIsSafe(script: Script, dbs: map<Name, Content>, q: Proc)
    requires TemplatesComplete(script, dbs) && BuildOk(script, dbs, q)
    requires q.pc.GrantSuite?
    ensures SafeStep(script, dbs, q, Execute(script, dbs, q))
  {
    hide IsProduction;
  }

  lemma ResetIsSafe(script: Script, dbs: map<Name, Content>, q: Proc)
    requires TemplatesComplete(script, dbs) && BuildOk(script, dbs, q)
    requires q.pc.ResetGucs?
    ensures SafeStep(script, dbs, q, Execute(script, dbs, q))
  {
    hide IsProduction;
  }

  lemma BootSuiteIsSafe(script: Script, dbs: map<Name, Content>, q: Proc)
    requires TemplatesComplete(script, dbs) && BuildOk(script, dbs, q)
    requires q.pc.BootSuite?
    ensures SafeStep(script, dbs, q, Execute(script, dbs, q))
  {
    hide IsProduction;
    var n, full := q.pc.n, script(q.key);
    if n < |full| {
      assert full[..n + 1] == full[..n] + [full[n]];
    } else if n == |full| {
      assert full[..n] == full;
    }
  }

  lemma LocalStepsAreSafe(script: Script, dbs: map<Name, Content>, q: Proc)
    requires TemplatesComplete(script, dbs) && BuildOk(script, dbs, q)
    requires q.pc.Idle? || q.pc.Verify? || q.pc.Resolve? || q.pc.CheckFinal?
      || q.pc.EnsureRole? || q.pc.Finished? || q.pc.Failed?
    ensures SafeStep(script, dbs, q, Execute(script, dbs, q))
  {
    hide IsProduction;
  }

  lemma ExecuteIsSafe(script: Script, dbs: map<Name, Content>, q: Proc)
    requires TemplatesComplete(script, dbs) && BuildOk(script, dbs, q)
    ensures SafeStep(script, dbs, q, Execute(script, dbs, q))
  {
    hide *;
    match q.pc
    case DropOld => DropIsSafe(script, dbs, q);
    case Create => CreateIsSafe(script, dbs, q);
    case DropLoser => DropIsSafe(script, dbs, q);
    case Abandon => AbandonIsSafe(script, dbs, q);
    case Bootstrap(_) => BootstrapIsSafe(script, dbs, q);
    case Rename => RenameIsSafe(script, dbs, q);
    case CheckLost => PublishingIsSafe(script, dbs, q);
    case Publish => PublishingIsSafe(script, dbs, q);
    case DropSuite(_) => DropSuiteIsSafe(script, dbs, q);
    case CloneSuite => CloneIsSafe(script, dbs, q);
    case CreateSuite => CreateSuiteIsSafe(script, dbs, q);
    case GrantSuite(_) => GrantIsSafe(script, dbs, q);
    case BootSuite(_) => BootSuiteIsSafe(script, dbs, q);
    case ResetGucs => ResetIsSafe(script, dbs, q);
    case _ => LocalStepsAreSafe(script, dbs, q);
  }

  lemma BreakIsSafe(script: Script, dbs: map<Name, Content>, q: Proc)
    requires TemplatesComplete(script, dbs) && BuildOk(script, dbs, q) && CanFail(q.pc)
    ensures SafeStep(script, dbs, q, (dbs, Break(q)))
  {
    hide IsProduction;
  }

  /** What another process relies on survives a framed step; of its suite, when that is its own. */
  lemma OthersKeepOk(script: Script, before: map<Name, Content>, after: map<Name, Content>, q: Proc, other: Proc)
    requires Framed(before, after, q) && q.pid != other.pid
    ensures BuildOk(script, before, other) ==> BuildOk(script, after, other)
    ensures SuiteOk(script, before, other) && q.suite != other.suite ==> SuiteOk(script, after, other)
  {
    hide IsProduction;
  }

  lemma SamePids(procs: map<nat, Proc>, p: nat, q: Proc)
    requires PidsDiffer(procs) && p in procs && q.pid == procs[p].pid
    ensures PidsDiffer(procs[p := q])
  {
  }

  /** Final templates, once there, stay as they are. */
  ghost predicate TemplatesKept(before: State, after: State) {
    forall k :: Template(k) in before.dbs ==> Holds(after.dbs, Template(k), before.dbs[Template(k)])
  }

  /** Databases with a production name are never created, dropped or written. */
  ghost predicate ProductionKept(before: State, after: State) {
    forall n :: IsProduction(n) ==>
      && (Suite(n) in before.dbs <==> Suite(n) in after.dbs)
      && (Suite(n) in before.dbs ==> before.dbs[Suite(n)] == after.dbs[Suite(n)])
  }

  /** A process step that is safe keeps the invariant and, when suites differ, what is known of them. */
  lemma FramedStep(script: Script, s: State, p: nat, r: (map<Name, Content>, Proc))
    requires Inv(script, s) && p in s.procs && SafeStep(script, s.dbs, s.procs[p], r)
    ensures Inv(script, Put(s, p, r)) && TemplatesKept(s, Put(s, p, r)) && ProductionKept(s, Put(s, p, r))
    ensures SuitesOk(script, s) && SuitesDiffer(s.procs) ==> SuitesOk(script, Put(s, p, r))
  {
    hide IsProduction, BuildOk, SuiteOk;
    SamePids(s.procs, p, r.1);
    forall o | o in s.procs && o != p
      ensures BuildOk(script, r.0, s.procs[o])
      ensures SuitesOk(script, s) && SuitesDiffer(s.procs) ==> SuiteOk(script, r.0, s.procs[o])
    {
      OthersKeepOk(script, s.dbs, r.0, s.procs[p], s.procs[o]);
    }
  }

  /** Every event keeps the invariant, the finished templates and the production databases. */
  lemma StepIsSafe(script: Script, s: State, e: Event)
    requires Inv(script, s) && Step(script, s, e).To?
    ensures var next := Step(script, s, e).state;
            Inv(script, next) && TemplatesKept(s, next) && ProductionKept(s, next)
    ensures SuitesOk(script, s) && SuitesDiffer(s.procs) ==> SuitesOk(script, Step(script, s, e).state)
  {
    hide IsProduction, Execute, Break, BuildOk, SuiteOk, SafeStep;
    match e
    case Start(p, pid, enabled, suite) => IdleIsOk(script, s.dbs, Proc(pid, enabled, suite, "", Idle, map[]));
    case Crash(p) =>
    case Call(p, key, suite) => CallIsOk(script, s.dbs, s.procs[p], key, suite);
    case Act(p) =>
      ExecuteIsSafe(script, s.dbs, s.procs[p]);
      FramedStep(script, s, p, Execute(script, s.dbs, s.procs[p]));
    case Fail(p) =>
      BreakIsSafe(script, s.dbs, s.procs[p]);
      FramedStep(script, s, p, (s.dbs, Break(s.procs[p])));
    case Dirty(p, content) =>
      var q := s.procs[p];
      DirtyIsOk(script, s.dbs, q, content);
      FramedStep(script, s, p, (s.dbs[Suite(q.suite) := content], q.(pc := Idle)));
  }

  lemma IdleIsOk(script: Script, dbs: map<Name, Content>, q: Proc)
    requires q.pc == Idle && q.ready == map[]
    ensures BuildOk(script, dbs, q) && SuiteOk(script, dbs, q)
  {
  }

  lemma CallIsOk(script: Script, dbs: map<Name, Content>, q: Proc, key: Key, suite: string)
    requires BuildOk(script, dbs, q)
    ensures var called := q.(key := key, suite := suite, pc := Verify);
            BuildOk(script, dbs, called) && SuiteOk(script, dbs, called)
  {
  }

  lemma DirtyIsOk(script: Script, dbs: map<Name, Content>, q: Proc, content: Content)
    requires BuildOk(script, dbs, q) && q.pc == Finished && TemplatesComplete(script, dbs)
    ensures SafeStep(script, dbs, q, (dbs[Suite(q.suite) := content], q.(pc := Idle)))
  {
  }

  // ---------------------------------------------------------------------------
  // Main results
  // ---------------------------------------------------------------------------

  /** No process is live, and any database under a final name is complete; leftovers of any other kind may exist. */
  ghost predicate Initial(script: Script, s: State) {
    s.procs == map[] && TemplatesComplete(script, s.dbs)
  }

  lemma InitialInv(script: Script, s: State)
    requires Initial(script, s)
    ensures Inv(script, s)
  {
  }

  /**
   * Template safety, over every interleaving of any number of processes that build, fail, crash, lose the race or reuse
   * a dead process's pid: the invariant holds at the end of every run, finished templates are never dropped or changed,
   * and no database with a production name is touched.
   */
  lemma {:induction false} TemplateSafety(script: Script, s: State, events: seq<Event>)
    requires Inv(script, s) && Run(script, s, events).To?
    ensures var last := Run(script, s, events).state;
            Inv(script, last) && TemplatesKept(s, last) && ProductionKept(s, last)
    decreases events
  {
    hide Step, Inv, IsProduction;
    if events != [] {
      StepIsSafe(script, s, events[0]);
      TemplateSafety(script, Step(script, s, events[0]).state, events[1..]);
    }
  }

  /** A positive cache entry stays true for the rest of the run, in every process. */
  lemma {:induction false} ReadyStaysTrue(script: Script, s: State, events: seq<Event>, p: nat, key: Key)
    requires Inv(script, s) && Run(script, s, events).To?
    requires p in s.procs && key in s.procs[p].ready && s.procs[p].ready[key]
    ensures Holds(Run(script, s, events).state.dbs, Template(key), script(key))
  {
    TemplateSafety(script, s, events);
  }

  /** At every point of the run, live processes use different suite databases. */
  ghost predicate SuitesApart(script: Script, s: State, events: seq<Event>)
    decreases events
  {
    && SuitesDiffer(s.procs)
    && (events != [] && Step(script, s, events[0]).To? ==> SuitesApart(script, Step(script, s, events[0]).state, events[1..]))
  }

  lemma {:induction false} SuitesStayOk(script: Script, s: State, events: seq<Event>)
    requires Inv(script, s) && SuitesOk(script, s) && SuitesApart(script, s, events) && Run(script, s, events).To?
    ensures SuitesOk(script, Run(script, s, events).state)
    decreases events
  {
    hide Step, Inv, IsProduction, SuitesOk;
    if events != [] {
      StepIsSafe(script, s, events[0]);
      SuitesStayOk(script, Step(script, s, events[0]).state, events[1..]);
    }
  }

  /**
   * Clone refines rebuild: from any initial state, whenever a call has finished, whichever path it took, the suite
   * database holds exactly what an empty create followed by the bootstrap would give.
   */
  lemma CloneRefinesRebuild(script: Script, s: State, events: seq<Event>, p: nat)
    requires Initial(script, s) && Run(script, s, events).To? && SuitesApart(script, s, events)
    requires var last := Run(script, s, events).state; p in last.procs && last.procs[p].pc == Finished
    ensures var last := Run(script, s, events).state; var q := last.procs[p];
            Holds(last.dbs, Suite(q.suite), script(q.key)) && !IsProduction(q.suite)
  {
    InitialInv(script, s);
    TemplateSafety(script, s, events);
    SuitesStayOk(script, s, events);
  }

  /** How many steps a call can still take, at most. */
  function Rank(pc: Pc, length: nat): nat {
    match pc
    case Verify => 2 * length + 30
    case Resolve => 2 * length + 29
    case CheckFinal => 2 * length + 28
    case EnsureRole => 2 * length + 27
    case DropOld => 2 * length + 26
    case Create => 2 * length + 25
    case Bootstrap(n) => length + 24 + if n < length then length - n else 0
    case Rename => length + 23
    case CheckLost => length + 22
    case DropLoser => length + 21
    case Publish => length + 20
    case Abandon => length + 20
    case DropSuite(fromTemplate) => length + if fromTemplate then 15 else 9
    case CloneSuite => length + 14
    case CreateSuite => length + 8
    case GrantSuite(_) => length + 7
    case BootSuite(n) => 3 + if n < length then length - n else 0
    case ResetGucs => 2
    case _ => 0
  }

  lemma LoopsDescend(script: Script, dbs: map<Name, Content>, q: Proc)
    requires q.pc.Bootstrap? || q.pc.BootSuite?
    ensures var after := Execute(script, dbs, q).1;
            after.key == q.key && Rank(after.pc, |script(q.key)|) < Rank(q.pc, |script(q.key)|)
  {
  }

  lemma TemplatePartDescends(script: Script, dbs: map<Name, Content>, q: Proc)
    requires q.pc.DropOld? || q.pc.Create? || q.pc.Rename? || q.pc.CheckLost? || q.pc.DropLoser? || q.pc.Publish?
      || q.pc.Abandon?
    ensures var after := Execute(script, dbs, q).1;
            after.key == q.key && Rank(after.pc, |script(q.key)|) < Rank(q.pc, |script(q.key)|)
  {
  }

  lemma SuitePartDescends(script: Script, dbs: map<Name, Content>, q: Proc)
    requires q.pc.Verify? || q.pc.Resolve? || q.pc.CheckFinal? || q.pc.EnsureRole? || q.pc.DropSuite?
      || q.pc.CloneSuite? || q.pc.CreateSuite? || q.pc.GrantSuite? || q.pc.ResetGucs?
    ensures var after := Execute(script, dbs, q).1;
            after.key == q.key && Rank(after.pc, |script(q.key)|) < Rank(q.pc, |script(q.key)|)
  {
    hide IsProduction;
  }

  lemma ExecuteDescends(script: Script, dbs: map<Name, Content>, q: Proc)
    requires Running(q.pc)
    ensures var after := Execute(script, dbs, q).1;
            after.key == q.key && Rank(after.pc, |script(q.key)|) < Rank(q.pc, |script(q.key)|)
  {
    hide Execute, Rank;
    if q.pc.Bootstrap? || q.pc.BootSuite? {
      LoopsDescend(script, dbs, q);
    } else if q.pc.DropOld? || q.pc.Create? || q.pc.Rename? || q.pc.CheckLost? || q.pc.DropLoser? || q.pc.Publish?
      || q.pc.Abandon? {
      TemplatePartDescends(script, dbs, q);
    } else {
      SuitePartDescends(script, dbs, q);
    }
  }

  lemma BreakDescends(q: Proc, length: nat)
    requires CanFail(q.pc)
    ensures Break(q).key == q.key && Rank(Break(q).pc, length) < Rank(q.pc, length)
  {
  }

  /** Each step of a process, successful or not, brings its own call nearer to its end and leaves the others alone. */
  lemma StepDescends(script: Script, s: State, e: Event)
    requires Step(script, s, e).To? && (e.Act? || e.Fail?)
    ensures var before, after := s.procs[e.p], Step(script, s, e).state.procs[e.p];
            && after.key == before.key
            && Rank(after.pc, |script(before.key)|) < Rank(before.pc, |script(before.key)|)
            && forall o :: o in s.procs && o != e.p ==> Step(script, s, e).state.procs[o] == s.procs[o]
  {
    hide Execute, Break, Rank;
    if e.Act? {
      ExecuteDescends(script, s.dbs, s.procs[e.p]);
    } else {
      BreakDescends(s.procs[e.p], |script(s.procs[e.p].key)|);
    }
  }

  /** Through the whole run the process is alive, and one call of it is running until the last event at least. */
  ghost predicate InOneCall(script: Script, s: State, events: seq<Event>, p: nat)
    decreases events
  {
    && p in s.procs
    && (events != [] ==>
          && Running(s.procs[p].pc)
          && (Step(script, s, events[0]).To? ==> InOneCall(script, Step(script, s, events[0]).state, events[1..], p)))
  }

  predicate IsStepOf(e: Event, p: nat) {
    (e.Act? || e.Fail?) && e.p == p
  }

  function StepsOf(events: seq<Event>, p: nat): nat {
    if events == [] then 0 else (if IsStepOf(events[0], p) then 1 else 0) + StepsOf(events[1..], p)
  }

  lemma OthersLeaveCall(script: Script, s: State, e: Event, p: nat)
    requires Step(script, s, e).To? && p in s.procs && Running(s.procs[p].pc) && !IsStepOf(e, p)
    requires p in Step(script, s, e).state.procs
    ensures Step(script, s, e).state.procs[p] == s.procs[p]
  {
    hide Execute, Break, PidsDiffer;
  }

  /**
   * No call goes on forever: over any interleaving with other processes, crashes and failures, the steps that one call
   * takes and those that it still has left are together at most those it had left at the start, which is
   * `2 * length + 30` from the beginning of a call.
   */
  lemma {:induction false} CallsTerminate(script: Script, s: State, events: seq<Event>, p: nat)
    requires Run(script, s, events).To? && InOneCall(script, s, events, p)
    ensures p in Run(script, s, events).state.procs
    ensures var before, after := s.procs[p], Run(script, s, events).state.procs[p];
            && StepsOf(events, p) + Rank(after.pc, |script(before.key)|) <= Rank(before.pc, |script(before.key)|)
            && (before.pc == Verify ==> StepsOf(events, p) <= 2 * |script(before.key)| + 30)
            && after.key == before.key
    decreases events
  {
    hide Step, Rank, IsStepOf, Running;
    if events != [] {
      var e := events[0];
      var next := Step(script, s, e).state;
      CallStep(script, s, e, p);
      CallsTerminate(script, next, events[1..], p);
    }
    RankAtVerify(|script(s.procs[p].key)|);
  }

  lemma RankAtVerify(length: nat)
    ensures Rank(Verify, length) == 2 * length + 30
  {
  }

  lemma CallStep(script: Script, s: State, e: Event, p: nat)
    requires Step(script, s, e).To? && p in s.procs && Running(s.procs[p].pc) && p in Step(script, s, e).state.procs
    ensures var before, after := s.procs[p], Step(script, s, e).state.procs[p];
            && after.key == before.key
            && Rank(after.pc, |script(before.key)|) + (if IsStepOf(e, p) then 1 else 0) <= Rank(before.pc, |script(before.key)|)
  {
    hide Step, Rank, Running;
    if IsStepOf(e, p) {
      StepDescends(script, s, e);
    } else {
      OthersLeaveCall(script, s, e, p);
    }
  }

  /** A process running on its own, without failures, until its call is over. */
  function Solo(script: Script, dbs: map<Name, Content>, q: Proc): (map<Name, Content>, Proc)
    decreases Rank(q.pc, |script(q.key)|)
  {
    if !Running(q.pc) then (dbs, q)
    else
      ExecuteDescends(script, dbs, q);
      var r := Execute(script, dbs, q);
      Solo(script, r.0, r.1)
  }

  /** Where a private name must be free, it is. */
  predicate Clear(dbs: map<Name, Content>, q: Proc) {
    && (q.pc == Create ==> Building(q.key, q.pid) !in dbs)
    && (q.pc == CreateSuite || q.pc == CloneSuite ==> Suite(q.suite) !in dbs)
  }

  /** The template is published and the process knows it. */
  predicate Published(dbs: map<Name, Content>, q: Proc) {
    Template(q.key) in dbs && q.key in q.ready && q.ready[q.key]
  }

  /** On the way to publishing the template, or past that point. */
  predicate Succeeding(dbs: map<Name, Content>, q: Proc) {
    match q.pc
    case Verify => q.enabled && q.key !in q.ready
    case Resolve => q.enabled && q.key !in q.ready
    case CheckFinal => true
    case EnsureRole => Template(q.key) !in dbs
    case DropOld => Template(q.key) !in dbs
    case Create => Template(q.key) !in dbs
    case Bootstrap(_) => Template(q.key) !in dbs
    case Rename => Template(q.key) !in dbs
    case Publish => true
    case DropSuite(fromTemplate) => fromTemplate && Published(dbs, q)
    case CloneSuite => Published(dbs, q)
    case GrantSuite(cloned) => cloned && Published(dbs, q)
    case ResetGucs => Published(dbs, q)
    case Finished => Published(dbs, q)
    case _ => false
  }

  lemma ExecuteKeepsClear(script: Script, dbs: map<Name, Content>, q: Proc)
    requires BuildOk(script, dbs, q) && SuiteOk(script, dbs, q)
    requires Clear(dbs, q) && Running(q.pc) && !IsProduction(q.suite)
    ensures var r := Execute(script, dbs, q); Clear(r.0, r.1) && r.1.pc != Failed && r.1.pc != Idle
  {
    hide IsProduction;
  }

  lemma ExecuteKeepsSucceeding(script: Script, dbs: map<Name, Content>, q: Proc)
    requires BuildOk(script, dbs, q) && SuiteOk(script, dbs, q) && Clear(dbs, q) && !IsProduction(q.suite)
    requires Running(q.pc) && Succeeding(dbs, q)
    ensures var r := Execute(script, dbs, q); Succeeding(r.0, r.1)
  {
    hide IsProduction;
  }

  /**
   * An undisturbed call always finishes, whatever other processes left behind when they died, and one that starts with
   * templates enabled and no cached answer ends with the template published and cached.
   */
  lemma {:induction false} UndisturbedCallFinishes(script: Script, dbs: map<Name, Content>, q: Proc)
    requires TemplatesComplete(script, dbs) && BuildOk(script, dbs, q) && SuiteOk(script, dbs, q) && Clear(dbs, q)
    requires q.pc != Idle && q.pc != Failed && !IsProduction(q.suite)
    ensures var r := Solo(script, dbs, q);
            && r.1.pc == Finished
            && Holds(r.0, Suite(q.suite), script(q.key))
            && (Succeeding(dbs, q) ==> Published(r.0, r.1) && Holds(r.0, Template(q.key), script(q.key)))
    decreases Rank(q.pc, |script(q.key)|)
  {
    hide Execute, IsProduction, Clear, Rank;
    if Running(q.pc) {
      hide BuildOk, SuiteOk, TemplatesComplete, Succeeding;
      ExecuteDescends(script, dbs, q);
      var r := Execute(script, dbs, q);
      ExecuteIsSafe(script, dbs, q);
      ExecuteKeepsClear(script, dbs, q);
      if Succeeding(dbs, q) {
        ExecuteKeepsSucceeding(script, dbs, q);
      }
      UndisturbedCallFinishes(script, r.0, r.1);
    }
  }

  /** Two live processes with one pid: the first has built its template, the second is about to drop what it finds. */
  function Renamer(key: Key, pid: nat): Proc {
    Proc(pid, true, "a", key, Rename, map[])
  }

  function Dropper(key: Key, pid: nat): Proc {
    Proc(pid, true, "b", key, DropOld, map[])
  }

  function SharedPid(script: Script, key: Key, pid: nat): State {
    State(map[Building(key, pid) := script(key)], map[0 := Renamer(key, pid), 1 := Dropper(key, pid)])
  }

  lemma SharedPidStart(script: Script, key: Key, pid: nat)
    ensures var s := SharedPid(script, key, pid);
            TemplatesComplete(script, s.dbs) && BuildOk(script, s.dbs, s.procs[0]) && BuildOk(script, s.dbs, s.procs[1])
  {
    hide IsProduction;
    NotProduction();
  }

  lemma DropOfOther(script: Script, key: Key, pid: nat)
    ensures Step(script, SharedPid(script, key, pid), Act(1)) ==
            To(State(map[], map[0 := Renamer(key, pid), 1 := Dropper(key, pid).(pc := Create)]))
  {
    hide IsProduction;
    assert map[Building(key, pid) := script(key)] - {Building(key, pid)} == map[];
  }

  lemma CreateAgain(script: Script, key: Key, pid: nat)
    ensures var s := State(map[], map[0 := Renamer(key, pid), 1 := Dropper(key, pid).(pc := Create)]);
            Step(script, s, Act(1)) ==
            To(State(map[Building(key, pid) := []], map[0 := Renamer(key, pid), 1 := Dropper(key, pid).(pc := Bootstrap(0))]))
  {
    hide IsProduction;
  }

  lemma RenameEmpty(script: Script, key: Key, pid: nat, other: Proc)
    ensures var s := State(map[Building(key, pid) := []], map[0 := Renamer(key, pid), 1 := other]);
            var next := Step(script, s, Act(0));
            next.To? && next.state.dbs == map[Template(key) := []]
  {
    hide IsProduction;
    var none: Content := [];
    assert map[Building(key, pid) := none] - {Building(key, pid)} == map[];
  }

  lemma RunOfThree(script: Script, s: State, a: Event, b: Event, c: Event)
    requires Step(script, s, a).To? && Step(script, Step(script, s, a).state, b).To?
    ensures Run(script, s, [a, b, c]) == Step(script, Step(script, Step(script, s, a).state, b).state, c)
  {
    hide Step;
    assert [a, b, c][1..] == [b, c] && [b, c][1..] == [c] && [c][1..] == [];
    var two := Step(script, Step(script, s, a).state, b).state;
    assert Run(script, two, [c]) == Step(script, two, c);
  }

  /**
   * The rule that live processes have different pids is needed: when two live processes share one, every other part of
   * the invariant can hold and yet three successful steps put an empty database under the final name.
   */
  lemma SharedPidBreaks(script: Script, key: Key, pid: nat)
    requires script(key) != []
    ensures var s := SharedPid(script, key, pid);
            && TemplatesComplete(script, s.dbs) && BuildOk(script, s.dbs, s.procs[0]) && BuildOk(script, s.dbs, s.procs[1])
            && var last := Run(script, s, [Act(1), Act(1), Act(0)]);
               last.To? && Holds(last.state.dbs, Template(key), []) && !TemplatesComplete(script, last.state.dbs)
  {
    hide BuildOk, Step, Run;
    SharedPidStart(script, key, pid);
    DropOfOther(script, key, pid);
    CreateAgain(script, key, pid);
    RenameEmpty(script, key, pid, Dropper(key, pid).(pc := Bootstrap(0)));
    RunOfThree(script, SharedPid(script, key, pid), Act(1), Act(1), Act(0));
  }

  /**
   * The pid rule, exactly, in every state: a process that is about to drop a private template leaves the build of another
   * one alone if and only if the two differ in pid or in template.
   */
  lemma BuildKeptExact(script: Script, s: State, p: nat, q: nat)
    requires p in s.procs && q in s.procs && p != q
    requires s.procs[p].pc.Bootstrap? || s.procs[p].pc == Rename
    requires BuildOk(script, s.dbs, s.procs[p])
    requires s.procs[q].pc == DropOld || s.procs[q].pc == DropLoser || s.procs[q].pc == Abandon
    ensures var next := Step(script, s, Act(q));
            && next.To? && next.state.procs[p] == s.procs[p]
            && (BuildOk(script, next.state.dbs, s.procs[p]) <==>
                s.procs[p].pid != s.procs[q].pid || s.procs[p].key != s.procs[q].key)
  {
    hide IsProduction;
  }

  /** The start of a process when nobody compares pids; every other event is as before. */
  function StepAnyPid(script: Script, s: State, e: Event): Next {
    match e
    case Start(p, pid, enabled, suite) =>
      if p in s.procs then Disabled else To(s.(procs := s.procs[p := Proc(pid, enabled, suite, "", Idle, map[])]))
    case _ => Step(script, s, e)
  }

  function RunAnyPid(script: Script, s: State, events: seq<Event>): Next
    decreases events
  {
    if events == [] then To(s)
    else
      match StepAnyPid(script, s, events[0])
      case Disabled => Disabled
      case To(next) => RunAnyPid(script, next, events[1..])
  }

  lemma {:induction false} RunAnyPidConcat(script: Script, s: State, a: seq<Event>, b: seq<Event>)
    requires RunAnyPid(script, s, a).To?
    ensures RunAnyPid(script, s, a + b) == RunAnyPid(script, RunAnyPid(script, s, a).state, b)
    decreases a
  {
    hide StepAnyPid;
    if a == [] {
      assert a + b == b;
    } else {
      assert (a + b)[0] == a[0] && (a + b)[1..] == a[1..] + b;
      RunAnyPidConcat(script, StepAnyPid(script, s, a[0]).state, a[1..], b);
    }
  }

  lemma OneAnyPid(script: Script, s: State, e: Event)
    ensures RunAnyPid(script, s, [e]) == StepAnyPid(script, s, e)
  {
    hide StepAnyPid;
    assert [e][1..] == [];
  }

  /** The first process at `pc` and the second one, with the given databases. */
  function Pair(script: Script, key: Key, pid: nat, dbs: map<Name, Content>, first: Pc, second: Pc): State {
    State(dbs, map[0 := Renamer(key, pid).(pc := first), 1 := Dropper(key, pid).(pc := second)])
  }

  /** Some run leads from one state to the other when nobody compares pids. */
  ghost predicate Leads(script: Script, s: State, t: State) {
    exists events :: RunAnyPid(script, s, events) == To(t)
  }

  lemma LeadsOn(script: Script, s: State, t: State, e: Event, u: State)
    requires Leads(script, s, t) && StepAnyPid(script, t, e) == To(u)
    ensures Leads(script, s, u)
  {
    hide StepAnyPid;
    var events :| RunAnyPid(script, s, events) == To(t);
    RunAnyPidConcat(script, s, events, [e]);
    OneAnyPid(script, t, e);
    assert RunAnyPid(script, s, events + [e]) == To(u);
  }

  const NOTHING := State(map[], map[])

  lemma BothStart(script: Script, key: Key, pid: nat)
    ensures Leads(script, NOTHING, Pair(script, key, pid, map[], Verify, Verify))
  {
    var one := Proc(pid, true, "a", "", Idle, map[]);
    var two := Proc(pid, true, "b", "", Idle, map[]);
    assert RunAnyPid(script, NOTHING, []) == To(NOTHING);
    var s1, s2 := State(map[], map[0 := one]), State(map[], map[0 := one, 1 := two]);
    LeadsOn(script, NOTHING, NOTHING, Start(0, pid, true, "a"), s1);
    LeadsOn(script, NOTHING, s1, Start(1, pid, true, "b"), s2);
    hide Leads;
    var s3 := State(map[], map[0 := Renamer(key, pid).(pc := Verify), 1 := two]);
    LeadsOn(script, NOTHING, s2, Call(0, key, "a"), s3);
    LeadsOn(script, NOTHING, s3, Call(1, key, "b"), Pair(script, key, pid, map[], Verify, Verify));
  }

  /** A step of the second process on its way to the drop, and of the first on its way to the build. */
  lemma SecondMoves(script: Script, key: Key, pid: nat, first: Pc, second: Pc, next: Pc)
    requires (second, next) in [(Verify, Resolve), (Resolve, CheckFinal), (CheckFinal, EnsureRole), (EnsureRole, DropOld)]
    requires Leads(script, NOTHING, Pair(script, key, pid, map[], first, second))
    ensures Leads(script, NOTHING, Pair(script, key, pid, map[], first, next))
  {
    hide Leads, IsProduction;
    NotProduction();
    LeadsOn(script, NOTHING, Pair(script, key, pid, map[], first, second), Act(1), Pair(script, key, pid, map[], first, next));
  }

  lemma FirstMoves(script: Script, key: Key, pid: nat, second: Pc, first: Pc, next: Pc)
    requires (first, next) in
      [(Verify, Resolve), (Resolve, CheckFinal), (CheckFinal, EnsureRole), (EnsureRole, DropOld), (DropOld, Create)]
    requires Leads(script, NOTHING, Pair(script, key, pid, map[], first, second))
    ensures Leads(script, NOTHING, Pair(script, key, pid, map[], next, second))
  {
    hide Leads, IsProduction;
    NotProduction();
    var none: map<Name, Content> := map[];
    assert none - {Building(key, pid)} == map[];
    LeadsOn(script, NOTHING, Pair(script, key, pid, map[], first, second), Act(0), Pair(script, key, pid, map[], next, second));
  }

  lemma {:induction false} FirstBuilds(script: Script, key: Key, pid: nat, n: nat)
    requires n <= |script(key)|
    requires Leads(script, NOTHING, Pair(script, key, pid, map[], Create, DropOld))
    ensures Leads(script, NOTHING, Pair(script, key, pid, map[Building(key, pid) := script(key)[..n]], Bootstrap(n), DropOld))
  {
    hide Leads, IsProduction;
    if n == 0 {
      assert script(key)[..0] == [];
      LeadsOn(script, NOTHING, Pair(script, key, pid, map[], Create, DropOld), Act(0),
              Pair(script, key, pid, map[Building(key, pid) := []], Bootstrap(0), DropOld));
    } else {
      FirstBuilds(script, key, pid, n - 1);
      assert script(key)[..n] == script(key)[..n - 1] + [script(key)[n - 1]];
      LeadsOn(script, NOTHING,
              Pair(script, key, pid, map[Building(key, pid) := script(key)[..n - 1]], Bootstrap(n - 1), DropOld), Act(0),
              Pair(script, key, pid, map[Building(key, pid) := script(key)[..n]], Bootstrap(n), DropOld));
    }
  }

  /** From an empty server, two processes with one pid can get into the state in which the rule is broken. */
  lemma SharedPidIsReachable(script: Script, key: Key, pid: nat)
    ensures Initial(script, NOTHING) && Leads(script, NOTHING, SharedPid(script, key, pid))
  {
    hide Leads, Pair, StepAnyPid;
    BothStart(script, key, pid);
    SecondMoves(script, key, pid, Verify, Verify, Resolve);
    SecondMoves(script, key, pid, Verify, Resolve, CheckFinal);
    SecondMoves(script, key, pid, Verify, CheckFinal, EnsureRole);
    SecondMoves(script, key, pid, Verify, EnsureRole, DropOld);
    FirstMoves(script, key, pid, DropOld, Verify, Resolve);
    FirstMoves(script, key, pid, DropOld, Resolve, CheckFinal);
    FirstMoves(script, key, pid, DropOld, CheckFinal, EnsureRole);
    FirstMoves(script, key, pid, DropOld, EnsureRole, DropOld);
    FirstMoves(script, key, pid, DropOld, DropOld, Create);
    FirstBuilds(script, key, pid, |script(key)|);
    BuildIsDone(script, key, pid);
  }

  lemma BuildIsDone(script: Script, key: Key, pid: nat)
    requires Leads(script, NOTHING,
                   Pair(script, key, pid, map[Building(key, pid) := script(key)[..|script(key)|]], Bootstrap(|script(key)|), DropOld))
    ensures Leads(script, NOTHING, SharedPid(script, key, pid))
  {
    hide Leads, IsProduction;
    assert script(key)[..|script(key)|] == script(key);
    LeadsOn(script, NOTHING, Pair(script, key, pid, map[Building(key, pid) := script(key)], Bootstrap(|script(key)|), DropOld),
            Act(0), SharedPid(script, key, pid));
  }

  /**
   * The suite rule, exactly, in every state: when another process comes to drop its suite database, that of a finished
   * call stays as it is if and only if the two suites differ.
   */
  lemma SuiteKeptExact(script: Script, s: State, p: nat, q: nat)
    requires p in s.procs && q in s.procs && p != q
    requires s.procs[p].pc == Finished && SuiteOk(script, s.dbs, s.procs[p]) && s.procs[q].pc.DropSuite?
    ensures var next := Step(script, s, Act(q));
            && next.To? && next.state.procs[p] == s.procs[p]
            && (SuiteOk(script, next.state.dbs, s.procs[p]) <==> s.procs[p].suite != s.procs[q].suite)
  {
    hide IsProduction;
  }

  /** Two live processes given one suite: the first has finished with it, the second starts over. */
  function SharedSuite(script: Script, key: Key): State {
    State(map[Suite("a") := script(key)],
          map[0 := Proc(1, false, "a", key, Finished, map[]), 1 := Proc(2, false, "a", key, DropSuite(false), map[])])
  }

  lemma SharedSuiteStart(script: Script, key: Key)
    ensures Inv(script, SharedSuite(script, key)) && SuitesOk(script, SharedSuite(script, key))
  {
    hide IsProduction;
    NotProduction();
  }

  lemma SuiteDropped(script: Script, key: Key)
    ensures var s := SharedSuite(script, key); var next := Step(script, s, Act(1));
            next.To? && next.state.procs[0] == s.procs[0] && Suite("a") !in next.state.dbs
  {
    hide IsProduction;
  }

  /** So is the rule for suites, for the clone: a second process given the same suite drops it from under the first. */
  lemma SharedSuiteBreaks(script: Script, key: Key)
    ensures var s := SharedSuite(script, key);
            && Inv(script, s) && SuitesOk(script, s)
            && var next := Step(script, s, Act(1));
               next.To? && Inv(script, next.state) && next.state.procs[0] == s.procs[0] && Suite("a") !in next.state.dbs
  {
    hide Inv, SuitesOk, Step;
    SharedSuiteStart(script, key);
    SuiteDropped(script, key);
    StepIsSafe(script, SharedSuite(script, key), Act(1));
  }

  lemma NotProduction()
    ensures !IsProduction("a") && !IsProduction("b")
  {
    assert |ToLower("a")| == 1 && |ToLower("b")| == 1;
  }
}
