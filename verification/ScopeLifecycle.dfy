/** How the language server keeps its analysis scope up to date: requests coalesce, one build is
    in flight at a time, and a result made obsolete meanwhile is thrown away.

    What the worker pool, the builds and git answer comes with each event. Two things are recorded
    only to state freshness: how many requests were accepted so far, and how many of them a build
    had seen when it was spawned. */
module ScopeLifecycle {
  import opened Common

  datatype Scope = Scope(base: string, seen: nat, content: int)

  datatype ScopeState =
    | Disabled
    | Loading(generation: nat)
    | Ready(generation: nat, scope: Scope)
    | Failed(generation: nat)
  {
    function Current(): Option<Scope> {
      if Ready? then Some(scope) else None
    }
  }

  datatype Project = Project(diffBase: Option<string>)

  /** A build a worker has not answered for yet. */
  datatype Job = Job(generation: nat, base: string, seen: nat)

  datatype Result = Ok(scope: Scope) | Err(error: string)

  /** Whether the pool says it has room, and whether it then takes the job. */
  datatype Pool = Pool(hasCapacity: bool, accepts: bool)

  datatype Server = Server(
    project: Option<Project>,
    workspaceRoot: Option<string>,
    analysisScope: ScopeState,
    queued: bool,
    generation: nat,
    configScope: Option<Scope>,
    refIdentity: Option<int>,
    warningShown: Option<string>,
    warnings: seq<string>,
    rescopes: nat,
    jobs: seq<Job>,
    requests: nat)

  /** Generations are 64 bits wide and wrap. */
  const WRAP: nat := 0x1_0000_0000_0000_0000

  function DiffBase(s: Server): Option<string> {
    if s.project.Some? then s.project.value.diffBase else None
  }

  // ---- the operations ------------------------------------------------------------------------------

  function RequestRebuild(s: Server): Server {
    if DiffBase(s).Some? || !s.analysisScope.Disabled? then s.(queued := true, requests := s.requests + 1) else s
  }

  function ApplyScope(s: Server): Server {
    s.(configScope := s.analysisScope.Current())
  }

  function Rescope(s: Server): Server {
    s.(rescopes := s.rescopes + 1)
  }

  function MaybeSpawn(s: Server, pool: Pool): Server {
    if !s.queued || s.analysisScope.Loading? then s
    else if DiffBase(s).None? then
      var idle := s.(queued := false);
      if s.analysisScope.Disabled? then idle else Rescope(ApplyScope(idle.(analysisScope := Disabled)))
    else if s.workspaceRoot.None? then s.(queued := false)
    else if !pool.hasCapacity then s
    else
      var generation := (s.generation + 1) % WRAP;
      var bumped := s.(generation := generation);
      if pool.accepts then
        bumped.(queued := false, analysisScope := Loading(generation),
                jobs := s.jobs + [Job(generation, DiffBase(s).value, s.requests)])
      else bumped
  }

  function ShowWarning(s: Server, error: string): Server {
    if s.warningShown == Some(error) then s
    else s.(warningShown := Some(error), warnings := s.warnings + [error])
  }

  function HandleReady(s: Server, generation: nat, result: Result, identity: Option<int>, pool: Pool): Server {
    if !s.analysisScope.Loading? then s
    else if generation != s.analysisScope.generation then s
    else if s.queued then MaybeSpawn(s.(analysisScope := Failed(generation)), pool)
    else
      var told := s.(refIdentity := identity);
      var settled :=
        match result
        case Ok(scope) => told.(warningShown := None, analysisScope := Ready(generation, scope))
        case Err(error) => ShowWarning(told, error).(analysisScope := Failed(generation));
      MaybeSpawn(Rescope(ApplyScope(settled)), pool)
  }

  /** `identity` is what the references resolve to now, if they do. */
  function CheckDrift(s: Server, identity: Option<int>, pool: Pool): Server {
    if DiffBase(s).None? || s.analysisScope.Loading? then s
    else if s.workspaceRoot.None? || identity.None? then s
    else if s.refIdentity.Some? && s.refIdentity != identity then MaybeSpawn(RequestRebuild(s), pool)
    else s
  }

  /** A project is loaded from the workspace root. */
  function LoadProject(s: Server, root: string, project: Project, pool: Pool): Server {
    MaybeSpawn(RequestRebuild(ApplyScope(s.(workspaceRoot := Some(root), project := Some(project)))), pool)
  }

  /** A project shared by another process is adopted; a rebuild is asked for only if its base differs. */
  function AdoptProject(s: Server, root: string, project: Project, pool: Pool): Server {
    var adopted := ApplyScope(s.(workspaceRoot := Some(root), project := Some(project)));
    if DiffBase(s) != project.diffBase then MaybeSpawn(RequestRebuild(adopted), pool) else adopted
  }

  // ---- the server ------------------------------------------------------------------------------------

  class GlobalState {
    var project: Option<Project>
    var workspaceRoot: Option<string>
    var analysisScope: ScopeState
    var queued: bool
    var generation: nat
    var configScope: Option<Scope>
    var refIdentity: Option<int>
    var warningShown: Option<string>
    var warnings: seq<string>
    var rescopes: nat
    var jobs: seq<Job>
    var requests: nat

    ghost function Value(): Server
      reads this
    {
      Server(project, workspaceRoot, analysisScope, queued, generation, configScope, refIdentity,
             warningShown, warnings, rescopes, jobs, requests)
    }

    constructor (root: Option<string>)
      ensures Value() == Initial(root)
    {
      project, workspaceRoot, analysisScope, queued, generation := None, root, Disabled, false, 0;
      configScope, refIdentity, warningShown, warnings := None, None, None, [];
      rescopes, jobs, requests := 0, [], 0;
    }

    method ScopeDiffBase() returns (base: Option<string>)
      ensures base == DiffBase(Value())
    {
      base := if project.Some? then project.value.diffBase else None;
    }

    method RequestScopeRebuild()
      modifies this
      ensures Value() == RequestRebuild(old(Value()))
    {
      var base := ScopeDiffBase();
      if base.Some? || !analysisScope.Disabled? {
        queued := true;
        requests := requests + 1;
      }
    }

    method ApplyScopeToConfig()
      modifies this
      ensures Value() == ApplyScope(old(Value()))
    {
      configScope := analysisScope.Current();
    }

    method MaybeSpawnScopeBuild(pool: Pool)
      modifies this
      ensures Value() == MaybeSpawn(old(Value()), pool)
    {
      if !queued || analysisScope.Loading? {
        return;
      }
      var base := ScopeDiffBase();
      if base.None? {
        queued := false;
        if !analysisScope.Disabled? {
          analysisScope := Disabled;
          ApplyScopeToConfig();
          rescopes := rescopes + 1;
        }
        return;
      }
      if workspaceRoot.None? {
        queued := false;
        return;
      }
      if !pool.hasCapacity {
        return;
      }
      generation := (generation + 1) % WRAP;
      if pool.accepts {
        jobs := jobs + [Job(generation, base.value, requests)];
        queued := false;
        analysisScope := Loading(generation);
      }
    }

    method ShowScopeWarning(error: string)
      modifies this
      ensures Value() == ShowWarning(old(Value()), error)
    {
      if warningShown == Some(error) {
        return;
      }
      warningShown := Some(error);
      warnings := warnings + [error];
    }

    method HandleAnalysisScopeReady(generation: nat, result: Result, identity: Option<int>, pool: Pool)
      modifies this
      ensures Value() == HandleReady(old(Value()), generation, result, identity, pool)
    {
      if !analysisScope.Loading? {
        return;
      }
      if generation != analysisScope.generation {
        return;
      }
      if queued {
        analysisScope := Failed(generation);
        MaybeSpawnScopeBuild(pool);
        return;
      }
      refIdentity := identity;
      match result {
        case Ok(scope) =>
          warningShown := None;
          analysisScope := Ready(generation, scope);
        case Err(error) =>
          ShowScopeWarning(error);
          analysisScope := Failed(generation);
      }
      ApplyScopeToConfig();
      rescopes := rescopes + 1;
      MaybeSpawnScopeBuild(pool);
    }

    method CheckScopeRefDrift(identity: Option<int>, pool: Pool)
      modifies this
      ensures Value() == CheckDrift(old(Value()), identity, pool)
    {
      var base := ScopeDiffBase();
      if base.None? || analysisScope.Loading? {
        return;
      }
      if workspaceRoot.None? || identity.None? {
        return;
      }
      if refIdentity.Some? && refIdentity != identity {
        RequestScopeRebuild();
        MaybeSpawnScopeBuild(pool);
      }
    }

    method SetWorkspaceRoot(root: string, loaded: Project, pool: Pool)
      modifies this
      ensures Value() == LoadProject(old(Value()), root, loaded, pool)
    {
      workspaceRoot := Some(root);
      project := Some(loaded);
      ApplyScopeToConfig();
      RequestScopeRebuild();
      MaybeSpawnScopeBuild(pool);
    }

    method AdoptSharedProject(root: string, shared: Project, pool: Pool)
      modifies this
      ensures Value() == AdoptProject(old(Value()), root, shared, pool)
    {
      var previous := ScopeDiffBase();
      workspaceRoot := Some(root);
      project := Some(shared);
      ApplyScopeToConfig();
      if previous != shared.diffBase {
        RequestScopeRebuild();
        MaybeSpawnScopeBuild(pool);
      }
    }
  }

  // ---- runs --------------------------------------------------------------------------------------------

  /** How a build ends: with what git reported, or with an error. */
  datatype Outcome = Computed(content: int) | Broken(error: string)

  datatype Event =
    | Save                                                            // or any other change on disk
    | Bottom(pool: Pool)                                              // the end of a turn of the event loop
    | Finish(job: nat, outcome: Outcome, identity: Option<int>, pool: Pool)
    | IdleTick(identity: Option<int>, pool: Pool)
    | Load(root: string, project: Project, pool: Pool)
    | Adopt(root: string, project: Project, pool: Pool)
    | UpdateConfig

  function ResultOf(job: Job, outcome: Outcome): Result {
    match outcome
    case Computed(content) => Ok(Scope(job.base, job.seen, content))
    case Broken(error) => Err(error)
  }

  function Deliver(s: Server, k: nat, outcome: Outcome, identity: Option<int>, pool: Pool): Server
    requires k < |s.jobs|
  {
    var job := s.jobs[k];
    HandleReady(s.(jobs := s.jobs[..k] + s.jobs[k + 1..]), job.generation, ResultOf(job, outcome), identity, pool)
  }

  function Step(s: Server, e: Event): Server {
    match e
    case Save => RequestRebuild(s)
    case Bottom(pool) => MaybeSpawn(s, pool)
    case Finish(k, outcome, identity, pool) => if k < |s.jobs| then Deliver(s, k, outcome, identity, pool) else s
    case IdleTick(identity, pool) => CheckDrift(s, identity, pool)
    case Load(root, project, pool) => LoadProject(s, root, project, pool)
    case Adopt(root, project, pool) => AdoptProject(s, root, project, pool)
    case UpdateConfig => ApplyScope(s)
  }

  function Initial(root: Option<string>): Server {
    Server(None, root, Disabled, false, 0, None, None, None, [], 0, [], 0)
  }

  function Run(s: Server, es: seq<Event>): Server
    decreases |es|
  {
    if es == [] then s else Step(Run(s, es[..|es| - 1]), es[|es| - 1])
  }

  // ---- what every run keeps ------------------------------------------------------------------------------

  /** Loading exactly while one build is in flight, and that one carries the generation; the answer
      of a build never meets another generation, although generations wrap. */
  ghost predicate SingleFlight(s: Server) {
    if s.analysisScope.Loading? then |s.jobs| == 1 && s.jobs[0].generation == s.analysisScope.generation
    else s.jobs == []
  }

  /** The filter in use is the published scope. */
  ghost predicate FilterAgrees(s: Server) {
    && (s.analysisScope.Ready? ==> s.configScope == Some(s.analysisScope.scope))
    && (s.analysisScope.Disabled? ==> s.configScope == None)
    && (s.analysisScope.Failed? && !s.queued ==> s.configScope == None)
  }

  /** Nothing seen by a build is later than now; and unless a rebuild is queued, the build in
      flight or published has the configured base and has seen every request. */
  ghost predicate UpToDate(s: Server) {
    && (forall job | job in s.jobs :: job.seen <= s.requests)
    && (s.analysisScope.Ready? ==> s.analysisScope.scope.seen <= s.requests)
    && (!s.queued ==>
        match s.analysisScope
        case Disabled => DiffBase(s).None?
        case Loading(_) => forall job | job in s.jobs :: Some(job.base) == DiffBase(s) && job.seen == s.requests
        case Ready(_, scope) => Some(scope.base) == DiffBase(s) && scope.seen == s.requests
        case Failed(_) => DiffBase(s).Some?)
  }

  ghost predicate Inv(s: Server) {
    && SingleFlight(s) && FilterAgrees(s) && UpToDate(s)
    && (s.project.Some? ==> s.workspaceRoot.Some?)
  }

  lemma SpawnKeepsInv(s: Server, pool: Pool)
    requires SingleFlight(s) && UpToDate(s) && (s.project.Some? ==> s.workspaceRoot.Some?)
    requires FilterAgrees(s) || (s.analysisScope.Failed? && s.queued)
    ensures Inv(MaybeSpawn(s, pool))
  {
  }

  lemma RequestKeepsInv(s: Server)
    requires SingleFlight(s) && FilterAgrees(s) && (s.project.Some? ==> s.workspaceRoot.Some?)
    requires forall job | job in s.jobs :: job.seen <= s.requests
    requires s.analysisScope.Ready? ==> s.analysisScope.scope.seen <= s.requests
    ensures Inv(RequestRebuild(s))
  {
  }

  lemma DeliverKeepsInv(s: Server, k: nat, outcome: Outcome, identity: Option<int>, pool: Pool)
    requires Inv(s) && k < |s.jobs|
    ensures Inv(Deliver(s, k, outcome, identity, pool))
  {
    assert s.jobs[..k] + s.jobs[k + 1..] == [];
    var job := s.jobs[k];
    assert job in s.jobs;
    var landed := s.(jobs := []);
    if s.queued {
      SpawnKeepsInv(landed.(analysisScope := Failed(job.generation)), pool);
    }
  }

  lemma StepKeepsInv(s: Server, e: Event)
    requires Inv(s)
    ensures Inv(Step(s, e))
  {
    match e
    case Save => RequestKeepsInv(s);
    case Bottom(pool) => SpawnKeepsInv(s, pool);
    case Finish(k, outcome, identity, pool) =>
      if k < |s.jobs| {
        DeliverKeepsInv(s, k, outcome, identity, pool);
      }
    case IdleTick(identity, pool) =>
      RequestKeepsInv(s);
      SpawnKeepsInv(RequestRebuild(s), pool);
    case Load(root, project, pool) =>
      var loaded := ApplyScope(s.(workspaceRoot := Some(root), project := Some(project)));
      RequestKeepsInv(loaded);
      SpawnKeepsInv(RequestRebuild(loaded), pool);
    case Adopt(root, project, pool) =>
      var adopted := ApplyScope(s.(workspaceRoot := Some(root), project := Some(project)));
      if DiffBase(s) != project.diffBase {
        RequestKeepsInv(adopted);
        SpawnKeepsInv(RequestRebuild(adopted), pool);
      }
    case UpdateConfig =>
  }

  lemma {:induction false} InvInEveryRun(root: Option<string>, es: seq<Event>)
    ensures Inv(Run(Initial(root), es))
  {
    if es != [] {
      InvInEveryRun(root, es[..|es| - 1]);
      StepKeepsInv(Run(Initial(root), es[..|es| - 1]), es[|es| - 1]);
    }
  }

  /** In every reachable state: loading if and only if one build is in flight, and it carries the
      generation awaited, so no result is ever dropped as stale; a published scope is the filter in
      use; without a base and with nothing queued there is no filter. */
  lemma SingleFlightInEveryRun(root: Option<string>, es: seq<Event>)
    ensures
      var s := Run(Initial(root), es);
      && (s.analysisScope.Loading? <==> |s.jobs| == 1) && |s.jobs| <= 1
      && (|s.jobs| == 1 ==> s.analysisScope == Loading(s.jobs[0].generation))
      && (s.analysisScope.Ready? ==> s.configScope == Some(s.analysisScope.scope))
      && (s.analysisScope.Disabled? ==> s.configScope == None)
      && (!s.queued && !s.analysisScope.Loading? ==> (s.analysisScope.Disabled? <==> DiffBase(s).None?))
  {
    InvInEveryRun(root, es);
  }

  /** A scope is published only by a build that was spawned after every request accepted so far, for
      the base configured now; from then on it is the filter. */
  lemma PublishedIsFresh(root: Option<string>, es: seq<Event>, e: Event)
    ensures
      var s, t := Run(Initial(root), es), Step(Run(Initial(root), es), e);
      t.analysisScope.Ready? && t.analysisScope != s.analysisScope ==>
      && e.Finish?
      && t.analysisScope.scope.seen == s.requests && Some(t.analysisScope.scope.base) == DiffBase(s)
      && t.configScope == Some(t.analysisScope.scope)
  {
    InvInEveryRun(root, es);
    var s := Run(Initial(root), es);
    if Step(s, e).analysisScope.Ready? && Step(s, e).analysisScope != s.analysisScope {
      PublishingIsFresh(s, e);
    }
  }

  lemma PublishingIsFresh(s: Server, e: Event)
    requires Inv(s) && Step(s, e).analysisScope.Ready? && Step(s, e).analysisScope != s.analysisScope
    ensures e.Finish?
    ensures
      var t := Step(s, e);
      && t.analysisScope.scope.seen == s.requests && Some(t.analysisScope.scope.base) == DiffBase(s)
      && t.configScope == Some(t.analysisScope.scope)
  {
    if e.Finish? && e.job < |s.jobs| {
      assert s.jobs[e.job] in s.jobs;
    }
  }

  /** No request is lost: once nothing is queued and nothing loads, what is published was built
      after the last of them, or the last build failed and nothing is filtered, or there is no base. */
  lemma AtRestIsCurrent(root: Option<string>, es: seq<Event>)
    ensures
      var s := Run(Initial(root), es);
      !s.queued && !s.analysisScope.Loading? ==>
      match s.analysisScope
      case Disabled => DiffBase(s).None? && s.configScope == None
      case Failed(_) => DiffBase(s).Some? && s.configScope == None
      case Ready(_, scope) =>
        Some(scope.base) == DiffBase(s) && scope.seen == s.requests && s.configScope == Some(scope)
  {
    InvInEveryRun(root, es);
  }

  predicate Reloads(e: Event) {
    e.Load? || e.Adopt? || e.UpdateConfig?
  }

  /** Whenever the filter changes the diagnostics shown are driven again, except where a reload of the
      configuration meets a filter that is in use without a published scope behind it. */
  lemma FilterChangesAreShown(root: Option<string>, es: seq<Event>, e: Event)
    ensures
      var s, t := Run(Initial(root), es), Step(Run(Initial(root), es), e);
      t.configScope != s.configScope ==>
      t.rescopes > s.rescopes || (Reloads(e) && s.configScope.Some? && !s.analysisScope.Ready?)
  {
    InvInEveryRun(root, es);
    var s := Run(Initial(root), es);
    if Step(s, e).configScope != s.configScope {
      ChangeIsShown(s, e);
    }
  }

  lemma ChangeIsShown(s: Server, e: Event)
    requires Inv(s) && Step(s, e).configScope != s.configScope
    ensures Step(s, e).rescopes > s.rescopes || (Reloads(e) && s.configScope.Some? && !s.analysisScope.Ready?)
  {
  }

  /** A reload of the configuration promises not to drop the filter silently. It keeps the filter
      exactly if there is none or a scope is published: while a build runs, or waits after a discarded
      one, the filter in use is lost, and the reload itself drives nothing again. */
  lemma ReloadKeepsTheFilterIff(root: Option<string>, es: seq<Event>)
    ensures
      var s, t := Run(Initial(root), es), Step(Run(Initial(root), es), UpdateConfig);
      && (t.configScope == s.configScope <==> s.configScope.None? || s.analysisScope.Ready?)
      && t.rescopes == s.rescopes
  {
    InvInEveryRun(root, es);
  }

  /** A save goes unheard only where there is neither a base to compare with nor anything built or
      building. */
  lemma SaveIsHeard(root: Option<string>, es: seq<Event>)
    ensures
      var s, t := Run(Initial(root), es), Step(Run(Initial(root), es), Save);
      || (t.queued && t.requests == s.requests + 1)
      || (t == s && DiffBase(s).None? && s.jobs == [] && s.configScope == None)
  {
    InvInEveryRun(root, es);
  }

  /** At an idle tick a rebuild is asked for exactly if the references resolve to something else than
      at the last build, and that build is not running any more; else the tick changes nothing. */
  lemma DriftIsNoticedIff(root: Option<string>, es: seq<Event>, now: Option<int>, pool: Pool)
    ensures
      var s, t := Run(Initial(root), es), Step(Run(Initial(root), es), IdleTick(now, pool));
      var moved := s.refIdentity.Some? && now.Some? && now != s.refIdentity;
      if moved && DiffBase(s).Some? && !s.analysisScope.Loading? then
        && t.requests == s.requests + 1
        && (t.queued || t.analysisScope.Loading?)
        && (t.analysisScope.Loading? ==> |t.jobs| == 1 && t.jobs[0].seen == t.requests)
      else t == s
  {
    InvInEveryRun(root, es);
  }

  /** The warning shown last is the one that stands. */
  ghost predicate WarnedLast(s: Server) {
    s.warningShown.Some? ==> s.warnings != [] && s.warnings[|s.warnings| - 1] == s.warningShown.value
  }

  /** No failure is reported twice running: a client is warned only of what differs from the warning
      that stands, and a warning stands until the next one or until a scope is published. */
  lemma {:induction false} WarningsAreNews(root: Option<string>, es: seq<Event>, e: Event)
    ensures WarnedLast(Run(Initial(root), es))
    ensures
      var s, t := Run(Initial(root), es), Step(Run(Initial(root), es), e);
      t.warnings != s.warnings ==>
      && e.Finish? && e.outcome.Broken? && t.warnings == s.warnings + [e.outcome.error]
      && s.warningShown != Some(e.outcome.error)
    ensures
      var s, t := Run(Initial(root), es), Step(Run(Initial(root), es), e);
      t.warningShown != s.warningShown ==>
      if t.warningShown.None? then t.analysisScope.Ready? && t.analysisScope != s.analysisScope
      else t.warnings == s.warnings + [t.warningShown.value]
    decreases |es|
  {
    if es != [] {
      WarningsAreNews(root, es[..|es| - 1], es[|es| - 1]);
      StepWarns(Run(Initial(root), es[..|es| - 1]), es[|es| - 1]);
    }
    StepWarns(Run(Initial(root), es), e);
  }

  lemma SpawnIsSilent(s: Server, pool: Pool)
    ensures MaybeSpawn(s, pool).warnings == s.warnings && MaybeSpawn(s, pool).warningShown == s.warningShown
  {
  }

  lemma StepWarns(s: Server, e: Event)
    requires WarnedLast(s)
    ensures
      var t := Step(s, e);
      && WarnedLast(t)
      && (t.warnings != s.warnings ==>
          && e.Finish? && e.outcome.Broken? && t.warnings == s.warnings + [e.outcome.error]
          && s.warningShown != Some(e.outcome.error))
      && (t.warningShown != s.warningShown ==>
          if t.warningShown.None? then t.analysisScope.Ready? && !s.analysisScope.Ready?
          else t.warnings == s.warnings + [t.warningShown.value])
  {
    match e
    case Bottom(pool) => SpawnIsSilent(s, pool);
    case IdleTick(_, pool) => SpawnIsSilent(RequestRebuild(s), pool);
    case Load(root, project, pool) =>
      SpawnIsSilent(RequestRebuild(ApplyScope(s.(workspaceRoot := Some(root), project := Some(project)))), pool);
    case Adopt(root, project, pool) =>
      SpawnIsSilent(RequestRebuild(ApplyScope(s.(workspaceRoot := Some(root), project := Some(project)))), pool);
    case Finish(k, outcome, identity, pool) => FinishWarns(s, k, outcome, identity, pool);
    case _ =>
  }

  lemma FinishWarns(s: Server, k: nat, outcome: Outcome, identity: Option<int>, pool: Pool)
    requires WarnedLast(s)
    ensures
      var t := Step(s, Finish(k, outcome, identity, pool));
      && WarnedLast(t)
      && (t.warnings != s.warnings ==>
          outcome.Broken? && t.warnings == s.warnings + [outcome.error] && s.warningShown != Some(outcome.error))
      && (t.warningShown != s.warningShown ==>
          if t.warningShown.None? then t.analysisScope.Ready? && !s.analysisScope.Ready?
          else t.warnings == s.warnings + [t.warningShown.value])
  {
  }

  // ---- a failed state may still filter ----------------------------------------------------------------------

  /** The failed state promises analysis without a filter. Discarding an obsolete result passes
      through it without touching the filter. The promise is kept when a build is answered exactly
      unless a rebuild is queued, a filter is in use, and the rebuild has a base but finds no room. */
  lemma FailureUnfiltersIff(s: Server, k: nat, outcome: Outcome, identity: Option<int>, pool: Pool)
    requires Inv(s) && k < |s.jobs|
    ensures
      var t := Deliver(s, k, outcome, identity, pool);
      (t.analysisScope.Failed? ==> t.configScope == None) <==>
      !(s.queued && s.configScope.Some? && DiffBase(s).Some? && !(pool.hasCapacity && pool.accepts))
  {
    assert s.jobs[..k] + s.jobs[k + 1..] == [];
  }

  const VENDOR: Project := Project(Some("vendor"))
  const ROOM: Pool := Pool(true, true)
  const FULL: Pool := Pool(false, false)

  /** A scope is published. */
  const FIRST: seq<Event> := [Load("/w", VENDOR, ROOM), Finish(0, Computed(7), None, ROOM)]

  /** A save, a build, a save while it runs, and its answer while the pool is full. */
  const SECOND: seq<Event> := [Save, Bottom(ROOM), Save, Finish(0, Computed(8), None, FULL)]

  const PUBLISHED: Server :=
    Server(Some(VENDOR), Some("/w"), Ready(1, Scope("vendor", 1, 7)), false, 1,
           Some(Scope("vendor", 1, 7)), None, None, [], 1, [], 1)

  /** A run after which it filters still. */
  lemma FailedStillFilters()
    ensures
      var s := Run(Initial(None), FIRST + SECOND);
      s.analysisScope.Failed? && s.configScope == Some(Scope("vendor", 1, 7))
  {
    RunInTwo(Initial(None), FIRST, SECOND);
    FirstPublishes();
    SecondFails();
  }

  lemma FirstPublishes()
    ensures Run(Initial(None), FIRST) == PUBLISHED
  {
    var s := Initial(None);
    RunTwo(s, FIRST[0], FIRST[1]);
    assert FIRST == [FIRST[0], FIRST[1]];
    var s' := Step(s, FIRST[0]);
    assert s'.jobs == [Job(1, "vendor", 1)];
    assert s'.jobs[..0] + s'.jobs[1..] == [];
  }

  lemma SecondFails()
    ensures Run(PUBLISHED, SECOND).analysisScope.Failed?
    ensures Run(PUBLISHED, SECOND).configScope == Some(Scope("vendor", 1, 7))
  {
    assert SECOND == [SECOND[0], SECOND[1]] + [SECOND[2], SECOND[3]];
    RunInTwo(PUBLISHED, [SECOND[0], SECOND[1]], [SECOND[2], SECOND[3]]);
    RunTwo(PUBLISHED, SECOND[0], SECOND[1]);
    var s := Step(Step(PUBLISHED, SECOND[0]), SECOND[1]);
    assert s.jobs == [Job(2, "vendor", 2)];
    RunTwo(s, SECOND[2], SECOND[3]);
  }

  /** A save, a build, and a reload while it runs: the filter is gone, and the reload has not had
      anything driven again. */
  lemma ReloadDropsTheFilter()
    ensures
      var s := Run(PUBLISHED, [Save, Bottom(ROOM), UpdateConfig]);
      PUBLISHED.configScope.Some? && s.configScope == None && s.rescopes == PUBLISHED.rescopes
  {
    RunTwo(PUBLISHED, Save, Bottom(ROOM));
    RunOne(PUBLISHED, [Save, Bottom(ROOM)], UpdateConfig);
    assert [Save, Bottom(ROOM)] + [UpdateConfig] == [Save, Bottom(ROOM), UpdateConfig];
  }

  lemma RunOne(s: Server, es: seq<Event>, e: Event)
    ensures Run(s, es + [e]) == Step(Run(s, es), e)
  {
    assert (es + [e])[..|es|] == es;
  }

  lemma RunTwo(s: Server, e: Event, f: Event)
    ensures Run(s, [e, f]) == Step(Step(s, e), f)
  {
    assert [e, f][..1] == [e] && [e][..0] == [];
    assert Run(s, [e]) == Step(Run(s, []), e);
  }

  lemma {:induction false} RunInTwo(s: Server, a: seq<Event>, b: seq<Event>)
    ensures Run(s, a + b) == Run(Run(s, a), b)
    decreases |b|
  {
    if b == [] {
      assert a + b == a;
    } else {
      assert (a + b)[..|a + b| - 1] == a + b[..|b| - 1];
      RunInTwo(s, a, b[..|b| - 1]);
    }
  }

  // ---- convergence ---------------------------------------------------------------------------------------------

  function Measure(s: Server): nat {
    (if s.queued then 2 else 0) + if s.analysisScope.Loading? then 1 else 0
  }

  /** A turn of the loop, or an answer, and no request. */
  predicate Quiet(e: Event) {
    e.Bottom? || e.Finish?
  }

  /** An event that has something to do: a spawn the pool takes, or a build that ends. */
  predicate Effective(s: Server, e: Event) {
    match e
    case Bottom(pool) => s.queued && !s.analysisScope.Loading? && pool.hasCapacity && pool.accepts
    case Finish(k, _, _, _) => k < |s.jobs|
    case _ => false
  }

  lemma EffectiveStepsDescend(s: Server, e: Event)
    requires Inv(s) && Quiet(e)
    ensures Measure(Step(s, e)) <= Measure(s)
    ensures Effective(s, e) ==> Measure(Step(s, e)) < Measure(s)
  {
  }

  function EffectiveSteps(s: Server, es: seq<Event>): nat
    decreases |es|
  {
    if es == [] then 0
    else
      EffectiveSteps(s, es[..|es| - 1])
      + if Effective(Run(s, es[..|es| - 1]), es[|es| - 1]) then 1 else 0
  }

  /** Once requests stop, at most three events have anything left to do, through the discarding and
      starting over of an obsolete build too. */
  lemma {:induction false} QuietRunsSettle(s: Server, es: seq<Event>)
    requires Inv(s) && forall e | e in es :: Quiet(e)
    ensures Inv(Run(s, es))
    ensures EffectiveSteps(s, es) + Measure(Run(s, es)) <= Measure(s) <= 3
    decreases |es|
  {
    if es != [] {
      var init, e := es[..|es| - 1], es[|es| - 1];
      assert e in es && forall x | x in init :: x in es;
      QuietRunsSettle(s, init);
      StepKeepsInv(Run(s, init), e);
      EffectiveStepsDescend(Run(s, init), e);
    }
  }

  /** And as long as the machine is not at rest some event has: it never waits for nothing. */
  lemma NeverStuck(s: Server)
    requires Inv(s)
    ensures Measure(s) > 0 ==> exists e :: Quiet(e) && Effective(s, e)
    ensures Measure(s) == 0 <==> !s.queued && s.jobs == []
  {
    var room := Pool(true, true);
    if s.analysisScope.Loading? {
      assert Effective(s, Finish(0, Broken(""), None, room));
    } else if s.queued {
      assert Effective(s, Bottom(room));
    }
  }
}
