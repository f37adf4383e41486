/** What each event does to the analysis scope, said of the fields it leaves. */
module ScopeEvents {
  import opened Common
  import opened ScopeLifecycle

  /** A save is taken down as a request exactly if there is a base, or a state to undo. */
  lemma SaveAsksIff(s: Server)
    ensures
      Step(s, Save) ==
      if (s.project.Some? && s.project.value.diffBase.Some?) || s.analysisScope != Disabled
      then s.(queued := true, requests := s.requests + 1) else s
  {
  }

  /** At the bottom of a turn a request is met as far as the pool lets it: without a base whatever was
      there is undone; with one a build is in flight for that base and all requests so far, under a
      generation of its own. A refused build costs a generation, a full pool nothing. */
  lemma RequestIsMet(s: Server, pool: Pool)
    requires s.generation < WRAP && (s.analysisScope.Loading? || s.jobs == [])
    ensures
      var t := Step(s, Bottom(pool));
      var next := if s.generation + 1 == WRAP then 0 else s.generation + 1;
      && next != s.generation
      && if !s.queued || s.analysisScope.Loading? then t == s
         else if s.project.None? || s.project.value.diffBase.None? then
           if s.analysisScope == Disabled then t == s.(queued := false)
           else
             t == s.(queued := false, analysisScope := Disabled, configScope := None, rescopes := s.rescopes + 1)
         else if s.workspaceRoot.None? then t == s.(queued := false)
         else if !pool.hasCapacity then t == s
         else if !pool.accepts then t == s.(generation := next)
         else
           t == s.(generation := next, queued := false, analysisScope := Loading(next),
                   jobs := [Job(next, s.project.value.diffBase.value, s.requests)])
  {
  }

  lemma {:induction false} GenerationIsInRange(root: Option<string>, es: seq<Event>)
    ensures Run(Initial(root), es).generation < WRAP
    decreases |es|
  {
    if es != [] {
      GenerationIsInRange(root, es[..|es| - 1]);
      StepIsInRange(Run(Initial(root), es[..|es| - 1]), es[|es| - 1]);
    }
  }

  lemma StepIsInRange(s: Server, e: Event)
    requires s.generation < WRAP
    ensures Step(s, e).generation < WRAP
  {
  }

  /** Nothing was asked for while a build ran: what it computed is published and becomes the filter, or
      its error is told, unless it is the one that stands, and nothing is filtered. The references it
      was made from are recorded either way. */
  lemma BuildIsPublished(s: Server, k: nat, outcome: Outcome, identity: Option<int>, pool: Pool)
    requires Inv(s) && k < |s.jobs| && !s.queued
    ensures
      var t := Step(s, Finish(k, outcome, identity, pool));
      var answered := s.(jobs := [], refIdentity := identity, rescopes := s.rescopes + 1);
      match outcome
      case Computed(content) =>
        var scope := Scope(s.jobs[k].base, s.jobs[k].seen, content);
        t == answered.(analysisScope := Ready(s.jobs[k].generation, scope), configScope := Some(scope),
                       warningShown := None)
      case Broken(error) =>
        t == answered.(analysisScope := Failed(s.jobs[k].generation), configScope := None,
                       warningShown := Some(error),
                       warnings := s.warnings + if s.warningShown == Some(error) then [] else [error])
  {
    assert s.jobs[..k] + s.jobs[k + 1..] == [];
  }

  /** Something was: the result is dropped, and with it the references it was made from; the next build
      is spawned at once if the pool lets it. */
  lemma ObsoleteIsDropped(s: Server, k: nat, outcome: Outcome, identity: Option<int>, pool: Pool)
    requires Inv(s) && k < |s.jobs| && s.queued
    ensures
      var t := Step(s, Finish(k, outcome, identity, pool));
      && t.refIdentity == s.refIdentity && t.warnings == s.warnings && t.warningShown == s.warningShown
      && t == Step(s.(jobs := [], analysisScope := Failed(s.jobs[k].generation)), Bottom(pool))
  {
    assert s.jobs[..k] + s.jobs[k + 1..] == [];
  }

  /** A result of a build that is not awaited changes nothing. */
  lemma StaleIsIgnored(s: Server, generation: nat, result: Result, identity: Option<int>, pool: Pool)
    requires s.analysisScope.Loading? ==> s.analysisScope.generation != generation
    ensures HandleReady(s, generation, result, identity, pool) == s
  {
  }

  /** After a build for a base, an idle tick asks for another exactly if the references it finds are not
      those that build was made from. */
  lemma TickComparesWithTheLastBuild(
    s: Server, k: nat, outcome: Outcome, made: int, found: int, pool: Pool, later: Pool)
    requires Inv(s) && k < |s.jobs| && !s.queued
    ensures
      var t := Step(s, Finish(k, outcome, Some(made), pool));
      Step(t, IdleTick(Some(found), later)).requests == s.requests + if found == made then 0 else 1
  {
    BuildIsPublished(s, k, outcome, Some(made), pool);
  }

  /** A project that is loaded is always built for; one that is adopted only if its base is another. The
      filter is the published scope until then. */
  lemma ProjectIsTakenOver(s: Server, root: string, project: Project, pool: Pool)
    ensures
      var asks := project.diffBase.Some? || s.analysisScope != Disabled;
      var base := if s.project.None? then None else s.project.value.diffBase;
      var current := if s.analysisScope.Ready? then Some(s.analysisScope.scope) else None;
      var taken := s.(workspaceRoot := Some(root), project := Some(project), configScope := current);
      var asked := if asks then taken.(queued := true, requests := s.requests + 1) else taken;
      && Step(s, Load(root, project, pool)) == Step(asked, Bottom(pool))
      && Step(s, Adopt(root, project, pool)) == if base == project.diffBase then taken else Step(asked, Bottom(pool))
  {
  }
}
