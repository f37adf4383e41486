/** Publishing a night's regressions to an issue tracker through a command that may fail: before it
    does anything, or after. Texts are sequences of lines, trimmed. */
module Publisher {
  import opened Common

  type Text = seq<string>

  datatype Issue = Issue(open: bool, reason: string, body: Text, labels: set<string>, comments: seq<Text>)

  /** What becomes of one call: a failing one may have had its effect all the same. */
  datatype Fate = Succeeds | FailsBefore | FailsAfter

  type Fates = nat -> Fate

  datatype Action = GhError | OwnerClosed | Refused | Created | Labelled | Commented | Comment

  datatype Entry = Entry(action: Action, issue: Option<nat>, key: string)

  /** The tracker, numbered from 0; the calls made so far; the log. */
  datatype World = World(issues: seq<Issue>, calls: nat, log: seq<Entry>)

  /** A regression of the night: `text` is what is said about it, given the issue it repeats. */
  datatype Group = Group(key: string, block: bool, text: Option<nat> -> Text)

  /** Which texts may not be published is not decided here. */
  datatype Night = Night(name: string, leaks: Text -> bool)

  const KEY_PREFIX: string := "perf-nightly-key: "
  const NIGHT_PREFIX: string := "perf-nightly-night: "
  const LIST_LIMIT: nat := 1000
  const ALLOWED_LABELS: set<string> := {"perf", "false-positive", "regression", "release-blocker"}

  predicate ClosedByOwner(i: Issue) {
    i.reason == "NOT_PLANNED" || i.reason == "DUPLICATE"
  }

  function LabelsOf(g: Group): set<string> {
    {"perf", "regression"} + if g.block then {"release-blocker"} else {}
  }

  function Marker(night: Night): string {
    NIGHT_PREFIX + night.name
  }

  function IssueText(g: Group, night: Night, repeatOf: Option<nat>): Text {
    g.text(repeatOf) + [KEY_PREFIX + g.key, Marker(night)]
  }

  function CommentText(g: Group, night: Night): Text {
    g.text(None) + [Marker(night)]
  }

  // ---- looking an issue up --------------------------------------------------------------------------

  /** The list asked for holds the issues labelled `perf`, open or not. */
  predicate Keyed(i: Issue, key: string) {
    "perf" in i.labels && KEY_PREFIX + key in i.body
  }

  function FirstOpen(issues: seq<Issue>, key: string): (n: Option<nat>)
    ensures n.Some? ==> n.value < |issues| && Keyed(issues[n.value], key) && issues[n.value].open
    ensures forall k | 0 <= k < |issues| && Keyed(issues[k], key) && issues[k].open :: n.Some? && n.value <= k
  {
    if issues == [] then None
    else
      var before := FirstOpen(issues[..|issues| - 1], key);
      var last := issues[|issues| - 1];
      if before.Some? then before else if Keyed(last, key) && last.open then Some(|issues| - 1) else None
  }

  function LastKeyed(issues: seq<Issue>, key: string): (n: Option<nat>)
    ensures n.Some? ==> n.value < |issues| && Keyed(issues[n.value], key)
    ensures forall k | 0 <= k < |issues| && Keyed(issues[k], key) :: n.Some? && k <= n.value
  {
    if issues == [] then None
    else if Keyed(issues[|issues| - 1], key) then Some(|issues| - 1)
    else LastKeyed(issues[..|issues| - 1], key)
  }

  function CountPerf(issues: seq<Issue>): nat {
    if issues == [] then 0
    else CountPerf(issues[..|issues| - 1]) + if "perf" in issues[|issues| - 1].labels then 1 else 0
  }

  predicate MarkedInComments(i: Issue, marker: string) {
    exists k | 0 <= k < |i.comments| :: marker in i.comments[k]
  }

  // ---- the calls ----------------------------------------------------------------------------------------

  predicate TakesEffect(fate: Fate) { fate != FailsBefore }

  function Called(w: World): World {
    w.(calls := w.calls + 1)
  }

  function Logged(w: World, action: Action, issue: Option<nat>, key: string): World {
    w.(log := w.log + [Entry(action, issue, key)])
  }

  function CallCreate(w: World, fate: Fate, body: Text, labels: set<string>): World {
    if TakesEffect(fate) then Called(w).(issues := w.issues + [Issue(true, "", body, labels, [])]) else Called(w)
  }

  function CallComment(w: World, fate: Fate, n: nat, body: Text): World
    requires n < |w.issues|
  {
    if TakesEffect(fate) then
      Called(w).(issues := w.issues[n := w.issues[n].(comments := w.issues[n].comments + [body])])
    else Called(w)
  }

  function CallLabel(w: World, fate: Fate, n: nat): World
    requires n < |w.issues|
  {
    if TakesEffect(fate) then
      Called(w).(issues := w.issues[n := w.issues[n].(labels := w.issues[n].labels + {"release-blocker"})])
    else Called(w)
  }

  // ---- one group ------------------------------------------------------------------------------------------

  /** Tells an open issue of the night, unless it bears the night's mark already. `listed` is the issue
      as it was when the night's list was taken. */
  function CommentOn(w: World, fates: Fates, n: nat, listed: Issue, g: Group, night: Night): (r: World)
    requires n < |w.issues|
    ensures |r.issues| == |w.issues|
  {
    if Marker(night) in listed.body then Logged(w, Commented, Some(n), g.key)
    else
      var asked := Called(w);
      if fates(w.calls) != Succeeds then Logged(asked, GhError, Some(n), g.key)
      else if MarkedInComments(w.issues[n], Marker(night)) then Logged(asked, Commented, Some(n), g.key)
      else if night.leaks(CommentText(g, night)) then Logged(asked, Refused, Some(n), g.key)
      else
        var told := CallComment(asked, fates(asked.calls), n, CommentText(g, night));
        Logged(told, if fates(asked.calls) != Succeeds then GhError else Comment, Some(n), g.key)
  }

  function LabelOn(w: World, fates: Fates, n: nat, listed: Issue, g: Group): (r: World)
    requires n < |w.issues|
    ensures |r.issues| == |w.issues|
  {
    if !g.block || "release-blocker" in listed.labels then w
    else
      var told := CallLabel(w, fates(w.calls), n);
      Logged(told, if fates(w.calls) != Succeeds then GhError else Labelled, Some(n), g.key)
  }

  function CreateFor(w: World, fates: Fates, repeatOf: Option<nat>, g: Group, night: Night): World {
    var body := IssueText(g, night, repeatOf);
    if night.leaks(body) then Logged(w, Refused, None, g.key)
    else
      var told := CallCreate(w, fates(w.calls), body, LabelsOf(g));
      if fates(w.calls) != Succeeds then Logged(told, GhError, None, g.key)
      else Logged(told, Created, Some(|w.issues|), g.key)
  }

  function PublishGroup(w: World, fates: Fates, listed: seq<Issue>, g: Group, night: Night): (r: World)
    requires |listed| <= |w.issues|
    ensures |w.issues| <= |r.issues|
  {
    var open, last := FirstOpen(listed, g.key), LastKeyed(listed, g.key);
    if open.Some? then
      LabelOn(CommentOn(w, fates, open.value, listed[open.value], g, night), fates, open.value, listed[open.value], g)
    else if last.Some? && ClosedByOwner(listed[last.value]) then Logged(w, OwnerClosed, last, g.key)
    else CreateFor(w, fates, last, g, night)
  }

  function PublishAll(w: World, fates: Fates, listed: seq<Issue>, groups: seq<Group>, night: Night): (r: World)
    requires |listed| <= |w.issues|
    ensures |w.issues| <= |r.issues|
    decreases |groups|
  {
    if groups == [] then w
    else
      var before := PublishAll(w, fates, listed, groups[..|groups| - 1], night);
      PublishGroup(before, fates, listed, groups[|groups| - 1], night)
  }

  function Publish(w: World, fates: Fates, groups: seq<Group>, night: Night): World {
    if groups == [] then w
    else
      var asked := Called(w);
      if fates(w.calls) != Succeeds then Logged(asked, GhError, None, "*")
      else if CountPerf(w.issues) >= LIST_LIMIT then Logged(asked, GhError, None, "*")
      else PublishAll(asked, fates, w.issues, groups, night)
  }

  // ---- as it runs -------------------------------------------------------------------------------------------

  class Publication {
    var issues: seq<Issue>
    var calls: nat
    var log: seq<Entry>
    const fates: Fates

    constructor (tracker: seq<Issue>, fates: Fates)
      ensures Value() == World(tracker, 0, []) && this.fates == fates
    {
      issues, calls, log := tracker, 0, [];
      this.fates := fates;
    }

    ghost function Value(): World
      reads this
    {
      World(issues, calls, log)
    }

    method Add(action: Action, issue: Option<nat>, key: string)
      modifies this
      ensures Value() == Logged(old(Value()), action, issue, key)
    {
      log := log + [Entry(action, issue, key)];
    }

    method CommentOnce(n: nat, listed: Issue, g: Group, night: Night)
      requires n < |issues|
      modifies this
      ensures Value() == CommentOn(old(Value()), fates, n, listed, g, night)
    {
      if Marker(night) in listed.body {
        Add(Commented, Some(n), g.key);
        return;
      }
      var code := fates(calls);
      calls := calls + 1;
      if code != Succeeds {
        Add(GhError, Some(n), g.key);
      } else if MarkedInComments(issues[n], Marker(night)) {
        Add(Commented, Some(n), g.key);
      } else if night.leaks(CommentText(g, night)) {
        Add(Refused, Some(n), g.key);
      } else {
        code := fates(calls);
        calls := calls + 1;
        if TakesEffect(code) {
          issues := issues[n := issues[n].(comments := issues[n].comments + [CommentText(g, night)])];
        }
        Add(if code != Succeeds then GhError else Comment, Some(n), g.key);
      }
    }

    method PublishOne(listed: seq<Issue>, g: Group, night: Night)
      requires |listed| <= |issues|
      modifies this
      ensures Value() == PublishGroup(old(Value()), fates, listed, g, night)
    {
      var open, last := FirstOpen(listed, g.key), LastKeyed(listed, g.key);
      if open.None? && last.Some? && ClosedByOwner(listed[last.value]) {
        Add(OwnerClosed, last, g.key);
        return;
      }
      if open.None? {
        var body := IssueText(g, night, last);
        if night.leaks(body) {
          Add(Refused, None, g.key);
          return;
        }
        var code, number := fates(calls), |issues|;
        calls := calls + 1;
        if TakesEffect(code) {
          issues := issues + [Issue(true, "", body, LabelsOf(g), [])];
        }
        if code != Succeeds {
          Add(GhError, None, g.key);
          return;
        }
        Add(Created, Some(number), g.key);
        return;
      }
      var number := open.value;
      CommentOnce(number, listed[number], g, night);
      if g.block && "release-blocker" !in listed[number].labels {
        var code := fates(calls);
        calls := calls + 1;
        if TakesEffect(code) {
          issues := issues[number := issues[number].(labels := issues[number].labels + {"release-blocker"})];
        }
        Add(if code != Succeeds then GhError else Labelled, Some(number), g.key);
      }
    }

    method PublishPerf(groups: seq<Group>, night: Night)
      modifies this
      ensures Value() == Publish(old(Value()), fates, groups, night)
    {
      if groups == [] {
        return;
      }
      var code, listed := fates(calls), issues;
      calls := calls + 1;
      if code != Succeeds || CountPerf(listed) >= LIST_LIMIT {
        Add(GhError, None, "*");
        return;
      }
      ghost var asked := Value();
      var i := 0;
      while i < |groups|
        invariant 0 <= i <= |groups| && |listed| <= |issues|
        invariant Value() == PublishAll(asked, fates, listed, groups[..i], night)
      {
        assert groups[..i + 1][..i] == groups[..i];
        PublishOne(listed, groups[i], night);
        i := i + 1;
      }
      assert groups[..|groups|] == groups;
    }
  }
}
