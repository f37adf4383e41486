/** What a night writes, and that its log tells it: the texts and labels, and an error exactly where a
    call failed. */
module PublisherLog {
  import opened Common
  import opened Publisher
  import opened PublisherSafety

  // ---- what is written -----------------------------------------------------------------------------------

  /** A new issue for a group: what there is to say with the key and the night under it, the two labels
      of every regression and the third exactly for a block. */
  ghost predicate IssueOf(issue: Issue, g: Group, night: Night, repeatOf: Option<nat>) {
    && issue.open && issue.reason == "" && issue.comments == []
    && issue.body == g.text(repeatOf) + ["perf-nightly-key: " + g.key, "perf-nightly-night: " + night.name]
    && !night.leaks(issue.body)
    && "perf" in issue.labels && "regression" in issue.labels
    && ("release-blocker" in issue.labels <==> g.block)
    && forall name | name in issue.labels :: name in {"perf", "regression", "release-blocker"}
  }

  ghost predicate CommentOf(text: Text, g: Group, night: Night) {
    text == g.text(None) + ["perf-nightly-night: " + night.name] && !night.leaks(text)
  }

  /** The last issue that had the key was closed for good. */
  predicate OwnerClosedLast(listed: seq<Issue>, key: string) {
    var last := LastKeyed(listed, key);
    last.Some? && listed[last.value].reason in {"NOT_PLANNED", "DUPLICATE"}
  }

  /** At most a comment and a label more, the label only for a block. */
  ghost predicate WrittenOn(before: Issue, after: Issue, g: Group, night: Night) {
    && after.open == before.open && after.reason == before.reason && after.body == before.body
    && (after.comments == before.comments
        || (|after.comments| == |before.comments| + 1 && before.comments <= after.comments
            && CommentOf(after.comments[|before.comments|], g, night)))
    && (after.labels == before.labels || (g.block && after.labels == before.labels + {"release-blocker"}))
  }

  ghost predicate GroupWrote(listed: seq<Issue>, u: seq<Issue>, v: seq<Issue>, g: Group, night: Night) {
    match FirstOpen(listed, g.key)
    case Some(n) => n < |u| && |v| == |u| && WrittenOn(u[n], v[n], g, night) && v == u[n := v[n]]
    case None =>
      || v == u
      || (!OwnerClosedLast(listed, g.key) && |v| == |u| + 1 && u <= v
          && IssueOf(v[|u|], g, night, LastKeyed(listed, g.key)))
  }

  lemma CommentIsWritten(w: World, fates: Fates, n: nat, listed: Issue, g: Group, night: Night)
    requires n < |w.issues|
    ensures
      var v := CommentOn(w, fates, n, listed, g, night).issues;
      && v == w.issues[n := v[n]] && WrittenOn(w.issues[n], v[n], g, night) && v[n].labels == w.issues[n].labels
  {
  }

  lemma LabelIsWritten(w: World, fates: Fates, n: nat, listed: Issue, g: Group)
    requires n < |w.issues|
    ensures
      var v := LabelOn(w, fates, n, listed, g).issues;
      && v == w.issues[n := v[n]] && v[n].(labels := {}) == w.issues[n].(labels := {})
      && (v[n].labels == w.issues[n].labels || (g.block && v[n].labels == w.issues[n].labels + {"release-blocker"}))
  {
  }

  lemma GroupWrites(w: World, fates: Fates, listed: seq<Issue>, g: Group, night: Night)
    requires |listed| <= |w.issues|
    ensures GroupWrote(listed, w.issues, PublishGroup(w, fates, listed, g, night).issues, g, night)
  {
    var open := FirstOpen(listed, g.key);
    if open.Some? {
      var said := CommentOn(w, fates, open.value, listed[open.value], g, night);
      CommentIsWritten(w, fates, open.value, listed[open.value], g, night);
      LabelIsWritten(said, fates, open.value, listed[open.value], g);
    }
  }

  ghost predicate NewFor(t: seq<Issue>, issue: Issue, groups: seq<Group>, night: Night) {
    exists j | 0 <= j < |groups| ::
      && FirstOpen(t, groups[j].key) == None && !OwnerClosedLast(t, groups[j].key)
      && IssueOf(issue, groups[j], night, LastKeyed(t, groups[j].key))
  }

  ghost predicate SaidOn(t: seq<Issue>, i: nat, text: Text, groups: seq<Group>, night: Night) {
    exists j | 0 <= j < |groups| :: FirstOpen(t, groups[j].key) == Some(i) && CommentOf(text, groups[j], night)
  }

  ghost predicate BlockedBy(t: seq<Issue>, i: nat, groups: seq<Group>) {
    exists j | 0 <= j < |groups| :: FirstOpen(t, groups[j].key) == Some(i) && groups[j].block
  }

  /** An issue that was there after the night: said more of by groups that have it open, and labelled
      for a block of one of them. */
  ghost predicate OldOne(t: seq<Issue>, i: nat, after: Issue, groups: seq<Group>, night: Night)
    requires i < |t|
  {
    && after.open == t[i].open && after.reason == t[i].reason && after.body == t[i].body
    && t[i].comments <= after.comments
    && (forall c | |t[i].comments| <= c < |after.comments| :: SaidOn(t, i, after.comments[c], groups, night))
    && (after.labels == t[i].labels
        || (BlockedBy(t, i, groups) && after.labels == t[i].labels + {"release-blocker"}))
  }

  ghost predicate NightWrote(t: seq<Issue>, u: seq<Issue>, groups: seq<Group>, night: Night) {
    && |t| <= |u|
    && (forall k | |t| <= k < |u| :: NewFor(t, u[k], groups, night))
    && forall i | 0 <= i < |t| :: OldOne(t, i, u[i], groups, night)
  }

  lemma MoreGroups(t: seq<Issue>, groups: seq<Group>, g: Group, night: Night)
    ensures forall issue :: NewFor(t, issue, groups, night) ==> NewFor(t, issue, groups + [g], night)
    ensures forall i, text :: SaidOn(t, i, text, groups, night) ==> SaidOn(t, i, text, groups + [g], night)
    ensures forall i :: BlockedBy(t, i, groups) ==> BlockedBy(t, i, groups + [g])
  {
    var all := groups + [g];
    assert forall j | 0 <= j < |groups| :: all[j] == groups[j];
  }

  lemma LastGroup(t: seq<Issue>, groups: seq<Group>, g: Group, night: Night)
    ensures FirstOpen(t, g.key) == None && !OwnerClosedLast(t, g.key) ==>
              forall issue :: IssueOf(issue, g, night, LastKeyed(t, g.key)) ==> NewFor(t, issue, groups + [g], night)
    ensures forall i, text ::
              FirstOpen(t, g.key) == Some(i) && CommentOf(text, g, night) ==> SaidOn(t, i, text, groups + [g], night)
    ensures forall i :: FirstOpen(t, g.key) == Some(i) && g.block ==> BlockedBy(t, i, groups + [g])
  {
    assert (groups + [g])[|groups|] == g;
  }

  lemma OneMoreWrote(t: seq<Issue>, u: seq<Issue>, v: seq<Issue>, groups: seq<Group>, g: Group, night: Night)
    requires NightWrote(t, u, groups, night) && GroupWrote(t, u, v, g, night)
    ensures NightWrote(t, v, groups + [g], night)
  {
    MoreGroups(t, groups, g, night);
    LastGroup(t, groups, g, night);
    forall i | 0 <= i < |t| ensures OldOne(t, i, v[i], groups + [g], night) {
      assert OldOne(t, i, u[i], groups, night);
    }
    forall k | |t| <= k < |v| ensures NewFor(t, v[k], groups + [g], night) {
      if k < |u| {
        assert NewFor(t, u[k], groups, night);
      }
    }
  }

  lemma {:induction false} AllWrote(w: World, fates: Fates, groups: seq<Group>, night: Night)
    ensures NightWrote(w.issues, PublishAll(w, fates, w.issues, groups, night).issues, groups, night)
    decreases |groups|
  {
    if groups != [] {
      var init, last := groups[..|groups| - 1], groups[|groups| - 1];
      AllWrote(w, fates, init, night);
      var before := PublishAll(w, fates, w.issues, init, night);
      GroupWrites(before, fates, w.issues, last, night);
      var after := PublishGroup(before, fates, w.issues, last, night);
      OneMoreWrote(w.issues, before.issues, after.issues, init, last, night);
      assert groups == init + [last];
    }
  }

  /** Whatever becomes of the calls: every issue a night opens is one group's, with its text, its key
      and the night, labelled as a blocker exactly for a block; what it says on an issue that was there
      is said by a group that has it open, and it labels such an issue for a block alone. Nothing that
      may not be published is. */
  lemma NightWritesAsPlanned(w: World, fates: Fates, groups: seq<Group>, night: Night)
    ensures NightWrote(w.issues, Publish(w, fates, groups, night).issues, groups, night)
  {
    AllWrote(Called(w), fates, groups, night);
  }

  // ---- what is logged ----------------------------------------------------------------------------------------

  /** A call that fails may have taken effect: the tracker is then as after one that succeeds. */
  lemma FailedCallsMayTakeEffect(w: World, n: nat, body: Text, labels: set<string>)
    requires n < |w.issues|
    ensures CallCreate(w, FailsAfter, body, labels) == CallCreate(w, Succeeds, body, labels)
    ensures CallComment(w, FailsAfter, n, body) == CallComment(w, Succeeds, n, body)
    ensures CallLabel(w, FailsAfter, n) == CallLabel(w, Succeeds, n)
    ensures CallCreate(w, Succeeds, body, labels).issues == w.issues + [Issue(true, "", body, labels, [])]
    ensures CallCreate(w, FailsBefore, body, labels).issues == w.issues
    ensures CallComment(w, FailsBefore, n, body).issues == w.issues && CallLabel(w, FailsBefore, n).issues == w.issues
  {
  }

  /** One of the calls made in between failed. */
  predicate CallFailed(fates: Fates, from: nat, to: nat) {
    exists c | from <= c < to :: fates(c) != Succeeds
  }

  predicate Logs(log: seq<Entry>, from: nat, action: Action) {
    exists k | from <= k < |log| :: log[k].action == action
  }

  /** The log grew, by entries of one key. */
  ghost predicate Grew(w: World, v: World, key: string) {
    && w.log <= v.log && w.calls <= v.calls
    && forall k | |w.log| <= k < |v.log| :: v.log[k].key == key
  }

  lemma CommentIsLogged(w: World, fates: Fates, n: nat, listed: Issue, g: Group, night: Night)
    requires n < |w.issues|
    ensures
      var v := CommentOn(w, fates, n, listed, g, night);
      var entry := v.log[|v.log| - 1];
      && |v.log| == |w.log| + 1 && Grew(w, v, g.key) && entry.issue == Some(n)
      && (entry.action == GhError <==> CallFailed(fates, w.calls, v.calls))
      && (entry.action == Comment <==> !CallFailed(fates, w.calls, v.calls) && v.issues != w.issues)
      && (entry.action == Commented <==>
          || Marker(night) in listed.body
          || (fates(w.calls) == Succeeds && MarkedInComments(w.issues[n], Marker(night))))
      && (entry.action == Refused <==> entry.action !in {GhError, Comment, Commented})
      && (entry.action == Refused ==> night.leaks(g.text(None) + ["perf-nightly-night: " + night.name]))
      && v.calls <= w.calls + 2 && (v.calls == w.calls <==> Marker(night) in listed.body)
      && (v.calls == w.calls + 2 <==>
          entry.action == Comment || (entry.action == GhError && fates(w.calls) == Succeeds))
  {
    var v := CommentOn(w, fates, n, listed, g, night);
    assert w.calls + 1 == Called(w).calls;
    if v.calls > w.calls {
      assert fates(w.calls) != Succeeds ==> CallFailed(fates, w.calls, v.calls);
    }
    if v.calls > w.calls + 1 {
      assert fates(w.calls + 1) != Succeeds ==> CallFailed(fates, w.calls, v.calls);
      assert v.issues != w.issues <==> TakesEffect(fates(w.calls + 1)) by {
        if TakesEffect(fates(w.calls + 1)) {
          assert |v.issues[n].comments| == |w.issues[n].comments| + 1;
        }
      }
    }
  }

  lemma LabelIsLogged(w: World, fates: Fates, n: nat, listed: Issue, g: Group)
    requires n < |w.issues|
    ensures
      var v := LabelOn(w, fates, n, listed, g);
      && Grew(w, v, g.key)
      && (v == w <==> !g.block || "release-blocker" in listed.labels)
      && (v != w ==>
            && v.calls == w.calls + 1 && |v.log| == |w.log| + 1
            && v.log[|w.log|] == Entry(if fates(w.calls) == Succeeds then Labelled else GhError, Some(n), g.key)
            && (fates(w.calls) == Succeeds ==> "release-blocker" in v.issues[n].labels))
  {
    var v := LabelOn(w, fates, n, listed, g);
    if g.block && "release-blocker" !in listed.labels {
      assert v.calls == w.calls + 1;
    }
  }

  lemma CreateIsLogged(w: World, fates: Fates, repeatOf: Option<nat>, g: Group, night: Night)
    ensures
      var v := CreateFor(w, fates, repeatOf, g, night);
      var body := g.text(repeatOf) + ["perf-nightly-key: " + g.key, "perf-nightly-night: " + night.name];
      var refused := night.leaks(body);
      && |v.log| == |w.log| + 1 && Grew(w, v, g.key)
      && v.calls == (if refused then w.calls else w.calls + 1)
      && v.log[|w.log|] ==
         (if refused then Entry(Refused, None, g.key)
          else if fates(w.calls) != Succeeds then Entry(GhError, None, g.key)
          else Entry(Created, Some(|w.issues|), g.key))
      && (!refused && fates(w.calls) != FailsBefore <==> |v.issues| == |w.issues| + 1)
      && (|v.issues| == |w.issues| + 1 || v.issues == w.issues)
  {
  }

  lemma OpenIsLogged(w: World, fates: Fates, n: nat, listed: Issue, g: Group, night: Night)
    requires n < |w.issues|
    ensures
      var v := LabelOn(CommentOn(w, fates, n, listed, g, night), fates, n, listed, g);
      && Grew(w, v, g.key)
      && (Logs(v.log, |w.log|, GhError) <==> CallFailed(fates, w.calls, v.calls))
      && (Logs(v.log, |w.log|, Labelled) ==> g.block && "release-blocker" in v.issues[n].labels)
      && !Logs(v.log, |w.log|, Created) && !Logs(v.log, |w.log|, OwnerClosed)
  {
    var said := CommentOn(w, fates, n, listed, g, night);
    var v := LabelOn(said, fates, n, listed, g);
    CommentIsLogged(w, fates, n, listed, g, night);
    LabelIsLogged(said, fates, n, listed, g);
    EitherFailed(fates, w.calls, said.calls, v.calls);
    forall action ensures Logs(v.log, |w.log|, action) <==>
                            Logs(said.log, |w.log|, action) || Logs(v.log, |said.log|, action)
    {
      EitherLogs(said.log, v.log, |w.log|, action);
    }
    LogsOne(said.log, |w.log|);
    if v != said {
      LogsOne(v.log, |said.log|);
      assert CallFailed(fates, said.calls, v.calls) <==> fates(said.calls) != Succeeds;
    }
  }

  lemma LogsOne(log: seq<Entry>, from: nat)
    requires |log| == from + 1
    ensures forall action :: Logs(log, from, action) <==> log[from].action == action
  {
  }

  lemma EitherFailed(fates: Fates, a: nat, b: nat, c: nat)
    requires a <= b <= c
    ensures CallFailed(fates, a, c) <==> CallFailed(fates, a, b) || CallFailed(fates, b, c)
  {
    if CallFailed(fates, a, c) {
      var k :| a <= k < c && fates(k) != Succeeds;
      assert k < b ==> CallFailed(fates, a, b);
    }
  }

  lemma EitherLogs(log: seq<Entry>, longer: seq<Entry>, from: nat, action: Action)
    requires log <= longer && from <= |log|
    ensures Logs(longer, from, action) <==> Logs(log, from, action) || Logs(longer, |log|, action)
  {
    if Logs(longer, from, action) {
      var k :| from <= k < |longer| && longer[k].action == action;
      assert k < |log| ==> log[k].action == action;
    }
    if Logs(log, from, action) {
      var k :| from <= k < |log| && log[k].action == action;
      assert longer[k].action == action;
    }
  }

  /** What the log says of one group. */
  ghost predicate GroupLogged(listed: seq<Issue>, w: World, v: World, fates: Fates, g: Group) {
    && Grew(w, v, g.key)
    && (Logs(v.log, |w.log|, GhError) <==> CallFailed(fates, w.calls, v.calls))
    && (Logs(v.log, |w.log|, Created) ==>
          FirstOpen(listed, g.key) == None && |v.issues| == |w.issues| + 1 && !CallFailed(fates, w.calls, v.calls))
    && (Logs(v.log, |w.log|, OwnerClosed) <==> FirstOpen(listed, g.key) == None && OwnerClosedLast(listed, g.key))
    && (Logs(v.log, |w.log|, Labelled) ==> g.block)
  }

  lemma GroupIsLogged(w: World, fates: Fates, listed: seq<Issue>, g: Group, night: Night)
    requires |listed| <= |w.issues|
    ensures GroupLogged(listed, w, PublishGroup(w, fates, listed, g, night), fates, g)
  {
    var open, last := FirstOpen(listed, g.key), LastKeyed(listed, g.key);
    var v := PublishGroup(w, fates, listed, g, night);
    if open.Some? {
      OpenIsLogged(w, fates, open.value, listed[open.value], g, night);
    } else if OwnerClosedLast(listed, g.key) {
      assert v == w.(log := w.log + [Entry(OwnerClosed, last, g.key)]);
      LogsOne(v.log, |w.log|);
    } else {
      CreateIsLogged(w, fates, last, g, night);
      assert v == CreateFor(w, fates, last, g, night);
      LogsOne(v.log, |w.log|);
      assert CallFailed(fates, w.calls, v.calls) <==> v.calls == w.calls + 1 && fates(w.calls) != Succeeds;
    }
  }

  lemma {:induction false} AllLogged(w: World, fates: Fates, groups: seq<Group>, night: Night)
    ensures
      var v := PublishAll(w, fates, w.issues, groups, night);
      && w.log <= v.log && w.calls <= v.calls
      && (Logs(v.log, |w.log|, GhError) <==> CallFailed(fates, w.calls, v.calls))
    decreases |groups|
  {
    if groups != [] {
      var init, last := groups[..|groups| - 1], groups[|groups| - 1];
      AllLogged(w, fates, init, night);
      var before := PublishAll(w, fates, w.issues, init, night);
      var v := PublishGroup(before, fates, w.issues, last, night);
      GroupIsLogged(before, fates, w.issues, last, night);
      EitherFailed(fates, w.calls, before.calls, v.calls);
      EitherLogs(before.log, v.log, |w.log|, GhError);
    }
  }

  /** As many issues are labelled `perf`. */
  lemma {:induction false} CountPerfIs(issues: seq<Issue>)
    ensures CountPerf(issues) == |set i | 0 <= i < |issues| && "perf" in issues[i].labels|
  {
    var all := set i | 0 <= i < |issues| && "perf" in issues[i].labels;
    if issues == [] {
      assert all == {};
    } else {
      var init, n := issues[..|issues| - 1], |issues| - 1;
      CountPerfIs(init);
      var some := set i | 0 <= i < |init| && "perf" in init[i].labels;
      assert all == some + if "perf" in issues[n].labels then {n} else {};
    }
  }

  /** The log of a night has an error exactly if one of its calls failed, or the list it asked for is as
      long as it can be; a night without groups asks nothing. */
  lemma NightIsLogged(w: World, fates: Fates, groups: seq<Group>, night: Night)
    ensures
      var v := Publish(w, fates, groups, night);
      var cut := |set i | 0 <= i < |w.issues| && "perf" in w.issues[i].labels| >= 1000;
      && w.log <= v.log && (v.calls == w.calls <==> groups == []) && w.calls <= v.calls
      && (Logs(v.log, |w.log|, GhError) <==> groups != [] && (cut || CallFailed(fates, w.calls, v.calls)))
  {
    CountPerfIs(w.issues);
    var v, asked := Publish(w, fates, groups, night), Called(w);
    if groups != [] {
      if fates(w.calls) != Succeeds || CountPerf(w.issues) >= LIST_LIMIT {
        assert v.log[|w.log|].action == GhError;
        assert fates(w.calls) != Succeeds ==> CallFailed(fates, w.calls, v.calls);
      } else {
        AllLogged(asked, fates, groups, night);
        EitherFailed(fates, w.calls, asked.calls, v.calls);
        assert !CallFailed(fates, w.calls, asked.calls);
      }
    }
  }
}
