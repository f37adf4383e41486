/** What publishing keeps, whatever becomes of its calls, and that repeating it does nothing. */
module PublisherSafety {
  import opened Common
  import opened Publisher

  // ---- what may happen to an issue --------------------------------------------------------------------

  predicate Marked(i: Issue, marker: string) {
    marker in i.body || MarkedInComments(i, marker)
  }

  /** A night adds at most one comment, its own and only where there is none, and at most a label. */
  ghost predicate Touched(a: Issue, b: Issue, marker: string) {
    && b.open == a.open && b.reason == a.reason && b.body == a.body
    && a.labels <= b.labels <= a.labels + {"release-blocker"}
    && (b.comments == a.comments
        || (!Marked(a, marker) && |b.comments| == |a.comments| + 1 && a.comments <= b.comments
            && marker in b.comments[|a.comments|]))
  }

  lemma TouchedTwice(a: Issue, b: Issue, c: Issue, marker: string)
    requires Touched(a, b, marker) && Touched(b, c, marker)
    ensures Touched(a, c, marker)
  {
    if b.comments != a.comments {
      assert marker in b.comments[|a.comments|];
      assert MarkedInComments(b, marker);
    } else {
      assert Marked(a, marker) <==> Marked(b, marker);
    }
  }

  ghost predicate Extends(t: seq<Issue>, u: seq<Issue>, marker: string) {
    |t| <= |u| && forall i | 0 <= i < |t| :: Touched(t[i], u[i], marker)
  }

  lemma ExtendsTwice(t: seq<Issue>, u: seq<Issue>, v: seq<Issue>, marker: string)
    requires Extends(t, u, marker) && Extends(u, v, marker)
    ensures Extends(t, v, marker)
  {
    forall i | 0 <= i < |t| ensures Touched(t[i], v[i], marker) {
      TouchedTwice(t[i], u[i], v[i], marker);
    }
  }

  lemma CommentTouches(w: World, fates: Fates, n: nat, listed: Issue, g: Group, night: Night)
    requires n < |w.issues| && listed.body == w.issues[n].body
    ensures Extends(w.issues, CommentOn(w, fates, n, listed, g, night).issues, Marker(night))
  {
    var body := CommentText(g, night);
    assert body[|body| - 1] == Marker(night);
    assert Marker(night) in body;
  }

  lemma LabelTouches(w: World, fates: Fates, n: nat, listed: Issue, g: Group, marker: string)
    requires n < |w.issues|
    ensures Extends(w.issues, LabelOn(w, fates, n, listed, g).issues, marker)
  {
  }

  // ---- new issues -----------------------------------------------------------------------------------------

  function Fresh(g: Group, night: Night, repeatOf: Option<nat>): Issue {
    Issue(true, "", IssueText(g, night, repeatOf), LabelsOf(g), [])
  }

  /** No open issue has the key, and the owner did not close the last that had it. */
  predicate Wanted(listed: seq<Issue>, key: string) {
    && FirstOpen(listed, key).None?
    && !(LastKeyed(listed, key).Some? && ClosedByOwner(listed[LastKeyed(listed, key).value]))
  }

  lemma GroupExtends(w: World, fates: Fates, listed: seq<Issue>, g: Group, night: Night)
    requires |listed| <= |w.issues| && forall i | 0 <= i < |listed| :: w.issues[i].body == listed[i].body
    ensures
      var u := PublishGroup(w, fates, listed, g, night).issues;
      && Extends(w.issues, u, Marker(night))
      && (|u| == |w.issues|
          || (Wanted(listed, g.key) && u == w.issues + [Fresh(g, night, LastKeyed(listed, g.key))]))
  {
    var open := FirstOpen(listed, g.key);
    if open.Some? {
      var said := CommentOn(w, fates, open.value, listed[open.value], g, night);
      CommentTouches(w, fates, open.value, listed[open.value], g, night);
      LabelTouches(said, fates, open.value, listed[open.value], g, Marker(night));
      ExtendsTwice(w.issues, said.issues, PublishGroup(w, fates, listed, g, night).issues, Marker(night));
    }
  }

  ghost predicate DistinctKeys(groups: seq<Group>) {
    forall i, j | 0 <= i < j < |groups| :: groups[i].key != groups[j].key
  }

  function KeyLine(i: Issue): string
    requires |i.body| >= 2
  {
    i.body[|i.body| - 2]
  }

  /** Issue `i` of `u` was made for one of the groups, which wanted one. */
  ghost predicate MadeFor(listed: seq<Issue>, issue: Issue, groups: seq<Group>, night: Night) {
    exists k | 0 <= k < |groups| ::
      Wanted(listed, groups[k].key) && issue == Fresh(groups[k], night, LastKeyed(listed, groups[k].key))
  }

  ghost predicate OwnKeys(u: seq<Issue>, from: nat) {
    && (forall i | from <= i < |u| :: |u[i].body| >= 2)
    && (forall i, j | from <= i < j < |u| :: KeyLine(u[i]) != KeyLine(u[j]))
  }

  /** The issues added to a list: each for a group that wanted one, no two for the same key. */
  ghost predicate Additions(listed: seq<Issue>, u: seq<Issue>, groups: seq<Group>, night: Night) {
    (forall i | |listed| <= i < |u| :: MadeFor(listed, u[i], groups, night)) && OwnKeys(u, |listed|)
  }

  lemma OneMoreOwnKey(u: seq<Issue>, from: nat, one: Issue)
    requires from <= |u| && OwnKeys(u, from) && |one.body| >= 2
    requires forall i | from <= i < |u| :: KeyLine(u[i]) != KeyLine(one)
    ensures OwnKeys(u + [one], from)
  {
  }

  lemma FreshKeyLine(g: Group, night: Night, repeatOf: Option<nat>)
    ensures |Fresh(g, night, repeatOf).body| >= 2 && KeyLine(Fresh(g, night, repeatOf)) == KEY_PREFIX + g.key
  {
  }

  lemma PrefixIsInjective(a: string, b: string)
    requires KEY_PREFIX + a == KEY_PREFIX + b
    ensures a == b
  {
    assert (KEY_PREFIX + a)[|KEY_PREFIX|..] == a;
    assert (KEY_PREFIX + b)[|KEY_PREFIX|..] == b;
  }

  lemma MadeForMore(listed: seq<Issue>, issue: Issue, groups: seq<Group>, g: Group, night: Night)
    requires MadeFor(listed, issue, groups, night)
    ensures MadeFor(listed, issue, groups + [g], night)
  {
    var k :| 0 <= k < |groups| && Wanted(listed, groups[k].key)
          && issue == Fresh(groups[k], night, LastKeyed(listed, groups[k].key));
    assert (groups + [g])[k] == groups[k];
  }

  lemma AddedOne(listed: seq<Issue>, u: seq<Issue>, groups: seq<Group>, g: Group, night: Night)
    requires |listed| <= |u| && Additions(listed, u, groups, night)
    requires DistinctKeys(groups + [g]) && Wanted(listed, g.key)
    ensures Additions(listed, u + [Fresh(g, night, LastKeyed(listed, g.key))], groups + [g], night)
  {
    var one := Fresh(g, night, LastKeyed(listed, g.key));
    var v := u + [one];
    FreshKeyLine(g, night, LastKeyed(listed, g.key));
    forall i | |listed| <= i < |u| ensures KeyLine(u[i]) != KeyLine(one) {
      KeyLineOfMade(listed, u[i], groups, g, night);
    }
    OneMoreOwnKey(u, |listed|, one);
    forall i | |listed| <= i < |v| ensures MadeFor(listed, v[i], groups + [g], night) {
      MadeForEither(listed, u, one, groups, g, night, i);
    }
  }

  lemma MadeForLast(listed: seq<Issue>, one: Issue, groups: seq<Group>, g: Group, night: Night)
    requires Wanted(listed, g.key) && one == Fresh(g, night, LastKeyed(listed, g.key))
    ensures MadeFor(listed, one, groups + [g], night)
  {
    var all, k := groups + [g], |groups|;
    assert all[k] == g;
    assert 0 <= k < |all| && Wanted(listed, all[k].key) && one == Fresh(all[k], night, LastKeyed(listed, all[k].key));
  }

  lemma MadeForEither(listed: seq<Issue>, u: seq<Issue>, one: Issue, groups: seq<Group>, g: Group, night: Night, i: nat)
    requires |listed| <= i < |u + [one]| && Wanted(listed, g.key) && one == Fresh(g, night, LastKeyed(listed, g.key))
    requires i < |u| ==> MadeFor(listed, u[i], groups, night)
    ensures MadeFor(listed, (u + [one])[i], groups + [g], night)
  {
    assert (u + [one])[i] == if i < |u| then u[i] else one;
    if i < |u| {
      MadeForMore(listed, u[i], groups, g, night);
    } else {
      MadeForLast(listed, one, groups, g, night);
    }
  }

  lemma KeyLineOfMade(listed: seq<Issue>, issue: Issue, groups: seq<Group>, g: Group, night: Night)
    requires MadeFor(listed, issue, groups, night) && DistinctKeys(groups + [g])
    ensures |issue.body| >= 2 && KeyLine(issue) != KEY_PREFIX + g.key
  {
    var k :| 0 <= k < |groups| && Wanted(listed, groups[k].key)
          && issue == Fresh(groups[k], night, LastKeyed(listed, groups[k].key));
    FreshKeyLine(groups[k], night, LastKeyed(listed, groups[k].key));
    assert (groups + [g])[k].key != (groups + [g])[|groups|].key;
    if KEY_PREFIX + groups[k].key == KEY_PREFIX + g.key {
      PrefixIsInjective(groups[k].key, g.key);
    }
  }

  lemma {:induction false} AllExtends(w: World, fates: Fates, listed: seq<Issue>, groups: seq<Group>, night: Night)
    requires w.issues == listed && DistinctKeys(groups)
    ensures
      var u := PublishAll(w, fates, listed, groups, night).issues;
      Extends(listed, u, Marker(night)) && Additions(listed, u, groups, night)
    decreases |groups|
  {
    if groups != [] {
      var init, g := groups[..|groups| - 1], groups[|groups| - 1];
      assert groups == init + [g];
      AllExtends(w, fates, listed, init, night);
      var before := PublishAll(w, fates, listed, init, night);
      GroupExtends(before, fates, listed, g, night);
      var u := PublishGroup(before, fates, listed, g, night).issues;
      ExtendsTwice(listed, before.issues, u, Marker(night));
      if |u| == |before.issues| {
        GroupTouchesOld(before, fates, listed, g, night);
        forall i | |listed| <= i < |u| ensures MadeFor(listed, u[i], groups, night) {
          MadeForMore(listed, u[i], init, g, night);
        }
      } else {
        AddedOne(listed, before.issues, init, g, night);
      }
    }
  }

  /** Issues that are not on the list are left alone. */
  lemma GroupTouchesOld(w: World, fates: Fates, listed: seq<Issue>, g: Group, night: Night)
    requires |listed| <= |w.issues|
    ensures forall i | |listed| <= i < |w.issues| :: PublishGroup(w, fates, listed, g, night).issues[i] == w.issues[i]
  {
  }

  /** No label reaches an issue but those of the plan. */
  lemma LabelsAreAllowed(listed: seq<Issue>, u: seq<Issue>, groups: seq<Group>, night: Night, i: nat)
    requires Extends(listed, u, Marker(night)) && Additions(listed, u, groups, night) && i < |u|
    ensures u[i].labels <= ALLOWED_LABELS + if i < |listed| then listed[i].labels else {}
  {
    if i < |listed| {
      assert Touched(listed[i], u[i], Marker(night));
    } else {
      assert MadeFor(listed, u[i], groups, night);
    }
  }

  /** For any tracker and whatever becomes of the calls: a night changes nothing of an issue but one
      comment and one label, and opens an issue only for a key that has no open one and was not
      closed by the owner last, never two for one key. What it labels, it labels as planned. */
  lemma NightIsSafe(w: World, fates: Fates, groups: seq<Group>, night: Night)
    requires DistinctKeys(groups)
    ensures Extends(w.issues, Publish(w, fates, groups, night).issues, Marker(night))
    ensures Additions(w.issues, Publish(w, fates, groups, night).issues, groups, night)
    ensures
      var u := Publish(w, fates, groups, night).issues;
      forall i | 0 <= i < |u| :: u[i].labels <= ALLOWED_LABELS + if i < |w.issues| then w.issues[i].labels else {}
  {
    AllExtends(Called(w), fates, w.issues, groups, night);
    var u := Publish(w, fates, groups, night).issues;
    forall i | 0 <= i < |u|
      ensures u[i].labels <= ALLOWED_LABELS + if i < |w.issues| then w.issues[i].labels else {}
    {
      LabelsAreAllowed(w.issues, u, groups, night, i);
    }
  }

  // ---- several runs of one night -----------------------------------------------------------------------------

  datatype Attempt = Attempt(groups: seq<Group>, fates: Fates)

  function Attempts(w: World, night: Night, attempts: seq<Attempt>): World
    decreases |attempts|
  {
    if attempts == [] then w
    else
      var last := attempts[|attempts| - 1];
      Publish(Attempts(w, night, attempts[..|attempts| - 1]), last.fates, last.groups, night)
  }

  /** However often a night is published, an issue gets at most one comment of it. */
  lemma {:induction false} OneCommentPerNight(w: World, night: Night, attempts: seq<Attempt>)
    requires forall a | a in attempts :: DistinctKeys(a.groups)
    ensures Extends(w.issues, Attempts(w, night, attempts).issues, Marker(night))
    decreases |attempts|
  {
    if attempts != [] {
      var init, last := attempts[..|attempts| - 1], attempts[|attempts| - 1];
      assert last in attempts && forall a | a in init :: a in attempts;
      OneCommentPerNight(w, night, init);
      var before := Attempts(w, night, init);
      NightIsSafe(before, last.fates, last.groups, night);
      ExtendsTwice(w.issues, before.issues, Attempts(w, night, attempts).issues, Marker(night));
    }
  }

  // ---- one open issue per key, over all nights -----------------------------------------------------------------

  /** What is said about a group has no key line in it; the key line is added below. */
  ghost predicate PlainText(g: Group) {
    forall repeatOf: Option<nat>, key: string :: KEY_PREFIX + key !in g.text(repeatOf)
  }

  ghost predicate OneOpenPerKey(issues: seq<Issue>) {
    forall i, j, key | 0 <= i < j < |issues| && Keyed(issues[i], key) && Keyed(issues[j], key) ::
      !(issues[i].open && issues[j].open)
  }

  lemma FreshHasOneKey(g: Group, night: Night, repeatOf: Option<nat>, key: string)
    requires PlainText(g)
    ensures Keyed(Fresh(g, night, repeatOf), key) <==> key == g.key
  {
    var body := IssueText(g, night, repeatOf);
    assert body == g.text(repeatOf) + [KEY_PREFIX + g.key] + [Marker(night)];
    assert body[|body| - 2] == KEY_PREFIX + g.key;
    assert KEY_PREFIX + key != Marker(night) by {
      assert (KEY_PREFIX + key)[13] == 'k' && Marker(night)[13] == 'n';
    }
    if KEY_PREFIX + key in body {
      assert KEY_PREFIX + key !in g.text(repeatOf);
      PrefixIsInjective(key, g.key);
    }
  }

  lemma TouchedKeeps(a: Issue, b: Issue, marker: string, key: string)
    requires Touched(a, b, marker)
    ensures Keyed(a, key) <==> Keyed(b, key)
    ensures a.open == b.open && a.reason == b.reason
  {
    assert "perf" != "release-blocker" by {
      assert |"perf"| != |"release-blocker"|;
    }
  }

  lemma NightKeepsOneOpen(t: seq<Issue>, u: seq<Issue>, groups: seq<Group>, night: Night)
    requires OneOpenPerKey(t) && Extends(t, u, Marker(night)) && Additions(t, u, groups, night)
    requires forall g | g in groups :: PlainText(g)
    ensures OneOpenPerKey(u)
  {
    forall i, j, key | 0 <= i < j < |u| && Keyed(u[i], key) && Keyed(u[j], key)
      ensures !(u[i].open && u[j].open)
    {
      if j < |t| {
        TouchedKeeps(t[i], u[i], Marker(night), key);
        TouchedKeeps(t[j], u[j], Marker(night), key);
      } else {
        MadeIsWanted(t, u[j], groups, night, key);
        if i < |t| {
          TouchedKeeps(t[i], u[i], Marker(night), key);
        } else {
          MadeIsWanted(t, u[i], groups, night, key);
        }
      }
    }
  }

  lemma MadeIsWanted(t: seq<Issue>, issue: Issue, groups: seq<Group>, night: Night, key: string)
    requires MadeFor(t, issue, groups, night) && Keyed(issue, key)
    requires forall g | g in groups :: PlainText(g)
    ensures Wanted(t, key) && |issue.body| >= 2 && KeyLine(issue) == KEY_PREFIX + key
  {
    var k :| 0 <= k < |groups| && Wanted(t, groups[k].key)
          && issue == Fresh(groups[k], night, LastKeyed(t, groups[k].key));
    assert groups[k] in groups;
    FreshHasOneKey(groups[k], night, LastKeyed(t, groups[k].key), key);
    FreshKeyLine(groups[k], night, LastKeyed(t, groups[k].key));
  }

  /** A night is published, or the people of the repository edit the tracker in any way. */
  datatype Happening = Published(night: Night, groups: seq<Group>, fates: Fates) | Edited(issues: seq<Issue>)

  function History(w: World, hs: seq<Happening>): World
    decreases |hs|
  {
    if hs == [] then w
    else
      var before := History(w, hs[..|hs| - 1]);
      match hs[|hs| - 1]
      case Published(night, groups, fates) => Publish(before, fates, groups, night)
      case Edited(issues) => before.(issues := issues)
  }

  ghost predicate Orderly(h: Happening) {
    match h
    case Published(_, groups, _) => DistinctKeys(groups) && forall g | g in groups :: PlainText(g)
    case Edited(issues) => OneOpenPerKey(issues)
  }

  /** Night after night, retries after failures included, a key never gets a second open issue, unless
      somebody else gives it one. */
  lemma {:induction false} NeverTwoOpen(w: World, hs: seq<Happening>)
    requires OneOpenPerKey(w.issues) && forall h | h in hs :: Orderly(h)
    ensures OneOpenPerKey(History(w, hs).issues)
    decreases |hs|
  {
    if hs != [] {
      var init, last := hs[..|hs| - 1], hs[|hs| - 1];
      assert last in hs && forall h | h in init :: h in hs;
      NeverTwoOpen(w, init);
      if last.Published? {
        var before := History(w, init);
        NightIsSafe(before, last.fates, last.groups, last.night);
        NightKeepsOneOpen(before.issues, History(w, hs).issues, last.groups, last.night);
      }
    }
  }

  /** Closing issues, commenting on them and taking labels off are such edits. */
  lemma ClosingIsOrderly(t: seq<Issue>, u: seq<Issue>)
    requires OneOpenPerKey(t) && |u| == |t|
    requires forall i | 0 <= i < |t| ::
               u[i].body == t[i].body && u[i].labels <= t[i].labels && (u[i].open ==> t[i].open)
    ensures Orderly(Edited(u))
  {
    forall i, j, key | 0 <= i < j < |u| && Keyed(u[i], key) && Keyed(u[j], key)
      ensures !(u[i].open && u[j].open)
    {
      assert Keyed(t[i], key) && Keyed(t[j], key);
    }
  }

  // ---- doing it again ----------------------------------------------------------------------------------------------

  predicate Clean(log: seq<Entry>) {
    forall i | 0 <= i < |log| :: log[i].action != GhError
  }

  /** An open issue that says all the night has to say, or may not. */
  predicate Told(i: Issue, g: Group, night: Night) {
    && (Marked(i, Marker(night)) || night.leaks(CommentText(g, night)))
    && (g.block ==> "release-blocker" in i.labels)
  }

  /** What a group asks for has been done to a tracker that was `t`. */
  ghost predicate Served(t: seq<Issue>, u: seq<Issue>, g: Group, night: Night) {
    var open := FirstOpen(t, g.key);
    if open.Some? then open.value < |u| && Told(u[open.value], g, night)
    else Wanted(t, g.key) ==>
      night.leaks(IssueText(g, night, LastKeyed(t, g.key)))
      || exists k | |t| <= k < |u| :: u[k] == Fresh(g, night, LastKeyed(t, g.key))
  }

  lemma GroupServes(w: World, fates: Fates, listed: seq<Issue>, g: Group, night: Night)
    requires |listed| <= |w.issues| && Extends(listed, w.issues, Marker(night))
    requires Clean(PublishGroup(w, fates, listed, g, night).log)
    ensures Served(listed, PublishGroup(w, fates, listed, g, night).issues, g, night) && Clean(w.log)
  {
    var r := PublishGroup(w, fates, listed, g, night);
    LogGrows(w, fates, listed, g, night);
    var open := FirstOpen(listed, g.key);
    if open.Some? {
      OpenIsTold(w, fates, open.value, listed[open.value], g, night);
    } else if Wanted(listed, g.key) && !night.leaks(IssueText(g, night, LastKeyed(listed, g.key))) {
      assert r.log[|r.log| - 1].action != GhError;
      assert r.issues[|w.issues|] == Fresh(g, night, LastKeyed(listed, g.key));
    }
  }

  lemma LogGrows(w: World, fates: Fates, listed: seq<Issue>, g: Group, night: Night)
    requires |listed| <= |w.issues|
    ensures w.log <= PublishGroup(w, fates, listed, g, night).log
    ensures Clean(PublishGroup(w, fates, listed, g, night).log) ==> Clean(w.log)
  {
    var log := PublishGroup(w, fates, listed, g, night).log;
    if Clean(log) {
      forall i | 0 <= i < |w.log| ensures w.log[i].action != GhError {
        assert log[i] == w.log[i];
      }
    }
  }

  lemma OpenIsTold(w: World, fates: Fates, n: nat, listed: Issue, g: Group, night: Night)
    requires n < |w.issues| && Touched(listed, w.issues[n], Marker(night))
    requires
      var said := CommentOn(w, fates, n, listed, g, night);
      Clean(LabelOn(said, fates, n, listed, g).log)
    ensures
      var said := CommentOn(w, fates, n, listed, g, night);
      Told(LabelOn(said, fates, n, listed, g).issues[n], g, night)
  {
    var said := CommentOn(w, fates, n, listed, g, night);
    var r := LabelOn(said, fates, n, listed, g);
    LabelTouches(said, fates, n, listed, g, Marker(night));
    assert r.log[|said.log| - 1] == said.log[|said.log| - 1];
    assert said.log[|said.log| - 1].action != GhError;
    CommentMarks(w, fates, n, listed, g, night);
    if Marked(said.issues[n], Marker(night)) {
      TouchedStaysMarked(said.issues[n], r.issues[n], Marker(night));
    }
    if g.block && "release-blocker" !in listed.labels {
      assert r.log[|r.log| - 1].action != GhError;
    }
    CommentTouches(w, fates, n, listed, g, night);
    assert listed.labels <= w.issues[n].labels <= said.issues[n].labels <= r.issues[n].labels;
  }

  lemma CommentMarks(w: World, fates: Fates, n: nat, listed: Issue, g: Group, night: Night)
    requires n < |w.issues| && listed.body == w.issues[n].body
    requires
      var said := CommentOn(w, fates, n, listed, g, night);
      said.log[|said.log| - 1].action != GhError
    ensures
      var said := CommentOn(w, fates, n, listed, g, night);
      Marked(said.issues[n], Marker(night)) || night.leaks(CommentText(g, night))
  {
    var body := CommentText(g, night);
    assert body[|body| - 1] == Marker(night);
    var comments := w.issues[n].comments + [body];
    assert comments[|comments| - 1] == body;
  }

  lemma TouchedStaysMarked(a: Issue, b: Issue, marker: string)
    requires Touched(a, b, marker) && Marked(a, marker)
    ensures Marked(b, marker)
  {
  }

  lemma ServedStays(t: seq<Issue>, u: seq<Issue>, v: seq<Issue>, g: Group, night: Night)
    requires Served(t, u, g, night) && Extends(t, u, Marker(night)) && Extends(u, v, Marker(night))
    requires forall i | |t| <= i < |u| :: v[i] == u[i]
    ensures Served(t, v, g, night)
  {
    var open := FirstOpen(t, g.key);
    if open.Some? {
      var n := open.value;
      assert Touched(u[n], v[n], Marker(night));
      if Marked(u[n], Marker(night)) {
        TouchedStaysMarked(u[n], v[n], Marker(night));
      }
    }
  }

  lemma {:induction false} AllServed(w: World, fates: Fates, listed: seq<Issue>, groups: seq<Group>, night: Night)
    requires w.issues == listed && DistinctKeys(groups)
    requires Clean(PublishAll(w, fates, listed, groups, night).log)
    ensures forall g | g in groups :: Served(listed, PublishAll(w, fates, listed, groups, night).issues, g, night)
    decreases |groups|
  {
    if groups != [] {
      var init, last := groups[..|groups| - 1], groups[|groups| - 1];
      var before := PublishAll(w, fates, listed, init, night);
      AllExtends(w, fates, listed, init, night);
      GroupServes(before, fates, listed, last, night);
      AllServed(w, fates, listed, init, night);
      GroupExtends(before, fates, listed, last, night);
      GroupTouchesOld(before, fates, listed, last, night);
      var after := PublishGroup(before, fates, listed, last, night);
      forall g | g in groups ensures Served(listed, after.issues, g, night) {
        if g != last {
          assert g in init;
          ServedStays(listed, before.issues, after.issues, g, night);
        }
      }
    }
  }

  /** A night without an error in its log has served every group: its open issue says so and bears the
      label of a block, or a new issue was opened where one was wanted, unless the text may not be
      published. */
  lemma CleanNightServes(w: World, fates: Fates, groups: seq<Group>, night: Night, g: Group)
    requires DistinctKeys(groups) && g in groups && Clean(Publish(w, fates, groups, night).log)
    ensures Served(w.issues, Publish(w, fates, groups, night).issues, g, night)
  {
    NotCutShort(w, fates, groups, night);
    AllServed(Called(w), fates, w.issues, groups, night);
  }

  /** A tracker on which publishing a group does nothing. */
  ghost predicate AtRest(u: seq<Issue>, g: Group, night: Night) {
    var open := FirstOpen(u, g.key);
    if open.Some? then Told(u[open.value], g, night)
    else Wanted(u, g.key) ==> night.leaks(IssueText(g, night, LastKeyed(u, g.key)))
  }

  lemma {:induction false} RestingRunDoesNothing(w: World, fates: Fates, groups: seq<Group>, night: Night)
    requires forall g | g in groups :: AtRest(w.issues, g, night)
    ensures PublishAll(w, fates, w.issues, groups, night).issues == w.issues
    decreases |groups|
  {
    if groups != [] {
      var init, last := groups[..|groups| - 1], groups[|groups| - 1];
      assert last in groups && forall g | g in init :: g in groups;
      RestingRunDoesNothing(w, fates, init, night);
    }
  }

  lemma FirstOpenIs(u: seq<Issue>, key: string, n: nat)
    requires n < |u| && Keyed(u[n], key) && u[n].open
    requires forall i | 0 <= i < n :: !(Keyed(u[i], key) && u[i].open)
    ensures FirstOpen(u, key) == Some(n)
  {
  }

  lemma LastKeyedIs(u: seq<Issue>, key: string, n: Option<nat>)
    requires n.Some? ==> n.value < |u| && Keyed(u[n.value], key)
    requires forall i | 0 <= i < |u| && Keyed(u[i], key) :: n.Some? && i <= n.value
    ensures LastKeyed(u, key) == n
  {
  }

  lemma FreshIsTold(g: Group, night: Night, repeatOf: Option<nat>)
    ensures Told(Fresh(g, night, repeatOf), g, night)
  {
    var body := IssueText(g, night, repeatOf);
    assert body[|body| - 1] == Marker(night);
  }

  lemma ServedIsAtRest(t: seq<Issue>, u: seq<Issue>, groups: seq<Group>, g: Group, night: Night)
    requires Extends(t, u, Marker(night)) && Additions(t, u, groups, night) && Served(t, u, g, night)
    requires g in groups && DistinctKeys(groups) && forall h | h in groups :: PlainText(h)
    ensures AtRest(u, g, night)
  {
    forall i | 0 <= i < |t|
      ensures (Keyed(t[i], g.key) <==> Keyed(u[i], g.key)) && t[i].open == u[i].open && t[i].reason == u[i].reason
    {
      TouchedKeeps(t[i], u[i], Marker(night), g.key);
    }
    var open := FirstOpen(t, g.key);
    if open.Some? {
      FirstOpenIs(u, g.key, open.value);
    } else if k :| |t| <= k < |u| && Keyed(u[k], g.key) {
      NewForKeyIsTold(t, u, groups, g, night, k);
    } else {
      LastKeyedIs(u, g.key, LastKeyed(t, g.key));
      if h :| |t| <= h < |u| && u[h] == Fresh(g, night, LastKeyed(t, g.key)) {
        FreshHasOneKey(g, night, LastKeyed(t, g.key), g.key);
      }
    }
  }

  lemma NewForKeyIsTold(t: seq<Issue>, u: seq<Issue>, groups: seq<Group>, g: Group, night: Night, k: nat)
    requires Additions(t, u, groups, night) && FirstOpen(t, g.key).None?
    requires g in groups && DistinctKeys(groups) && forall h | h in groups :: PlainText(h)
    requires |t| <= k < |u| && Keyed(u[k], g.key)
    requires forall i | 0 <= i < |t| :: Keyed(u[i], g.key) ==> !u[i].open
    ensures AtRest(u, g, night)
  {
    forall i | |t| <= i < |u| && Keyed(u[i], g.key) ensures i == k {
      MadeIsWanted(t, u[i], groups, night, g.key);
      MadeIsWanted(t, u[k], groups, night, g.key);
    }
    MadeForItself(t, u[k], groups, g, night);
    FirstOpenIs(u, g.key, k);
    FreshIsTold(g, night, LastKeyed(t, g.key));
  }

  lemma MadeForItself(t: seq<Issue>, issue: Issue, groups: seq<Group>, g: Group, night: Night)
    requires MadeFor(t, issue, groups, night) && Keyed(issue, g.key)
    requires g in groups && DistinctKeys(groups) && forall h | h in groups :: PlainText(h)
    ensures issue == Fresh(g, night, LastKeyed(t, g.key))
  {
    var j :| 0 <= j < |groups| && Wanted(t, groups[j].key)
          && issue == Fresh(groups[j], night, LastKeyed(t, groups[j].key));
    assert groups[j] in groups;
    FreshHasOneKey(groups[j], night, LastKeyed(t, groups[j].key), g.key);
    var l :| 0 <= l < |groups| && groups[l] == g;
    assert j == l;
  }

  /** After a night without an error in its log, publishing the same night again creates nothing,
      comments on nothing and labels nothing, whatever becomes of the calls this time. */
  lemma SecondRunDoesNothing(
      w: World, fates: Fates, groups: seq<Group>, night: Night, calls: nat, log: seq<Entry>, again: Fates)
    requires DistinctKeys(groups) && forall g | g in groups :: PlainText(g)
    requires Clean(Publish(w, fates, groups, night).log)
    ensures
      var published := Publish(w, fates, groups, night).issues;
      Publish(World(published, calls, log), again, groups, night).issues == published
  {
    if groups != [] {
      var r := Publish(w, fates, groups, night);
      NotCutShort(w, fates, groups, night);
      AllServed(Called(w), fates, w.issues, groups, night);
      AllExtends(Called(w), fates, w.issues, groups, night);
      forall g | g in groups ensures AtRest(r.issues, g, night) {
        ServedIsAtRest(w.issues, r.issues, groups, g, night);
      }
      RestingRunDoesNothing(Called(World(r.issues, calls, log)), again, groups, night);
    }
  }

  lemma NotCutShort(w: World, fates: Fates, groups: seq<Group>, night: Night)
    requires groups != [] && Clean(Publish(w, fates, groups, night).log)
    ensures Publish(w, fates, groups, night) == PublishAll(Called(w), fates, w.issues, groups, night)
  {
    var stopped := Logged(Called(w), GhError, None, "*");
    assert stopped.log[|w.log|].action == GhError;
    assert !Clean(stopped.log);
  }

  // ---- what an open issue of the key does not prevent --------------------------------------------------------------

  /** Publishing the group opens an issue, at this point of the night. */
  predicate Opens(w: World, fates: Fates, listed: seq<Issue>, g: Group, night: Night) {
    Wanted(listed, g.key) && !night.leaks(IssueText(g, night, LastKeyed(listed, g.key))) && TakesEffect(fates(w.calls))
  }

  lemma OpensIff(w: World, fates: Fates, listed: seq<Issue>, g: Group, night: Night)
    requires |listed| <= |w.issues|
    ensures
      var u := PublishGroup(w, fates, listed, g, night).issues;
      if Opens(w, fates, listed, g, night) then u == w.issues + [Fresh(g, night, LastKeyed(listed, g.key))]
      else |u| == |w.issues|
  {
  }

  ghost predicate HasNew(listed: seq<Issue>, u: seq<Issue>, key: string) {
    exists k | |listed| <= k < |u| :: Keyed(u[k], key)
  }

  /** Issues made for other groups do not have the key. */
  lemma OthersMakeNone(listed: seq<Issue>, u: seq<Issue>, groups: seq<Group>, night: Night, g: Group)
    requires Additions(listed, u, groups, night) && DistinctKeys(groups + [g])
    requires forall h | h in groups :: PlainText(h)
    ensures !HasNew(listed, u, g.key)
  {
    forall k | |listed| <= k < |u| ensures !Keyed(u[k], g.key) {
      if Keyed(u[k], g.key) {
        MadeIsWanted(listed, u[k], groups, night, g.key);
      }
      KeyLineOfMade(listed, u[k], groups, g, night);
    }
  }

  lemma GroupMakesIts(w: World, fates: Fates, listed: seq<Issue>, g: Group, night: Night, key: string)
    requires |listed| <= |w.issues| && PlainText(g)
    ensures
      HasNew(listed, PublishGroup(w, fates, listed, g, night).issues, key) <==>
      HasNew(listed, w.issues, key) || (key == g.key && Opens(w, fates, listed, g, night))
  {
    var u := PublishGroup(w, fates, listed, g, night).issues;
    OpensIff(w, fates, listed, g, night);
    GroupTouchesOld(w, fates, listed, g, night);
    FreshHasOneKey(g, night, LastKeyed(listed, g.key), key);
    if Opens(w, fates, listed, g, night) {
      assert u[|w.issues|] == Fresh(g, night, LastKeyed(listed, g.key));
    }
  }

  /** One more group opens an issue for its own key alone. */
  lemma OneMoreGroup(w: World, fates: Fates, init: seq<Group>, last: Group, night: Night, key: string)
    requires DistinctKeys(init + [last]) && forall g | g in init + [last] :: PlainText(g)
    ensures
      var before := PublishAll(w, fates, w.issues, init, night);
      HasNew(w.issues, PublishAll(w, fates, w.issues, init + [last], night).issues, key) <==>
      if key == last.key then Opens(before, fates, w.issues, last, night) else HasNew(w.issues, before.issues, key)
  {
    var before := PublishAll(w, fates, w.issues, init, night);
    assert (init + [last])[..|init|] == init && last in init + [last] && forall g | g in init :: g in init + [last];
    InitIsDistinct(init, last);
    AllExtends(w, fates, w.issues, init, night);
    GroupMakesIts(before, fates, w.issues, last, night, key);
    if key == last.key {
      OthersMakeNone(w.issues, before.issues, init, night, last);
    }
  }

  lemma InitIsDistinct(init: seq<Group>, last: Group)
    requires DistinctKeys(init + [last])
    ensures DistinctKeys(init) && forall i | 0 <= i < |init| :: init[i].key != last.key
  {
    var all := init + [last];
    assert forall i | 0 <= i < |init| :: all[i] == init[i];
    assert all[|init|] == last;
  }

  lemma {:induction false} OpenedIff(w: World, fates: Fates, groups: seq<Group>, night: Night, j: nat)
    requires DistinctKeys(groups) && j < |groups| && forall g | g in groups :: PlainText(g)
    ensures
      HasNew(w.issues, PublishAll(w, fates, w.issues, groups, night).issues, groups[j].key) <==>
      Opens(PublishAll(w, fates, w.issues, groups[..j], night), fates, w.issues, groups[j], night)
    decreases |groups|
  {
    var init, last := groups[..|groups| - 1], groups[|groups| - 1];
    GroupsBefore(groups, init, last, j);
    OneMoreGroup(w, fates, init, last, night, groups[j].key);
    if j < |init| {
      OpenedIff(w, fates, init, night, j);
    }
  }

  lemma GroupsBefore(groups: seq<Group>, init: seq<Group>, last: Group, j: nat)
    requires DistinctKeys(groups) && j < |groups| && init == groups[..|groups| - 1] && last == groups[|groups| - 1]
    ensures groups == init + [last] && DistinctKeys(init) && forall g | g in init :: g in groups
    ensures j == |init| ==> groups[j] == last && groups[..j] == init
    ensures j < |init| ==> init[j] == groups[j] && init[..j] == groups[..j] && groups[j].key != last.key
  {
    assert groups == init + [last];
    InitIsDistinct(init, last);
  }

  /** Only issues labelled `perf` are looked at. With the key's issue open, a night opens another
      exactly if the label was taken off every such issue, unless the owner closed the last labelled
      one, the text may not be published, a call fails without effect or the list is too long. */
  lemma AnotherOpensIff(w: World, fates: Fates, groups: seq<Group>, night: Night, j: nat, n: nat)
    requires DistinctKeys(groups) && j < |groups| && forall g | g in groups :: PlainText(g)
    requires n < |w.issues| && w.issues[n].open && KEY_PREFIX + groups[j].key in w.issues[n].body
    ensures
      var key := groups[j].key;
      HasNew(w.issues, Publish(w, fates, groups, night).issues, key) <==>
      && fates(w.calls) == Succeeds && CountPerf(w.issues) < LIST_LIMIT
      && (forall i | 0 <= i < |w.issues| && w.issues[i].open && KEY_PREFIX + key in w.issues[i].body ::
            "perf" !in w.issues[i].labels)
      && !(LastKeyed(w.issues, key).Some? && ClosedByOwner(w.issues[LastKeyed(w.issues, key).value]))
      && !night.leaks(IssueText(groups[j], night, LastKeyed(w.issues, key)))
      && TakesEffect(fates(PublishAll(Called(w), fates, w.issues, groups[..j], night).calls))
  {
    var key := groups[j].key;
    OpenedIff(Called(w), fates, groups, night, j);
    if FirstOpen(w.issues, key).None? {
      forall i | 0 <= i < |w.issues| && w.issues[i].open && KEY_PREFIX + key in w.issues[i].body
        ensures "perf" !in w.issues[i].labels
      {
        assert !Keyed(w.issues[i], key);
      }
    }
  }

  function Always(n: nat): Fate { Succeeds }

  function Never(t: Text): bool { false }

  function NoText(repeatOf: Option<nat>): Text { [] }

  /** A tracker on which it does: the open issue of the key lost its label. */
  lemma UnlabelledIsDuplicated()
    ensures
      var w := World([Issue(true, "", [KEY_PREFIX + "k"], {}, [])], 0, []);
      |Publish(w, Always, [Group("k", false, NoText)], Night("n", Never)).issues| == 2
  {
    var w := World([Issue(true, "", [KEY_PREFIX + "k"], {}, [])], 0, []);
    var g, night := Group("k", false, NoText), Night("n", Never);
    assert FirstOpen(w.issues, "k").None? && LastKeyed(w.issues, "k").None?;
    OpensIff(Called(w), Always, w.issues, g, night);
    assert w.issues[..0] == [] && CountPerf(w.issues) == 0;
    assert [g][..0] == [];
    assert PublishAll(Called(w), Always, w.issues, [g], night) == PublishGroup(Called(w), Always, w.issues, g, night);
  }
}
