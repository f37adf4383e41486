/** What every registration and every read keeps, and what the memo table may rely on. */
module StoreInvariants {
  import opened TextEdits
  import opened SourceStore

  // ---- how the inputs may move --------------------------------------------------------

  /** `j` comes after `i`: nothing is forgotten, a field keeps its stamp or is stamped in a
      later revision, and such a write is seen at every durability the field had. */
  ghost predicate StampsAdvance(i: Inputs, j: Inputs) {
    && i.clock.now <= j.clock.now
    && (forall d: Durability :: i.clock.LastChanged(d) <= j.clock.LastChanged(d))
    && (forall k | i.Has(k) ::
          && j.Has(k)
          && (j.StampOf(k) == i.StampOf(k) || WriteIsSeen(i, j, k)))
  }

  ghost predicate WriteIsSeen(i: Inputs, j: Inputs, k: Key)
    requires i.Has(k) && j.Has(k)
  {
    && i.clock.now < j.StampOf(k).changedAt
    && (forall d: Durability | d.AtMost(i.StampOf(k).durability) :: i.clock.now < j.clock.LastChanged(d))
  }

  /** A field with its old stamp has its old value; a file whose revision field kept its stamp
      also kept its overlay, or kept having none. */
  ghost predicate ValuesFollowStamps(i: Inputs, j: Inputs)
    requires i.WellFormed() && j.WellFormed()
    requires StampsAdvance(i, j)
  {
    && (forall f | f in i.revisions && j.Unchanged(RevisionField(f), i.clock.now) ::
          && j.revisions[f].revision.value == i.revisions[f].revision.value
          && (f in j.overlays <==> f in i.overlays)
          && (f in i.overlays ==>
                && j.overlays[f] == i.overlays[f]
                && j.texts[j.overlays[f]] == i.texts[i.overlays[f]]))
    && (forall f | f in i.revisions && j.Unchanged(UnreadableField(f), i.clock.now) ::
          j.revisions[f].unreadable.value == i.revisions[f].unreadable.value)
    && (forall f | f in i.rootOf && j.Unchanged(RootOfField(f), i.clock.now) ::
          j.rootOf[f].value == i.rootOf[f].value)
    && (forall r | r in i.roots && j.Unchanged(RootField(r), i.clock.now) ::
          j.roots[r].value == i.roots[r].value)
  }

  ghost predicate Advances(i: Inputs, j: Inputs) {
    && i.WellFormed() && j.WellFormed()
    && StampsAdvance(i, j)
    && ValuesFollowStamps(i, j)
  }

  /** No stamp is from the future. */
  ghost predicate StampsPast(i: Inputs) {
    forall k | i.Has(k) :: i.StampOf(k).changedAt <= i.clock.now
  }

  /** A resident overlay hashes to the recorded revision. */
  ghost predicate OverlaysMatch(env: Env, i: Inputs)
    requires i.WellFormed()
  {
    forall f | f in i.overlays :: env.hash(i.texts[i.overlays[f]].value) == i.revisions[f].revision.value
  }

  ghost predicate InputsOk(env: Env, i: Inputs) {
    i.WellFormed() && StampsPast(i) && OverlaysMatch(env, i)
  }

  // ---- what the parser is trusted with ------------------------------------------------------

  ghost predicate ParserTrusted(env: Env) {
    env.verify || env.ReparseSound()
  }

  ghost predicate Trusted(env: Env) {
    env.CollisionFree() && ParserTrusted(env)
  }

  /** A parse is that of its text, if nothing it was made with can mislead. All that is said of
      texts and flags holds regardless. */
  ghost predicate ParseOf(env: Env, p: Parse, text: Text) {
    Trusted(env) ==> p == env.full(text)
  }

  // ---- what a memo's dependencies guarantee ----------------------------------------------

  /** A dependency unchanged since the memo was verified is at least as durable as the memo;
      one that did change was seen to change at the memo's durability. */
  ghost predicate Shielded<V>(i: Inputs, m: Memo<V>) {
    forall k | k in m.deps ::
      && i.Has(k)
      && (if i.StampOf(k).changedAt <= m.verifiedAt then m.durability.AtMost(i.StampOf(k).durability)
          else m.verifiedAt < i.clock.LastChanged(m.durability))
  }

  /** The dependencies reach everything a read of the file's text looks at, as far as they
      are unchanged. */
  ghost predicate Follows(i: Inputs, f: FileId, deps: set<Key>, since: nat) {
    && f in i.revisions
    && RevisionField(f) in deps
    && (i.Unchanged(RevisionField(f), since) ==>
          if f in i.overlays then TextField(i.overlays[f]) in deps
          else FollowsDisk(i, f, deps, since))
  }

  ghost predicate FollowsDisk(i: Inputs, f: FileId, deps: set<Key>, since: nat) {
    && f in i.rootOf
    && RootOfField(f) in deps
    && (i.Unchanged(RootOfField(f), since) ==>
          var r := i.rootOf[f].value;
          && r in i.roots
          && RootField(r) in deps
          && (i.Unchanged(RootField(r), since) ==> f in i.roots[r].value.files))
  }

  /** While the file's revision stands, the value is the text of that revision. */
  ghost predicate TextOf(env: Env, i: Inputs, f: FileId, text: Text)
    requires i.WellFormed() && f in i.revisions
  {
    && env.hash(text) == i.revisions[f].revision.value
    && (f in i.overlays ==> i.texts[i.overlays[f]].value == text)
  }

  ghost predicate TextMemoOk(env: Env, i: Inputs, f: FileId, m: Memo<Text>)
    requires i.WellFormed()
  {
    && m.changedAt <= m.verifiedAt <= i.clock.now
    && Shielded(i, m)
    && Follows(i, f, m.deps, m.verifiedAt)
    && (i.Unchanged(RevisionField(f), m.verifiedAt) ==> TextOf(env, i, f, m.value))
  }

  /** A parse memo against the text memo of its file. */
  ghost predicate ParseMemoOk(env: Env, i: Inputs, f: FileId, t: Memo<Text>, p: Memo<Parse>)
    requires i.WellFormed()
  {
    && p.verifiedAt <= i.clock.now
    && Shielded(i, p)
    && Follows(i, f, p.deps, p.verifiedAt)
    && (t.changedAt <= p.verifiedAt || i.Unchanged(RevisionField(f), p.verifiedAt) ==>
          ParseOf(env, p.value, t.value))
    && (i.Unchanged(RevisionField(f), p.verifiedAt) ==> TextOf(env, i, f, t.value))
    && (t.changedAt <= p.verifiedAt || DeepValid(i, p) ==> p.durability.AtMost(t.durability))
  }

  /** A memo of the unreadable flag follows it, once it depends on it at all. */
  ghost predicate UnreadMemoOk(i: Inputs, f: FileId, m: Memo<bool>) {
    && m.verifiedAt <= i.clock.now
    && Shielded(i, m)
    && (m.deps == {} ==> !m.value)
    && (m.deps != {} ==>
          && m.deps == {UnreadableField(f)}
          && (i.Unchanged(UnreadableField(f), m.verifiedAt) ==> m.value == i.revisions[f].unreadable.value))
  }

  /** Only an overlay has a snapshot, and its parse is the full parse of its own text. */
  ghost predicate SnapshotsOk(env: Env, db: Db) {
    forall f | f in db.snapshots ::
      f in db.inputs.overlays && ParseOf(env, db.snapshots[f].parse, db.snapshots[f].text)
  }

  ghost predicate Inv(env: Env, db: Db) {
    && InputsOk(env, db.inputs)
    && SnapshotsOk(env, db)
    && db.stats.Valid()
    && (forall f | f in db.texts :: TextMemoOk(env, db.inputs, f, db.texts[f]))
    && (forall f | f in db.parses ::
          f in db.texts && ParseMemoOk(env, db.inputs, f, db.texts[f], db.parses[f]))
    && (forall f | f in db.unread :: UnreadMemoOk(db.inputs, f, db.unread[f]))
  }

  // ---- the shield ------------------------------------------------------------------------

  /** A memo accepted without looking at its dependencies would also be accepted by looking:
      the durability shortcut never hides a write. */
  lemma ShieldIsSound<V>(i: Inputs, m: Memo<V>)
    requires Shielded(i, m)
    ensures ShallowValid(i, m) ==> DeepValid(i, m)
  {
  }

  // ---- memos survive an advance of the inputs -----------------------------------------------

  lemma UnchangedBefore(i: Inputs, j: Inputs, k: Key, since: nat)
    requires StampsAdvance(i, j) && i.Has(k) && since <= i.clock.now
    requires j.Unchanged(k, since)
    ensures i.Unchanged(k, since) && j.StampOf(k) == i.StampOf(k)
  {
  }

  lemma ShieldedSurvives<V>(i: Inputs, j: Inputs, m: Memo<V>)
    requires Advances(i, j) && Shielded(i, m) && m.verifiedAt <= i.clock.now
    ensures Shielded(j, m)
  {
    forall k | k in m.deps
      ensures j.Has(k)
      ensures if j.StampOf(k).changedAt <= m.verifiedAt then m.durability.AtMost(j.StampOf(k).durability)
              else m.verifiedAt < j.clock.LastChanged(m.durability)
    {
      assert i.Has(k);
      if i.StampOf(k).changedAt <= m.verifiedAt && j.StampOf(k) != i.StampOf(k) {
        assert WriteIsSeen(i, j, k);
      }
    }
  }

  lemma FollowsSurvives(i: Inputs, j: Inputs, f: FileId, deps: set<Key>, since: nat)
    requires Advances(i, j) && Follows(i, f, deps, since) && since <= i.clock.now
    ensures Follows(j, f, deps, since)
  {
    assert i.Has(RevisionField(f));
    if j.Unchanged(RevisionField(f), since) {
      UnchangedBefore(i, j, RevisionField(f), since);
      if f !in i.overlays {
        FollowsDiskSurvives(i, j, f, deps, since);
      }
    }
  }

  lemma FollowsDiskSurvives(i: Inputs, j: Inputs, f: FileId, deps: set<Key>, since: nat)
    requires Advances(i, j) && FollowsDisk(i, f, deps, since) && since <= i.clock.now
    ensures FollowsDisk(j, f, deps, since)
  {
    assert i.Has(RootOfField(f)) && j.Has(RootOfField(f));
    if j.Unchanged(RootOfField(f), since) {
      UnchangedBefore(i, j, RootOfField(f), since);
      var r := i.rootOf[f].value;
      assert i.Has(RootField(r)) && j.Has(RootField(r));
      if j.Unchanged(RootField(r), since) {
        UnchangedBefore(i, j, RootField(r), since);
      }
    }
  }

  lemma TextOfSurvives(env: Env, i: Inputs, j: Inputs, f: FileId, text: Text, since: nat)
    requires Advances(i, j) && f in i.revisions && since <= i.clock.now
    requires i.Unchanged(RevisionField(f), since) ==> TextOf(env, i, f, text)
    ensures f in j.revisions
    ensures j.Unchanged(RevisionField(f), since) ==> TextOf(env, j, f, text)
  {
    assert i.Has(RevisionField(f)) && j.Has(RevisionField(f));
    if j.Unchanged(RevisionField(f), since) {
      UnchangedBefore(i, j, RevisionField(f), since);
    }
  }

  lemma TextMemoSurvives(env: Env, i: Inputs, j: Inputs, f: FileId, m: Memo<Text>)
    requires Advances(i, j) && TextMemoOk(env, i, f, m)
    ensures TextMemoOk(env, j, f, m)
  {
    ShieldedSurvives(i, j, m);
    FollowsSurvives(i, j, f, m.deps, m.verifiedAt);
    TextOfSurvives(env, i, j, f, m.value, m.verifiedAt);
  }

  lemma DeepValidBefore<V>(i: Inputs, j: Inputs, m: Memo<V>)
    requires Advances(i, j) && Shielded(i, m) && m.verifiedAt <= i.clock.now
    requires DeepValid(j, m)
    ensures DeepValid(i, m)
  {
    forall k | k in m.deps
      ensures i.Unchanged(k, m.verifiedAt)
    {
      UnchangedBefore(i, j, k, m.verifiedAt);
    }
  }

  lemma ParseMemoSurvives(env: Env, i: Inputs, j: Inputs, f: FileId, t: Memo<Text>, p: Memo<Parse>)
    requires Advances(i, j) && ParseMemoOk(env, i, f, t, p)
    ensures ParseMemoOk(env, j, f, t, p)
  {
    ShieldedSurvives(i, j, p);
    FollowsSurvives(i, j, f, p.deps, p.verifiedAt);
    TextOfSurvives(env, i, j, f, t.value, p.verifiedAt);
    assert i.Has(RevisionField(f));
    if j.Unchanged(RevisionField(f), p.verifiedAt) {
      UnchangedBefore(i, j, RevisionField(f), p.verifiedAt);
    }
    if DeepValid(j, p) {
      DeepValidBefore(i, j, p);
    }
  }

  lemma UnreadMemoSurvives(i: Inputs, j: Inputs, f: FileId, m: Memo<bool>)
    requires Advances(i, j) && UnreadMemoOk(i, f, m)
    ensures UnreadMemoOk(j, f, m)
  {
    ShieldedSurvives(i, j, m);
    if m.deps != {} && j.Unchanged(UnreadableField(f), m.verifiedAt) {
      assert UnreadableField(f) in m.deps && i.Has(UnreadableField(f));
      UnchangedBefore(i, j, UnreadableField(f), m.verifiedAt);
    }
  }

  /** An advance of the inputs, with the snapshots that stay, keeps the whole invariant. */
  lemma AdvanceKeepsInv(env: Env, db: Db, j: Inputs, snapshots: map<FileId, Snapshot>)
    requires Inv(env, db) && Advances(db.inputs, j) && InputsOk(env, j)
    requires SnapshotsOk(env, db.(inputs := j, snapshots := snapshots))
    ensures Inv(env, db.(inputs := j, snapshots := snapshots))
  {
    forall f | f in db.texts ensures TextMemoOk(env, j, f, db.texts[f]) {
      TextMemoSurvives(env, db.inputs, j, f, db.texts[f]);
    }
    forall f | f in db.parses ensures ParseMemoOk(env, j, f, db.texts[f], db.parses[f]) {
      ParseMemoSurvives(env, db.inputs, j, f, db.texts[f], db.parses[f]);
    }
    forall f | f in db.unread ensures UnreadMemoOk(j, f, db.unread[f]) {
      UnreadMemoSurvives(db.inputs, j, f, db.unread[f]);
    }
  }
}
