/** Reads keep the invariant, and return what a from-scratch run would. */
module StoreReads {
  import opened Common
  import opened TextEdits
  import opened SourceStore
  import opened StoreInvariants

  // ---- a fresh text ------------------------------------------------------------------------

  lemma ReadStampBounds(env: Env, i: Inputs, disk: Disk, f: FileId)
    requires InputsOk(env, i) && ReadUnmemoized(env, i, disk, f).Ok?
    ensures ReadStamp(i, f).changedAt <= i.clock.now
    ensures forall k | k in ReadDeps(i, f) ::
              && i.Has(k)
              && i.StampOf(k).changedAt <= ReadStamp(i, f).changedAt
              && ReadStamp(i, f).durability.AtMost(i.StampOf(k).durability)
  {
    assert i.Has(RevisionField(f)) && i.StampOf(RevisionField(f)).changedAt <= i.clock.now;
    if f in i.overlays {
      assert i.Has(TextField(i.overlays[f])) && i.StampOf(TextField(i.overlays[f])).changedAt <= i.clock.now;
    } else {
      assert i.Has(RootOfField(f)) && i.StampOf(RootOfField(f)).changedAt <= i.clock.now;
      assert i.Has(RootField(i.rootOf[f].value)) && i.StampOf(RootField(i.rootOf[f].value)).changedAt <= i.clock.now;
    }
  }

  /** Dependencies that follow the file and stand still contain everything a read looks at now. */
  lemma ReadStaysWithin(env: Env, i: Inputs, disk: Disk, f: FileId, deps: set<Key>, since: nat)
    requires InputsOk(env, i) && ReadUnmemoized(env, i, disk, f).Ok?
    requires Follows(i, f, deps, since)
    requires ReadStamp(i, f).changedAt <= since
    ensures ReadDeps(i, f) <= deps
  {
    ReadStampBounds(env, i, disk, f);
    assert RevisionField(f) in ReadDeps(i, f);
    if f !in i.overlays {
      assert RootOfField(f) in ReadDeps(i, f) && RootField(i.rootOf[f].value) in ReadDeps(i, f);
    }
  }

  lemma StandingDepsBoundTheRead(env: Env, i: Inputs, disk: Disk, f: FileId, deps: set<Key>, since: nat)
    requires InputsOk(env, i) && ReadUnmemoized(env, i, disk, f).Ok?
    requires Follows(i, f, deps, since)
    requires forall k | k in deps :: i.Unchanged(k, since)
    ensures ReadStamp(i, f).changedAt <= since
  {
    assert i.Unchanged(RevisionField(f), since);
    if f in i.overlays {
      assert i.Unchanged(TextField(i.overlays[f]), since);
    } else {
      assert i.Unchanged(RootOfField(f), since);
      assert i.Unchanged(RootField(i.rootOf[f].value), since);
    }
  }

  lemma WeakestOfTheRead(env: Env, i: Inputs, disk: Disk, f: FileId, d: Durability)
    requires InputsOk(env, i) && ReadUnmemoized(env, i, disk, f).Ok?
    requires forall k | k in ReadDeps(i, f) :: i.Has(k) && d.AtMost(i.StampOf(k).durability)
    ensures d.AtMost(ReadStamp(i, f).durability)
  {
    assert RevisionField(f) in ReadDeps(i, f);
    if f in i.overlays {
      assert TextField(i.overlays[f]) in ReadDeps(i, f);
    } else {
      assert RootOfField(f) in ReadDeps(i, f);
      assert RootField(i.rootOf[f].value) in ReadDeps(i, f);
    }
  }

  lemma FreshTextMemoOk(env: Env, db: Db, disk: Disk, f: FileId)
    requires Inv(env, db) && ReadUnmemoized(env, db.inputs, disk, f).Ok?
    ensures
      var (db', _) := ExecuteText(env, db, disk, f);
      f in db'.texts && TextMemoOk(env, db.inputs, f, db'.texts[f])
  {
    ReadStampBounds(env, db.inputs, disk, f);
  }

  /** Two texts of one recorded revision are one text. */
  lemma TextOfRevisionIsUnique(env: Env, i: Inputs, f: FileId, a: Text, b: Text)
    requires env.CollisionFree() && i.WellFormed() && f in i.revisions
    requires TextOf(env, i, f, a) && TextOf(env, i, f, b)
    ensures a == b
  {
  }

  /** The parse of a file stays right when its text is computed anew. */
  lemma ParseOutlivesFreshText(env: Env, db: Db, disk: Disk, f: FileId)
    requires Inv(env, db)
    requires ReadUnmemoized(env, db.inputs, disk, f).Ok? && f in db.parses
    ensures
      var (db', _) := ExecuteText(env, db, disk, f);
      f in db'.texts && ParseMemoOk(env, db.inputs, f, db'.texts[f], db.parses[f])
  {
    var i, t, p := db.inputs, db.texts[f], db.parses[f];
    var m := ExecuteText(env, db, disk, f).0.texts[f];
    FreshTextMemoOk(env, db, disk, f);
    ReadStampBounds(env, i, disk, f);
    assert RevisionField(f) in ReadDeps(i, f);
    if Trusted(env) && i.Unchanged(RevisionField(f), p.verifiedAt) {
      TextOfRevisionIsUnique(env, i, f, t.value, m.value);
    }
    if DeepValid(i, p) {
      StandingDepsBoundTheRead(env, i, disk, f, p.deps, p.verifiedAt);
    }
    if ReadStamp(i, f).changedAt <= p.verifiedAt {
      ReadStaysWithin(env, i, disk, f, p.deps, p.verifiedAt);
      WeakestOfTheRead(env, i, disk, f, p.durability);
    }
  }

  lemma NewTextMemoKeepsInv(env: Env, db: Db, f: FileId, m: Memo<Text>)
    requires Inv(env, db) && TextMemoOk(env, db.inputs, f, m)
    requires f in db.parses ==> ParseMemoOk(env, db.inputs, f, m, db.parses[f])
    ensures Inv(env, db.(texts := db.texts[f := m]))
  {
  }

  lemma NewParseMemoKeepsInv(env: Env, db: Db, f: FileId, m: Memo<Parse>)
    requires Inv(env, db) && f in db.texts && ParseMemoOk(env, db.inputs, f, db.texts[f], m)
    ensures Inv(env, db.(parses := db.parses[f := m]))
  {
  }

  lemma ExecuteTextMovesTexts(env: Env, db: Db, disk: Disk, f: FileId)
    requires db.inputs.WellFormed()
    ensures
      var (db', r) := ExecuteText(env, db, disk, f);
      && db'.inputs == db.inputs && db'.snapshots == db.snapshots && db'.stats == db.stats && db'.parses == db.parses
      && (r.Ok? ==> db'.texts[f].verifiedAt == db.inputs.clock.now && db' == db.(texts := db.texts[f := db'.texts[f]]))
      && r == ReadUnmemoized(env, db.inputs, disk, f)
  {
  }

  lemma ExecuteTextKeepsInv(env: Env, db: Db, disk: Disk, f: FileId)
    requires Inv(env, db)
    ensures Inv(env, ExecuteText(env, db, disk, f).0)
    ensures ExecuteText(env, db, disk, f).0.inputs == db.inputs
    ensures ExecuteText(env, db, disk, f).0.snapshots == db.snapshots
    ensures ExecuteText(env, db, disk, f).0.stats == db.stats
    ensures ExecuteText(env, db, disk, f).0.parses == db.parses
    ensures ExecuteText(env, db, disk, f).1.Ok? ==>
              ExecuteText(env, db, disk, f).0.texts[f].verifiedAt == db.inputs.clock.now
    ensures ExecuteText(env, db, disk, f).1 == ReadUnmemoized(env, db.inputs, disk, f)
  {
    ExecuteTextMovesTexts(env, db, disk, f);
    if ReadUnmemoized(env, db.inputs, disk, f).Ok? {
      FreshTextMemoOk(env, db, disk, f);
      if f in db.parses {
        ParseOutlivesFreshText(env, db, disk, f);
      }
      NewTextMemoKeepsInv(env, db, f, ExecuteText(env, db, disk, f).0.texts[f]);
    } else if ReadUnmemoized(env, db.inputs, disk, f).Superseded? {
      assert Inv(env, db.(drifts := db.drifts + 1));
    }
  }

  // ---- a memo that still holds ----------------------------------------------------------------

  lemma VerifiedTextMemoOk(env: Env, i: Inputs, f: FileId, m: Memo<Text>)
    requires InputsOk(env, i) && TextMemoOk(env, i, f, m) && DeepValid(i, m)
    ensures TextMemoOk(env, i, f, Verified(i, m)) && TextOf(env, i, f, m.value)
  {
    assert i.Unchanged(RevisionField(f), m.verifiedAt);
  }

  lemma VerifyTextKeepsInv(env: Env, db: Db, f: FileId)
    requires Inv(env, db) && f in db.texts && Valid(db.inputs, db.texts[f])
    ensures Inv(env, VerifyText(db, f))
    ensures f in db.inputs.revisions && TextOf(env, db.inputs, f, db.texts[f].value)
  {
    ShieldIsSound(db.inputs, db.texts[f]);
    VerifiedTextMemoOk(env, db.inputs, f, db.texts[f]);
    var m := Verified(db.inputs, db.texts[f]);
    assert f in db.parses ==> ParseMemoOk(env, db.inputs, f, m, db.parses[f]);
    NewTextMemoKeepsInv(env, db, f, m);
  }

  /** What the engine may say about a file it holds a valid text memo of: a from-scratch read
      returns that very text, unless the file is disk-backed and its bytes on disk are gone or
      are no longer the recorded ones. No registration can be missing. */
  lemma ValidTextIsFromScratchText(env: Env, db: Db, disk: Disk, f: FileId)
    requires env.CollisionFree() && Inv(env, db)
    requires f in db.texts && Valid(db.inputs, db.texts[f])
    ensures
      var v := db.texts[f].value;
      var scratch := ReadUnmemoized(env, db.inputs, disk, f);
      if f in db.inputs.overlays then scratch == Ok(v)
      else
        && DiskPath(db.inputs, f).Ok?
        && var path := DiskPath(db.inputs, f).value;
           if path !in disk then scratch == Panicked(CannotRead)
           else if disk[path] == v then scratch == Ok(v)
           else scratch == Superseded
  {
    var i, m := db.inputs, db.texts[f];
    ShieldIsSound(i, m);
    assert i.Unchanged(RevisionField(f), m.verifiedAt);
    assert TextOf(env, i, f, m.value);
    if f !in i.overlays {
      assert i.Unchanged(RootOfField(f), m.verifiedAt);
      assert i.Unchanged(RootField(i.rootOf[f].value), m.verifiedAt);
    }
  }

  lemma FetchTextKeepsInv(env: Env, db: Db, disk: Disk, f: FileId)
    requires Inv(env, db)
    ensures
      var (db', read) := FetchText(env, db, disk, f);
      && Inv(env, db')
      && db'.inputs == db.inputs && db'.snapshots == db.snapshots && db'.stats == db.stats
      && (read.Ok? ==>
            && f in db'.texts && db'.texts[f].value == read.value
            && db'.texts[f].verifiedAt == db.inputs.clock.now
            && DeepValid(db.inputs, db'.texts[f])
            && f in db.inputs.revisions && TextOf(env, db.inputs, f, read.value))
  {
    if f in db.texts && db.texts[f].resident && Valid(db.inputs, db.texts[f]) {
      VerifyTextKeepsInv(env, db, f);
    } else {
      ExecuteTextKeepsInv(env, db, disk, f);
      if ReadUnmemoized(env, db.inputs, disk, f).Ok? {
        FreshTextMemoOk(env, db, disk, f);
      }
    }
    var (db', read) := FetchText(env, db, disk, f);
    if read.Ok? {
      NowIsDeep(env, db', f);
    }
  }

  /** A memo verified in the current revision has all its dependencies standing. */
  lemma NowIsDeep(env: Env, db: Db, f: FileId)
    requires Inv(env, db) && f in db.texts && db.texts[f].verifiedAt == db.inputs.clock.now
    ensures DeepValid(db.inputs, db.texts[f])
  {
    forall k | k in db.texts[f].deps ensures db.inputs.Unchanged(k, db.texts[f].verifiedAt) {
    }
  }

  // ---- parsing -------------------------------------------------------------------------------

  /** The reparse path costs less and returns the same: the full parse of the text. With
      verification on this needs nothing of the reparse. */
  lemma ReparseRefinesFullParse(env: Env, s: Snapshot, text: Text)
    requires ParserTrusted(env) && s.parse == env.full(s.text)
    ensures ReparseOrFull(env, s, text).0 == env.full(text)
  {
    EditRebuildsTheNewText(s.text, text);
    match EditBetween(s.text, text)
    case None =>
    case Some(edit) =>
      if !env.verify {
        assert env.reparse(env.full(s.text), s.text, text, edit).Spliced? ==>
            env.reparse(env.full(s.text), s.text, text, edit).parse == env.full(text);
      }
  }

  /** Exactly one counter moves, by one. */
  lemma CountMovesOneCounter(s: Stats, o: Outcome, q: Outcome)
    requires s.Valid()
    ensures s.Count(o).Valid()
    ensures s.Count(o).Of(q) == s.Of(q) + (if o == q then 1 else 0)
  {
    if o.RefusedParse? && q.RefusedParse? && o.why.Index() == q.why.Index() {
      IndexIsInjective(o.why, q.why);
    }
  }

  lemma IndexIsInjective(a: Refusal, b: Refusal)
    requires a.Index() == b.Index()
    ensures a == b
  {
  }

  lemma ParseTextKeepsInv(env: Env, db: Db, f: FileId, text: Text)
    requires Inv(env, db)
    ensures
      var (db', p) := ParseText(env, db, f, text);
      && ParseOf(env, p, text)
      && Inv(env, db') && db'.inputs == db.inputs && db'.texts == db.texts && db'.parses == db.parses
      && exists o :: db'.stats == db.stats.Count(o)
  {
    if Trusted(env) && f in db.inputs.overlays && f in db.snapshots {
      ReparseRefinesFullParse(env, db.snapshots[f], text);
    }
    var (db', p) := ParseText(env, db, f, text);
    var outcome :=
      if f in db.inputs.overlays && f in db.snapshots then ReparseOrFull(env, db.snapshots[f], text).1 else FullParse;
    assert db'.stats == db.stats.Count(outcome);
    CountMovesOneCounter(db.stats, outcome, outcome);
  }

  lemma FreshParseMemoOk(env: Env, i: Inputs, f: FileId, t: Memo<Text>, p: Memo<Parse>)
    requires InputsOk(env, i) && TextMemoOk(env, i, f, t) && t.verifiedAt == i.clock.now
    requires p.verifiedAt == i.clock.now && p.deps == t.deps && p.durability.AtMost(t.durability)
    requires ParseOf(env, p.value, t.value)
    ensures ParseMemoOk(env, i, f, t, p)
  {
    assert i.Has(RevisionField(f)) && i.Unchanged(RevisionField(f), t.verifiedAt);
    forall k | k in p.deps ensures i.Has(k) && p.durability.AtMost(i.StampOf(k).durability) {
      assert i.StampOf(k).changedAt <= t.verifiedAt;
    }
  }

  lemma ExecuteParseKeepsInv(env: Env, db: Db, disk: Disk, f: FileId)
    requires Inv(env, db)
    ensures
      var (db', read) := ExecuteParse(env, db, disk, f);
      && Inv(env, db') && db'.inputs == db.inputs
      && (if read.Ok? then exists o :: db'.stats == db.stats.Count(o) else db'.stats == db.stats)
      && (read.Ok? ==>
            && f in db.inputs.revisions && f in db'.texts
            && TextOf(env, db.inputs, f, db'.texts[f].value)
            && ParseOf(env, read.value, db'.texts[f].value))
  {
    FetchTextKeepsInv(env, db, disk, f);
    var (db1, read) := FetchText(env, db, disk, f);
    if read.Ok? {
      ParseTextKeepsInv(env, db1, f, read.value);
      var (db2, p) := ParseText(env, db1, f, read.value);
      var t := db2.texts[f];
      var memo := Memo(p, true, t.deps, t.changedAt, db2.inputs.clock.now, t.durability);
      FreshParseMemoOk(env, db2.inputs, f, t, memo);
      NewParseMemoKeepsInv(env, db2, f, memo);
    }
  }

  lemma TextChangedSinceKeepsInv(env: Env, db: Db, disk: Disk, f: FileId, since: nat)
    requires Inv(env, db)
    ensures
      var (db', change) := TextChangedSince(env, db, disk, f, since);
      && Inv(env, db') && db'.inputs == db.inputs && db'.stats == db.stats && db'.parses == db.parses
      && (change.Unwound? ==> !change.why.Ok?)
      && (change.Same? ==>
            && f in db'.texts && db'.texts[f].changedAt <= since
            && db'.texts[f].verifiedAt == db.inputs.clock.now)
  {
    if f in db.texts {
      if Valid(db.inputs, db.texts[f]) {
        VerifyTextKeepsInv(env, db, f);
      } else {
        ExecuteTextKeepsInv(env, db, disk, f);
      }
    }
  }

  lemma ShallowParseMemoOk(env: Env, i: Inputs, f: FileId, t: Memo<Text>, p: Memo<Parse>)
    requires InputsOk(env, i) && TextMemoOk(env, i, f, t) && ParseMemoOk(env, i, f, t, p)
    requires ShallowValid(i, p)
    ensures ParseMemoOk(env, i, f, t, Verified(i, p))
    ensures TextOf(env, i, f, t.value) && ParseOf(env, p.value, t.value)
  {
    ShieldIsSound(i, p);
    assert i.Unchanged(RevisionField(f), p.verifiedAt);
  }

  /** A stale parse whose text turned out the same is the parse of that text. */
  lemma SameTextSameParse(env: Env, db: Db, f: FileId, since: nat)
    requires Inv(env, db) && f in db.texts && f in db.parses && db.parses[f].verifiedAt == since
    requires db.texts[f].changedAt <= since && db.texts[f].verifiedAt == db.inputs.clock.now
    ensures
      var memo := Verified(db.inputs, db.parses[f]).(deps := db.texts[f].deps);
      Inv(env, db.(parses := db.parses[f := memo]))
    ensures f in db.inputs.revisions && TextOf(env, db.inputs, f, db.texts[f].value)
    ensures ParseOf(env, db.parses[f].value, db.texts[f].value)
  {
    var p, t := db.parses[f], db.texts[f];
    assert db.inputs.Has(RevisionField(f)) && db.inputs.Unchanged(RevisionField(f), t.verifiedAt);
    var memo := Verified(db.inputs, p).(deps := t.deps);
    FreshParseMemoOk(env, db.inputs, f, t, memo);
    NewParseMemoKeepsInv(env, db, f, memo);
  }

  /** The parse is that of the text of the recorded revision. */
  ghost predicate FullParseOfRevision(env: Env, i: Inputs, f: FileId, p: Parse)
    requires i.WellFormed()
  {
    f in i.revisions && exists text :: TextOf(env, i, f, text) && ParseOf(env, p, text)
  }

  /** What `parse_query` promises of one call. */
  ghost predicate ParsesWell(env: Env, db: Db, db': Db, f: FileId, read: Read<Parse>) {
    && Inv(env, db) && Inv(env, db') && db'.inputs == db.inputs
    && (db'.stats == db.stats || exists o :: db'.stats == db.stats.Count(o))
    && (read.Ok? ==> FullParseOfRevision(env, db.inputs, f, read.value))
  }

  lemma ExecuteParseIsFullParse(env: Env, db: Db, disk: Disk, f: FileId)
    requires Inv(env, db)
    ensures ParsesWell(env, db, ExecuteParse(env, db, disk, f).0, f, ExecuteParse(env, db, disk, f).1)
  {
    ExecuteParseKeepsInv(env, db, disk, f);
  }

  lemma SettledParseIsFullParse(env: Env, db: Db, disk: Disk, f: FileId, since: nat, change: Change)
    requires Inv(env, db)
    requires f in db.parses && db.parses[f].verifiedAt == since
    requires change.Same? ==>
      f in db.texts && db.texts[f].changedAt <= since && db.texts[f].verifiedAt == db.inputs.clock.now
    requires change.Unwound? ==> !change.why.Ok?
    ensures ParsesWell(env, db, SettleParse(env, db, disk, f, change).0, f, SettleParse(env, db, disk, f, change).1)
  {
    match change
    case Unwound(_) =>
    case Different => ExecuteParseIsFullParse(env, db, disk, f);
    case Same => SameTextSameParse(env, db, f, since);
  }

  /** `parse_query` in any state: the value is the full parse of the text of the recorded
      revision, and one execution counts one outcome while a memo hit counts none. */
  lemma FetchParseIsFullParse(env: Env, db: Db, disk: Disk, f: FileId)
    requires Inv(env, db)
    ensures ParsesWell(env, db, FetchParse(env, db, disk, f).0, f, FetchParse(env, db, disk, f).1)
  {
    if f !in db.parses || !db.parses[f].resident {
      ExecuteParseIsFullParse(env, db, disk, f);
    } else if ShallowValid(db.inputs, db.parses[f]) {
      ShallowParseMemoOk(env, db.inputs, f, db.texts[f], db.parses[f]);
      NewParseMemoKeepsInv(env, db, f, Verified(db.inputs, db.parses[f]));
    } else {
      var since := db.parses[f].verifiedAt;
      TextChangedSinceKeepsInv(env, db, disk, f, since);
      var (db1, change) := TextChangedSince(env, db, disk, f, since);
      SettledParseIsFullParse(env, db1, disk, f, since, change);
    }
  }

  // ---- the unreadable flag ----------------------------------------------------------------------

  lemma FetchUnreadKeepsInv(env: Env, db: Db, f: FileId)
    requires Inv(env, db)
    ensures Inv(env, FetchUnread(db, f).0)
  {
    if f in db.unread && Valid(db.inputs, db.unread[f]) {
      ShieldIsSound(db.inputs, db.unread[f]);
      if db.unread[f].deps != {} {
        assert UnreadableField(f) in db.unread[f].deps;
      }
      assert UnreadMemoOk(db.inputs, f, Verified(db.inputs, db.unread[f]));
    } else {
      var m := FetchUnread(db, f).0.unread[f];
      if f in db.inputs.revisions {
        assert db.inputs.Has(UnreadableField(f));
      }
      assert UnreadMemoOk(db.inputs, f, m);
    }
  }
}
