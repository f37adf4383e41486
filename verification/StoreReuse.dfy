/** What is not read or parsed again, and what a parse was counted as. */
module StoreReuse {
  import opened Common
  import opened TextEdits
  import opened SourceStore
  import opened StoreInvariants
  import opened StoreWrites
  import opened StoreReads
  import opened StoreRuns

  // ---- what a fresh text depends on ---------------------------------------------------------------------

  /** A registration of the file itself, of its mapping or of its root. */
  predicate Concerns(i: Inputs, e: Event, f: FileId) {
    || Registers(e, f)
    || (e.MapFile? && e.file == f)
    || (e.RegisterRoot? && f in i.rootOf && i.rootOf[f].value == e.id)
  }

  lemma PlacesUntouched(env: Env, i: Inputs, e: Event)
    requires i.WellFormed() && !e.MapFile? && !e.RegisterRoot?
    ensures Registered(env, i, e).rootOf == i.rootOf && Registered(env, i, e).roots == i.roots
  {
    match e
    case SetText(f, text) => TextMapsNothing(env, i, f, text, false);
    case SetUnreadable(f) => TextMapsNothing(env, i, f, "", true);
    case _ =>
  }

  lemma TextMapsNothing(env: Env, i: Inputs, f: FileId, text: Text, unreadable: bool)
    requires i.WellFormed()
    ensures
      var j := SetTextMarked(env, i, f, text, DurabilityOrLow(i, f), unreadable);
      j.rootOf == i.rootOf && j.roots == i.roots
  {
    var d := DurabilityOrLow(i, f);
    RevisionMapsNothing(WriteText(i, f, text, d), f, env.hash(text), d, unreadable);
  }

  lemma RevisionMapsNothing(i: Inputs, f: FileId, revision: nat, d: Durability, unreadable: bool)
    ensures
      var j := WriteRevision(i, f, revision, d, unreadable);
      j.rootOf == i.rootOf && j.roots == i.roots
  {
  }

  lemma PlaceStands(env: Env, i: Inputs, e: Event, f: FileId)
    requires i.WellFormed() && !Concerns(i, e, f) && f in i.rootOf
    ensures
      var j := Registered(env, i, e);
      && f in j.rootOf && j.rootOf[f] == i.rootOf[f]
      && (i.rootOf[f].value in i.roots ==>
            i.rootOf[f].value in j.roots && j.roots[i.rootOf[f].value] == i.roots[i.rootOf[f].value])
  {
    if !e.MapFile? && !e.RegisterRoot? {
      PlacesUntouched(env, i, e);
    }
  }

  /** Nothing else that is registered makes a text that was just read be read again. */
  lemma OthersDoNotDisturb(env: Env, db: Db, disk: Disk, f: FileId, e: Event)
    requires Inv(env, db) && ReadUnmemoized(env, db.inputs, disk, f).Ok? && !Concerns(db.inputs, e, f)
    ensures
      var m := ExecuteText(env, db, disk, f).0.texts[f];
      m.resident && DeepValid(Registered(env, db.inputs, e), m)
  {
    ReadStampBounds(env, db.inputs, disk, f);
    StampsStand(env, db.inputs, disk, f, e);
  }

  lemma StampsStand(env: Env, i: Inputs, disk: Disk, f: FileId, e: Event)
    requires InputsOk(env, i) && ReadUnmemoized(env, i, disk, f).Ok? && !Concerns(i, e, f)
    ensures
      var j := Registered(env, i, e);
      forall k | k in ReadDeps(i, f) :: i.Has(k) && j.Has(k) && j.StampOf(k) == i.StampOf(k)
  {
    OthersStandStill(env, i, e, f);
    if f in i.rootOf {
      PlaceStands(env, i, e, f);
    }
  }

  /** It is as durable as the least durable thing it was read from; and as old as the newest, unless
      the value held before was the same and no more durable, whose age it then keeps. */
  lemma FreshTextIsTight(env: Env, db: Db, disk: Disk, f: FileId)
    requires Inv(env, db) && ReadUnmemoized(env, db.inputs, disk, f).Ok?
    ensures
      var i, m := db.inputs, ExecuteText(env, db, disk, f).0.texts[f];
      && (forall k | k in m.deps :: i.Has(k) && m.durability.AtMost(i.StampOf(k).durability))
      && (exists k :: k in m.deps && m.durability == i.StampOf(k).durability)
      && if f in db.texts && db.texts[f].resident && db.texts[f].value == m.value
            && db.texts[f].durability.AtMost(m.durability)
         then m.changedAt == db.texts[f].changedAt
         else
           && (forall k | k in m.deps :: i.StampOf(k).changedAt <= m.changedAt)
           && exists k :: k in m.deps && m.changedAt == i.StampOf(k).changedAt
  {
    var i := db.inputs;
    ReadStampBounds(env, i, disk, f);
    StampIsOneOf(env, i, disk, f);
  }

  lemma StampIsOneOf(env: Env, i: Inputs, disk: Disk, f: FileId)
    requires InputsOk(env, i) && ReadUnmemoized(env, i, disk, f).Ok?
    ensures forall k | k in ReadDeps(i, f) :: i.Has(k)
    ensures exists k :: k in ReadDeps(i, f) && ReadStamp(i, f).durability == i.StampOf(k).durability
    ensures exists k :: k in ReadDeps(i, f) && ReadStamp(i, f).changedAt == i.StampOf(k).changedAt
  {
    var own := RevisionField(f);
    if f in i.overlays {
      var text := TextField(i.overlays[f]);
      assert own in ReadDeps(i, f) && text in ReadDeps(i, f);
      OneOfTwo(i.StampOf(own), i.StampOf(text));
    } else {
      var mapping, root := RootOfField(f), RootField(i.rootOf[f].value);
      assert own in ReadDeps(i, f) && mapping in ReadDeps(i, f) && root in ReadDeps(i, f);
      OneOfTwo(i.StampOf(mapping), i.StampOf(root));
      OneOfTwo(i.StampOf(own), Both(i.StampOf(mapping), i.StampOf(root)));
    }
  }

  function Both(a: Stamp, b: Stamp): Stamp {
    Stamp(Later(a.changedAt, b.changedAt), Weaker(a.durability, b.durability))
  }

  lemma OneOfTwo(a: Stamp, b: Stamp)
    ensures Both(a, b).durability in {a.durability, b.durability}
    ensures Both(a, b).changedAt in {a.changedAt, b.changedAt}
  {
  }

  // ---- the shield ------------------------------------------------------------------------------------------

  /** A write is seen by what is no more durable than what was written, and by nothing else. */
  lemma WritesAreSeenUpTo(c: Clock, written: Durability, asked: Durability)
    requires c.Valid()
    ensures
      c.Written(written).LastChanged(asked) ==
      if asked == Low || (asked == Medium && written != Low) || written == High then c.now + 1 else c.LastChanged(asked)
  {
  }

  /** A write of no input at all moves the clock and nothing else. */
  lemma SyntheticWriteMovesTheClock(env: Env, i: Inputs, written: Durability, asked: Durability)
    requires i.WellFormed()
    ensures
      var j := Registered(env, i, SyntheticWrite(written));
      && j == i.(clock := j.clock) && j.clock.now == i.clock.now + 1
      && j.clock.LastChanged(asked) == if asked.AtMost(written) then i.clock.now + 1 else i.clock.LastChanged(asked)
  {
    WritesAreSeenUpTo(i.clock, written, asked);
  }

  /** Typing in an open local file never makes a memo of anything more durable look at what it was
      read from. */
  lemma TypingPassesTheShield<V>(env: Env, i: Inputs, f: FileId, text: Text, m: Memo<V>)
    requires i.WellFormed() && f in i.overlays && i.texts[i.overlays[f]].stamp.durability == Low
    requires i.revisions[f].revision.stamp.durability == Low && i.revisions[f].unreadable.stamp.durability == Low
    requires m.durability != Low && ShallowValid(i, m)
    ensures ShallowValid(Registered(env, i, SetText(f, text)), m)
  {
  }

  // ---- an edit that changes nothing ------------------------------------------------------------------------

  /** Both memos of an open file were found valid just now. */
  ghost predicate JustParsed(env: Env, db: Db, f: FileId) {
    && Inv(env, db) && f in db.inputs.overlays && f in db.texts && f in db.parses
    && db.texts[f].resident && db.parses[f].resident
    && db.texts[f].verifiedAt == db.inputs.clock.now && db.parses[f].verifiedAt == db.inputs.clock.now
  }

  lemma TouchedInputs(env: Env, i: Inputs, f: FileId, d: Durability)
    requires InputsOk(env, i) && f in i.overlays
    ensures
      var t := i.texts[i.overlays[f]].value;
      var j := SetTextMarked(env, i, f, t, d, false);
      && InputsOk(env, j) && f in j.overlays && j.texts[j.overlays[f]].value == t && f in j.revisions
      && i.clock.now < j.revisions[f].revision.stamp.changedAt <= j.clock.now
      && ReadStamp(j, f).durability == d && ReadStamp(j, f).changedAt > i.clock.now
      && i.clock.now < j.clock.LastChanged(i.revisions[f].revision.stamp.durability)
  {
    var t := i.texts[i.overlays[f]].value;
    SetTextAdvances(env, i, f, t, d, false);
    TextWritten(i, f, t, d);
    var mid := WriteText(i, f, t, d);
    RevisionWritten(mid, f, env.hash(t), d, false);
  }

  /** Whether the text just read counts as changed after the touch. */
  lemma TouchedText(env: Env, db: Db, disk: Disk, f: FileId, d: Durability)
    requires JustParsed(env, db, f)
    ensures
      var i := db.inputs;
      var touched := db.(inputs := SetTextMarked(env, i, f, i.texts[i.overlays[f]].value, d, false));
      && touched.inputs.WellFormed()
      && !ShallowValid(touched.inputs, db.parses[f])
      && TextChangedSince(env, touched, disk, f, i.clock.now).1 ==
         (if db.texts[f].durability.AtMost(d) then Same else Different)
  {
    var i := db.inputs;
    var t := i.texts[i.overlays[f]].value;
    var j := SetTextMarked(env, i, f, t, d, false);
    TouchedInputs(env, i, f, d);
    NowIsDeep(env, db, f);
    JustReadText(env, db, f);
    assert RevisionField(f) in db.texts[f].deps && RevisionField(f) in db.parses[f].deps;
    assert !DeepValid(j, db.texts[f]) && !ShallowValid(j, db.texts[f]);
  }

  /** A text read just now is the overlay, and both memos depend on the file's revision. */
  lemma JustReadText(env: Env, db: Db, f: FileId)
    requires JustParsed(env, db, f)
    ensures db.texts[f].value == db.inputs.texts[db.inputs.overlays[f]].value
    ensures db.texts[f].changedAt <= db.inputs.clock.now
    ensures RevisionField(f) in db.texts[f].deps && RevisionField(f) in db.parses[f].deps
    ensures db.texts[f].durability.AtMost(db.inputs.revisions[f].revision.stamp.durability)
    ensures db.parses[f].durability.AtMost(db.inputs.revisions[f].revision.stamp.durability)
  {
    var i := db.inputs;
    assert i.Has(RevisionField(f)) && i.StampOf(RevisionField(f)).changedAt <= i.clock.now;
    assert i.Unchanged(RevisionField(f), i.clock.now);
  }

  /** An open file registered again with the text it has is not parsed again, exactly if it is
      registered no less durable than it was read. */
  lemma SameTextIsNotParsedAgain(env: Env, db: Db, disk: Disk, f: FileId, d: Durability)
    requires JustParsed(env, db, f)
    ensures
      var i := db.inputs;
      var touched := db.(inputs := SetTextMarked(env, i, f, i.texts[i.overlays[f]].value, d, false));
      touched.inputs.WellFormed() && (Executes(env, touched, disk, f) <==> !db.texts[f].durability.AtMost(d))
  {
    var i := db.inputs;
    var touched := db.(inputs := SetTextMarked(env, i, f, i.texts[i.overlays[f]].value, d, false));
    TouchedText(env, db, disk, f, d);
    StoreWritesKeep(env, db, f, d);
    var since := db.parses[f].verifiedAt;
    TextChangedSinceKeepsInv(env, touched, disk, f, since);
    OverlayTextOk(env, TextChangedSince(env, touched, disk, f, since).0, disk, f);
  }

  lemma StoreWritesKeep(env: Env, db: Db, f: FileId, d: Durability)
    requires JustParsed(env, db, f)
    ensures
      var i := db.inputs;
      var j := SetTextMarked(env, i, f, i.texts[i.overlays[f]].value, d, false);
      Inv(env, db.(inputs := j)) && f in j.overlays
  {
    var i := db.inputs;
    var t := i.texts[i.overlays[f]].value;
    SetTextAdvances(env, i, f, t, d, false);
    TextsStay(env, i, f, t, d, false);
    AdvanceKeepsInv(env, db, SetTextMarked(env, i, f, t, d, false), db.snapshots);
  }

  // ---- what a parse is counted as -----------------------------------------------------------------------------

  /** What became of a splice: refused, not what a full parse gives, or taken. */
  ghost predicate SpliceTold(env: Env, s: Snapshot, text: Text, edit: TextEdit, p: Parse, o: Outcome) {
    match env.reparse(s.parse, s.text, text, edit)
    case Refused(why) => o == RefusedParse(why) && p == env.full(text)
    case Spliced(spliced) =>
      if env.verify && spliced != env.full(text) then o == Mismatched && p == env.full(text)
      else o == SplicedParse && p == spliced
  }

  /** How the parse of an open text came about. */
  ghost predicate Told(env: Env, snapshot: Option<Snapshot>, text: Text, p: Parse, o: Outcome) {
    if snapshot.None? then o == FullParse && p == env.full(text)
    else if snapshot.value.text == text then o == FullParse && p == snapshot.value.parse
    else
      exists edit ::
        EditBetween(snapshot.value.text, text) == Some(edit) && SpliceTold(env, snapshot.value, text, edit, p, o)
  }

  lemma ReparseIsTold(env: Env, s: Snapshot, text: Text)
    ensures Told(env, Some(s), text, ReparseOrFull(env, s, text).0, ReparseOrFull(env, s, text).1)
  {
    EditRebuildsTheNewText(s.text, text);
    if s.text != text {
      var edit := EditBetween(s.text, text).value;
      assert SpliceTold(env, s, text, edit, ReparseOrFull(env, s, text).0, ReparseOrFull(env, s, text).1);
    }
  }

  /** Running the parse of an open file leaves its text and parse as the snapshot to splice into next.
      Without a snapshot, or with one of the same text, it counts as full; else as what became of the
      splice. */
  lemma ParseIsCountedAsTaken(env: Env, db: Db, disk: Disk, f: FileId)
    requires Inv(env, db) && f in db.inputs.overlays
    ensures
      var text := db.inputs.texts[db.inputs.overlays[f]].value;
      var snapshot := if f in db.snapshots then Some(db.snapshots[f]) else None;
      var (after, read) := ExecuteParse(env, db, disk, f);
      && read.Ok? && after.snapshots == db.snapshots[f := Snapshot(text, read.value)]
      && exists o :: after.stats == db.stats.Count(o) && Told(env, snapshot, text, read.value, o)
  {
    OverlayTextOk(env, db, disk, f);
    FetchTextKeepsInv(env, db, disk, f);
    var text := db.inputs.texts[db.inputs.overlays[f]].value;
    var db1 := FetchText(env, db, disk, f).0;
    if f in db.snapshots {
      ReparseIsTold(env, db.snapshots[f], text);
    }
    ParsedText(env, db1, f, text);
    assert ExecuteParse(env, db, disk, f).0.snapshots == ParseText(env, db1, f, text).0.snapshots;
    assert ExecuteParse(env, db, disk, f).0.stats == ParseText(env, db1, f, text).0.stats;
  }

  lemma ParsedText(env: Env, db: Db, f: FileId, text: Text)
    requires db.stats.Valid() && f in db.inputs.overlays
    ensures
      var (after, p) := ParseText(env, db, f, text);
      var (q, o) :=
        if f in db.snapshots then ReparseOrFull(env, db.snapshots[f], text) else (env.full(text), FullParse);
      p == q && after.stats == db.stats.Count(o) && after.snapshots == db.snapshots[f := Snapshot(text, p)]
  {
  }

  /** A file that is not open is parsed in full, and leaves no snapshot. */
  lemma ClosedParseIsFull(env: Env, db: Db, disk: Disk, f: FileId)
    requires Inv(env, db) && f !in db.inputs.overlays
    ensures
      var (after, read) := ExecuteParse(env, db, disk, f);
      && after.snapshots == db.snapshots
      && (read.Ok? ==> after.stats == db.stats.Count(FullParse))
  {
    FetchTextKeepsInv(env, db, disk, f);
  }

  // ---- eviction ---------------------------------------------------------------------------------------------------

  /** What was evicted is read or parsed anew. */
  lemma EvictedTextIsReadAgain(env: Env, db: Db, disk: Disk, f: FileId)
    requires Inv(env, db)
    ensures
      var evicted := ReadAfter(env, db, disk, EvictText(f));
      FetchText(env, evicted, disk, f) == ExecuteText(env, evicted, disk, f)
  {
  }

  lemma EvictedParseIsRunAgain(env: Env, db: Db, disk: Disk, f: FileId)
    requires Inv(env, db)
    ensures
      var evicted := ReadAfter(env, db, disk, EvictParse(f));
      Executes(env, evicted, disk, f) <==> FetchText(env, evicted, disk, f).1.Ok?
  {
  }

  // ---- what is remembered -------------------------------------------------------------------------------------------

  /** A text that was read is answered again whatever becomes of the disk and of other files, and no
      drift is counted. */
  lemma OthersDoNotReread(env: Env, db: Db, disk: Disk, f: FileId, e: Event, later: Disk)
    requires Inv(env, db) && ReadUnmemoized(env, db.inputs, disk, f).Ok? && !Concerns(db.inputs, e, f)
    ensures
      var after := ExecuteText(env, db, disk, f).0;
      var moved := after.(inputs := Registered(env, db.inputs, e));
      moved.inputs.WellFormed() && FetchText(env, moved, later, f).1 == ReadUnmemoized(env, db.inputs, disk, f)
      && FetchText(env, moved, later, f).0.drifts == db.drifts
  {
    OthersDoNotDisturb(env, db, disk, f, e);
    RegisteredAdvances(env, db.inputs, e);
  }

  /** A read counts as drifted exactly if it unwinds. */
  lemma DriftIsCounted(env: Env, db: Db, disk: Disk, f: FileId)
    requires Inv(env, db)
    ensures
      var (after, read) := FetchText(env, db, disk, f);
      after.drifts == db.drifts + if read == Superseded then 1 else 0
  {
  }

  lemma StandingText(env: Env, db: Db, disk: Disk, f: FileId, since: nat)
    requires Inv(env, db) && f in db.texts && db.texts[f].resident && DeepValid(db.inputs, db.texts[f])
    ensures
      var (db1, change) := TextChangedSince(env, db, disk, f, since);
      change == (if db.texts[f].changedAt > since then Different else Same) && FetchText(env, db1, disk, f).1.Ok?
    ensures FetchText(env, db, disk, f).1.Ok?
  {
  }

  /** A parse whose text stands, and is no newer than the parse, is answered without running; and one
      whose text is newer is run. */
  lemma StandingParseIsAnswered(env: Env, db: Db, disk: Disk, f: FileId)
    requires Inv(env, db) && f in db.texts && f in db.parses && db.parses[f].resident
    requires db.texts[f].resident && DeepValid(db.inputs, db.texts[f])
    ensures
      Executes(env, db, disk, f)
      <==> !ShallowValid(db.inputs, db.parses[f]) && db.texts[f].changedAt > db.parses[f].verifiedAt
  {
    StandingText(env, db, disk, f, db.parses[f].verifiedAt);
  }

  /** A parse that is not run is the one remembered. */
  lemma ParseNotRunIsRemembered(env: Env, db: Db, disk: Disk, f: FileId)
    requires Inv(env, db) && f in db.parses && db.parses[f].resident && !Executes(env, db, disk, f)
    requires FetchParse(env, db, disk, f).1.Ok?
    ensures FetchParse(env, db, disk, f).1.value == db.parses[f].value
  {
    if !ShallowValid(db.inputs, db.parses[f]) {
      var (db1, change) := TextChangedSince(env, db, disk, f, db.parses[f].verifiedAt);
      SettledIsRemembered(env, db1, disk, f, change);
    }
  }

  lemma SettledIsRemembered(env: Env, db: Db, disk: Disk, f: FileId, change: Change)
    requires db.inputs.WellFormed() && db.stats.Valid() && f in db.parses && (change.Same? ==> f in db.texts)
    requires change.Different? ==> !FetchText(env, db, disk, f).1.Ok?
    requires SettleParse(env, db, disk, f, change).1.Ok? && (change.Unwound? ==> !change.why.Ok?)
    ensures SettleParse(env, db, disk, f, change).1.value == db.parses[f].value
  {
  }

  /** A stale parse whose text went stale too and was evicted is run, if there still is a text. */
  lemma StaleEvictedTextIsParsedAgain(env: Env, db: Db, disk: Disk, f: FileId)
    requires Inv(env, db) && f in db.texts && f in db.parses && db.parses[f].resident
    requires !ShallowValid(db.inputs, db.parses[f])
    requires !db.texts[f].resident && !Valid(db.inputs, db.texts[f])
    ensures Executes(env, db, disk, f) <==> FetchText(env, db, disk, f).1.Ok?
  {
  }

  /** A parse that was run depends on what its text does, and is as old and as durable. */
  lemma FreshParseFollowsItsText(env: Env, db: Db, disk: Disk, f: FileId)
    requires Inv(env, db) && ExecuteParse(env, db, disk, f).1.Ok?
    ensures
      var after := ExecuteParse(env, db, disk, f).0;
      && f in after.texts && f in after.parses
      && after.texts == FetchText(env, db, disk, f).0.texts
      && after.parses[f].deps == after.texts[f].deps && after.parses[f].durability == after.texts[f].durability
      && after.parses[f].changedAt == after.texts[f].changedAt
      && after.parses[f].verifiedAt == db.inputs.clock.now && after.parses[f].resident
  {
  }

  /** What is remembered of whether a file is unreadable hangs on its flag alone; of a file that is
      not registered, on nothing, and is as durable as can be. */
  lemma FreshFlagFollowsItsField(db: Db, f: FileId)
    requires f !in db.unread
    ensures
      var i, m := db.inputs, FetchUnread(db, f).0.unread[f];
      if f in i.revisions then
        && m.deps == {UnreadableField(f)} && m.value == i.revisions[f].unreadable.value
        && m.changedAt == i.revisions[f].unreadable.stamp.changedAt
        && m.durability == i.revisions[f].unreadable.stamp.durability
      else m.deps == {} && !m.value && m.durability == High
  {
  }
}
