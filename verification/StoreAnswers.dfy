/** What a closed file answers after any run, read off the run alone: where its last mapping and the
    last registration of that root put it, and what was last written there. */
module StoreAnswers {
  import opened Common
  import opened TextEdits
  import opened SourceStore
  import opened StoreInvariants
  import opened StoreWrites
  import opened StoreReads
  import opened StoreRuns

  // ---- the run without any state ---------------------------------------------------------------------

  function LastMapping(events: seq<Event>, f: FileId): Option<RootId>
    decreases |events|
  {
    if events == [] then None
    else
      var last := events[|events| - 1];
      if last.MapFile? && last.file == f then Some(last.id) else LastMapping(events[..|events| - 1], f)
  }

  function LastRoot(events: seq<Event>, r: RootId): Option<SourceRoot>
    decreases |events|
  {
    if events == [] then None
    else
      var last := events[|events| - 1];
      if last.RegisterRoot? && last.id == r then Some(last.root) else LastRoot(events[..|events| - 1], r)
  }

  /** What is on disk at the end. */
  function BytesAt(disk: Disk, events: seq<Event>, path: Path): Option<Text>
    decreases |events|
  {
    if events == [] then if path in disk then Some(disk[path]) else None
    else
      match events[|events| - 1]
      case DiskWritten(p, bytes) => if p == path then Some(bytes) else BytesAt(disk, events[..|events| - 1], path)
      case DiskRemoved(p) => if p == path then None else BytesAt(disk, events[..|events| - 1], path)
      case _ => BytesAt(disk, events[..|events| - 1], path)
  }

  ghost predicate MappedAs(i: Inputs, f: FileId, r: Option<RootId>) {
    if r.None? then f !in i.rootOf else f in i.rootOf && i.rootOf[f].value == r.value
  }

  ghost predicate RootIs(i: Inputs, r: RootId, root: Option<SourceRoot>) {
    if root.None? then r !in i.roots else r in i.roots && i.roots[r].value == root.value
  }

  ghost predicate OnDiskIs(disk: Disk, path: Path, bytes: Option<Text>) {
    if bytes.None? then path !in disk else path in disk && disk[path] == bytes.value
  }

  lemma StepMaps(env: Env, i: Inputs, e: Event, f: FileId, r: Option<RootId>)
    requires i.WellFormed() && MappedAs(i, f, r)
    ensures MappedAs(Registered(env, i, e), f, if e.MapFile? && e.file == f then Some(e.id) else r)
  {
  }

  lemma StepRoots(env: Env, i: Inputs, e: Event, r: RootId, root: Option<SourceRoot>)
    requires i.WellFormed() && RootIs(i, r, root)
    ensures RootIs(Registered(env, i, e), r, if e.RegisterRoot? && e.id == r then Some(e.root) else root)
  {
  }

  lemma StepsOnDisk(env: Env, w: World, e: Event, path: Path)
    requires Inv(env, w.db)
    ensures Step(env, w, e).disk == DiskAfter(w.disk, e)
  {
  }

  lemma {:induction false} RunMaps(env: Env, w: World, events: seq<Event>, f: FileId)
    requires Inv(env, w.db) && f !in w.db.inputs.rootOf
    ensures MappedAs(Run(env, w, events).db.inputs, f, LastMapping(events, f))
    decreases |events|
  {
    if events == [] {
      NoRunCountsNothing(env, w);
    } else {
      var before, e := events[..|events| - 1], events[|events| - 1];
      RunMaps(env, w, before, f);
      RunEnds(env, w, events);
      StepMaps(env, Run(env, w, before).db.inputs, e, f, LastMapping(before, f));
    }
  }

  lemma {:induction false} RunRoots(env: Env, w: World, events: seq<Event>, r: RootId)
    requires Inv(env, w.db) && r !in w.db.inputs.roots
    ensures RootIs(Run(env, w, events).db.inputs, r, LastRoot(events, r))
    decreases |events|
  {
    if events == [] {
      NoRunCountsNothing(env, w);
    } else {
      var before, e := events[..|events| - 1], events[|events| - 1];
      RunRoots(env, w, before, r);
      RunEnds(env, w, events);
      StepRoots(env, Run(env, w, before).db.inputs, e, r, LastRoot(before, r));
    }
  }

  lemma {:induction false} RunOnDisk(env: Env, w: World, events: seq<Event>, path: Path)
    requires Inv(env, w.db)
    ensures OnDiskIs(Run(env, w, events).disk, path, BytesAt(w.disk, events, path))
    decreases |events|
  {
    if events == [] {
      NoRunCountsNothing(env, w);
    } else {
      var before, e := events[..|events| - 1], events[|events| - 1];
      RunOnDisk(env, w, before, path);
      RunEnds(env, w, events);
      StepsOnDisk(env, Run(env, w, before), e, path);
    }
  }

  // ---- what a closed file answers -----------------------------------------------------------------------

  /** The text of a closed file whose root and path are known. */
  ghost predicate ClosedAnswer(env: Env, revision: nat, bytes: Option<Text>, read: Read<Text>) {
    if bytes.Some? && env.hash(bytes.value) == revision then
      && read.Ok? && env.hash(read.value) == revision
      && (env.CollisionFree() ==> read == Ok(bytes.value))
    else
      || read == (if bytes.None? then Panicked(CannotRead) else Superseded)
      || (read.Ok? && env.hash(read.value) == revision)
  }

  /** Where the file is, if its root is known and lists it. */
  ghost predicate AnswersAt(
    env: Env, disk: Disk, events: seq<Event>, f: FileId, revision: nat, root: Option<SourceRoot>, read: Read<Text>)
  {
    if root.None? then read == Panicked(NoSourceRoot)
    else if f !in root.value.files then read == Panicked(NotInFileSet)
    else ClosedAnswer(env, revision, BytesAt(disk, events, root.value.files[f]), read)
  }

  lemma ClosedTextRead(env: Env, db: Db, disk: Disk, f: FileId, revision: nat)
    requires Inv(env, db) && f !in db.inputs.overlays
    requires f in db.inputs.revisions && db.inputs.revisions[f].revision.value == revision
    ensures
      var i, read := db.inputs, FetchText(env, db, disk, f).1;
      if f !in i.rootOf || i.rootOf[f].value !in i.roots then read == Panicked(NoSourceRoot)
      else
        var root := i.roots[i.rootOf[f].value].value;
        if f !in root.files then read == Panicked(NotInFileSet)
        else
          ClosedAnswer(
            env, revision, if root.files[f] in disk then Some(disk[root.files[f]]) else None, read)
  {
    var i := db.inputs;
    if f in db.texts && db.texts[f].resident && Valid(i, db.texts[f]) {
      VerifyTextKeepsInv(env, db, f);
      MemoHasAPlace(env, i, f, db.texts[f]);
    }
  }

  /** A text memo of a closed file is only held while the file has its place. */
  lemma MemoHasAPlace(env: Env, i: Inputs, f: FileId, m: Memo<Text>)
    requires InputsOk(env, i) && TextMemoOk(env, i, f, m) && Valid(i, m) && f !in i.overlays
    ensures f in i.rootOf && i.rootOf[f].value in i.roots && f in i.roots[i.rootOf[f].value].value.files
  {
    ShieldIsSound(i, m);
    assert i.Unchanged(RevisionField(f), m.verifiedAt);
    assert i.Unchanged(RootOfField(f), m.verifiedAt);
    assert i.Unchanged(RootField(i.rootOf[f].value), m.verifiedAt);
  }

  /** A file closed onto the disk is looked for where its last mapping and the last registration of
      that root say, and nowhere else; bytes there that hash to the recorded revision are the answer,
      whatever was memoised or evicted in between. */
  lemma ClosedTextAfterAnyRun(env: Env, disk: Disk, events: seq<Event>, f: FileId)
    requires LastRegistration(events, f).OnDisk?
    ensures
      var w := Run(env, Start(disk), events);
      var mapping := LastMapping(events, f);
      var root := if mapping.None? then None else LastRoot(events, mapping.value);
      AnswersAt(env, disk, events, f, LastRegistration(events, f).revision, root, FetchText(env, w.db, w.disk, f).1)
  {
    var w := Run(env, Start(disk), events);
    var mapping := LastMapping(events, f);
    RunReflects(env, disk, events, f);
    RunMaps(env, Start(disk), events, f);
    if mapping.Some? {
      RunRoots(env, Start(disk), events, mapping.value);
      var root := LastRoot(events, mapping.value);
      if root.Some? && f in root.value.files {
        RunOnDisk(env, Start(disk), events, root.value.files[f]);
      }
    }
    ClosedTextRead(env, w.db, w.disk, f, LastRegistration(events, f).revision);
  }

  /** An open file is read as its overlay, unless that is not of the recorded revision: then the read
      panics. */
  lemma StaleOverlayIsRefused(env: Env, i: Inputs, disk: Disk, f: FileId)
    requires i.WellFormed() && f in i.overlays
    ensures
      var text := i.texts[i.overlays[f]].value;
      ReadUnmemoized(env, i, disk, f) ==
      if env.hash(text) == i.revisions[f].revision.value then Ok(text) else Panicked(StaleOverlay)
  {
  }

  /** A file nobody registered has no revision to read. */
  lemma UnregisteredIsRefused(env: Env, disk: Disk, events: seq<Event>, f: FileId)
    requires LastRegistration(events, f).Unregistered?
    ensures
      var w := Run(env, Start(disk), events);
      FetchText(env, w.db, w.disk, f).1 == Panicked(NoRevision)
  {
    RunReflects(env, disk, events, f);
  }

  // ---- its parse ---------------------------------------------------------------------------------------

  lemma ReadableOk(env: Env, db: Db, disk: Disk, f: FileId)
    requires Inv(env, db) && ReadUnmemoized(env, db.inputs, disk, f).Ok?
    ensures FetchText(env, db, disk, f).1.Ok?
    ensures forall since :: !TextChangedSince(env, db, disk, f, since).1.Unwound?
  {
  }

  lemma ReadableParseOk(env: Env, db: Db, disk: Disk, f: FileId)
    requires Inv(env, db) && ReadUnmemoized(env, db.inputs, disk, f).Ok?
    ensures FetchParse(env, db, disk, f).1.Ok?
  {
    ReadableOk(env, db, disk, f);
    if f in db.parses && db.parses[f].resident && !ShallowValid(db.inputs, db.parses[f]) {
      var since := db.parses[f].verifiedAt;
      TextChangedSinceKeepsInv(env, db, disk, f, since);
      var (db1, change) := TextChangedSince(env, db, disk, f, since);
      assert !change.Unwound?;
      ReadableOk(env, db1, disk, f);
    }
  }

  /** Where a closed file lies after a run, if it has a place. */
  function PlaceOf(events: seq<Event>, f: FileId): Option<Path> {
    var mapping := LastMapping(events, f);
    var root := if mapping.None? then None else LastRoot(events, mapping.value);
    if root.None? || f !in root.value.files then None else Some(root.value.files[f])
  }

  lemma ReadableAtItsPlace(env: Env, disk: Disk, events: seq<Event>, f: FileId, bytes: Text)
    requires LastRegistration(events, f).OnDisk? && PlaceOf(events, f).Some?
    requires BytesAt(disk, events, PlaceOf(events, f).value) == Some(bytes)
    requires env.hash(bytes) == LastRegistration(events, f).revision
    ensures
      var w := Run(env, Start(disk), events);
      ReadUnmemoized(env, w.db.inputs, w.disk, f) == Ok(bytes)
  {
    RunReflects(env, disk, events, f);
    RunMaps(env, Start(disk), events, f);
    RunRoots(env, Start(disk), events, LastMapping(events, f).value);
    RunOnDisk(env, Start(disk), events, PlaceOf(events, f).value);
  }

  /** With the recorded bytes at its place a closed file parses, and as those bytes do. */
  lemma ClosedParseAfterAnyRun(env: Env, disk: Disk, events: seq<Event>, f: FileId, bytes: Text)
    requires Trusted(env) && LastRegistration(events, f).OnDisk? && PlaceOf(events, f).Some?
    requires BytesAt(disk, events, PlaceOf(events, f).value) == Some(bytes)
    requires env.hash(bytes) == LastRegistration(events, f).revision
    ensures
      var w := Run(env, Start(disk), events);
      FetchParse(env, w.db, w.disk, f).1 == Ok(env.full(bytes))
  {
    var w := Run(env, Start(disk), events);
    ReadableAtItsPlace(env, disk, events, f, bytes);
    ReadableParseOk(env, w.db, w.disk, f);
    ParseAfterAnyRun(env, disk, events, f);
  }

  // ---- how durable a registration is ------------------------------------------------------------------------

  /** Local sources change often, metadata seldom, libraries hardly ever. */
  function KindDurability(root: Option<SourceRoot>): Durability {
    if root.None? || root.value.kind == Local then Low else if root.value.kind == Library then High else Medium
  }

  function RootOfFile(events: seq<Event>, f: FileId): Option<SourceRoot> {
    if LastMapping(events, f).None? then None else LastRoot(events, LastMapping(events, f).value)
  }

  /** The file's revision, and the text it is open with if it is, are of that durability. */
  ghost predicate StampedAt(j: Inputs, f: FileId, d: Durability) {
    && j.WellFormed() && f in j.revisions && j.revisions[f].revision.stamp.durability == d
    && (f in j.overlays ==> j.texts[j.overlays[f]].stamp.durability == d)
  }

  ghost predicate RegisteredAt(env: Env, i: Inputs, e: Event, f: FileId, d: Durability)
    requires i.WellFormed()
  {
    StampedAt(Registered(env, i, e), f, d)
  }

  /** A registration of a file is as durable as the kind of root it belongs to by then. */
  lemma FilesAreAsDurableAsTheirRoot(env: Env, disk: Disk, events: seq<Event>, e: Event, f: FileId, i: Inputs)
    requires Registers(e, f) && i == Run(env, Start(disk), events).db.inputs
    ensures RegisteredAt(env, i, e, f, KindDurability(RootOfFile(events, f)))
  {
    assert InputsOk(env, i);
    DurabilityOfFile(env, disk, events, f);
    FileStampedAt(env, i, e, f, KindDurability(RootOfFile(events, f)));
  }

  lemma FileStampedAt(env: Env, i: Inputs, e: Event, f: FileId, d: Durability)
    requires InputsOk(env, i) && Registers(e, f) && DurabilityOrLow(i, f) == d
    ensures RegisteredAt(env, i, e, f, d)
  {
    FileStamped(env, i, e, f);
  }

  lemma FileStamped(env: Env, i: Inputs, e: Event, f: FileId)
    requires InputsOk(env, i) && Registers(e, f)
    ensures RegisteredAt(env, i, e, f, DurabilityOrLow(i, f))
  {
    match e
    case SetText(_, text) => TextStamped(env, i, f, text, false);
    case SetUnreadable(_) => TextStamped(env, i, f, "", true);
    case SetDisk(_, revision) => ClosedStamped(env, i, f, revision);
  }

  lemma ClosedStamped(env: Env, i: Inputs, f: FileId, revision: nat)
    requires InputsOk(env, i)
    ensures StampedAt(SetFromDisk(i, f, revision), f, DurabilityOrLow(i, f))
  {
    SetFromDiskAdvances(env, i, f, revision);
    var closed := i.(overlays := i.overlays - {f});
    assert DurabilityOrLow(closed, f) == DurabilityOrLow(i, f);
    RevisionStamped(closed, f, revision, DurabilityOrLow(i, f), false);
  }

  /** A file that is mapped to another root is mapped as durably as that is by then, LOW if it is not
      known. */
  lemma MappingsAreAsDurableAsTheirRoot(env: Env, disk: Disk, events: seq<Event>, f: FileId, r: RootId)
    ensures
      var i := Run(env, Start(disk), events).db.inputs;
      MappedAt(i, SetRootOf(i, f, r), f, LastMapping(events, f) == Some(r), KindDurability(LastRoot(events, r)))
  {
    var i := Run(env, Start(disk), events).db.inputs;
    RunMaps(env, Start(disk), events, f);
    RunRoots(env, Start(disk), events, r);
    MappingStamped(i, f, r, LastMapping(events, f), LastRoot(events, r));
  }

  ghost predicate MappedAt(i: Inputs, j: Inputs, f: FileId, again: bool, d: Durability) {
    if again then f in i.rootOf && f in j.rootOf && j.rootOf[f] == i.rootOf[f]
    else f in j.rootOf && j.rootOf[f].stamp.durability == d
  }

  /** A root is as durable as its kind. */
  lemma RootStamped(i: Inputs, r: RootId, root: SourceRoot)
    ensures
      var j := SetRoot(i, r, root);
      r in j.roots && j.roots[r].stamp.durability == KindDurability(Some(root))
  {
  }

  lemma MappingStamped(i: Inputs, f: FileId, r: RootId, mapping: Option<RootId>, root: Option<SourceRoot>)
    requires MappedAs(i, f, mapping) && RootIs(i, r, root)
    ensures
      MappedAt(i, SetRootOf(i, f, r), f, mapping == Some(r), KindDurability(root))
  {
  }

  lemma DurabilityOfFile(env: Env, disk: Disk, events: seq<Event>, f: FileId)
    ensures
      DurabilityOrLow(Run(env, Start(disk), events).db.inputs, f) == KindDurability(RootOfFile(events, f))
  {
    RunMaps(env, Start(disk), events, f);
    if LastMapping(events, f).Some? {
      RunRoots(env, Start(disk), events, LastMapping(events, f).value);
    }
  }

  lemma RevisionStamped(i: Inputs, f: FileId, revision: nat, d: Durability, unreadable: bool)
    ensures
      var j := WriteRevision(i, f, revision, d, unreadable);
      && f in j.revisions && j.revisions[f].revision.stamp.durability == d
      && j.texts == i.texts && j.overlays == i.overlays
  {
  }

  lemma TextStamped(env: Env, i: Inputs, f: FileId, text: Text, unreadable: bool)
    requires InputsOk(env, i)
    ensures StampedAt(SetTextMarked(env, i, f, text, DurabilityOrLow(i, f), unreadable), f, DurabilityOrLow(i, f))
  {
    var d := DurabilityOrLow(i, f);
    SetTextAdvances(env, i, f, text, d, unreadable);
    var mid := WriteText(i, f, text, d);
    assert f in mid.overlays && mid.overlays[f] < |mid.texts| && mid.texts[mid.overlays[f]].stamp.durability == d;
    RevisionStamped(mid, f, env.hash(text), d, unreadable);
  }
}
