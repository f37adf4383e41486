/** Whole runs of the store: any order of registrations, disk changes, reads and evictions. */
module StoreRuns {
  import opened TextEdits
  import opened SourceStore
  import opened StoreInvariants
  import opened StoreWrites
  import opened StoreReads

  datatype World = World(db: Db, disk: Disk)

  datatype Event =
    | SetText(file: FileId, text: Text)
    | SetDisk(file: FileId, revision: nat)
    | SetUnreadable(file: FileId)
    | RegisterRoot(id: RootId, root: SourceRoot)
    | MapFile(file: FileId, id: RootId)
    | SyntheticWrite(durability: Durability)
    | DiskWritten(path: Path, bytes: Text)
    | DiskRemoved(path: Path)
    | ReadText(file: FileId)
    | ReadParse(file: FileId)
    | AskUnread(file: FileId)
    | EvictText(file: FileId)
    | EvictParse(file: FileId)

  function Start(disk: Disk): World {
    World(EmptyDb(), disk)
  }

  // ---- one step -------------------------------------------------------------------------------

  /** The inputs after a registration; the flag of the sink is set by `SetUnreadable` alone. */
  function Registered(env: Env, i: Inputs, e: Event): Inputs
    requires i.WellFormed()
  {
    match e
    case SetText(f, text) => SetTextMarked(env, i, f, text, DurabilityOrLow(i, f), false)
    case SetDisk(f, revision) => SetFromDisk(i, f, revision)
    case SetUnreadable(f) => SetTextMarked(env, i, f, "", DurabilityOrLow(i, f), true)
    case RegisterRoot(r, root) => SetRoot(i, r, root)
    case MapFile(f, r) => SetRootOf(i, f, r)
    case SyntheticWrite(d) => i.(clock := i.clock.Written(d))
    case _ => i
  }

  function SnapshotsAfter(db: Db, e: Event): map<FileId, Snapshot> {
    if e.SetDisk? then db.snapshots - {e.file} else db.snapshots
  }

  function DiskAfter(disk: Disk, e: Event): Disk {
    match e
    case DiskWritten(path, bytes) => disk[path := bytes]
    case DiskRemoved(path) => disk - {path}
    case _ => disk
  }

  function ReadAfter(env: Env, db: Db, disk: Disk, e: Event): (after: Db)
    requires db.inputs.WellFormed() && db.stats.Valid()
    ensures !e.AskUnread? ==> after.unread == db.unread
  {
    match e
    case ReadText(f) => FetchText(env, db, disk, f).0
    case ReadParse(f) => FetchParse(env, db, disk, f).0
    case AskUnread(f) => FetchUnread(db, f).0
    case EvictText(f) =>
      if f in db.texts then db.(texts := db.texts[f := db.texts[f].(resident := false)]) else db
    case EvictParse(f) =>
      if f in db.parses then db.(parses := db.parses[f := db.parses[f].(resident := false)]) else db
    case _ => db
  }

  lemma RegisteredAdvances(env: Env, i: Inputs, e: Event)
    requires InputsOk(env, i)
    ensures Advances(i, Registered(env, i, e)) && InputsOk(env, Registered(env, i, e))
  {
    match e
    case SetText(f, text) => SetTextAdvances(env, i, f, text, DurabilityOrLow(i, f), false);
    case SetDisk(f, revision) => SetFromDiskAdvances(env, i, f, revision);
    case SetUnreadable(f) => SetTextAdvances(env, i, f, "", DurabilityOrLow(i, f), true);
    case RegisterRoot(r, root) => SetRootAdvances(env, i, r, root);
    case MapFile(f, r) => SetRootOfAdvances(env, i, f, r);
    case SyntheticWrite(d) => SyntheticWriteAdvances(env, i, d);
    case _ =>
  }

  /** Only closing a file onto the disk takes its overlay away. */
  lemma OverlaysStay(env: Env, i: Inputs, e: Event, f: FileId)
    requires i.WellFormed() && f in i.overlays && !(e.SetDisk? && e.file == f)
    ensures f in Registered(env, i, e).overlays
  {
    match e
    case SetText(g, text) => TextsStay(env, i, g, text, DurabilityOrLow(i, g), false);
    case SetUnreadable(g) => TextsStay(env, i, g, "", DurabilityOrLow(i, g), true);
    case SetDisk(g, revision) =>
      assert SetFromDisk(i, g, revision).overlays == i.overlays - {g};
    case _ =>
  }

  lemma TextsStay(env: Env, i: Inputs, g: FileId, text: Text, d: Durability, unreadable: bool)
    requires i.WellFormed()
    ensures forall f | f in i.overlays :: f in SetTextMarked(env, i, g, text, d, unreadable).overlays
  {
    RevisionWritten(WriteText(i, g, text, d), g, env.hash(text), d, unreadable);
  }

  lemma RegistrationKeepsInv(env: Env, db: Db, e: Event)
    requires Inv(env, db)
    ensures Inv(env, db.(inputs := Registered(env, db.inputs, e), snapshots := SnapshotsAfter(db, e)))
  {
    RegisteredAdvances(env, db.inputs, e);
    forall f | f in SnapshotsAfter(db, e) ensures f in Registered(env, db.inputs, e).overlays {
      OverlaysStay(env, db.inputs, e, f);
    }
    AdvanceKeepsInv(env, db, Registered(env, db.inputs, e), SnapshotsAfter(db, e));
  }

  lemma EvictionKeepsInv(env: Env, db: Db, e: Event)
    requires Inv(env, db) && (e.EvictText? || e.EvictParse?)
    ensures Inv(env, ReadAfter(env, db, map[], e))
  {
    if e.EvictText? && e.file in db.texts {
      var m := db.texts[e.file].(resident := false);
      assert TextMemoOk(env, db.inputs, e.file, m);
      if e.file in db.parses {
        assert ParseMemoOk(env, db.inputs, e.file, m, db.parses[e.file]);
      }
      NewTextMemoKeepsInv(env, db, e.file, m);
    } else if e.EvictParse? && e.file in db.parses {
      var m := db.parses[e.file].(resident := false);
      assert ParseMemoOk(env, db.inputs, e.file, db.texts[e.file], m);
      NewParseMemoKeepsInv(env, db, e.file, m);
    }
  }

  lemma ReadKeepsInv(env: Env, db: Db, disk: Disk, e: Event)
    requires Inv(env, db)
    ensures Inv(env, ReadAfter(env, db, disk, e)) && ReadAfter(env, db, disk, e).inputs == db.inputs
  {
    match e
    case ReadText(f) => FetchTextKeepsInv(env, db, disk, f);
    case ReadParse(f) => FetchParseIsFullParse(env, db, disk, f);
    case AskUnread(f) => FetchUnreadKeepsInv(env, db, f);
    case EvictText(_) => EvictionKeepsInv(env, db, e);
    case EvictParse(_) => EvictionKeepsInv(env, db, e);
    case _ =>
  }

  ghost function Step(env: Env, w: World, e: Event): (w': World)
    requires Inv(env, w.db)
    ensures Inv(env, w'.db)
    ensures w'.db.inputs == Registered(env, w.db.inputs, e)
  {
    RegistrationKeepsInv(env, w.db, e);
    var db := w.db.(inputs := Registered(env, w.db.inputs, e), snapshots := SnapshotsAfter(w.db, e));
    var disk := DiskAfter(w.disk, e);
    ReadKeepsInv(env, db, disk, e);
    World(ReadAfter(env, db, disk, e), disk)
  }

  ghost function Run(env: Env, w: World, events: seq<Event>): (w': World)
    requires Inv(env, w.db)
    ensures Inv(env, w'.db)
    decreases |events|
  {
    if events == [] then w
    else Step(env, Run(env, w, events[..|events| - 1]), events[|events| - 1])
  }

  lemma RunEnds(env: Env, w: World, events: seq<Event>)
    requires Inv(env, w.db) && events != []
    ensures Run(env, w, events) == Step(env, Run(env, w, events[..|events| - 1]), events[|events| - 1])
  {
  }

  // ---- the registrations alone decide what a file is --------------------------------------------

  datatype Registration =
    | Unregistered
    | Overlay(text: Text, unreadable: bool)
    | OnDisk(revision: nat)

  /** What the last registration of the file said, read off the run without any state. */
  function LastRegistration(events: seq<Event>, f: FileId): Registration
    decreases |events|
  {
    if events == [] then Unregistered
    else
      match events[|events| - 1]
      case SetText(g, text) => if g == f then Overlay(text, false) else LastRegistration(events[..|events| - 1], f)
      case SetUnreadable(g) => if g == f then Overlay("", true) else LastRegistration(events[..|events| - 1], f)
      case SetDisk(g, revision) => if g == f then OnDisk(revision) else LastRegistration(events[..|events| - 1], f)
      case _ => LastRegistration(events[..|events| - 1], f)
  }

  ghost predicate Reflects(env: Env, i: Inputs, f: FileId, r: Registration)
    requires i.WellFormed()
  {
    match r
    case Unregistered => f !in i.revisions && f !in i.overlays
    case Overlay(text, unreadable) =>
      && f in i.overlays && i.texts[i.overlays[f]].value == text
      && i.revisions[f].revision.value == env.hash(text)
      && i.revisions[f].unreadable.value == unreadable
    case OnDisk(revision) =>
      && f !in i.overlays && f in i.revisions
      && i.revisions[f].revision.value == revision
      && !i.revisions[f].unreadable.value
  }

  predicate Registers(e: Event, f: FileId) {
    (e.SetText? || e.SetDisk? || e.SetUnreadable?) && e.file == f
  }

  /** A step that does not register the file leaves what is known of it. */
  lemma OthersStandStill(env: Env, i: Inputs, e: Event, f: FileId)
    requires InputsOk(env, i) && !Registers(e, f)
    ensures
      var j := Registered(env, i, e);
      && (f in j.revisions <==> f in i.revisions)
      && (f in i.revisions ==> j.revisions[f] == i.revisions[f])
      && (f in j.overlays <==> f in i.overlays)
      && (f in i.overlays ==>
            j.overlays[f] == i.overlays[f] && j.overlays[f] < |j.texts|
            && j.texts[j.overlays[f]] == i.texts[i.overlays[f]])
  {
    if e.SetText? || e.SetUnreadable? {
      var text := if e.SetText? then e.text else "";
      var d := DurabilityOrLow(i, e.file);
      TextWritten(i, e.file, text, d);
      RevisionWritten(WriteText(i, e.file, text, d), e.file, env.hash(text), d, e.SetUnreadable?);
    } else if e.SetDisk? {
      var closed := i.(overlays := i.overlays - {e.file});
      RevisionWritten(closed, e.file, e.revision, DurabilityOrLow(closed, e.file), false);
    }
  }

  lemma StepReflects(env: Env, i: Inputs, e: Event, f: FileId, events: seq<Event>)
    requires InputsOk(env, i) && Reflects(env, i, f, LastRegistration(events, f))
    ensures Registered(env, i, e).WellFormed()
    ensures Reflects(env, Registered(env, i, e), f, LastRegistration(events + [e], f))
  {
    RegisteredAdvances(env, i, e);
    assert (events + [e])[..|events + [e]| - 1] == events;
    if Registers(e, f) {
      OwnRegistrationReflects(env, i, e, f, events);
    } else {
      OthersStandStill(env, i, e, f);
    }
  }

  lemma LastRegistered(env: Env, w: World, before: seq<Event>, e: Event, f: FileId, events: seq<Event>)
    requires Inv(env, w.db) && events == before + [e]
    requires Reflects(env, w.db.inputs, f, LastRegistration(before, f))
    ensures Reflects(env, Step(env, w, e).db.inputs, f, LastRegistration(events, f))
  {
    StepReflects(env, w.db.inputs, e, f, before);
  }

  lemma OwnRegistrationReflects(env: Env, i: Inputs, e: Event, f: FileId, events: seq<Event>)
    requires InputsOk(env, i) && Registers(e, f)
    ensures Registered(env, i, e).WellFormed()
    ensures Reflects(env, Registered(env, i, e), f, LastRegistration(events + [e], f))
  {
    RegisteredAdvances(env, i, e);
    if e.SetDisk? {
      var closed := i.(overlays := i.overlays - {f});
      RevisionWritten(closed, f, e.revision, DurabilityOrLow(closed, f), false);
    } else {
      var text := if e.SetText? then e.text else "";
      var d := DurabilityOrLow(i, f);
      TextWritten(i, f, text, d);
      RevisionWritten(WriteText(i, f, text, d), f, env.hash(text), d, e.SetUnreadable?);
    }
  }

  lemma NothingRegistered(env: Env, w: World, f: FileId)
    requires Inv(env, w.db)
    ensures Run(env, w, []) == w && LastRegistration([], f) == Unregistered
  {
  }

  /** From where a file is unregistered, the store says of it what its last registration said. */
  lemma {:induction false} RunReflectsFrom(env: Env, w: World, events: seq<Event>, f: FileId)
    requires Inv(env, w.db) && Reflects(env, w.db.inputs, f, Unregistered)
    ensures Reflects(env, Run(env, w, events).db.inputs, f, LastRegistration(events, f))
    decreases |events|
  {
    if events == [] {
      NothingRegistered(env, w, f);
    } else {
      var before, e := events[..|events| - 1], events[|events| - 1];
      assert events == before + [e];
      RunReflectsFrom(env, w, before, f);
      RunEnds(env, w, events);
      LastRegistered(env, Run(env, w, before), before, e, f, events);
    }
  }

  /** In every reachable state the store says of a file what its last registration said. */
  lemma RunReflects(env: Env, disk: Disk, events: seq<Event>, f: FileId)
    ensures Reflects(env, Run(env, Start(disk), events).db.inputs, f, LastRegistration(events, f))
  {
    RunReflectsFrom(env, Start(disk), events, f);
  }

  /** A file is unread exactly when its last registration marked it unreadable. */
  lemma UnreadExactlyWhenMarked(env: Env, disk: Disk, events: seq<Event>, f: FileId)
    ensures
      IsUnread(Run(env, Start(disk), events).db.inputs, f) <==>
      LastRegistration(events, f) == Overlay("", true)
  {
    RunReflects(env, disk, events, f);
    MarkedTextIsEmpty(events, f);
  }

  lemma {:induction false} MarkedTextIsEmpty(events: seq<Event>, f: FileId)
    ensures LastRegistration(events, f).Overlay? && LastRegistration(events, f).unreadable ==>
              LastRegistration(events, f) == Overlay("", true)
    decreases |events|
  {
    if events != [] {
      MarkedTextIsEmpty(events[..|events| - 1], f);
    }
  }

  // ---- what reads return after any run -------------------------------------------------------------

  lemma OverlayTextOk(env: Env, db: Db, disk: Disk, f: FileId)
    requires Inv(env, db) && f in db.inputs.overlays
    ensures ReadUnmemoized(env, db.inputs, disk, f) == Ok(db.inputs.texts[db.inputs.overlays[f]].value)
    ensures FetchText(env, db, disk, f).1.Ok?
    ensures forall since :: !TextChangedSince(env, db, disk, f, since).1.Unwound?
  {
    assert env.hash(db.inputs.texts[db.inputs.overlays[f]].value) == db.inputs.revisions[f].revision.value;
  }

  /** An open file is always answered. */
  lemma OverlayParseOk(env: Env, db: Db, disk: Disk, f: FileId)
    requires Inv(env, db) && f in db.inputs.overlays
    ensures FetchParse(env, db, disk, f).1.Ok?
  {
    OverlayTextOk(env, db, disk, f);
    if f in db.parses && db.parses[f].resident && !ShallowValid(db.inputs, db.parses[f]) {
      var since := db.parses[f].verifiedAt;
      TextChangedSinceKeepsInv(env, db, disk, f, since);
      var (db1, change) := TextChangedSince(env, db, disk, f, since);
      assert !change.Unwound?;
      OverlayTextOk(env, db1, disk, f);
    }
  }

  /** The text read after any run, through any memo, is the registered one: an open file's
      overlay itself, a closed file's bytes only under the recorded revision. An unregistered
      file is never answered. */
  lemma TextAfterAnyRun(env: Env, disk: Disk, events: seq<Event>, f: FileId)
    ensures
      var w := Run(env, Start(disk), events);
      var read := FetchText(env, w.db, w.disk, f).1;
      match LastRegistration(events, f)
      case Overlay(text, _) => read == Ok(text)
      case OnDisk(revision) => read.Ok? ==> env.hash(read.value) == revision
      case Unregistered => !read.Ok?
  {
    RunReflects(env, disk, events, f);
    var w := Run(env, Start(disk), events);
    FetchTextKeepsInv(env, w.db, w.disk, f);
    if f in w.db.inputs.overlays {
      OverlayTextOk(env, w.db, w.disk, f);
    }
  }

  /** The parse after any run is the full parse of the registered text, however many edits were
      spliced into it and whatever was evicted in between. */
  lemma ParseAfterAnyRun(env: Env, disk: Disk, events: seq<Event>, f: FileId)
    requires Trusted(env)
    ensures
      var w := Run(env, Start(disk), events);
      var read := FetchParse(env, w.db, w.disk, f).1;
      match LastRegistration(events, f)
      case Overlay(text, _) => read == Ok(env.full(text))
      case OnDisk(revision) =>
        read.Ok? ==> exists text :: env.hash(text) == revision && read.value == env.full(text)
      case Unregistered => !read.Ok?
  {
    RunReflects(env, disk, events, f);
    var w := Run(env, Start(disk), events);
    FetchParseIsFullParse(env, w.db, w.disk, f);
    if f in w.db.inputs.overlays {
      OverlayParseOk(env, w.db, w.disk, f);
    }
  }

  /** From-scratch consistency: in every reachable state a text memo the engine would accept,
      even without looking at its dependencies, is what a read without any memo returns; the
      only exceptions are a disk-backed file whose bytes are gone or have moved on. */
  lemma MemoIsFromScratchAfterAnyRun(env: Env, disk: Disk, events: seq<Event>, f: FileId)
    requires env.CollisionFree()
    ensures
      var w := Run(env, Start(disk), events);
      f in w.db.texts && Valid(w.db.inputs, w.db.texts[f]) ==>
        var v := w.db.texts[f].value;
        var scratch := ReadUnmemoized(env, w.db.inputs, w.disk, f);
        if f in w.db.inputs.overlays then scratch == Ok(v)
        else
          && DiskPath(w.db.inputs, f).Ok?
          && var path := DiskPath(w.db.inputs, f).value;
             if path !in w.disk then scratch == Panicked(CannotRead)
             else if w.disk[path] == v then scratch == Ok(v)
             else scratch == Superseded
  {
    var w := Run(env, Start(disk), events);
    if f in w.db.texts && Valid(w.db.inputs, w.db.texts[f]) {
      ValidTextIsFromScratchText(env, w.db, w.disk, f);
    }
  }

  /** The check that an overlay matches its revision never fires. */
  lemma OverlayNeverStale(env: Env, disk: Disk, events: seq<Event>, f: FileId)
    ensures
      var w := Run(env, Start(disk), events);
      ReadUnmemoized(env, w.db.inputs, w.disk, f) != Panicked(StaleOverlay)
  {
    var i := Run(env, Start(disk), events).db.inputs;
    if f in i.overlays {
      assert env.hash(i.texts[i.overlays[f]].value) == i.revisions[f].revision.value;
    }
  }

  /** In every reachable state the durability shortcut agrees with the walk over dependencies. */
  lemma ShortcutIsSoundAfterAnyRun(env: Env, disk: Disk, events: seq<Event>, f: FileId)
    ensures
      var db := Run(env, Start(disk), events).db;
      && (f in db.texts && ShallowValid(db.inputs, db.texts[f]) ==> DeepValid(db.inputs, db.texts[f]))
      && (f in db.parses && ShallowValid(db.inputs, db.parses[f]) ==> DeepValid(db.inputs, db.parses[f]))
      && (f in db.unread && ShallowValid(db.inputs, db.unread[f]) ==> DeepValid(db.inputs, db.unread[f]))
  {
    var db := Run(env, Start(disk), events).db;
    if f in db.texts { ShieldIsSound(db.inputs, db.texts[f]); }
    if f in db.parses { ShieldIsSound(db.inputs, db.parses[f]); }
    if f in db.unread { ShieldIsSound(db.inputs, db.unread[f]); }
  }

  // ---- parse outcomes over a run -----------------------------------------------------------------

  function Total(s: Stats): nat
    requires s.Valid()
  {
    s.full + s.spliced + s.mismatched
    + s.refused[0] + s.refused[1] + s.refused[2] + s.refused[3]
    + s.refused[4] + s.refused[5] + s.refused[6] + s.refused[7]
  }

  lemma CountAddsOne(s: Stats, o: Outcome)
    requires s.Valid()
    ensures s.Count(o).Valid() && Total(s.Count(o)) == Total(s) + 1
  {
    if o.RefusedParse? {
      var n := o.why.Index();
      assert n == 0 || n == 1 || n == 2 || n == 3 || n == 4 || n == 5 || n == 6 || n == 7;
    }
  }

  /** Whether a parse read runs the query: its memo is gone, or its text differs, and there is a text. */
  function Executes(env: Env, db: Db, disk: Disk, f: FileId): bool
    requires db.inputs.WellFormed()
  {
    if f !in db.parses || !db.parses[f].resident then FetchText(env, db, disk, f).1.Ok?
    else if ShallowValid(db.inputs, db.parses[f]) then false
    else
      var (db1, change) := TextChangedSince(env, db, disk, f, db.parses[f].verifiedAt);
      change.Different? && FetchText(env, db1, disk, f).1.Ok?
  }

  function ExecutedBy(w: World, env: Env, e: Event): nat
    requires w.db.inputs.WellFormed()
  {
    if e.ReadParse? && Executes(env, w.db, w.disk, e.file) then 1 else 0
  }

  ghost function Executions(env: Env, w: World, events: seq<Event>): nat
    requires Inv(env, w.db)
    decreases |events|
  {
    if events == [] then 0
    else
      var before := events[..|events| - 1];
      Executions(env, w, before) + ExecutedBy(Run(env, w, before), env, events[|events| - 1])
  }

  lemma ExecutionIsCounted(env: Env, db: Db, disk: Disk, f: FileId)
    requires Inv(env, db)
    ensures ExecuteParse(env, db, disk, f).0.stats.Valid()
    ensures
      Total(ExecuteParse(env, db, disk, f).0.stats) ==
      Total(db.stats) + if FetchText(env, db, disk, f).1.Ok? then 1 else 0
  {
    FetchTextKeepsInv(env, db, disk, f);
    ExecuteParseKeepsInv(env, db, disk, f);
    var after := ExecuteParse(env, db, disk, f).0.stats;
    if FetchText(env, db, disk, f).1.Ok? {
      var o :| after == db.stats.Count(o);
      CountAddsOne(db.stats, o);
    }
  }

  lemma SettlingCounts(env: Env, db: Db, disk: Disk, f: FileId, change: Change)
    requires Inv(env, db) && f in db.parses && (change.Same? ==> f in db.texts)
    ensures SettleParse(env, db, disk, f, change).0.stats.Valid()
    ensures
      Total(SettleParse(env, db, disk, f, change).0.stats) ==
      Total(db.stats) + if change.Different? && FetchText(env, db, disk, f).1.Ok? then 1 else 0
  {
    if change.Different? {
      ExecutionIsCounted(env, db, disk, f);
    }
  }

  lemma ParseReadCounts(env: Env, db: Db, disk: Disk, f: FileId)
    requires Inv(env, db)
    ensures FetchParse(env, db, disk, f).0.stats.Valid()
    ensures
      Total(FetchParse(env, db, disk, f).0.stats) == Total(db.stats) + if Executes(env, db, disk, f) then 1 else 0
  {
    if f !in db.parses || !db.parses[f].resident {
      ExecutionIsCounted(env, db, disk, f);
    } else if !ShallowValid(db.inputs, db.parses[f]) {
      var since := db.parses[f].verifiedAt;
      TextChangedSinceKeepsInv(env, db, disk, f, since);
      var (db1, change) := TextChangedSince(env, db, disk, f, since);
      SettlingCounts(env, db1, disk, f, change);
    }
  }

  lemma StepCounts(env: Env, w: World, e: Event)
    requires Inv(env, w.db)
    ensures Total(Step(env, w, e).db.stats) == Total(w.db.stats) + ExecutedBy(w, env, e)
  {
    RegistrationKeepsInv(env, w.db, e);
    var db := w.db.(inputs := Registered(env, w.db.inputs, e), snapshots := SnapshotsAfter(w.db, e));
    match e
    case ReadText(f) => FetchTextKeepsInv(env, db, w.disk, f);
    case ReadParse(f) =>
      assert db == w.db;
      ParseReadCounts(env, db, w.disk, f);
    case _ =>
  }

  lemma NoRunCountsNothing(env: Env, w: World)
    requires Inv(env, w.db)
    ensures Run(env, w, []) == w && Executions(env, w, []) == 0
  {
  }

  lemma ExecutionsEnd(env: Env, w: World, events: seq<Event>)
    requires Inv(env, w.db) && events != []
    ensures
      var before, e := events[..|events| - 1], events[|events| - 1];
      Executions(env, w, events) == Executions(env, w, before) + ExecutedBy(Run(env, w, before), env, e)
  {
  }

  /** Over any run, from any world, each execution of the parse query is counted as exactly one
      outcome, and nothing else is counted. */
  lemma {:induction false} EveryExecutionIsCounted(env: Env, w: World, events: seq<Event>)
    requires Inv(env, w.db)
    ensures Total(Run(env, w, events).db.stats) == Total(w.db.stats) + Executions(env, w, events)
    decreases |events|
  {
    if events == [] {
      NoRunCountsNothing(env, w);
    } else {
      var before := events[..|events| - 1];
      EveryExecutionIsCounted(env, w, before);
      RunEnds(env, w, events);
      ExecutionsEnd(env, w, events);
      StepCounts(env, Run(env, w, before), events[|events| - 1]);
    }
  }

  // ---- asking whether a file is unread ---------------------------------------------------------------

  ghost predicate AnswersTruly(db: Db, f: FileId) {
    FetchUnread(db, f).1 == IsUnread(db.inputs, f)
  }

  /** The file is known and the query, if it was ever asked, depends on its flag. */
  ghost predicate Watched(db: Db, f: FileId) {
    f in db.inputs.revisions && (f in db.unread ==> db.unread[f].deps != {})
  }

  lemma WatchedAnswersTruly(env: Env, db: Db, f: FileId)
    requires Inv(env, db) && Watched(db, f)
    ensures AnswersTruly(db, f)
  {
    if f in db.unread && Valid(db.inputs, db.unread[f]) {
      ShieldIsSound(db.inputs, db.unread[f]);
      assert UnreadableField(f) in db.unread[f].deps;
    }
  }

  lemma WatchedStays(env: Env, w: World, e: Event, f: FileId)
    requires Inv(env, w.db) && Watched(w.db, f)
    ensures Watched(Step(env, w, e).db, f)
  {
    RegistrationKeepsInv(env, w.db, e);
    RegisteredAdvances(env, w.db.inputs, e);
    assert w.db.inputs.Has(RevisionField(f)) && Registered(env, w.db.inputs, e).Has(RevisionField(f));
    var db := w.db.(inputs := Registered(env, w.db.inputs, e), snapshots := SnapshotsAfter(w.db, e));
    if e.AskUnread? {
      AskingKeepsWatch(db, e.file, f);
    } else {
      assert ReadAfter(env, db, DiskAfter(w.disk, e), e).unread == w.db.unread;
    }
  }

  lemma AskingKeepsWatch(db: Db, asked: FileId, f: FileId)
    requires Watched(db, f)
    ensures FetchUnread(db, asked).0.inputs == db.inputs && Watched(FetchUnread(db, asked).0, f)
  {
  }

  lemma {:induction false} WatchedForEver(env: Env, w: World, events: seq<Event>, f: FileId)
    requires Inv(env, w.db) && Watched(w.db, f)
    ensures Watched(Run(env, w, events).db, f)
    decreases |events|
  {
    if events != [] {
      WatchedForEver(env, w, events[..|events| - 1], f);
      WatchedStays(env, Run(env, w, events[..|events| - 1]), events[|events| - 1], f);
    }
  }

  lemma RunOne(env: Env, w: World, e: Event)
    requires Inv(env, w.db)
    ensures Run(env, w, [e]) == Step(env, w, e)
  {
    assert [e][..0] == [];
    assert Run(env, w, [e][..0]) == w;
  }

  /** Asked about a file nobody registered, the query answers "readable" and depends on nothing;
      registering the file as unreadable creates an input and starts no revision. */
  lemma UnregisteredAnswerGoesStale(env: Env, w: World, f: FileId)
    requires Inv(env, w.db)
    requires f !in w.db.inputs.revisions && f !in w.db.unread
    ensures !AnswersTruly(Run(env, Step(env, w, AskUnread(f)), [SetUnreadable(f)]).db, f)
  {
    var asked := Step(env, w, AskUnread(f));
    var marked := Step(env, asked, SetUnreadable(f));
    RunOne(env, asked, SetUnreadable(f));
    assert marked.db.unread == asked.db.unread;
    assert f !in w.db.inputs.overlays;
    assert marked.db.inputs.clock == asked.db.inputs.clock;
    assert ShallowValid(marked.db.inputs, marked.db.unread[f]);
  }

  /** A first answer stays true through every later run exactly when the file was registered at
      the time it was given. */
  lemma UnreadAnswerLastsIffRegistered(env: Env, w: World, f: FileId)
    requires Inv(env, w.db) && f !in w.db.unread
    ensures
      (forall events :: AnswersTruly(Run(env, Step(env, w, AskUnread(f)), events).db, f)) <==>
      f in w.db.inputs.revisions
  {
    var asked := Step(env, w, AskUnread(f));
    if f in w.db.inputs.revisions {
      forall events ensures AnswersTruly(Run(env, asked, events).db, f) {
        WatchedForEver(env, asked, events, f);
        WatchedAnswersTruly(env, Run(env, asked, events).db, f);
      }
    } else {
      UnregisteredAnswerGoesStale(env, w, f);
    }
  }

  // ---- the flag is written only when it flips ---------------------------------------------------------

  /** A registration leaves the flag's stamp alone exactly when the answer stays the same, so a
      reader of the flag is disturbed by a flip and by nothing else. */
  lemma FlagStampMovesOnlyOnFlip(env: Env, w: World, e: Event, f: FileId)
    requires Inv(env, w.db) && f in w.db.inputs.revisions
    ensures
      var i, j := w.db.inputs, Step(env, w, e).db.inputs;
      && f in j.revisions
      && (j.revisions[f].unreadable.stamp == i.revisions[f].unreadable.stamp <==> IsUnread(j, f) == IsUnread(i, f))
  {
    var i := w.db.inputs;
    RegisteredAdvances(env, i, e);
    assert i.Has(UnreadableField(f)) && i.StampOf(UnreadableField(f)).changedAt <= i.clock.now;
    if Registers(e, f) {
      FlagOfOwnRegistration(env, i, e, f);
    } else {
      OthersStandStill(env, i, e, f);
    }
  }

  lemma FlagOfOwnRegistration(env: Env, i: Inputs, e: Event, f: FileId)
    requires InputsOk(env, i) && Registers(e, f) && f in i.revisions
    requires i.revisions[f].unreadable.stamp.changedAt <= i.clock.now
    ensures
      var j := Registered(env, i, e);
      && f in j.revisions
      && (j.revisions[f].unreadable.stamp == i.revisions[f].unreadable.stamp <==> IsUnread(j, f) == IsUnread(i, f))
  {
    if e.SetDisk? {
      var closed := i.(overlays := i.overlays - {f});
      var d := DurabilityOrLow(closed, f);
      RevisionWriteIsSeen(closed, f, e.revision, d, false);
      RevisionWritten(closed, f, e.revision, d, false);
    } else {
      var text := if e.SetText? then e.text else "";
      var d := DurabilityOrLow(i, f);
      TextWritten(i, f, text, d);
      RevisionWriteIsSeen(WriteText(i, f, text, d), f, env.hash(text), d, e.SetUnreadable?);
      RevisionWritten(WriteText(i, f, text, d), f, env.hash(text), d, e.SetUnreadable?);
    }
  }
}
