/** The incremental source store: file inputs, the memo table over them, and the queries.

    Writing an input starts a revision and stamps the field; creating one stamps it with
    the current revision and starts none. A memo is accepted without looking at its
    dependencies when no input as durable as the memo was written since it was verified,
    and otherwise when none of its dependencies was. Which file has an overlay and which
    parse was its last one live in plain maps that this machinery does not see. */
module SourceStore {
  import opened Common
  import opened TextEdits

  type FileId = nat
  type RootId = nat
  type Path = string

  // ---- durability, stamps, clock ----------------------------------------------------

  datatype Durability = Low | Medium | High {
    function Rank(): nat {
      match this
      case Low => 0
      case Medium => 1
      case High => 2
    }

    predicate AtMost(other: Durability) {
      Rank() <= other.Rank()
    }
  }

  function Weaker(a: Durability, b: Durability): Durability {
    if a.AtMost(b) then a else b
  }

  function Later(a: nat, b: nat): nat {
    if a <= b then b else a
  }

  datatype Stamp = Stamp(changedAt: nat, durability: Durability)

  datatype Cell<V> = Cell(value: V, stamp: Stamp)

  /** The current revision, and the last ones that wrote an input of at least that durability. */
  datatype Clock = Clock(now: nat, mediumAt: nat, highAt: nat) {
    predicate Valid() {
      highAt <= mediumAt <= now
    }

    function LastChanged(d: Durability): nat {
      match d
      case Low => now
      case Medium => mediumAt
      case High => highAt
    }

    /** A new revision, begun by writing an input that was `d` durable until now. */
    function Written(d: Durability): Clock {
      Clock(now + 1, if d.Low? then mediumAt else now + 1, if d.High? then now + 1 else highAt)
    }
  }

  // ---- inputs -----------------------------------------------------------------------

  datatype RootKind = Local | Library | Metadata

  datatype SourceRoot = SourceRoot(kind: RootKind, files: map<FileId, Path>) {
    function Durability(): Durability {
      match kind
      case Local => Low
      case Library => High
      case Metadata => Medium
    }
  }

  datatype RevisionInput = RevisionInput(revision: Cell<nat>, unreadable: Cell<bool>)

  /** What a memo can depend on: one field of one input. A text input has an identity of its
      own, because a file that is closed and opened again gets a new one. */
  datatype Key =
    | TextField(id: nat)
    | RevisionField(file: FileId)
    | UnreadableField(file: FileId)
    | RootOfField(file: FileId)
    | RootField(root: RootId)

  datatype Inputs = Inputs(
    clock: Clock,
    texts: seq<Cell<Text>>,
    overlays: map<FileId, nat>,
    revisions: map<FileId, RevisionInput>,
    rootOf: map<FileId, Cell<RootId>>,
    roots: map<RootId, Cell<SourceRoot>>)
  {
    /** Handles point at inputs that exist, and no two files share a text input. */
    predicate WellFormed() {
      && clock.Valid()
      && (forall f | f in overlays :: overlays[f] < |texts| && f in revisions)
      && (forall f, g | f in overlays && g in overlays && f != g :: overlays[f] != overlays[g])
    }

    predicate Has(k: Key) {
      match k
      case TextField(id) => id < |texts|
      case RevisionField(f) => f in revisions
      case UnreadableField(f) => f in revisions
      case RootOfField(f) => f in rootOf
      case RootField(r) => r in roots
    }

    function StampOf(k: Key): Stamp
      requires Has(k)
    {
      match k
      case TextField(id) => texts[id].stamp
      case RevisionField(f) => revisions[f].revision.stamp
      case UnreadableField(f) => revisions[f].unreadable.stamp
      case RootOfField(f) => rootOf[f].stamp
      case RootField(r) => roots[r].stamp
    }

    predicate Unchanged(k: Key, since: nat) {
      Has(k) && StampOf(k).changedAt <= since
    }
  }

  function EmptyInputs(): Inputs {
    Inputs(Clock(1, 1, 1), [], map[], map[], map[], map[])
  }

  /** Write `text` into the file's text input, making one when the file has no overlay. */
  function WriteText(i: Inputs, f: FileId, text: Text, d: Durability): Inputs
    requires i.WellFormed()
  {
    if f in i.overlays then
      var id := i.overlays[f];
      var clock := i.clock.Written(i.texts[id].stamp.durability);
      i.(clock := clock, texts := i.texts[id := Cell(text, Stamp(clock.now, d))])
    else
      i.(texts := i.texts + [Cell(text, Stamp(i.clock.now, d))], overlays := i.overlays[f := |i.texts|])
  }

  /** The sink of every registration: the revision is written always, the unreadable flag
      only when it flips. */
  function WriteRevision(i: Inputs, f: FileId, revision: nat, d: Durability, unreadable: bool): Inputs {
    if f in i.revisions then
      var input := i.revisions[f];
      var clock := i.clock.Written(input.revision.stamp.durability);
      var written := input.(revision := Cell(revision, Stamp(clock.now, d)));
      if input.unreadable.value != unreadable then
        var clock' := clock.Written(input.unreadable.stamp.durability);
        i.(clock := clock',
           revisions := i.revisions[f := written.(unreadable := Cell(unreadable, Stamp(clock'.now, d)))])
      else
        i.(clock := clock, revisions := i.revisions[f := written])
    else
      var stamp := Stamp(i.clock.now, d);
      i.(revisions := i.revisions[f := RevisionInput(Cell(revision, stamp), Cell(unreadable, stamp))])
  }

  function DurabilityForFile(i: Inputs, f: FileId): Option<Durability> {
    if f in i.rootOf && i.rootOf[f].value in i.roots
    then Some(i.roots[i.rootOf[f].value].value.Durability())
    else None
  }

  function DurabilityOrLow(i: Inputs, f: FileId): Durability {
    match DurabilityForFile(i, f)
    case Some(d) => d
    case None => Low
  }

  function SetTextMarked(env: Env, i: Inputs, f: FileId, text: Text, d: Durability, unreadable: bool): Inputs
    requires i.WellFormed()
  {
    WriteRevision(WriteText(i, f, text, d), f, env.hash(text), d, unreadable)
  }

  function SetFromDisk(i: Inputs, f: FileId, revision: nat): Inputs {
    var closed := i.(overlays := i.overlays - {f});
    WriteRevision(closed, f, revision, DurabilityOrLow(closed, f), false)
  }

  function SetRoot(i: Inputs, r: RootId, root: SourceRoot): Inputs {
    var clock := if r in i.roots then i.clock.Written(i.roots[r].stamp.durability) else i.clock;
    i.(clock := clock, roots := i.roots[r := Cell(root, Stamp(clock.now, root.Durability()))])
  }

  function SetRootOf(i: Inputs, f: FileId, r: RootId): Inputs {
    var d := if r in i.roots then i.roots[r].value.Durability() else Low;
    if f in i.rootOf && i.rootOf[f].value == r then i
    else
      var clock := if f in i.rootOf then i.clock.Written(i.rootOf[f].stamp.durability) else i.clock;
      i.(clock := clock, rootOf := i.rootOf[f := Cell(r, Stamp(clock.now, d))])
  }

  // ---- the parser, known by its contract --------------------------------------------

  datatype Parse = Parse(green: string, errors: seq<string>)

  datatype Refusal =
    | OutsideMethod | OldUnclosed | TokenBoundary | Preprocessor
    | Shape | Kind | NewUnclosed | ContextError
  {
    function Index(): (n: nat)
      ensures n < 8
    {
      match this
      case OutsideMethod => 0
      case OldUnclosed => 1
      case TokenBoundary => 2
      case Preprocessor => 3
      case Shape => 4
      case Kind => 5
      case NewUnclosed => 6
      case ContextError => 7
    }
  }

  datatype Reparse = Spliced(parse: Parse) | Refused(why: Refusal)

  /** The functions the store is given, and whether splices are checked on the spot. */
  datatype Env = Env(
    hash: Text -> nat,
    full: Text -> Parse,
    reparse: (Parse, Text, Text, TextEdit) -> Reparse,
    verify: bool)
  {
    /** No two texts share a content revision. */
    ghost predicate CollisionFree() {
      forall a, b :: hash(a) == hash(b) ==> a == b
    }

    /** What the guards of the method reparse are for. */
    ghost predicate ReparseSound() {
      forall a, b, e ::
        reparse(full(a), a, b, e).Spliced? ==> reparse(full(a), a, b, e).parse == full(b)
    }
  }

  datatype Snapshot = Snapshot(text: Text, parse: Parse)

  datatype Outcome = FullParse | SplicedParse | RefusedParse(why: Refusal) | Mismatched

  datatype Stats = Stats(full: nat, spliced: nat, mismatched: nat, refused: seq<nat>) {
    predicate Valid() {
      |refused| == 8
    }

    function Of(o: Outcome): nat
      requires Valid()
    {
      match o
      case FullParse => full
      case SplicedParse => spliced
      case Mismatched => mismatched
      case RefusedParse(why) => refused[why.Index()]
    }

    function Count(o: Outcome): Stats
      requires Valid()
    {
      match o
      case FullParse => this.(full := full + 1)
      case SplicedParse => this.(spliced := spliced + 1)
      case Mismatched => this.(mismatched := mismatched + 1)
      case RefusedParse(why) => this.(refused := refused[why.Index() := refused[why.Index()] + 1])
    }
  }

  function NoStats(): Stats {
    Stats(0, 0, 0, seq(8, _ => 0))
  }

  // ---- memos and the database --------------------------------------------------------

  /** The last value computed, and whether the LRU still holds it. `deps` are the inputs the
      value was computed from; for a parse, those its text was. */
  datatype Memo<V> = Memo(
    value: V, resident: bool, deps: set<Key>, changedAt: nat, verifiedAt: nat, durability: Durability)

  datatype Db = Db(
    inputs: Inputs,
    snapshots: map<FileId, Snapshot>,
    stats: Stats,
    drifts: nat,
    texts: map<FileId, Memo<Text>>,
    parses: map<FileId, Memo<Parse>>,
    unread: map<FileId, Memo<bool>>)

  function EmptyDb(): Db {
    Db(EmptyInputs(), map[], NoStats(), 0, map[], map[], map[])
  }

  predicate ShallowValid<V>(i: Inputs, m: Memo<V>) {
    i.clock.LastChanged(m.durability) <= m.verifiedAt
  }

  predicate DeepValid<V>(i: Inputs, m: Memo<V>) {
    forall k | k in m.deps :: i.Unchanged(k, m.verifiedAt)
  }

  predicate Valid<V>(i: Inputs, m: Memo<V>) {
    ShallowValid(i, m) || DeepValid(i, m)
  }

  function Verified<V>(i: Inputs, m: Memo<V>): Memo<V> {
    m.(verifiedAt := i.clock.now)
  }

  // ---- reading a file's text ----------------------------------------------------------

  /** The panics a read can end in. */
  datatype Panic = NoRevision | StaleOverlay | NoSourceRoot | NotInFileSet | CannotRead

  /** A read returns a value, panics, or unwinds as a pending write. */
  datatype Read<+V> = Ok(value: V) | Superseded | Panicked(why: Panic)

  /** Files that can be decoded, by path. */
  type Disk = map<Path, Text>

  function DiskPath(i: Inputs, f: FileId): Read<Path> {
    if f !in i.rootOf || i.rootOf[f].value !in i.roots then Panicked(NoSourceRoot)
    else if f !in i.roots[i.rootOf[f].value].value.files then Panicked(NotInFileSet)
    else Ok(i.roots[i.rootOf[f].value].value.files[f])
  }

  /** The from-scratch text: the overlay, else the disk bytes if they are the recorded ones. */
  function ReadUnmemoized(env: Env, i: Inputs, disk: Disk, f: FileId): Read<Text>
    requires i.WellFormed()
  {
    if f !in i.revisions then Panicked(NoRevision)
    else
      var want := i.revisions[f].revision.value;
      if f in i.overlays then
        var text := i.texts[i.overlays[f]].value;
        if env.hash(text) == want then Ok(text) else Panicked(StaleOverlay)
      else
        match DiskPath(i, f)
        case Panicked(why) => Panicked(why)
        case Superseded => Superseded
        case Ok(path) =>
          if path !in disk then Panicked(CannotRead)
          else if env.hash(disk[path]) != want then Superseded
          else Ok(disk[path])
  }

  /** The inputs such a read looks at. */
  function ReadDeps(i: Inputs, f: FileId): set<Key> {
    if f in i.overlays then {RevisionField(f), TextField(i.overlays[f])}
    else if f in i.rootOf then {RevisionField(f), RootOfField(f), RootField(i.rootOf[f].value)}
    else {RevisionField(f)}
  }

  function ReadStamp(i: Inputs, f: FileId): Stamp
    requires i.WellFormed() && f in i.revisions
    requires f in i.overlays || (f in i.rootOf && i.rootOf[f].value in i.roots)
  {
    var r := i.revisions[f].revision.stamp;
    if f in i.overlays then
      var t := i.texts[i.overlays[f]].stamp;
      Stamp(Later(r.changedAt, t.changedAt), Weaker(r.durability, t.durability))
    else
      var m := i.rootOf[f].stamp;
      var s := i.roots[i.rootOf[f].value].stamp;
      Stamp(Later(r.changedAt, Later(m.changedAt, s.changedAt)),
            Weaker(r.durability, Weaker(m.durability, s.durability)))
  }

  /** Run the query. A value equal to the one still held keeps its age, unless it became
      less durable. Nothing is stored by a read that unwinds. */
  function ExecuteText(env: Env, db: Db, disk: Disk, f: FileId): (result: (Db, Read<Text>))
    requires db.inputs.WellFormed()
    ensures result.1.Ok? ==> f in result.0.texts
    ensures result.0.parses == db.parses && result.0.inputs == db.inputs && result.0.stats == db.stats
    ensures result.0.unread == db.unread
  {
    var i := db.inputs;
    match ReadUnmemoized(env, i, disk, f)
    case Panicked(why) => (db, Panicked(why))
    case Superseded => (db.(drifts := db.drifts + 1), Superseded)
    case Ok(text) =>
      var stamp := ReadStamp(i, f);
      var same := f in db.texts && db.texts[f].resident && db.texts[f].value == text
        && db.texts[f].durability.AtMost(stamp.durability);
      var changedAt := if same then db.texts[f].changedAt else stamp.changedAt;
      var memo := Memo(text, true, ReadDeps(i, f), changedAt, i.clock.now, stamp.durability);
      (db.(texts := db.texts[f := memo]), Ok(text))
  }

  function VerifyText(db: Db, f: FileId): Db
    requires f in db.texts
  {
    db.(texts := db.texts[f := Verified(db.inputs, db.texts[f])])
  }

  /** `file_text_query`: the memo while it holds, otherwise a fresh run. */
  function FetchText(env: Env, db: Db, disk: Disk, f: FileId): (result: (Db, Read<Text>))
    requires db.inputs.WellFormed()
    ensures result.1.Ok? ==> f in result.0.texts
    ensures result.0.unread == db.unread
  {
    if f in db.texts && db.texts[f].resident && Valid(db.inputs, db.texts[f])
    then (VerifyText(db, f), Ok(db.texts[f].value))
    else ExecuteText(env, db, disk, f)
  }

  // ---- parsing --------------------------------------------------------------------------

  function ReparseOrFull(env: Env, snapshot: Snapshot, text: Text): (Parse, Outcome) {
    match EditBetween(snapshot.text, text)
    case None => (snapshot.parse, FullParse)
    case Some(edit) =>
      match env.reparse(snapshot.parse, snapshot.text, text, edit)
      case Spliced(p) =>
        if env.verify && p != env.full(text) then (env.full(text), Mismatched) else (p, SplicedParse)
      case Refused(why) => (env.full(text), RefusedParse(why))
  }

  /** The body of `parse_query` once it has its text. */
  function ParseText(env: Env, db: Db, f: FileId, text: Text): (result: (Db, Parse))
    requires db.stats.Valid()
    ensures result.0.unread == db.unread
  {
    var overlay := f in db.inputs.overlays;
    var (p, outcome) :=
      if overlay && f in db.snapshots then ReparseOrFull(env, db.snapshots[f], text)
      else (env.full(text), FullParse);
    var snapshots := if overlay then db.snapshots[f := Snapshot(text, p)] else db.snapshots;
    (db.(stats := db.stats.Count(outcome), snapshots := snapshots), p)
  }

  function ExecuteParse(env: Env, db: Db, disk: Disk, f: FileId): (result: (Db, Read<Parse>))
    requires db.inputs.WellFormed() && db.stats.Valid()
    ensures result.0.unread == db.unread
  {
    var (db1, read) := FetchText(env, db, disk, f);
    match read
    case Panicked(why) => (db1, Panicked(why))
    case Superseded => (db1, Superseded)
    case Ok(text) =>
      var (db2, p) := ParseText(env, db1, f, text);
      var t := db2.texts[f];
      var memo := Memo(p, true, t.deps, t.changedAt, db2.inputs.clock.now, t.durability);
      (db2.(parses := db2.parses[f := memo]), Ok(p))
  }

  /** Whether the text may have changed since a revision. A stale text is computed again, so
      that an equal value need not disturb its readers; an evicted stale one counts as changed. */
  datatype Change = Same | Different | Unwound(why: Read<Parse>)

  function TextChangedSince(env: Env, db: Db, disk: Disk, f: FileId, since: nat): (result: (Db, Change))
    requires db.inputs.WellFormed()
    ensures result.1.Same? ==> f in result.0.texts
    ensures result.0.parses == db.parses && result.0.inputs == db.inputs && result.0.stats == db.stats
    ensures result.0.unread == db.unread
  {
    if f !in db.texts then (db, Different)
    else if Valid(db.inputs, db.texts[f]) then
      (VerifyText(db, f), if db.texts[f].changedAt <= since then Same else Different)
    else if !db.texts[f].resident then (db, Different)
    else
      var (db1, read) := ExecuteText(env, db, disk, f);
      match read
      case Panicked(why) => (db1, Unwound(Panicked(why)))
      case Superseded => (db1, Unwound(Superseded))
      case Ok(_) => (db1, if db1.texts[f].changedAt <= since then Same else Different)
  }

  /** What becomes of a stale parse once its text was asked. */
  function SettleParse(env: Env, db: Db, disk: Disk, f: FileId, change: Change): (result: (Db, Read<Parse>))
    requires db.inputs.WellFormed() && db.stats.Valid()
    requires f in db.parses && (change.Same? ==> f in db.texts)
    ensures result.0.unread == db.unread
  {
    match change
    case Unwound(why) => (db, why)
    case Different => ExecuteParse(env, db, disk, f)
    case Same =>
      var memo := Verified(db.inputs, db.parses[f]).(deps := db.texts[f].deps);
      (db.(parses := db.parses[f := memo]), Ok(memo.value))
  }

  /** `parse_query`. */
  function FetchParse(env: Env, db: Db, disk: Disk, f: FileId): (result: (Db, Read<Parse>))
    requires db.inputs.WellFormed() && db.stats.Valid()
    ensures result.0.unread == db.unread
  {
    if f !in db.parses || !db.parses[f].resident then ExecuteParse(env, db, disk, f)
    else if ShallowValid(db.inputs, db.parses[f]) then
      (db.(parses := db.parses[f := Verified(db.inputs, db.parses[f])]), Ok(db.parses[f].value))
    else
      var (db1, change) := TextChangedSince(env, db, disk, f, db.parses[f].verifiedAt);
      SettleParse(env, db1, disk, f, change)
  }

  // ---- unreadable files -------------------------------------------------------------------

  function IsUnread(i: Inputs, f: FileId): bool {
    f in i.revisions && i.revisions[f].unreadable.value
  }

  /** A query that asks only this; asking about an unregistered file depends on nothing. */
  function FetchUnread(db: Db, f: FileId): (Db, bool) {
    var i := db.inputs;
    if f in db.unread && Valid(i, db.unread[f])
    then (db.(unread := db.unread[f := Verified(i, db.unread[f])]), db.unread[f].value)
    else
      var memo :=
        if f in i.revisions then
          var stamp := i.revisions[f].unreadable.stamp;
          Memo(IsUnread(i, f), true, {UnreadableField(f)}, stamp.changedAt, i.clock.now, stamp.durability)
        else Memo(false, true, {}, 0, i.clock.now, High);
      (db.(unread := db.unread[f := memo]), IsUnread(i, f))
  }
}
