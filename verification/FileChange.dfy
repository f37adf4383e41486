/** Batches on the store: a change set applied to it, and a frozen view replayed into a new one. */
module FileChange {
  import opened Common
  import opened TextEdits
  import opened SourceStore
  import opened StoreInvariants
  import opened StoreWrites
  import opened StoreReads
  import opened StoreRuns
  import opened StoreAnswers
  import opened SourceDatabase

  // ---- mapping a root's files ------------------------------------------------------------------

  function MapAll(i: Inputs, files: seq<FileId>, r: RootId): Inputs {
    if files == [] then i
    else SetRootOf(MapAll(i, files[..|files| - 1], r), files[|files| - 1], r)
  }

  /** A root of a change set: its files are mapped first, the root is registered after. */
  function ApplyRoot(i: Inputs, files: seq<FileId>, r: RootId, root: SourceRoot): Inputs {
    SetRoot(MapAll(i, files, r), r, root)
  }

  function RootDurabilityOrLow(i: Inputs, r: RootId): Durability {
    if r in i.roots then i.roots[r].value.Durability() else Low
  }

  /** The durability a mapping is written with: the one it has if it already points at the root,
      else the durability of whatever root the id names so far. */
  function MappedDurability(i: Inputs, f: FileId, r: RootId): Durability {
    if f in i.rootOf && i.rootOf[f].value == r then i.rootOf[f].stamp.durability
    else RootDurabilityOrLow(i, r)
  }

  lemma {:induction false} MappingAll(i: Inputs, files: seq<FileId>, r: RootId, f: FileId)
    ensures
      var j := MapAll(i, files, r);
      && j.roots == i.roots && j.texts == i.texts && j.overlays == i.overlays && j.revisions == i.revisions
      && (f in files ==> f in j.rootOf && j.rootOf[f].value == r
                         && j.rootOf[f].stamp.durability == MappedDurability(i, f, r))
      && (f !in files ==> (f in j.rootOf <==> f in i.rootOf) && (f in i.rootOf ==> j.rootOf[f] == i.rootOf[f]))
  {
    if files != [] {
      var before, last := files[..|files| - 1], files[|files| - 1];
      MappingAll(i, before, r, f);
      MappingAll(i, before, r, last);
      assert files == before + [last];
    }
  }

  /** The roots of a change set in their order, the files of each in some order. */
  function ChangeRoots(i: Inputs, orders: seq<seq<FileId>>, roots: seq<SourceRoot>): Inputs
    requires |orders| == |roots|
    decreases |roots|
  {
    if roots == [] then i
    else
      var n := |roots| - 1;
      ApplyRoot(ChangeRoots(i, orders[..n], roots[..n]), orders[n], n, roots[n])
  }

  ghost predicate EnumeratesAll(orders: seq<seq<FileId>>, roots: seq<SourceRoot>) {
    |orders| == |roots| && forall k | 0 <= k < |roots| :: Enumerates(orders[k], roots[k].files.Keys)
  }

  /** The last root of the set that holds the file. */
  function LastRoot(roots: seq<SourceRoot>, f: FileId): (last: Option<nat>)
    ensures last.Some? ==> last.value < |roots| && f in roots[last.value].files
  {
    if roots == [] then None
    else if f in roots[|roots| - 1].files then Some(|roots| - 1)
    else LastRoot(roots[..|roots| - 1], f)
  }

  /** The durability a change set leaves a mapping at: the one it has if it points at its root already
      and no root before that takes it away, else that of whatever root the id named before. */
  function LeftAt(i: Inputs, roots: seq<SourceRoot>, f: FileId): Durability
    requires LastRoot(roots, f).Some?
  {
    var r := LastRoot(roots, f).value;
    if LastRoot(roots[..r], f).None? then MappedDurability(i, f, r) else RootDurabilityOrLow(i, r)
  }

  ghost predicate SameMapping(i: Inputs, j: Inputs, f: FileId) {
    (f in j.rootOf <==> f in i.rootOf) && (f in i.rootOf ==> j.rootOf[f] == i.rootOf[f])
  }

  ghost predicate SameRoot(i: Inputs, j: Inputs, r: RootId) {
    (r in j.roots <==> r in i.roots) && (r in i.roots ==> j.roots[r] == i.roots[r])
  }

  /** What a set of roots does to the mapping of one file. */
  ghost predicate MappingChanged(i: Inputs, j: Inputs, roots: seq<SourceRoot>, f: FileId) {
    if LastRoot(roots, f).None? then SameMapping(i, j, f)
    else
      && f in j.rootOf && j.rootOf[f].value == LastRoot(roots, f).value
      && j.rootOf[f].stamp.durability == LeftAt(i, roots, f)
  }

  /** What it does to the root of one id. */
  ghost predicate RootChanged(i: Inputs, j: Inputs, roots: seq<SourceRoot>, r: RootId) {
    if r < |roots| then
      r in j.roots && j.roots[r].value == roots[r] && j.roots[r].stamp.durability == roots[r].Durability()
    else SameRoot(i, j, r)
  }

  lemma {:induction false} RootsChange(i: Inputs, orders: seq<seq<FileId>>, roots: seq<SourceRoot>, r: RootId)
    requires EnumeratesAll(orders, roots)
    ensures RootChanged(i, ChangeRoots(i, orders, roots), roots, r)
    decreases |roots|
  {
    if roots != [] {
      var n := |roots| - 1;
      RootsChange(i, orders[..n], roots[..n], r);
      MappingAll(ChangeRoots(i, orders[..n], roots[..n]), orders[n], n, 0);
    }
  }

  lemma {:induction false} MappingsChange(i: Inputs, orders: seq<seq<FileId>>, roots: seq<SourceRoot>, f: FileId)
    requires EnumeratesAll(orders, roots)
    ensures MappingChanged(i, ChangeRoots(i, orders, roots), roots, f)
    decreases |roots|
  {
    if roots != [] {
      var n := |roots| - 1;
      var before := ChangeRoots(i, orders[..n], roots[..n]);
      MappingsChange(i, orders[..n], roots[..n], f);
      RootsChange(i, orders[..n], roots[..n], n);
      MappingAll(before, orders[n], n, f);
      if f !in roots[n].files && LastRoot(roots, f).Some? {
        var r := LastRoot(roots, f).value;
        assert roots[..n][..r] == roots[..r];
      }
    }
  }

  /** "The mapping inherits the target root's durability": after a change set this is so exactly
      when the mapping, or the root its id named, had that durability before. */
  lemma MappingInheritsIff(i: Inputs, orders: seq<seq<FileId>>, roots: seq<SourceRoot>, f: FileId)
    requires EnumeratesAll(orders, roots) && LastRoot(roots, f).Some?
    ensures
      var j, r := ChangeRoots(i, orders, roots), LastRoot(roots, f).value;
      && f in j.rootOf && j.rootOf[f].value == r && r in j.roots && j.roots[r].value == roots[r]
      && (j.rootOf[f].stamp.durability == roots[r].Durability() <==> LeftAt(i, roots, f) == roots[r].Durability())
  {
    MappingsChange(i, orders, roots, f);
    RootsChange(i, orders, roots, LastRoot(roots, f).value);
  }

  /** On a new store every mapping is left at LOW, those of a library too, and so is whatever is read
      from disk through it. */
  lemma ChangeSetFloorsALibrary(orders: seq<seq<FileId>>, roots: seq<SourceRoot>, f: FileId, revision: nat)
    requires EnumeratesAll(orders, roots)
    requires LastRoot(roots, f).Some? && roots[LastRoot(roots, f).value].Durability() == High
    ensures
      var r := LastRoot(roots, f).value;
      var i := SetFromDisk(ChangeRoots(EmptyInputs(), orders, roots), f, revision);
      && i.WellFormed() && f in i.revisions && f in i.rootOf && i.rootOf[f].value == r && r in i.roots
      && i.roots[r].stamp.durability == High
      && i.rootOf[f].stamp.durability == Low
      && ReadStamp(i, f).durability == Low
  {
    var r := LastRoot(roots, f).value;
    var mapped := ChangeRoots(EmptyInputs(), orders, roots);
    MappingsChange(EmptyInputs(), orders, roots, f);
    RootsChange(EmptyInputs(), orders, roots, r);
    RootsTouchNoFile(EmptyInputs(), orders, roots);
    assert mapped.rootOf[f].stamp.durability == Low;
  }

  lemma {:induction false} RootsTouchNoFile(i: Inputs, orders: seq<seq<FileId>>, roots: seq<SourceRoot>)
    requires |orders| == |roots|
    ensures
      var j := ChangeRoots(i, orders, roots);
      && j.texts == i.texts && j.overlays == i.overlays && j.revisions == i.revisions
      && (i.clock.Valid() ==> j.clock.Valid())
    decreases |roots|
  {
    if roots != [] {
      var n := |roots| - 1;
      RootsTouchNoFile(i, orders[..n], roots[..n]);
      MappingAll(ChangeRoots(i, orders[..n], roots[..n]), orders[n], n, 0);
      MappingKeepsClock(ChangeRoots(i, orders[..n], roots[..n]), orders[n], n);
    }
  }

  lemma {:induction false} MappingKeepsClock(i: Inputs, files: seq<FileId>, r: RootId)
    ensures i.clock.Valid() ==> MapAll(i, files, r).clock.Valid()
  {
    if files != [] {
      MappingKeepsClock(i, files[..|files| - 1], r);
    }
  }

  /** Registered root first, the same file is read at the root's own durability. */
  lemma RootFirstKeepsDurability(i: Inputs, f: FileId, r: RootId, root: SourceRoot, revision: nat)
    requires i.WellFormed() && f !in i.rootOf && f !in i.revisions && f !in i.overlays
    requires f in root.files
    ensures
      var j := SetFromDisk(SetRootOf(SetRoot(i, r, root), f, r), f, revision);
      && j.WellFormed() && f in j.revisions && f !in j.overlays
      && f in j.rootOf && j.rootOf[f].value == r && r in j.roots
      && ReadStamp(j, f).durability == root.Durability()
  {
  }

  // ---- applying a change set -----------------------------------------------------------------------

  datatype Change = Change(roots: Option<seq<SourceRoot>>, filesChanged: seq<(FileId, Option<Text>)>)

  predicate Enumerates(order: seq<FileId>, files: set<FileId>) {
    && (forall f | f in files :: f in order)
    && (forall f | f in order :: f in files)
  }

  /** One root of the set, its files in any order. */
  method ApplyOneRoot(db: Database, r: RootId, root: SourceRoot) returns (ghost order: seq<FileId>)
    requires db.Valid()
    modifies db`clock, db`fileSourceRoots, db`sourceRoots
    ensures db.Valid()
    ensures Enumerates(order, root.files.Keys)
    ensures db.Fields() == ApplyRoot(old(db.Fields()), order, r, root)
  {
    order := [];
    var todo := root.files.Keys;
    while todo != {}
      invariant todo <= root.files.Keys
      invariant Enumerates(order, root.files.Keys - todo)
      invariant db.Fields() == MapAll(old(db.Fields()), order, r)
      invariant db.Valid()
      decreases |todo|
    {
      var f :| f in todo;
      db.SetFileSourceRoot(f, r);
      assert (order + [f])[..|order + [f]| - 1] == order;
      order := order + [f];
      todo := todo - {f};
    }
    db.SetSourceRoot(r, root);
  }

  /** The text a file ends with: the last one the change set gives it, a deletion being empty. */
  function LastText(changes: seq<(FileId, Option<Text>)>, f: FileId): Option<Text> {
    if changes == [] then None
    else
      var (g, text) := changes[|changes| - 1];
      if g == f then Some(if text.Some? then text.value else "") else LastText(changes[..|changes| - 1], f)
  }

  /** The file is open with the text, its revision is the text's and it counts as read. */
  ghost predicate HoldsText(env: Env, i: Inputs, f: FileId, text: Text)
    requires i.WellFormed()
  {
    && f in i.overlays && i.texts[i.overlays[f]].value == text
    && i.revisions[f].revision.value == env.hash(text)
    && !i.revisions[f].unreadable.value
  }

  ghost predicate SameRegistration(i: Inputs, j: Inputs, f: FileId)
    requires i.WellFormed() && j.WellFormed()
  {
    && (f in j.revisions <==> f in i.revisions) && (f in i.revisions ==> j.revisions[f] == i.revisions[f])
    && (f in j.overlays <==> f in i.overlays)
    && (f in i.overlays ==> j.texts[j.overlays[f]] == i.texts[i.overlays[f]])
  }

  /** `j` is `i` after the changes: the last text of each changed file, and no other file moved. */
  ghost predicate TextsApplied(env: Env, i: Inputs, j: Inputs, changes: seq<(FileId, Option<Text>)>)
    requires i.WellFormed() && j.WellFormed()
  {
    forall f ::
      match LastText(changes, f)
      case Some(text) => HoldsText(env, j, f, text)
      case None => SameRegistration(i, j, f)
  }

  lemma TextStep(i: Inputs, f: FileId, text: Text, d: Durability, g: FileId)
    requires i.WellFormed()
    ensures
      var j := WriteText(i, f, text, d);
      && j.clock.Valid() && j.revisions == i.revisions
      && f in j.overlays && j.texts[j.overlays[f]].value == text
      && (g != f ==> (g in j.overlays <==> g in i.overlays))
      && (g != f && g in i.overlays ==> j.texts[j.overlays[g]] == i.texts[i.overlays[g]])
  {
  }

  lemma TextsStayApart(i: Inputs, f: FileId, text: Text, d: Durability)
    requires i.WellFormed()
    ensures
      var j := WriteText(i, f, text, d);
      && (forall h | h in j.overlays :: j.overlays[h] < |j.texts|)
      && (forall h, h' | h in j.overlays && h' in j.overlays && h != h' :: j.overlays[h] != j.overlays[h'])
  {
  }

  lemma OneMoreText(env: Env, i: Inputs, f: FileId, text: Text, d: Durability, g: FileId)
    requires i.WellFormed()
    ensures
      var j := SetTextMarked(env, i, f, text, d, false);
      && j.WellFormed()
      && (if g == f then HoldsText(env, j, g, text) else SameRegistration(i, j, g))
  {
    var mid := WriteText(i, f, text, d);
    TextStep(i, f, text, d, g);
    TextsStayApart(i, f, text, d);
    RevisionWritten(mid, f, env.hash(text), d, false);
    forall h | h in mid.overlays ensures h == f || h in i.revisions {
      TextStep(i, f, text, d, h);
    }
  }

  function TextOr(text: Option<Text>): Text {
    if text.Some? then text.value else ""
  }

  function SetTexts(env: Env, i: Inputs, changes: seq<(FileId, Option<Text>)>): (j: Inputs)
    requires i.WellFormed()
    ensures j.WellFormed()
  {
    if changes == [] then i
    else
      var before := SetTexts(env, i, changes[..|changes| - 1]);
      var (f, text) := changes[|changes| - 1];
      OneMoreText(env, before, f, TextOr(text), DurabilityOrLow(before, f), f);
      SetTextMarked(env, before, f, TextOr(text), DurabilityOrLow(before, f), false)
  }

  lemma {:induction false} SetTextsApplies(env: Env, i: Inputs, changes: seq<(FileId, Option<Text>)>, f: FileId)
    requires i.WellFormed()
    ensures
      var j := SetTexts(env, i, changes);
      match LastText(changes, f)
      case Some(text) => HoldsText(env, j, f, text)
      case None => SameRegistration(i, j, f)
  {
    if changes != [] {
      var before := SetTexts(env, i, changes[..|changes| - 1]);
      SetTextsApplies(env, i, changes[..|changes| - 1], f);
      var (g, text) := changes[|changes| - 1];
      OneMoreText(env, before, g, TextOr(text), DurabilityOrLow(before, g), f);
    }
  }

  lemma {:induction false} SetTextsMapNothing(env: Env, i: Inputs, changes: seq<(FileId, Option<Text>)>)
    requires i.WellFormed()
    ensures SetTexts(env, i, changes).rootOf == i.rootOf && SetTexts(env, i, changes).roots == i.roots
  {
    if changes != [] {
      var before := SetTexts(env, i, changes[..|changes| - 1]);
      SetTextsMapNothing(env, i, changes[..|changes| - 1]);
      var (g, text) := changes[|changes| - 1];
      OneTextMapsNothing(env, before, g, TextOr(text), DurabilityOrLow(before, g));
    }
  }

  lemma OneTextMapsNothing(env: Env, i: Inputs, f: FileId, text: Text, d: Durability)
    requires i.WellFormed()
    ensures
      var j := SetTextMarked(env, i, f, text, d, false);
      j.rootOf == i.rootOf && j.roots == i.roots
  {
    RevisionStamped(WriteText(i, f, text, d), f, env.hash(text), d, false);
  }

  lemma OneTextIsStamped(env: Env, i: Inputs, f: FileId, text: Text, d: Durability)
    requires i.WellFormed()
    ensures StampedAt(SetTextMarked(env, i, f, text, d, false), f, d)
  {
    OneMoreText(env, i, f, text, d, f);
    var mid := WriteText(i, f, text, d);
    assert f in mid.overlays && mid.overlays[f] < |mid.texts| && mid.texts[mid.overlays[f]].stamp.durability == d;
    RevisionStamped(mid, f, env.hash(text), d, false);
  }

  /** A changed text is as durable as the root its file belongs to. */
  lemma {:induction false} SetTextsStamp(env: Env, i: Inputs, changes: seq<(FileId, Option<Text>)>, f: FileId)
    requires i.WellFormed() && LastText(changes, f).Some?
    ensures StampedAt(SetTexts(env, i, changes), f, DurabilityOrLow(i, f))
  {
    var before := SetTexts(env, i, changes[..|changes| - 1]);
    var (g, text) := changes[|changes| - 1];
    if g == f {
      SetTextsMapNothing(env, i, changes[..|changes| - 1]);
      OneTextIsStamped(env, before, f, TextOr(text), DurabilityOrLow(before, f));
    } else {
      SetTextsStamp(env, i, changes[..|changes| - 1], f);
      OneMoreText(env, before, g, TextOr(text), DurabilityOrLow(before, g), f);
    }
  }

  /** Every changed text, and its revision, is as durable as the root its file is mapped to by now. */
  ghost predicate TextsStamped(j: Inputs, changes: seq<(FileId, Option<Text>)>) {
    forall f | LastText(changes, f).Some? :: StampedAt(j, f, DurabilityOrLow(j, f))
  }

  /** The roots of the set, then its texts; nothing that neither of them names is moved. */
  method Apply(db: Database, change: Change)
    requires db.Valid()
    modifies db`clock, db`fileSourceRoots, db`sourceRoots, db`textInputs, db`fileTexts, db`fileRevisions
    ensures db.Valid()
    ensures change.roots.None? ==>
              db.fileSourceRoots == old(db.fileSourceRoots) && db.sourceRoots == old(db.sourceRoots)
    ensures change.roots.Some? ==>
              && (forall r :: RootChanged(old(db.Fields()), db.Fields(), change.roots.value, r))
              && (forall f :: MappingChanged(old(db.Fields()), db.Fields(), change.roots.value, f))
    ensures TextsApplied(db.env, old(db.Fields()), db.Fields(), change.filesChanged)
    ensures TextsStamped(db.Fields(), change.filesChanged)
  {
    if change.roots.Some? {
      ghost var orders := ApplyRoots(db, change.roots.value);
      RootsMoved(old(db.Fields()), db.Fields(), orders, change.roots.value);
    }
    ghost var mapped := db.Fields();
    ApplyTexts(db, change.filesChanged);
    if change.roots.Some? {
      MovedStays(old(db.Fields()), mapped, db.Fields(), change.roots.value);
    }
    forall f ensures
        match LastText(change.filesChanged, f)
        case Some(text) => HoldsText(db.env, db.Fields(), f, text)
        case None => SameRegistration(old(db.Fields()), db.Fields(), f)
    {
      SetTextsApplies(db.env, mapped, change.filesChanged, f);
    }
    AllStamped(db.env, mapped, change.filesChanged);
  }

  lemma AllStamped(env: Env, i: Inputs, changes: seq<(FileId, Option<Text>)>)
    requires i.WellFormed()
    ensures TextsStamped(SetTexts(env, i, changes), changes)
  {
    SetTextsMapNothing(env, i, changes);
    forall f | LastText(changes, f).Some?
      ensures StampedAt(SetTexts(env, i, changes), f, DurabilityOrLow(SetTexts(env, i, changes), f))
    {
      SetTextsStamp(env, i, changes, f);
    }
  }

  lemma RootsMoved(i: Inputs, j: Inputs, orders: seq<seq<FileId>>, roots: seq<SourceRoot>)
    requires EnumeratesAll(orders, roots) && j == ChangeRoots(i, orders, roots)
    ensures forall r :: RootChanged(i, j, roots, r)
    ensures forall f :: MappingChanged(i, j, roots, f)
  {
    forall r ensures RootChanged(i, j, roots, r) {
      RootsChange(i, orders, roots, r);
    }
    forall f ensures MappingChanged(i, j, roots, f) {
      MappingsChange(i, orders, roots, f);
    }
  }

  lemma MovedStays(i: Inputs, j: Inputs, k: Inputs, roots: seq<SourceRoot>)
    requires k.rootOf == j.rootOf && k.roots == j.roots
    requires (forall r :: RootChanged(i, j, roots, r)) && forall f :: MappingChanged(i, j, roots, f)
    ensures (forall r :: RootChanged(i, k, roots, r)) && forall f :: MappingChanged(i, k, roots, f)
  {
    forall r ensures RootChanged(i, k, roots, r) {
      assert RootChanged(i, j, roots, r);
    }
    forall f ensures MappingChanged(i, k, roots, f) {
      assert MappingChanged(i, j, roots, f);
    }
  }

  method ApplyRoots(db: Database, roots: seq<SourceRoot>) returns (ghost orders: seq<seq<FileId>>)
    requires db.Valid()
    modifies db`clock, db`fileSourceRoots, db`sourceRoots
    ensures db.Valid() && EnumeratesAll(orders, roots)
    ensures db.Fields() == ChangeRoots(old(db.Fields()), orders, roots)
  {
    orders := [];
    for n := 0 to |roots|
      invariant db.Valid() && EnumeratesAll(orders, roots[..n])
      invariant db.Fields() == ChangeRoots(old(db.Fields()), orders, roots[..n])
    {
      ghost var order := ApplyOneRoot(db, n, roots[n]);
      assert roots[..n + 1][..n] == roots[..n] && (orders + [order])[..n] == orders;
      orders := orders + [order];
    }
    assert roots[..|roots|] == roots;
  }

  method ApplyTexts(db: Database, changes: seq<(FileId, Option<Text>)>)
    requires db.Valid()
    modifies db`clock, db`textInputs, db`fileTexts, db`fileRevisions
    ensures db.Valid()
    ensures db.Fields() == SetTexts(db.env, old(db.Fields()), changes)
  {
    for n := 0 to |changes|
      invariant db.Valid()
      invariant db.Fields() == SetTexts(db.env, old(db.Fields()), changes[..n])
    {
      var (f, text) := changes[n];
      db.SetFileTextSmart(f, TextOr(text));
      assert changes[..n + 1][..n] == changes[..n];
      assert db.Fields() == SetTexts(db.env, old(db.Fields()), changes[..n + 1]);
    }
    assert changes[..|changes|] == changes;
  }

  // ---- a frozen view, replayed in batches -------------------------------------------------------------

  datatype Frozen = Frozen(
    rootId: RootId,
    root: SourceRoot,
    files: set<FileId>,
    revisions: map<FileId, nat>,
    openTexts: map<FileId, Text>)

  /** What a batch does for one module; modules outside the frozen file set are skipped. */
  function ReplayFile(frozen: Frozen, f: FileId): seq<Event> {
    if f !in frozen.files then []
    else if f in frozen.openTexts then [MapFile(f, frozen.rootId), SetText(f, frozen.openTexts[f])]
    else if f in frozen.revisions then [MapFile(f, frozen.rootId), SetDisk(f, frozen.revisions[f])]
    else [MapFile(f, frozen.rootId), SetText(f, "")]
  }

  function OpenBatch(frozen: Frozen, batch: seq<FileId>): seq<Event> {
    if batch == [] then [RegisterRoot(frozen.rootId, frozen.root)]
    else OpenBatch(frozen, batch[..|batch| - 1]) + ReplayFile(frozen, batch[|batch| - 1])
  }

  function FrozenRegistration(frozen: Frozen, f: FileId): Registration {
    if f !in frozen.files then Unregistered
    else if f in frozen.openTexts then Overlay(frozen.openTexts[f], false)
    else if f in frozen.revisions then OnDisk(frozen.revisions[f])
    else Overlay("", false)
  }

  lemma LastRegistrationOfAppend(events: seq<Event>, a: Event, b: Event, f: FileId)
    ensures LastRegistration(events + [a, b], f) == LastRegistration(events + [a] + [b], f)
    ensures LastRegistration(events + [a], f) ==
              if Registers(a, f) then LastRegistration([a], f) else LastRegistration(events, f)
    ensures LastRegistration(events + [a] + [b], f) ==
              if Registers(b, f) then LastRegistration([b], f) else LastRegistration(events + [a], f)
  {
    assert events + [a, b] == events + [a] + [b];
    assert (events + [a])[..|events|] == events;
    assert (events + [a] + [b])[..|events| + 1] == events + [a];
  }

  lemma {:induction false} BatchRegisters(frozen: Frozen, batch: seq<FileId>, f: FileId)
    ensures LastRegistration(OpenBatch(frozen, batch), f) ==
              if f in batch then FrozenRegistration(frozen, f) else Unregistered
  {
    if batch == [] {
      var only := RegisterRoot(frozen.rootId, frozen.root);
      LastRegistrationOfAppend([], only, only, f);
      assert OpenBatch(frozen, batch) == [] + [only];
    } else {
      var before, last := batch[..|batch| - 1], batch[|batch| - 1];
      BatchRegisters(frozen, before, f);
      assert batch == before + [last];
      var events := OpenBatch(frozen, before);
      if last in frozen.files {
        ReplayRegisters(frozen, events, last, f);
      } else {
        assert events + [] == events;
      }
    }
  }

  lemma ReplayRegisters(frozen: Frozen, events: seq<Event>, last: FileId, f: FileId)
    requires last in frozen.files
    ensures
      LastRegistration(events + ReplayFile(frozen, last), f) ==
      if f == last then FrozenRegistration(frozen, f) else LastRegistration(events, f)
  {
    var two := ReplayFile(frozen, last);
    assert two == [two[0], two[1]];
    LastRegistrationOfAppend(events, two[0], two[1], f);
    assert [two[1]][..0] == [];
  }

  /** Where a batch puts its files, and that it writes nothing to disk. */
  lemma {:induction false} BatchPlaces(disk: Disk, frozen: Frozen, batch: seq<FileId>, f: FileId, path: Path)
    ensures
      var events := OpenBatch(frozen, batch);
      && LastMapping(events, f) == (if f in batch && f in frozen.files then Some(frozen.rootId) else None)
      && StoreAnswers.LastRoot(events, frozen.rootId) == Some(frozen.root)
      && BytesAt(disk, events, path) == if path in disk then Some(disk[path]) else None
  {
    if batch == [] {
      var only := RegisterRoot(frozen.rootId, frozen.root);
      assert OpenBatch(frozen, batch) == [only] && [only][..0] == [];
    } else {
      var before, last := batch[..|batch| - 1], batch[|batch| - 1];
      assert batch == before + [last];
      BatchPlaces(disk, frozen, before, f, path);
      ReplayPlaces(disk, frozen, OpenBatch(frozen, before), last, f, path);
    }
  }

  lemma ReplayPlaces(disk: Disk, frozen: Frozen, events: seq<Event>, last: FileId, f: FileId, path: Path)
    ensures
      var longer := events + ReplayFile(frozen, last);
      && LastMapping(longer, f) ==
         (if f == last && f in frozen.files then Some(frozen.rootId) else LastMapping(events, f))
      && StoreAnswers.LastRoot(longer, frozen.rootId) == StoreAnswers.LastRoot(events, frozen.rootId)
      && BytesAt(disk, longer, path) == BytesAt(disk, events, path)
  {
    var two := ReplayFile(frozen, last);
    if two == [] {
      assert events + two == events;
    } else {
      assert events + two == events + [two[0]] + [two[1]];
      assert (events + [two[0]] + [two[1]])[..|events| + 1] == events + [two[0]];
      assert (events + [two[0]])[..|events|] == events;
    }
  }

  /** Every read of a batch database is a read of the frozen view: the open text of the capture, or
      the disk bytes under the captured revision at the captured path, exactly while they are there;
      a module outside the view has nothing to read. */
  lemma BatchReadsTheFrozenView(env: Env, disk: Disk, frozen: Frozen, batch: seq<FileId>, f: FileId)
    ensures
      var w := Run(env, Start(disk), OpenBatch(frozen, batch));
      var read := FetchText(env, w.db, w.disk, f).1;
      if f !in batch || f !in frozen.files then read == Panicked(NoRevision)
      else if f in frozen.openTexts then read == Ok(frozen.openTexts[f])
      else if f !in frozen.revisions then read == Ok("")
      else if f !in frozen.root.files then read == Panicked(NotInFileSet)
      else
        var path := frozen.root.files[f];
        ClosedAnswer(env, frozen.revisions[f], if path in disk then Some(disk[path]) else None, read)
  {
    var events := OpenBatch(frozen, batch);
    BatchRegisters(frozen, batch, f);
    TextAfterAnyRun(env, disk, events, f);
    BatchPlaces(disk, frozen, batch, f, if f in frozen.root.files then frozen.root.files[f] else "");
    match LastRegistration(events, f)
    case Unregistered => UnregisteredIsRefused(env, disk, events, f);
    case OnDisk(_) => ClosedTextAfterAnyRun(env, disk, events, f);
    case _ =>
  }
}
