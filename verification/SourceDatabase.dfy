/** The store as an object that is updated in place, each operation against its function. */
module SourceDatabase {
  import opened Common
  import opened TextEdits
  import opened SourceStore

  class Database {
    const env: Env

    var clock: Clock
    var textInputs: seq<Cell<Text>>
    var fileTexts: map<FileId, nat>
    var fileRevisions: map<FileId, RevisionInput>
    var fileSourceRoots: map<FileId, Cell<RootId>>
    var sourceRoots: map<RootId, Cell<SourceRoot>>
    var parseSnapshots: map<FileId, Snapshot>
    var parseCounters: Stats
    var diskDrifts: nat
    var textMemos: map<FileId, Memo<Text>>
    var parseMemos: map<FileId, Memo<Parse>>
    var unreadMemos: map<FileId, Memo<bool>>

    ghost function Fields(): Inputs
      reads this
    {
      Inputs(clock, textInputs, fileTexts, fileRevisions, fileSourceRoots, sourceRoots)
    }

    ghost function State(): Db
      reads this
    {
      Db(Fields(), parseSnapshots, parseCounters, diskDrifts, textMemos, parseMemos, unreadMemos)
    }

    ghost predicate Valid()
      reads this
    {
      Fields().WellFormed() && parseCounters.Valid()
    }

    constructor (env: Env)
      ensures this.env == env
      ensures State() == EmptyDb() && Valid()
    {
      this.env := env;
      clock := Clock(1, 1, 1);
      textInputs := [];
      fileTexts, fileRevisions, fileSourceRoots, sourceRoots := map[], map[], map[], map[];
      parseSnapshots := map[];
      parseCounters := NoStats();
      diskDrifts := 0;
      textMemos, parseMemos, unreadMemos := map[], map[], map[];
    }

    // ---- registrations ----------------------------------------------------------------------

    method SetFileRevisionWithDurability(f: FileId, revision: nat, d: Durability, unreadable: bool)
      modifies this`clock, this`fileRevisions
      ensures Fields() == WriteRevision(old(Fields()), f, revision, d, unreadable)
    {
      if f in fileRevisions {
        var input := fileRevisions[f];
        clock := clock.Written(input.revision.stamp.durability);
        fileRevisions := fileRevisions[f := input.(revision := Cell(revision, Stamp(clock.now, d)))];
        if input.unreadable.value != unreadable {
          clock := clock.Written(input.unreadable.stamp.durability);
          fileRevisions :=
            fileRevisions[f := fileRevisions[f].(unreadable := Cell(unreadable, Stamp(clock.now, d)))];
        }
      } else {
        var stamp := Stamp(clock.now, d);
        fileRevisions := fileRevisions[f := RevisionInput(Cell(revision, stamp), Cell(unreadable, stamp))];
      }
    }

    method SetFileTextMarked(f: FileId, text: Text, d: Durability, unreadable: bool)
      requires Valid()
      modifies this`clock, this`textInputs, this`fileTexts, this`fileRevisions
      ensures Fields() == SetTextMarked(env, old(Fields()), f, text, d, unreadable)
    {
      if f in fileTexts {
        var id := fileTexts[f];
        clock := clock.Written(textInputs[id].stamp.durability);
        textInputs := textInputs[id := Cell(text, Stamp(clock.now, d))];
      } else {
        fileTexts := fileTexts[f := |textInputs|];
        textInputs := textInputs + [Cell(text, Stamp(clock.now, d))];
      }
      SetFileRevisionWithDurability(f, env.hash(text), d, unreadable);
    }

    method SetFileTextSmart(f: FileId, text: Text)
      requires Valid()
      modifies this`clock, this`textInputs, this`fileTexts, this`fileRevisions
      ensures Fields() == SetTextMarked(env, old(Fields()), f, text, DurabilityOrLow(old(Fields()), f), false)
    {
      var d := DurabilityOf(f);
      SetFileTextMarked(f, text, if d.Some? then d.value else Low, false);
    }

    method SetFileUnreadable(f: FileId)
      requires Valid()
      modifies this`clock, this`textInputs, this`fileTexts, this`fileRevisions
      ensures Fields() == SetTextMarked(env, old(Fields()), f, "", DurabilityOrLow(old(Fields()), f), true)
    {
      var d := DurabilityOf(f);
      SetFileTextMarked(f, "", if d.Some? then d.value else Low, true);
    }

    method SetFileRevisionFromDisk(f: FileId, revision: nat)
      modifies this`clock, this`fileTexts, this`fileRevisions, this`parseSnapshots
      ensures Fields() == SetFromDisk(old(Fields()), f, revision)
      ensures parseSnapshots == old(parseSnapshots) - {f}
    {
      fileTexts := fileTexts - {f};
      parseSnapshots := parseSnapshots - {f};
      var d := DurabilityOf(f);
      SetFileRevisionWithDurability(f, revision, if d.Some? then d.value else Low, false);
    }

    method DurabilityOf(f: FileId) returns (d: Option<Durability>)
      ensures d == DurabilityForFile(Fields(), f)
    {
      d := None;
      if f in fileSourceRoots {
        var r := fileSourceRoots[f].value;
        if r in sourceRoots {
          d := Some(sourceRoots[r].value.Durability());
        }
      }
    }

    method SetSourceRoot(r: RootId, root: SourceRoot)
      modifies this`clock, this`sourceRoots
      ensures Fields() == SetRoot(old(Fields()), r, root)
    {
      if r in sourceRoots {
        clock := clock.Written(sourceRoots[r].stamp.durability);
      }
      sourceRoots := sourceRoots[r := Cell(root, Stamp(clock.now, root.Durability()))];
    }

    method SetFileSourceRoot(f: FileId, r: RootId)
      modifies this`clock, this`fileSourceRoots
      ensures Fields() == SetRootOf(old(Fields()), f, r)
    {
      var d := if r in sourceRoots then sourceRoots[r].value.Durability() else Low;
      if f in fileSourceRoots {
        if fileSourceRoots[f].value != r {
          clock := clock.Written(fileSourceRoots[f].stamp.durability);
          fileSourceRoots := fileSourceRoots[f := Cell(r, Stamp(clock.now, d))];
        }
      } else {
        fileSourceRoots := fileSourceRoots[f := Cell(r, Stamp(clock.now, d))];
      }
    }

    // ---- queries ------------------------------------------------------------------------------

    method FileIsUnread(f: FileId) returns (unread: bool)
      ensures unread == IsUnread(Fields(), f)
    {
      unread := f in fileRevisions && fileRevisions[f].unreadable.value;
    }

    method FileTextUnmemoized(disk: Disk, f: FileId) returns (read: Read<Text>)
      requires Valid()
      modifies this`diskDrifts
      ensures read == ReadUnmemoized(env, Fields(), disk, f)
      ensures diskDrifts == old(diskDrifts) + if read.Superseded? then 1 else 0
    {
      if f !in fileRevisions {
        return Panicked(NoRevision);
      }
      var want := fileRevisions[f].revision.value;
      if f in fileTexts {
        var text := textInputs[fileTexts[f]].value;
        return if env.hash(text) == want then Ok(text) else Panicked(StaleOverlay);
      }
      if f !in fileSourceRoots || fileSourceRoots[f].value !in sourceRoots {
        return Panicked(NoSourceRoot);
      }
      var root := sourceRoots[fileSourceRoots[f].value].value;
      if f !in root.files {
        return Panicked(NotInFileSet);
      }
      if root.files[f] !in disk {
        return Panicked(CannotRead);
      }
      var text := disk[root.files[f]];
      if env.hash(text) != want {
        diskDrifts := diskDrifts + 1;
        return Superseded;
      }
      return Ok(text);
    }

    method RunFileText(disk: Disk, f: FileId) returns (read: Read<Text>)
      requires Valid()
      modifies this`textMemos, this`diskDrifts
      ensures (State(), read) == ExecuteText(env, old(State()), disk, f)
    {
      read := FileTextUnmemoized(disk, f);
      if read.Ok? {
        var stamp := StampOfRead(f);
        var changedAt := stamp.changedAt;
        if f in textMemos && textMemos[f].resident && textMemos[f].value == read.value
          && textMemos[f].durability.AtMost(stamp.durability)
        {
          changedAt := textMemos[f].changedAt;
        }
        var deps :=
          if f in fileTexts then {RevisionField(f), TextField(fileTexts[f])}
          else {RevisionField(f), RootOfField(f), RootField(fileSourceRoots[f].value)};
        textMemos := textMemos[f := Memo(read.value, true, deps, changedAt, clock.now, stamp.durability)];
      }
    }

    method StampOfRead(f: FileId) returns (stamp: Stamp)
      requires Valid() && f in fileRevisions
      requires f in fileTexts || (f in fileSourceRoots && fileSourceRoots[f].value in sourceRoots)
      ensures stamp == ReadStamp(Fields(), f)
    {
      stamp := fileRevisions[f].revision.stamp;
      if f in fileTexts {
        var t := textInputs[fileTexts[f]].stamp;
        stamp := Stamp(Later(stamp.changedAt, t.changedAt), Weaker(stamp.durability, t.durability));
      } else {
        var m := fileSourceRoots[f].stamp;
        var s := sourceRoots[fileSourceRoots[f].value].stamp;
        stamp := Stamp(Later(stamp.changedAt, Later(m.changedAt, s.changedAt)),
                       Weaker(stamp.durability, Weaker(m.durability, s.durability)));
      }
    }

    method FileTextQuery(disk: Disk, f: FileId) returns (read: Read<Text>)
      requires Valid()
      modifies this`textMemos, this`diskDrifts
      ensures (State(), read) == FetchText(env, old(State()), disk, f)
    {
      if f in textMemos && textMemos[f].resident {
        var valid := clock.LastChanged(textMemos[f].durability) <= textMemos[f].verifiedAt;
        if !valid {
          valid := DepsUnchanged(textMemos[f].deps, textMemos[f].verifiedAt);
        }
        if valid {
          textMemos := textMemos[f := textMemos[f].(verifiedAt := clock.now)];
          return Ok(textMemos[f].value);
        }
      }
      read := RunFileText(disk, f);
    }

    /** The walk over a memo's dependencies, in whatever order they come. */
    method DepsUnchanged(deps: set<Key>, since: nat) returns (standing: bool)
      requires Valid()
      ensures standing <==> forall k | k in deps :: Fields().Unchanged(k, since)
    {
      var todo := deps;
      while todo != {}
        invariant todo <= deps
        invariant forall k | k in deps && k !in todo :: Fields().Unchanged(k, since)
        decreases |todo|
      {
        var k :| k in todo;
        var changedAt := ChangedAt(k);
        if changedAt.None? || since < changedAt.value {
          return false;
        }
        todo := todo - {k};
      }
      return true;
    }

    method ChangedAt(k: Key) returns (at: Option<nat>)
      ensures at == if Fields().Has(k) then Some(Fields().StampOf(k).changedAt) else None
    {
      match k {
        case TextField(id) => at := if id < |textInputs| then Some(textInputs[id].stamp.changedAt) else None;
        case RevisionField(f) =>
          at := if f in fileRevisions then Some(fileRevisions[f].revision.stamp.changedAt) else None;
        case UnreadableField(f) =>
          at := if f in fileRevisions then Some(fileRevisions[f].unreadable.stamp.changedAt) else None;
        case RootOfField(f) =>
          at := if f in fileSourceRoots then Some(fileSourceRoots[f].stamp.changedAt) else None;
        case RootField(r) => at := if r in sourceRoots then Some(sourceRoots[r].stamp.changedAt) else None;
      }
    }

    method CountParse(o: Outcome)
      requires Valid()
      modifies this`parseCounters
      ensures Valid() && parseCounters == old(parseCounters).Count(o)
    {
      parseCounters := parseCounters.Count(o);
    }

    method ReparseOrParse(snapshot: Snapshot, text: Text) returns (parse: Parse)
      requires Valid()
      modifies this`parseCounters
      ensures Valid() && parse == ReparseOrFull(env, snapshot, text).0
      ensures parseCounters == old(parseCounters).Count(ReparseOrFull(env, snapshot, text).1)
    {
      var edit := FindEdit(snapshot.text, text);
      if edit.None? {
        CountParse(FullParse);
        return snapshot.parse;
      }
      match env.reparse(snapshot.parse, snapshot.text, text, edit.value) {
        case Spliced(spliced) =>
          if env.verify {
            var full := env.full(text);
            if spliced != full {
              CountParse(Mismatched);
              return full;
            }
          }
          CountParse(SplicedParse);
          return spliced;
        case Refused(why) =>
          CountParse(RefusedParse(why));
          return env.full(text);
      }
    }

    /** Parses a text of the file, from its snapshot where it is open. */
    method ParseNewText(f: FileId, text: Text) returns (parse: Parse)
      requires Valid()
      modifies this`parseSnapshots, this`parseCounters
      ensures (State(), parse) == ParseText(env, old(State()), f, text)
    {
      var overlay := f in fileTexts;
      if overlay && f in parseSnapshots {
        parse := ReparseOrParse(parseSnapshots[f], text);
      } else {
        CountParse(FullParse);
        parse := env.full(text);
      }
      if overlay {
        parseSnapshots := parseSnapshots[f := Snapshot(text, parse)];
      }
    }

    method RunParse(disk: Disk, f: FileId) returns (read: Read<Parse>)
      requires Valid()
      modifies this`textMemos, this`diskDrifts, this`parseMemos, this`parseSnapshots, this`parseCounters
      ensures (State(), read) == ExecuteParse(env, old(State()), disk, f)
    {
      var text := FileTextQuery(disk, f);
      match text {
        case Panicked(why) => return Panicked(why);
        case Superseded => return Superseded;
        case Ok(value) =>
          var parse := ParseNewText(f, value);
          var t := textMemos[f];
          parseMemos := parseMemos[f := Memo(parse, true, t.deps, t.changedAt, clock.now, t.durability)];
          return Ok(parse);
      }
    }

    method TextMayHaveChanged(disk: Disk, f: FileId, since: nat) returns (change: Change)
      requires Valid()
      modifies this`textMemos, this`diskDrifts
      ensures (State(), change) == TextChangedSince(env, old(State()), disk, f, since)
    {
      if f !in textMemos {
        return Different;
      }
      var valid := clock.LastChanged(textMemos[f].durability) <= textMemos[f].verifiedAt;
      if !valid {
        valid := DepsUnchanged(textMemos[f].deps, textMemos[f].verifiedAt);
      }
      if valid {
        textMemos := textMemos[f := textMemos[f].(verifiedAt := clock.now)];
      } else if !textMemos[f].resident {
        return Different;
      } else {
        var read := RunFileText(disk, f);
        match read {
          case Panicked(why) => return Unwound(Panicked(why));
          case Superseded => return Unwound(Superseded);
          case Ok(_) =>
        }
      }
      return if textMemos[f].changedAt <= since then Same else Different;
    }

    method ParseQuery(disk: Disk, f: FileId) returns (read: Read<Parse>)
      requires Valid()
      modifies this`textMemos, this`diskDrifts, this`parseMemos, this`parseSnapshots, this`parseCounters
      ensures (State(), read) == FetchParse(env, old(State()), disk, f)
    {
      if f !in parseMemos || !parseMemos[f].resident {
        read := RunParse(disk, f);
        return;
      }
      var memo := parseMemos[f];
      if clock.LastChanged(memo.durability) <= memo.verifiedAt {
        parseMemos := parseMemos[f := memo.(verifiedAt := clock.now)];
        return Ok(memo.value);
      }
      var change := TextMayHaveChanged(disk, f, memo.verifiedAt);
      match change {
        case Unwound(why) => return why;
        case Different => read := RunParse(disk, f);
        case Same =>
          parseMemos := parseMemos[f := memo.(verifiedAt := clock.now, deps := textMemos[f].deps)];
          return Ok(memo.value);
      }
    }
  }
}
