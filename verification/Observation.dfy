/** The scanner as it runs: statistics updated in loops, tables filled by a stack walk, chunks
    scanned apart and merged. */
module Observation {
  import opened Common
  import opened ScanStats
  import opened ScanPaths
  import opened ScanWalk
  import opened ScanTables
  import opened PathFolding
  import opened Order

  // ---- loops over dictionaries, in whatever order they iterate ------------------------------------

  /** A key is at its goal, or still waits as it was. */
  ghost predicate Either<K, V>(now: map<K, V>, was: map<K, V>, goal: map<K, V>, rest: set<K>, k: K) {
    At(now, k) == if k in rest then At(was, k) else At(goal, k)
  }

  /** A dictionary on its way to a goal, the keys of `rest` still waiting. */
  ghost predicate Underway<K(!new), V>(now: map<K, V>, was: map<K, V>, goal: map<K, V>, rest: set<K>) {
    forall k :: Either(now, was, goal, rest, k)
  }

  lemma AtOutset<K(!new), V>(was: map<K, V>, goal: map<K, V>, rest: set<K>)
    requires forall k | k !in rest :: At(was, k) == At(goal, k)
    ensures Underway(was, was, goal, rest)
  {
  }

  lemma OneMoreKey<K(!new), V>(now: map<K, V>, was: map<K, V>, goal: map<K, V>, rest: set<K>, k: K)
    requires Underway(now, was, goal, rest) && k in rest && k in goal
    ensures Underway(now[k := goal[k]], was, goal, rest - {k})
    ensures At(now, k) == At(was, k)
  {
    var now', rest' := now[k := goal[k]], rest - {k};
    forall l ensures Either(now', was, goal, rest', l) {
      assert Either(now, was, goal, rest, l);
    }
    assert Either(now, was, goal, rest, k);
  }

  lemma AllKeys<K(!new), V>(now: map<K, V>, was: map<K, V>, goal: map<K, V>)
    requires Underway(now, was, goal, {})
    ensures now == goal
  {
    forall k ensures At(now, k) == At(goal, k) {
      assert Either(now, was, goal, {}, k);
    }
    SameMap(now, goal);
  }

  lemma UnionAt(a: Domain, b: Domain)
    ensures Underway(a, a, Union(a, b), b.Keys)
  {
    forall v | v !in b.Keys ensures At(a, v) == At(Union(a, b), v) {
      if v in a {
        NothingAdds(a[v]);
      }
    }
    AtOutset(a, Union(a, b), b.Keys);
  }

  /** ValueStats.merge: values are brought in one by one, the cap looked at once at the end. */
  method MergeInto(mine: ValueStats, other: ValueStats) returns (merged: ValueStats)
    ensures merged == MergeValues(mine, other)
  {
    var kinds := Sum(mine.kinds, other.kinds);
    if mine.values.None? || other.values.None? {
      return Values(kinds, None);
    }
    var was, theirs := mine.values.value, other.values.value;
    var values, rest := was, theirs.Keys;
    ghost var goal := Union(was, theirs);
    UnionAt(was, theirs);
    while rest != {}
      invariant rest <= theirs.Keys && Underway(values, was, goal, rest)
      decreases |rest|
    {
      var value :| value in rest;
      OneMoreKey(values, was, goal, rest, value);
      values := values[value := Sum(SourcesOf(values, value), theirs[value])];
      rest := rest - {value};
    }
    AllKeys(values, was, goal);
    merged := Values(kinds, if |values| > VALUE_CAP then None else Some(values));
  }

  method EnterAttrs(c: Classifier, was: map<string, ValueStats>, attrib: map<string, string>, source: string)
    returns (attrs: map<string, ValueStats>)
    ensures attrs == AddAttributes(c, was, attrib, source)
  {
    var rest := attrib.Keys;
    attrs := was;
    ghost var goal := AddAttributes(c, was, attrib, source);
    AtOutset(was, goal, attrib.Keys);
    while rest != {}
      invariant rest <= attrib.Keys && Underway(attrs, was, goal, rest)
      decreases |rest|
    {
      var name :| name in rest;
      AttrAdded(c, was, attrib, source, name);
      OneMoreKey(attrs, was, goal, rest, name);
      attrs := attrs[name := Add(c, StatsOf(attrs, name), attrib[name], source)];
      rest := rest - {name};
    }
    AllKeys(attrs, was, goal);
  }

  /** PathStats.enter: every attribute adds its value. */
  method EnterStats(c: Classifier, p: PathStats, e: Visit) returns (q: PathStats)
    requires e.Enter?
    ensures q == EnterPath(c, p, e)
  {
    var docs, sourceDocs := p.docs, p.sourceDocs;
    if p.doc != Some(e.doc) {
      docs := docs + 1;
      sourceDocs := Bump(sourceDocs, e.source);
    }
    var attrs := EnterAttrs(c, p.attrs, e.attrib, e.source);
    q := p.(occ := p.occ + 1, sources := Bump(p.sources, e.source), versions := Bump(p.versions, e.version),
            doc := Some(e.doc), docs := docs, sourceDocs := sourceDocs,
            evidence := Earlier(p.evidence, Some((e.source, e.rel))), attrs := attrs);
    EnteredByField(c, p, e, q);
  }

  lemma KidCounted(was: map<string, Kid>, counts: Counter<string>, name: string)
    requires name in counts
    ensures name in CountKids(was, counts)
    ensures
      CountKids(was, counts)[name] ==
      if At(was, name).None? then Kid(1, counts[name], counts[name])
      else MergeKid(At(was, name).value, Kid(1, counts[name], counts[name]))
  {
  }

  method LeaveKids(was: map<string, Kid>, counts: Counter<string>) returns (kids: map<string, Kid>)
    ensures kids == CountKids(was, counts)
  {
    var rest := counts.Keys;
    kids := was;
    ghost var goal := CountKids(was, counts);
    AtOutset(was, goal, counts.Keys);
    while rest != {}
      invariant rest <= counts.Keys && Underway(kids, was, goal, rest)
      decreases |rest|
    {
      var name :| name in rest;
      var count := counts[name];
      KidCounted(was, counts, name);
      OneMoreKey(kids, was, goal, rest, name);
      if name !in kids {
        kids := kids[name := Kid(1, count, count)];
      } else {
        var kid := kids[name];
        kids := kids[name := Kid(kid.parents + 1, Min(kid.low, count), Max(kid.high, count))];
      }
      rest := rest - {name};
    }
    AllKeys(kids, was, goal);
  }

  /** PathStats.leave: every child name widens its range. */
  method LeaveStats(c: Classifier, p: PathStats, l: Visit) returns (q: PathStats)
    requires l.Leave?
    ensures q == LeavePath(c, p, l)
  {
    var kids := LeaveKids(p.kids, l.counts);
    var text := p.text;
    if l.text.Some? {
      text := Some(Add(c, if text.Some? then text.value else NO_VALUES, l.text.value, l.origin));
    }
    q := p.(kids := kids, text := text);
  }

  lemma AttrMerged(mine: map<string, ValueStats>, other: map<string, ValueStats>, name: string)
    requires name in other
    ensures name in MergeAttributes(mine, other)
    ensures
      MergeAttributes(mine, other)[name] ==
      MergeValues(if At(mine, name).Some? then At(mine, name).value else NO_VALUES, other[name])
  {
  }

  lemma AttrAdded(
      c: Classifier, was: map<string, ValueStats>, attrib: map<string, string>, source: string, name: string)
    requires name in attrib
    ensures name in AddAttributes(c, was, attrib, source)
    ensures
      AddAttributes(c, was, attrib, source)[name] ==
      Add(c, if At(was, name).Some? then At(was, name).value else NO_VALUES, attrib[name], source)
  {
  }

  method MergeAttrs(mine: map<string, ValueStats>, other: map<string, ValueStats>)
    returns (attrs: map<string, ValueStats>)
    ensures attrs == MergeAttributes(mine, other)
  {
    var rest := other.Keys;
    attrs := mine;
    ghost var goal := MergeAttributes(mine, other);
    AtOutset(mine, goal, other.Keys);
    while rest != {}
      invariant rest <= other.Keys && Underway(attrs, mine, goal, rest)
      decreases |rest|
    {
      var name :| name in rest;
      AttrMerged(mine, other, name);
      OneMoreKey(attrs, mine, goal, rest, name);
      var merged := MergeInto(StatsOf(attrs, name), other[name]);
      attrs := attrs[name := merged];
      rest := rest - {name};
    }
    AllKeys(attrs, mine, goal);
  }

  method MergeKids(mine: map<string, Kid>, other: map<string, Kid>) returns (kids: map<string, Kid>)
    ensures kids == MergeMaps(MergeKid, mine, other)
  {
    var rest := other.Keys;
    kids := mine;
    ghost var goal := MergeMaps(MergeKid, mine, other);
    AtOutset(mine, goal, other.Keys);
    while rest != {}
      invariant rest <= other.Keys && Underway(kids, mine, goal, rest)
      decreases |rest|
    {
      var name :| name in rest;
      OneMoreKey(kids, mine, goal, rest, name);
      if name in kids {
        kids := kids[name := MergeKid(kids[name], other[name])];
      } else {
        kids := kids[name := other[name]];
      }
      rest := rest - {name};
    }
    AllKeys(kids, mine, goal);
  }

  method MergeTexts(mine: Option<ValueStats>, other: Option<ValueStats>) returns (text: Option<ValueStats>)
    ensures text == MergeText(mine, other)
  {
    text := mine;
    if other.Some? {
      var both := MergeInto(if text.Some? then text.value else NO_VALUES, other.value);
      text := Some(both);
    }
  }

  lemma MergedByField(mine: PathStats, other: PathStats, p: PathStats)
    requires p.occ == mine.occ + other.occ && p.docs == mine.docs + other.docs && p.doc == mine.doc
    requires p.sources == Sum(mine.sources, other.sources) && p.sourceDocs == Sum(mine.sourceDocs, other.sourceDocs)
    requires p.versions == Sum(mine.versions, other.versions)
    requires p.attrs == MergeAttributes(mine.attrs, other.attrs) && p.kids == MergeMaps(MergeKid, mine.kids, other.kids)
    requires p.text == MergeText(mine.text, other.text) && p.evidence == Earlier(mine.evidence, other.evidence)
    ensures p == MergePath(mine, other)
  {
  }

  lemma EnteredByField(c: Classifier, p: PathStats, e: Visit, q: PathStats)
    requires e.Enter? && q.occ == p.occ + 1 && q.doc == Some(e.doc) && q.kids == p.kids && q.text == p.text
    requires q.docs == if p.doc != Some(e.doc) then p.docs + 1 else p.docs
    requires q.sourceDocs == if p.doc != Some(e.doc) then Bump(p.sourceDocs, e.source) else p.sourceDocs
    requires q.sources == Bump(p.sources, e.source) && q.versions == Bump(p.versions, e.version)
    requires q.evidence == Earlier(p.evidence, Some((e.source, e.rel)))
    requires q.attrs == AddAttributes(c, p.attrs, e.attrib, e.source)
    ensures q == EnterPath(c, p, e)
  {
  }

  method MergeStats(mine: PathStats, other: PathStats) returns (merged: PathStats)
    ensures merged == MergePath(mine, other)
  {
    var attrs := MergeAttrs(mine.attrs, other.attrs);
    var kids := MergeKids(mine.kids, other.kids);
    var text := MergeTexts(mine.text, other.text);
    var evidence := Earlier(mine.evidence, other.evidence);
    merged := PathStats(
      mine.occ + other.occ, mine.docs + other.docs, Sum(mine.sources, other.sources),
      Sum(mine.sourceDocs, other.sourceDocs), Sum(mine.versions, other.versions),
      attrs, kids, text, evidence, mine.doc);
    MergedByField(mine, other, merged);
  }

  method MergeTable(mine: Table, theirs: Table) returns (table: Table)
    ensures table == MergeTables(mine, theirs)
  {
    var rest := theirs.Keys;
    table := mine;
    ghost var goal := MergeTables(mine, theirs);
    AtOutset(mine, goal, theirs.Keys);
    while rest != {}
      invariant rest <= theirs.Keys && Underway(table, mine, goal, rest)
      decreases |rest|
    {
      var key :| key in rest;
      OneMoreKey(table, mine, goal, rest, key);
      if key in table {
        var merged := MergeStats(table[key], theirs[key]);
        table := table[key := merged];
      } else {
        table := table[key := theirs[key]];
      }
      rest := rest - {key};
    }
    AllKeys(table, mine, goal);
  }

  method Forget(table: Table) returns (settled: Table)
    ensures settled == SettleAll(table)
  {
    var rest := table.Keys;
    settled := table;
    ghost var goal := SettleAll(table);
    AtOutset(table, goal, table.Keys);
    while rest != {}
      invariant rest <= table.Keys && Underway(settled, table, goal, rest)
      decreases |rest|
    {
      var key :| key in rest;
      OneMoreKey(settled, table, goal, rest, key);
      settled := settled[key := settled[key].(doc := None)];
      rest := rest - {key};
    }
    AllKeys(settled, table, goal);
  }

  // ---- the walk -----------------------------------------------------------------------------------

  /** A file to scan; one that is not well-formed has no tree. */
  datatype Input = Input(id: nat, source: string, rel: string, content: Option<Tree>)

  /** The well-formed files. */
  function Documents(inputs: seq<Input>): seq<Document> {
    if inputs == [] then []
    else
      var last := inputs[|inputs| - 1];
      Documents(inputs[..|inputs| - 1])
      + if last.content.Some? then [Document(last.id, last.source, last.rel, last.content.value)] else []
  }

  function Malformed(inputs: seq<Input>): seq<(string, string)> {
    if inputs == [] then []
    else
      var last := inputs[|inputs| - 1];
      Malformed(inputs[..|inputs| - 1]) + if last.content.None? then [(last.source, last.rel)] else []
  }

  /** A file is a document if it could be parsed and is reported if it could not. */
  lemma OneInput(id: nat, source: string, rel: string, root: Tree)
    ensures Documents([Input(id, source, rel, Some(root))]) == [Document(id, source, rel, root)]
    ensures Malformed([Input(id, source, rel, Some(root))]) == []
    ensures Documents([Input(id, source, rel, None)]) == []
    ensures Malformed([Input(id, source, rel, None)]) == [(source, rel)]
  {
    assert [Input(id, source, rel, Some(root))][..0] == [];
    assert [Input(id, source, rel, None)][..0] == [];
  }

  lemma {:induction false} DocumentsInTwo(a: seq<Input>, b: seq<Input>)
    ensures Documents(a + b) == Documents(a) + Documents(b)
    ensures Malformed(a + b) == Malformed(a) + Malformed(b)
  {
    if b == [] {
      assert a + b == a;
    } else {
      assert (a + b)[..|a + b| - 1] == a + b[..|b| - 1];
      DocumentsInTwo(a, b[..|b| - 1]);
    }
  }

  /** The tables know every key that is still open. */
  ghost predicate Known(stack: seq<Frame>, paths: Table, folded: Table) {
    forall i | 0 <= i < |stack| :: stack[i].path in paths && stack[i].folded in folded
  }

  lemma OneMoreRecord(c: Classifier, table: Table, rs: seq<Record>, r: Record, fold: bool)
    ensures ApplyAll(c, table, rs + [r], fold) == ApplyRecord(c, ApplyAll(c, table, rs, fold), r, fold)
  {
    assert (rs + [r])[..|rs|] == rs;
  }

  lemma AdvanceOne(d: Document, w: ScanWalk.Walk, events: seq<XmlEvent>, i: nat)
    requires i < |events| && AdvanceAll(d, w, events[i..]).Some?
    ensures Advance(d, w, events[i]).Some?
    ensures AdvanceAll(d, w, events[i..]) == AdvanceAll(d, Advance(d, w, events[i]).value, events[i + 1..])
  {
    assert events[i..][1..] == events[i + 1..];
  }

  class Observation {
    var paths: Table
    var folded: Table
    var errors: seq<(string, string)>

    constructor ()
      ensures paths == map[] && folded == map[] && errors == []
    {
      paths, folded, errors := map[], map[], [];
    }

    method Merge(other: Observation)
      requires other != this
      modifies this
      ensures paths == MergeTables(old(paths), other.paths)
      ensures folded == MergeTables(old(folded), other.folded)
      ensures errors == old(errors) + other.errors
    {
      paths := MergeTable(paths, other.paths);
      folded := MergeTable(folded, other.folded);
      errors := errors + other.errors;
    }

    method RecordEnter(c: Classifier, r: Record)
      requires r.visit.Enter?
      modifies this
      ensures paths == ApplyRecord(c, old(paths), r, false)
      ensures folded == ApplyRecord(c, old(folded), r, true)
      ensures errors == old(errors)
    {
      var full := EnterStats(c, StatsAt(paths, r.path), r.visit);
      paths := paths[r.path := full];
      var short := EnterStats(c, StatsAt(folded, r.folded), r.visit);
      folded := folded[r.folded := short];
    }

    method RecordLeave(c: Classifier, r: Record)
      requires r.visit.Leave? && r.path in paths && r.folded in folded
      modifies this
      ensures paths == ApplyRecord(c, old(paths), r, false)
      ensures folded == ApplyRecord(c, old(folded), r, true)
      ensures errors == old(errors)
    {
      var full := LeaveStats(c, paths[r.path], r.visit);
      paths := paths[r.path := full];
      var short := LeaveStats(c, folded[r.folded], r.visit);
      folded := folded[r.folded := short];
    }

    method Enters(c: Classifier, d: Document, stack: seq<Frame>, version: string, e: XmlEvent)
      returns (stack': seq<Frame>, version': string, ghost r: Record)
      requires e.Start? && Known(stack, paths, folded)
      modifies this
      ensures forall rs ::
                Advance(d, ScanWalk.Walk(stack, version, rs), e) == Some(ScanWalk.Walk(stack', version', rs + [r]))
      ensures paths == ApplyRecord(c, old(paths), r, false) && folded == ApplyRecord(c, old(folded), r, true)
      ensures Known(stack', paths, folded) && errors == old(errors)
    {
      version' := version;
      stack' := stack;
      var path, folded' := [e.tag], [e.tag];
      if stack == [] {
        version' := VersionOf(e.attrib);
      } else {
        path, folded' := stack[|stack| - 1].path + [e.tag], Fold(stack[|stack| - 1].folded, e.tag);
        stack' := Counted(stack, e.tag);
      }
      var record := Record(path, folded', Enter(d.id, d.source, d.rel, version', e.attrib));
      RecordEnter(c, record);
      stack' := stack' + [Frame(path, folded', map[])];
      r := record;
    }

    method Leaves(c: Classifier, d: Document, stack: seq<Frame>, version: string, e: XmlEvent)
      returns (stack': seq<Frame>, ghost r: Record)
      requires e.End? && stack != [] && Known(stack, paths, folded)
      modifies this
      ensures forall rs ::
                Advance(d, ScanWalk.Walk(stack, version, rs), e) == Some(ScanWalk.Walk(stack', version, rs + [r]))
      ensures paths == ApplyRecord(c, old(paths), r, false) && folded == ApplyRecord(c, old(folded), r, true)
      ensures Known(stack', paths, folded) && errors == old(errors)
    {
      var top := stack[|stack| - 1];
      stack' := stack[..|stack| - 1];
      var record := Record(top.path, top.folded, Leave(top.counts, LeafText(top.counts, e.text), d.source));
      RecordLeave(c, record);
      r := record;
    }

    method Handles(c: Classifier, d: Document, stack: seq<Frame>, version: string, e: XmlEvent)
      returns (stack': seq<Frame>, version': string, ghost r: Record)
      requires (e.Start? || stack != []) && Known(stack, paths, folded)
      modifies this
      ensures forall rs ::
                Advance(d, ScanWalk.Walk(stack, version, rs), e) == Some(ScanWalk.Walk(stack', version', rs + [r]))
      ensures paths == ApplyRecord(c, old(paths), r, false) && folded == ApplyRecord(c, old(folded), r, true)
      ensures Known(stack', paths, folded) && errors == old(errors)
    {
      version' := version;
      if e.Start? {
        stack', version', r := Enters(c, d, stack, version, e);
      } else {
        stack', r := Leaves(c, d, stack, version, e);
      }
    }

    /** The stack walk leaves in both tables what recursion over the tree records; it never pops an
        empty stack nor leaves a path it has not entered. */
    method Walk(c: Classifier, d: Document)
      modifies this
      ensures paths == ApplyAll(c, old(paths), Records(d), false)
      ensures folded == ApplyAll(c, old(folded), Records(d), true)
      ensures errors == old(errors)
    {
      var events := Stream(d.root);
      var stack: seq<Frame> := [];
      var version := "-";
      var i := 0;
      ghost var rs: seq<Record> := [];
      ghost var was, wasFolded := paths, folded;
      WalkRefinesRecursion(d);
      assert events[0..] == events;
      while i < |events|
        invariant 0 <= i <= |events|
        invariant
          AdvanceAll(d, ScanWalk.Walk(stack, version, rs), events[i..]) ==
          Some(ScanWalk.Walk([], VersionOf(d.root.attrib), Records(d)))
        invariant paths == ApplyAll(c, was, rs, false) && folded == ApplyAll(c, wasFolded, rs, true)
        invariant Known(stack, paths, folded) && errors == old(errors)
        decreases |events| - i
      {
        AdvanceOne(d, ScanWalk.Walk(stack, version, rs), events, i);
        ghost var r;
        stack, version, r := Handles(c, d, stack, version, events[i]);
        OneMoreRecord(c, was, rs, r, false);
        OneMoreRecord(c, wasFolded, rs, r, true);
        rs := rs + [r];
        i := i + 1;
      }
    }

    /** A file that is not well-formed is an error record and nothing else. */
    method ScanDocument(c: Classifier, input: Input)
      modifies this
      ensures input.content.None? ==>
        paths == old(paths) && folded == old(folded) && errors == old(errors) + [(input.source, input.rel)]
      ensures input.content.Some? ==>
        var d := Document(input.id, input.source, input.rel, input.content.value);
        && paths == ApplyAll(c, old(paths), Records(d), false)
        && folded == ApplyAll(c, old(folded), Records(d), true)
        && errors == old(errors)
    {
      if input.content.None? {
        errors := errors + [(input.source, input.rel)];
      } else {
        Walk(c, Document(input.id, input.source, input.rel, input.content.value));
      }
    }
  }

  method ScanChunk(c: Classifier, chunk: seq<Input>) returns (o: Observation)
    ensures fresh(o)
    ensures o.paths == Part(c, Documents(chunk), false) && o.folded == Part(c, Documents(chunk), true)
    ensures o.errors == Malformed(chunk)
  {
    o := new Observation();
    var i := 0;
    while i < |chunk|
      invariant 0 <= i <= |chunk| && fresh(o)
      invariant o.paths == ScanAll(c, Documents(chunk[..i]), false)
      invariant o.folded == ScanAll(c, Documents(chunk[..i]), true)
      invariant o.errors == Malformed(chunk[..i])
    {
      OneMoreInput(c, chunk, i, false);
      OneMoreInput(c, chunk, i, true);
      o.ScanDocument(c, chunk[i]);
      i := i + 1;
    }
    assert chunk[..|chunk|] == chunk;
    o.paths := Forget(o.paths);
    o.folded := Forget(o.folded);
  }

  /** Scanning in chunks, of whatever size the number of workers gives, is one pass over all
      well-formed files, in both tables; the errors come out in order. With no workers at all the size
      is a division by zero; with fewer than none the chunks are of one file each. */
  method Scan(c: Classifier, inputs: seq<Input>, jobs: int) returns (total: Observation)
    requires jobs != 0 && Distinct(Documents(inputs))
    ensures fresh(total)
    ensures total.paths == Part(c, Documents(inputs), false) && total.folded == Part(c, Documents(inputs), true)
    ensures PairsInOrder(total.errors) && multiset(total.errors) == multiset(Malformed(inputs))
  {
    var size := if jobs > 0 && |inputs| / (jobs * 8) > 0 then |inputs| / (jobs * 8) else 1;
    total := new Observation();
    var i := 0;
    while i < |inputs|
      invariant 0 <= i <= |inputs| && fresh(total)
      invariant total.paths == Part(c, Documents(inputs[..i]), false)
      invariant total.folded == Part(c, Documents(inputs[..i]), true)
      invariant total.errors == Malformed(inputs[..i])
      decreases |inputs| - i
    {
      var end := if i + size < |inputs| then i + size else |inputs|;
      var part := ScanChunk(c, inputs[i..end]);
      total.Merge(part);
      InputsInTwo(inputs, i, end);
      ChunkMerged(c, inputs, i, end, false);
      ChunkMerged(c, inputs, i, end, true);
      i := end;
    }
    assert inputs[..|inputs|] == inputs;
    total.errors := SortPairs(total.errors);
  }

  lemma ChunkMerged(c: Classifier, inputs: seq<Input>, i: nat, end: nat, fold: bool)
    requires i <= end <= |inputs| && Distinct(Documents(inputs))
    ensures
      MergeTables(Part(c, Documents(inputs[..i]), fold), Part(c, Documents(inputs[i..end]), fold)) ==
      Part(c, Documents(inputs[..end]), fold)
  {
    var a, b := Documents(inputs[..i]), Documents(inputs[i..end]);
    InputsInTwo(inputs, i, end);
    PartsJoin(c, a, b, fold);
    SettledTablesJoin(Part(c, a, fold), Part(c, b, fold));
  }

  lemma InputsInTwo(inputs: seq<Input>, i: nat, end: nat)
    requires i <= end <= |inputs|
    ensures Documents(inputs[..end]) == Documents(inputs[..i]) + Documents(inputs[i..end])
    ensures Malformed(inputs[..end]) == Malformed(inputs[..i]) + Malformed(inputs[i..end])
    ensures Distinct(Documents(inputs)) ==> Distinct(Documents(inputs[..end]))
  {
    Slices(inputs, i, end);
    DocumentsInTwo(inputs[..i], inputs[i..end]);
    DocumentsInTwo(inputs[..end], inputs[end..]);
    BothDistinct(Documents(inputs[..end]), Documents(inputs[end..]));
  }

  lemma Slices<A>(xs: seq<A>, i: nat, end: nat)
    requires i <= end <= |xs|
    ensures xs[..i] + xs[i..end] == xs[..end] && xs[..end] + xs[end..] == xs
  {
  }

  lemma BothDistinct(a: seq<Document>, b: seq<Document>)
    ensures Distinct(a + b) ==> Distinct(a)
  {
    if Distinct(a + b) {
      PrefixIsDistinct(a, b);
    }
  }

  lemma OneMoreInput(c: Classifier, chunk: seq<Input>, i: nat, fold: bool)
    requires i < |chunk|
    ensures
      ScanAll(c, Documents(chunk[..i + 1]), fold) ==
      if chunk[i].content.None? then ScanAll(c, Documents(chunk[..i]), fold)
      else
        var d := Document(chunk[i].id, chunk[i].source, chunk[i].rel, chunk[i].content.value);
        ApplyAll(c, ScanAll(c, Documents(chunk[..i]), fold), Records(d), fold)
    ensures Malformed(chunk[..i + 1]) ==
      Malformed(chunk[..i]) + if chunk[i].content.None? then [(chunk[i].source, chunk[i].rel)] else []
  {
    assert chunk[..i + 1][..i] == chunk[..i];
    var docs := Documents(chunk[..i]);
    if chunk[i].content.Some? {
      var d := Document(chunk[i].id, chunk[i].source, chunk[i].rel, chunk[i].content.value);
      assert Documents(chunk[..i + 1]) == docs + [d] && (docs + [d])[..|docs|] == docs;
    } else {
      assert docs + [] == docs;
    }
  }
}
