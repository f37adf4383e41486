/** The walk over a document's parse events with a stack, against recursion over its tree. */
module ScanWalk {
  import opened Common
  import opened ScanStats
  import opened ScanPaths
  import opened PathFolding

  /** An element; `text` is its text before the first child, stripped. */
  datatype Tree = Element(tag: QName, attrib: map<string, string>, text: string, children: seq<Tree>)

  datatype Document = Document(id: nat, source: string, rel: string, root: Tree)

  datatype XmlEvent = Start(tag: QName, attrib: map<string, string>) | End(text: string)

  function Stream(t: Tree): seq<XmlEvent>
    decreases t, 1
  {
    [Start(t.tag, t.attrib)] + Streams(t.children) + [End(t.text)]
  }

  function Streams(ts: seq<Tree>): seq<XmlEvent>
    decreases ts, 0
  {
    if ts == [] then [] else Stream(ts[0]) + Streams(ts[1..])
  }

  // ---- the walk -----------------------------------------------------------------------------------

  /** An open element: its path, the key it is published under, and the children met so far. */
  datatype Frame = Frame(path: Path, folded: Path, counts: Counter<string>)

  /** A visit of a path, under both of its keys. */
  datatype Record = Record(path: Path, folded: Path, visit: Visit)

  datatype Walk = Walk(stack: seq<Frame>, version: string, records: seq<Record>)

  function VersionOf(attrib: map<string, string>): string {
    if "version" in attrib then attrib["version"] else "-"
  }

  function LeafText(counts: Counter<string>, text: string): Option<string> {
    if counts != map[] then None else Some(text)
  }

  /** One event; popping an empty stack is a crash. */
  function Advance(d: Document, w: Walk, e: XmlEvent): Option<Walk> {
    match e
    case Start(tag, attrib) =>
      var version := if w.stack == [] then VersionOf(attrib) else w.version;
      var outer := if w.stack == [] then [] else Counted(w.stack, tag);
      var path := if w.stack == [] then [tag] else w.stack[|w.stack| - 1].path + [tag];
      var folded := if w.stack == [] then [tag] else Fold(w.stack[|w.stack| - 1].folded, tag);
      Some(Walk(outer + [Frame(path, folded, map[])], version,
                w.records + [Record(path, folded, Enter(d.id, d.source, d.rel, version, attrib))]))
    case End(text) =>
      if w.stack == [] then None
      else
        var top := w.stack[|w.stack| - 1];
        Some(Walk(w.stack[..|w.stack| - 1], w.version,
                  w.records + [Record(top.path, top.folded, Leave(top.counts, LeafText(top.counts, text), d.source))]))
  }

  /** The innermost open element has one more child. */
  function Counted(stack: seq<Frame>, tag: QName): seq<Frame>
    requires stack != []
  {
    var top := stack[|stack| - 1];
    stack[|stack| - 1 := top.(counts := Bump(top.counts, tag))]
  }

  function AdvanceAll(d: Document, w: Walk, events: seq<XmlEvent>): Option<Walk>
    decreases |events|
  {
    if events == [] then Some(w)
    else
      match Advance(d, w, events[0])
      case None => None
      case Some(w') => AdvanceAll(d, w', events[1..])
  }

  // ---- the same by recursion ---------------------------------------------------------------------------

  function CountTags(counts: Counter<string>, ts: seq<Tree>): Counter<string>
    decreases |ts|
  {
    if ts == [] then counts else CountTags(Bump(counts, ts[0].tag), ts[1..])
  }

  /** What an element and everything in it record, below given parent keys. */
  function TreeRecords(d: Document, version: string, path: Path, folded: Path, t: Tree): seq<Record>
    decreases t, 1
  {
    var path', folded' := path + [t.tag], Fold(folded, t.tag);
    var counts := CountTags(map[], t.children);
    [Record(path', folded', Enter(d.id, d.source, d.rel, version, t.attrib))]
    + ForestRecords(d, version, path', folded', t.children)
    + [Record(path', folded', Leave(counts, LeafText(counts, t.text), d.source))]
  }

  function ForestRecords(d: Document, version: string, path: Path, folded: Path, ts: seq<Tree>): seq<Record>
    decreases ts, 0
  {
    if ts == [] then []
    else TreeRecords(d, version, path, folded, ts[0]) + ForestRecords(d, version, path, folded, ts[1..])
  }

  function Records(d: Document): seq<Record> {
    TreeRecords(d, VersionOf(d.root.attrib), [], [], d.root)
  }

  // ---- the two agree --------------------------------------------------------------------------------------

  lemma {:induction false} AdvanceInTwo(d: Document, w: Walk, a: seq<XmlEvent>, b: seq<XmlEvent>)
    ensures
      AdvanceAll(d, w, a + b) ==
      match AdvanceAll(d, w, a)
      case None => None
      case Some(w') => AdvanceAll(d, w', b)
    decreases |a|
  {
    if a == [] {
      assert a + b == b;
    } else {
      assert (a + b)[1..] == a[1..] + b;
      var next := Advance(d, w, a[0]);
      if next.Some? {
        AdvanceInTwo(d, next.value, a[1..], b);
      }
    }
  }

  /** Where the walk is once a tree has gone by: its parent has one more child, and the records of
      the tree were written. */
  function After(d: Document, w: Walk, t: Tree): Walk
    requires w.stack != []
  {
    var top := w.stack[|w.stack| - 1];
    Walk(Counted(w.stack, t.tag), w.version, w.records + TreeRecords(d, w.version, top.path, top.folded, t))
  }

  function AfterAll(d: Document, w: Walk, ts: seq<Tree>): Walk
    requires w.stack != []
  {
    var top := w.stack[|w.stack| - 1];
    Walk(w.stack[|w.stack| - 1 := top.(counts := CountTags(top.counts, ts))], w.version,
         w.records + ForestRecords(d, w.version, top.path, top.folded, ts))
  }

  lemma {:induction false} WalkForest(d: Document, w: Walk, ts: seq<Tree>)
    requires w.stack != []
    ensures AdvanceAll(d, w, Streams(ts)) == Some(AfterAll(d, w, ts))
    decreases ts, 0
  {
    if ts == [] {
      assert w.records + [] == w.records;
      assert AfterAll(d, w, ts).stack == w.stack;
    } else {
      WalkInside(d, w, ts[0]);
      WalkForest(d, After(d, w, ts[0]), ts[1..]);
      AdvanceInTwo(d, w, Stream(ts[0]), Streams(ts[1..]));
      AfterOneOfAll(d, w, ts);
    }
  }

  lemma AfterOneOfAll(d: Document, w: Walk, ts: seq<Tree>)
    requires w.stack != [] && ts != []
    ensures AfterAll(d, After(d, w, ts[0]), ts[1..]) == AfterAll(d, w, ts)
  {
    var top := w.stack[|w.stack| - 1];
    var a := TreeRecords(d, w.version, top.path, top.folded, ts[0]);
    var b := ForestRecords(d, w.version, top.path, top.folded, ts[1..]);
    assert (w.records + a) + b == w.records + (a + b);
    assert AfterAll(d, After(d, w, ts[0]), ts[1..]).stack == AfterAll(d, w, ts).stack;
  }

  /** Entering, walking the children and leaving, from any stack. */
  lemma WalkElement(
      d: Document, w: Walk, w1: Walk, outer: seq<Frame>, path: Path, folded: Path, version: string, t: Tree)
    requires Advance(d, w, Start(t.tag, t.attrib)) == Some(w1)
    requires w1.stack == outer + [Frame(path, folded, map[])] && w1.version == version
    requires AdvanceAll(d, w1, Streams(t.children)) == Some(AfterAll(d, w1, t.children))
    ensures
      var counts := CountTags(map[], t.children);
      AdvanceAll(d, w, Stream(t)) ==
      Some(Walk(outer, version,
                w1.records + ForestRecords(d, version, path, folded, t.children)
                + [Record(path, folded, Leave(counts, LeafText(counts, t.text), d.source))]))
  {
    var start, inner, end := [Start(t.tag, t.attrib)], Streams(t.children), [End(t.text)];
    AdvanceInTwo(d, w, start + inner, end);
    AdvanceInTwo(d, w, start, inner);
    assert start[1..] == [] && end[1..] == [];
    assert AdvanceAll(d, w, start) == Some(w1);
    var w2 := AfterAll(d, w1, t.children);
    assert w2.stack[..|w2.stack| - 1] == outer;
    assert AdvanceAll(d, w2, end) == Advance(d, w2, End(t.text));
  }

  lemma {:induction false} WalkInside(d: Document, w: Walk, t: Tree)
    requires w.stack != []
    ensures AdvanceAll(d, w, Stream(t)) == Some(After(d, w, t))
    decreases t, 1
  {
    var top := w.stack[|w.stack| - 1];
    var path, folded := top.path + [t.tag], Fold(top.folded, t.tag);
    var w1 := Advance(d, w, Start(t.tag, t.attrib)).value;
    WalkForest(d, w1, t.children);
    WalkElement(d, w, w1, Counted(w.stack, t.tag), path, folded, w.version, t);
    AfterElement(d, w, path, folded, t);
  }

  lemma AfterElement(d: Document, w: Walk, path: Path, folded: Path, t: Tree)
    requires w.stack != []
    requires path == w.stack[|w.stack| - 1].path + [t.tag] && folded == Fold(w.stack[|w.stack| - 1].folded, t.tag)
    ensures
      var counts := CountTags(map[], t.children);
      After(d, w, t) ==
      Walk(Counted(w.stack, t.tag), w.version,
           w.records + [Record(path, folded, Enter(d.id, d.source, d.rel, w.version, t.attrib))]
           + ForestRecords(d, w.version, path, folded, t.children)
           + [Record(path, folded, Leave(counts, LeafText(counts, t.text), d.source))])
  {
    var enter := [Record(path, folded, Enter(d.id, d.source, d.rel, w.version, t.attrib))];
    var inner := ForestRecords(d, w.version, path, folded, t.children);
    var counts := CountTags(map[], t.children);
    var leave := [Record(path, folded, Leave(counts, LeafText(counts, t.text), d.source))];
    assert w.records + enter + inner + leave == w.records + (enter + inner + leave);
  }

  /** Over the events of any document the walk never pops an empty stack, ends with none left,
      and records exactly what recursion over the tree does. */
  lemma WalkRefinesRecursion(d: Document)
    ensures
      AdvanceAll(d, Walk([], "-", []), Stream(d.root)) ==
      Some(Walk([], VersionOf(d.root.attrib), Records(d)))
  {
    var t := d.root;
    var w := Walk([], "-", []);
    var w1 := Advance(d, w, Start(t.tag, t.attrib)).value;
    WalkForest(d, w1, t.children);
    assert [] + [t.tag] == [t.tag] && Fold([], t.tag) == [t.tag];
    WalkElement(d, w, w1, [], [t.tag], [t.tag], VersionOf(t.attrib), t);
    var enter := [Record([t.tag], [t.tag], Enter(d.id, d.source, d.rel, VersionOf(t.attrib), t.attrib))];
    assert w1.records == [] + enter == enter;
  }

  // ---- what every record of a document has in common -----------------------------------------------------------

  ghost predicate OfDocument(d: Document, r: Record) {
    && r.folded == FoldPath(r.path)
    && (r.visit.Enter? ==> r.visit.doc == d.id && r.visit.source == d.source)
  }

  lemma {:induction false} TreeRecordsOfDocument(d: Document, version: string, path: Path, t: Tree)
    ensures forall r | r in TreeRecords(d, version, path, FoldPath(path), t) :: OfDocument(d, r)
    decreases t, 1
  {
    assert (path + [t.tag])[..|path|] == path;
    ForestRecordsOfDocument(d, version, path + [t.tag], t.children);
  }

  lemma {:induction false} ForestRecordsOfDocument(d: Document, version: string, path: Path, ts: seq<Tree>)
    ensures forall r | r in ForestRecords(d, version, path, FoldPath(path), ts) :: OfDocument(d, r)
    decreases ts, 0
  {
    if ts != [] {
      TreeRecordsOfDocument(d, version, path, ts[0]);
      ForestRecordsOfDocument(d, version, path, ts[1..]);
    }
  }

  /** Every visit is published under the fold of its path. */
  lemma RecordsOfDocument(d: Document)
    ensures forall r | r in Records(d) :: OfDocument(d, r)
  {
    assert FoldPath([]) == [];
    TreeRecordsOfDocument(d, VersionOf(d.root.attrib), [], d.root);
  }

  // ---- the visits of one key --------------------------------------------------------------------------------------

  function KeyOf(r: Record, fold: bool): Path {
    if fold then r.folded else r.path
  }

  function VisitsAt(rs: seq<Record>, key: Path, fold: bool): seq<Visit> {
    if rs == [] then []
    else
      var init := VisitsAt(rs[..|rs| - 1], key, fold);
      if KeyOf(rs[|rs| - 1], fold) == key then init + [rs[|rs| - 1].visit] else init
  }

  lemma {:induction false} VisitsOfAppend(a: seq<Record>, b: seq<Record>, key: Path, fold: bool)
    ensures VisitsAt(a + b, key, fold) == VisitsAt(a, key, fold) + VisitsAt(b, key, fold)
  {
    if b == [] {
      assert a + b == a;
    } else {
      assert (a + b)[..|a + b| - 1] == a + b[..|b| - 1];
      VisitsOfAppend(a, b[..|b| - 1], key, fold);
    }
  }

  /** A key is entered before it is left. */
  predicate EntersFirst(vs: seq<Visit>) {
    vs != [] ==> vs[0].Enter?
  }

  lemma {:induction false} TreeEntersFirst(
      d: Document, version: string, path: Path, folded: Path, t: Tree, key: Path, fold: bool)
    ensures EntersFirst(VisitsAt(TreeRecords(d, version, path, folded, t), key, fold))
    decreases t, 1
  {
    var path', folded' := path + [t.tag], Fold(folded, t.tag);
    var counts := CountTags(map[], t.children);
    var enter := [Record(path', folded', Enter(d.id, d.source, d.rel, version, t.attrib))];
    var inner := ForestRecords(d, version, path', folded', t.children);
    var leave := [Record(path', folded', Leave(counts, LeafText(counts, t.text), d.source))];
    VisitsOfAppend(enter + inner, leave, key, fold);
    VisitsOfAppend(enter, inner, key, fold);
    assert enter[..0] == [] && leave[..0] == [];
    ForestEntersFirst(d, version, path', folded', t.children, key, fold);
  }

  lemma {:induction false} ForestEntersFirst(
      d: Document, version: string, path: Path, folded: Path, ts: seq<Tree>, key: Path, fold: bool)
    ensures EntersFirst(VisitsAt(ForestRecords(d, version, path, folded, ts), key, fold))
    decreases ts, 0
  {
    if ts != [] {
      TreeEntersFirst(d, version, path, folded, ts[0], key, fold);
      ForestEntersFirst(d, version, path, folded, ts[1..], key, fold);
      VisitsOfAppend(
        TreeRecords(d, version, path, folded, ts[0]), ForestRecords(d, version, path, folded, ts[1..]), key, fold);
    }
  }

  lemma {:induction false} VisitsAreRecords(rs: seq<Record>, key: Path, fold: bool)
    ensures forall v | v in VisitsAt(rs, key, fold) :: exists r :: r in rs && r.visit == v && KeyOf(r, fold) == key
  {
    if rs != [] {
      var init, last := rs[..|rs| - 1], rs[|rs| - 1];
      VisitsAreRecords(init, key, fold);
      forall v | v in VisitsAt(rs, key, fold)
        ensures exists r :: r in rs && r.visit == v && KeyOf(r, fold) == key
      {
        if v in VisitsAt(init, key, fold) {
          var r :| r in init && r.visit == v && KeyOf(r, fold) == key;
          assert r in rs;
        } else {
          assert last in rs && last.visit == v;
        }
      }
    }
  }

  /** All visits of one document at one key. */
  predicate OneDocument(vs: seq<Visit>, id: nat) {
    EntersFirst(vs) && forall v | v in vs && v.Enter? :: v.doc == id
  }

  lemma DocumentVisits(d: Document, key: Path, fold: bool)
    ensures OneDocument(VisitsAt(Records(d), key, fold), d.id)
  {
    TreeEntersFirst(d, VersionOf(d.root.attrib), [], [], d.root, key, fold);
    RecordsOfDocument(d);
    VisitsAreRecords(Records(d), key, fold);
  }
}
