/** What the tables of a scan hold, said of the documents' trees without visits, stacks or merges. */
module ScanContents {
  import opened Common
  import opened Order
  import opened ScanStats
  import opened ScanPaths
  import opened ScanWalk
  import opened ScanTables
  import opened PathFolding

  /** An element of some document. */
  datatype Found = Found(source: string, rel: string, version: string, element: Tree)

  /** The version a document states on its root element, or a dash. */
  function Stated(d: Document): string {
    if "version" !in d.root.attrib then "-" else d.root.attrib["version"]
  }

  /** The elements of a tree that are published under a key, outer before inner. */
  function Elements(d: Document, path: Path, folded: Path, t: Tree, key: Path, fold: bool): seq<Found>
    decreases t, 1
  {
    var path', folded' := path + [t.tag], Fold(folded, t.tag);
    (if (if fold then folded' else path') == key
     then [Found(d.source, d.rel, Stated(d), t)] else [])
    + ElementsAmong(d, path', folded', t.children, key, fold)
  }

  function ElementsAmong(d: Document, path: Path, folded: Path, ts: seq<Tree>, key: Path, fold: bool): seq<Found>
    decreases ts, 0
  {
    if ts == [] then []
    else Elements(d, path, folded, ts[0], key, fold) + ElementsAmong(d, path, folded, ts[1..], key, fold)
  }

  function ElementsOf(d: Document, key: Path, fold: bool): seq<Found> {
    Elements(d, [], [], d.root, key, fold)
  }

  function ElementsOfAll(docs: seq<Document>, key: Path, fold: bool): seq<Found> {
    if docs == [] then [] else ElementsOfAll(docs[..|docs| - 1], key, fold) + ElementsOf(docs[|docs| - 1], key, fold)
  }

  function VisitsOfAll(docs: seq<Document>, key: Path, fold: bool): seq<Visit> {
    if docs == [] then []
    else VisitsOfAll(docs[..|docs| - 1], key, fold) + VisitsAt(Records(docs[|docs| - 1]), key, fold)
  }

  // ---- observations -------------------------------------------------------------------------------

  function Collect<A, B>(f: A -> seq<B>, xs: seq<A>): seq<B> {
    if xs == [] then [] else Collect(f, xs[..|xs| - 1]) + f(xs[|xs| - 1])
  }

  lemma {:induction false} CollectOfAppend<A, B>(f: A -> seq<B>, a: seq<A>, b: seq<A>)
    ensures Collect(f, a + b) == Collect(f, a) + Collect(f, b)
  {
    if b == [] {
      assert a + b == a;
    } else {
      assert (a + b)[..|a + b| - 1] == a + b[..|b| - 1];
      CollectOfAppend(f, a, b[..|b| - 1]);
    }
  }

  lemma CollectOne<A, B>(f: A -> seq<B>, x: A)
    ensures Collect(f, [x]) == f(x)
  {
    assert [x][..0] == [];
    assert Collect(f, [x]) == Collect(f, []) + f(x);
  }

  function EnterOf(d: Document, t: Tree): Visit {
    Enter(d.id, d.source, d.rel, VersionOf(d.root.attrib), t.attrib)
  }

  function LeaveOf(d: Document, t: Tree): Visit {
    var counts := CountTags(map[], t.children);
    Leave(counts, LeafText(counts, t.text), d.source)
  }

  function FoundAt(d: Document, t: Tree): Found {
    Found(d.source, d.rel, Stated(d), t)
  }

  /** `f` reads off the two visits of an element what `g` reads off the element. */
  ghost predicate Reads<B>(d: Document, f: Visit -> seq<B>, g: Found -> seq<B>) {
    forall t :: f(EnterOf(d, t)) + f(LeaveOf(d, t)) == g(FoundAt(d, t))
  }

  lemma {:induction false} VisitsReadElements<B>(
    d: Document, f: Visit -> seq<B>, g: Found -> seq<B>, path: Path, folded: Path, t: Tree, key: Path, fold: bool)
    requires Reads(d, f, g)
    ensures
      multiset(Collect(f, VisitsAt(TreeRecords(d, VersionOf(d.root.attrib), path, folded, t), key, fold))) ==
      multiset(Collect(g, Elements(d, path, folded, t, key, fold)))
    decreases t, 1
  {
    var version := VersionOf(d.root.attrib);
    var path', folded' := path + [t.tag], Fold(folded, t.tag);
    var enter := [Record(path', folded', EnterOf(d, t))];
    var inner := ForestRecords(d, version, path', folded', t.children);
    var leave := [Record(path', folded', LeaveOf(d, t))];
    ForestReadsElements(d, f, g, path', folded', t.children, key, fold);
    VisitsOfAppend(enter + inner, leave, key, fold);
    VisitsOfAppend(enter, inner, key, fold);
    VisitsOfOne(enter[0], key, fold);
    VisitsOfOne(leave[0], key, fold);
    var vs := VisitsAt(inner, key, fold);
    var es := ElementsAmong(d, path', folded', t.children, key, fold);
    if (if fold then folded' else path') == key {
      ElementReads(d, f, g, t, vs, es);
    } else {
      assert [] + vs + [] == vs && [] + es == es;
    }
  }

  lemma ElementReads<B>(d: Document, f: Visit -> seq<B>, g: Found -> seq<B>, t: Tree, vs: seq<Visit>, es: seq<Found>)
    requires Reads(d, f, g) && multiset(Collect(f, vs)) == multiset(Collect(g, es))
    ensures
      multiset(Collect(f, [EnterOf(d, t)] + vs + [LeaveOf(d, t)])) == multiset(Collect(g, [FoundAt(d, t)] + es))
  {
    var a, b := f(EnterOf(d, t)), f(LeaveOf(d, t));
    CollectOfAppend(f, [EnterOf(d, t)] + vs, [LeaveOf(d, t)]);
    CollectOfAppend(f, [EnterOf(d, t)], vs);
    CollectOfAppend(g, [FoundAt(d, t)], es);
    CollectOne(f, EnterOf(d, t));
    CollectOne(f, LeaveOf(d, t));
    CollectOne(g, FoundAt(d, t));
    assert a + b == g(FoundAt(d, t));
    assert multiset(a + b) == multiset(a) + multiset(b);
  }

  lemma VisitsOfOne(r: Record, key: Path, fold: bool)
    ensures VisitsAt([r], key, fold) == if KeyOf(r, fold) == key then [r.visit] else []
  {
    assert [r][..0] == [];
  }

  lemma {:induction false} ForestReadsElements<B>(
    d: Document, f: Visit -> seq<B>, g: Found -> seq<B>, path: Path, folded: Path, ts: seq<Tree>, key: Path, fold: bool)
    requires Reads(d, f, g)
    ensures
      multiset(Collect(f, VisitsAt(ForestRecords(d, VersionOf(d.root.attrib), path, folded, ts), key, fold))) ==
      multiset(Collect(g, ElementsAmong(d, path, folded, ts, key, fold)))
    decreases ts, 0
  {
    if ts != [] {
      var a := TreeRecords(d, VersionOf(d.root.attrib), path, folded, ts[0]);
      var b := ForestRecords(d, VersionOf(d.root.attrib), path, folded, ts[1..]);
      VisitsReadElements(d, f, g, path, folded, ts[0], key, fold);
      ForestReadsElements(d, f, g, path, folded, ts[1..], key, fold);
      VisitsOfAppend(a, b, key, fold);
      CollectOfAppend(f, VisitsAt(a, key, fold), VisitsAt(b, key, fold));
      CollectOfAppend(
        g, Elements(d, path, folded, ts[0], key, fold), ElementsAmong(d, path, folded, ts[1..], key, fold));
    }
  }

  lemma {:induction false} AllVisitsReadElements<B>(
    docs: seq<Document>, f: Visit -> seq<B>, g: Found -> seq<B>, key: Path, fold: bool)
    requires forall d :: Reads(d, f, g)
    ensures
      multiset(Collect(f, VisitsOfAll(docs, key, fold))) == multiset(Collect(g, ElementsOfAll(docs, key, fold)))
  {
    if docs != [] {
      var init, d := docs[..|docs| - 1], docs[|docs| - 1];
      AllVisitsReadElements(init, f, g, key, fold);
      VisitsReadElements(d, f, g, [], [], d.root, key, fold);
      CollectOfAppend(f, VisitsOfAll(init, key, fold), VisitsAt(Records(d), key, fold));
      CollectOfAppend(g, ElementsOfAll(init, key, fold), ElementsOf(d, key, fold));
    }
  }

  // ---- what one key holds, by its visits -----------------------------------------------------------------

  function VisitPlace(v: Visit): seq<(string, string)> {
    if v.Enter? then [(v.source, v.rel)] else []
  }

  function VisitVersion(v: Visit): seq<string> {
    if v.Enter? then [v.version] else []
  }

  function VisitAttr(name: string): Visit -> seq<(string, string)> {
    (v: Visit) => if v.Enter? && name in v.attrib then [(v.attrib[name], v.source)] else []
  }

  function VisitText(v: Visit): seq<(string, string)> {
    if v.Leave? && v.text.Some? then [(v.text.value, v.origin)] else []
  }

  function VisitKids(name: string): Visit -> seq<nat> {
    (v: Visit) => if v.Leave? && name in v.counts then [v.counts[name]] else []
  }

  /** The values of a position are those that were met. */
  ghost predicate Holds(c: Classifier, stats: Option<ValueStats>, seen: seq<(string, string)>) {
    stats == if seen == [] then None else Some(AddAll(c, NO_VALUES, seen))
  }

  /** A child name sums up how many of it each parent had. */
  ghost predicate Sums(kid: Option<Kid>, counts: seq<nat>) {
    if counts == [] then kid.None?
    else
      && kid.Some? && kid.value.parents == |counts|
      && kid.value.low in counts && kid.value.high in counts
      && forall n | n in counts :: kid.value.low <= n <= kid.value.high
  }

  ghost predicate IsFirst(place: Option<(string, string)>, places: seq<(string, string)>) {
    if places == [] then place.None?
    else place.Some? && place.value in places && forall q | q in places :: !PairBefore(q, place.value)
  }

  function CountIf<A>(p: A -> bool, xs: seq<A>): nat {
    if xs == [] then 0 else CountIf(p, xs[..|xs| - 1]) + if p(xs[|xs| - 1]) then 1 else 0
  }

  function FromSource(source: string): ((string, string)) -> bool {
    (place: (string, string)) => place.0 == source
  }

  lemma {:induction false} OccursAsOften(c: Classifier, vs: seq<Visit>)
    ensures FoldVisits(c, NEW_STATS, vs).occ == |Collect(VisitPlace, vs)|
    decreases |vs|
  {
    if vs != [] {
      OccursAsOften(c, vs[..|vs| - 1]);
    }
  }

  lemma {:induction false} HoldsAttributes(c: Classifier, vs: seq<Visit>, name: string)
    ensures Holds(c, At(FoldVisits(c, NEW_STATS, vs).attrs, name), Collect(VisitAttr(name), vs))
    decreases |vs|
  {
    if vs != [] {
      var init, v := vs[..|vs| - 1], vs[|vs| - 1];
      HoldsAttributes(c, init, name);
      var seen := Collect(VisitAttr(name), init);
      if v.Enter? && name in v.attrib {
        assert (seen + [(v.attrib[name], v.source)])[..|seen|] == seen;
      } else {
        assert seen + [] == seen;
      }
    }
  }

  lemma {:induction false} HoldsText(c: Classifier, vs: seq<Visit>)
    ensures Holds(c, FoldVisits(c, NEW_STATS, vs).text, Collect(VisitText, vs))
    decreases |vs|
  {
    if vs != [] {
      var init, v := vs[..|vs| - 1], vs[|vs| - 1];
      HoldsText(c, init);
      var seen := Collect(VisitText, init);
      if v.Leave? && v.text.Some? {
        assert (seen + [(v.text.value, v.origin)])[..|seen|] == seen;
      } else {
        assert seen + [] == seen;
      }
    }
  }

  lemma {:induction false} SumsKids(c: Classifier, vs: seq<Visit>, name: string)
    ensures Sums(At(FoldVisits(c, NEW_STATS, vs).kids, name), Collect(VisitKids(name), vs))
    decreases |vs|
  {
    if vs != [] {
      var init, v := vs[..|vs| - 1], vs[|vs| - 1];
      SumsKids(c, init, name);
      var counts := Collect(VisitKids(name), init);
      var p := FoldVisits(c, NEW_STATS, init);
      if v.Enter? || name !in v.counts {
        assert counts + [] == counts;
        assert At(Apply(c, p, v).kids, name) == At(p.kids, name);
      } else {
        KidGrows(At(p.kids, name), counts, v.counts[name]);
        assert At(Apply(c, p, v).kids, name) == Some(Grown(At(p.kids, name), v.counts[name]));
      }
    }
  }

  function Grown(kid: Option<Kid>, n: nat): Kid {
    if kid.None? then Kid(1, n, n) else Kid(kid.value.parents + 1, Min(kid.value.low, n), Max(kid.value.high, n))
  }

  lemma KidGrows(kid: Option<Kid>, counts: seq<nat>, n: nat)
    requires Sums(kid, counts)
    ensures Sums(Some(Grown(kid, n)), counts + [n])
  {
  }

  lemma {:induction false} EvidenceIsFirst(c: Classifier, vs: seq<Visit>)
    ensures IsFirst(FoldVisits(c, NEW_STATS, vs).evidence, Collect(VisitPlace, vs))
    decreases |vs|
  {
    if vs != [] {
      var init, v := vs[..|vs| - 1], vs[|vs| - 1];
      EvidenceIsFirst(c, init);
      var places := Collect(VisitPlace, init);
      if v.Enter? {
        EarlierIsFirst(FoldVisits(c, NEW_STATS, init).evidence, places, (v.source, v.rel));
      } else {
        assert places + [] == places;
      }
    }
  }

  lemma EarlierIsFirst(place: Option<(string, string)>, places: seq<(string, string)>, q: (string, string))
    requires IsFirst(place, places)
    ensures IsFirst(Earlier(place, Some(q)), places + [q])
  {
    var best := Earlier(place, Some(q)).value;
    PairBeforeIsTotal(q, q);
    forall r | r in places + [q] ensures !PairBefore(r, best) {
      if r != q && best == q && PairBefore(r, q) {
        PairBeforeIsTransitive(r, q, place.value);
      }
      if r == q && best != q {
        PairBeforeIsTotal(q, best);
      }
    }
  }

  lemma {:induction false} CountsSources(c: Classifier, vs: seq<Visit>, source: string)
    ensures Get(FoldVisits(c, NEW_STATS, vs).sources, source) == CountIf(FromSource(source), Collect(VisitPlace, vs))
    decreases |vs|
  {
    if vs != [] {
      var init, v := vs[..|vs| - 1], vs[|vs| - 1];
      CountsSources(c, init, source);
      var places := Collect(VisitPlace, init);
      if v.Enter? {
        assert (places + [(v.source, v.rel)])[..|places|] == places;
      } else {
        assert places + [] == places;
      }
    }
  }

  lemma {:induction false} CountsVersions(c: Classifier, vs: seq<Visit>, version: string)
    ensures Get(FoldVisits(c, NEW_STATS, vs).versions, version) == multiset(Collect(VisitVersion, vs))[version]
    decreases |vs|
  {
    if vs != [] {
      CountsVersions(c, vs[..|vs| - 1], version);
    }
  }

  // ---- the same, by elements ------------------------------------------------------------------------------

  function PlaceOf(e: Found): seq<(string, string)> { [(e.source, e.rel)] }

  function VersionIn(e: Found): seq<string> { [e.version] }

  function AttrOf(name: string): Found -> seq<(string, string)> {
    (e: Found) => if name in e.element.attrib then [(e.element.attrib[name], e.source)] else []
  }

  /** Only an element without children has text. */
  function TextOf(e: Found): seq<(string, string)> {
    if e.element.children == [] then [(e.element.text, e.source)] else []
  }

  function ChildCount(ts: seq<Tree>, name: string): nat {
    if ts == [] then 0 else (if ts[0].tag == name then 1 else 0) + ChildCount(ts[1..], name)
  }

  function KidsOf(name: string): Found -> seq<nat> {
    (e: Found) => if ChildCount(e.element.children, name) > 0 then [ChildCount(e.element.children, name)] else []
  }

  lemma {:induction false} TagsAreCounted(counts: Counter<string>, ts: seq<Tree>, name: string)
    ensures Get(CountTags(counts, ts), name) == Get(counts, name) + ChildCount(ts, name)
    ensures name in CountTags(counts, ts) <==> name in counts || ChildCount(ts, name) > 0
    decreases |ts|
  {
    if ts != [] {
      TagsAreCounted(Bump(counts, ts[0].tag), ts[1..], name);
    }
  }

  lemma LeavesHaveNoCounts(ts: seq<Tree>)
    ensures CountTags(map[], ts) == map[] <==> ts == []
  {
    if ts != [] {
      TagsAreCounted(map[], ts, ts[0].tag);
      assert ts[0].tag in CountTags(map[], ts);
    }
  }

  lemma AllRead(d: Document)
    ensures Reads(d, VisitPlace, PlaceOf) && Reads(d, VisitVersion, VersionIn) && Reads(d, VisitText, TextOf)
  {
    forall t ensures VisitText(EnterOf(d, t)) + VisitText(LeaveOf(d, t)) == TextOf(FoundAt(d, t)) {
      LeavesHaveNoCounts(t.children);
    }
  }

  lemma AttributesRead(d: Document, name: string)
    ensures Reads(d, VisitAttr(name), AttrOf(name))
  {
  }

  lemma KidsRead(d: Document, name: string)
    ensures Reads(d, VisitKids(name), KidsOf(name))
  {
    forall t ensures VisitKids(name)(EnterOf(d, t)) + VisitKids(name)(LeaveOf(d, t)) == KidsOf(name)(FoundAt(d, t)) {
      TagsAreCounted(map[], t.children, name);
    }
  }

  // ---- nothing depends on the order of the observations ---------------------------------------------------------

  lemma {:induction false} CountIfSplits<A>(p: A -> bool, a: seq<A>, b: seq<A>)
    ensures CountIf(p, a + b) == CountIf(p, a) + CountIf(p, b)
  {
    if b == [] {
      assert a + b == a;
    } else {
      assert (a + b)[..|a + b| - 1] == a + b[..|b| - 1];
      CountIfSplits(p, a, b[..|b| - 1]);
    }
  }

  lemma {:induction false} CountIfPermutes<A>(p: A -> bool, xs: seq<A>, ys: seq<A>)
    requires multiset(xs) == multiset(ys)
    ensures CountIf(p, xs) == CountIf(p, ys)
    decreases |xs|
  {
    if xs == [] {
      assert |multiset(ys)| == 0;
    } else {
      var init, x := xs[..|xs| - 1], xs[|xs| - 1];
      assert xs == init + [x];
      assert x in multiset(ys);
      var k :| 0 <= k < |ys| && ys[k] == x;
      var u, v := ys[..k], ys[k + 1..];
      assert ys == u + [x] + v;
      SameButOne(init, u, v, x);
      CountIfPermutes(p, init, u + v);
      CountIfMoves(p, u, x, v);
    }
  }

  lemma CountIfMoves<A>(p: A -> bool, u: seq<A>, x: A, v: seq<A>)
    ensures CountIf(p, u + [x] + v) == CountIf(p, u + v) + if p(x) then 1 else 0
  {
    CountIfSplits(p, u, v);
    CountIfSplits(p, u + [x], v);
    assert (u + [x])[..|u|] == u;
  }

  function OfKind(c: Classifier, kind: Kind): ((string, string)) -> bool {
    (o: (string, string)) => c.kind(o.0) == kind
  }

  /** A value position over everything met there: how many of each kind, open exactly past the
      cap, and else every distinct value with its occurrences by source. */
  ghost predicate ExactValues(c: Classifier, stats: Option<ValueStats>, seen: seq<(string, string)>) {
    if seen == [] then stats.None?
    else
      && stats.Some?
      && (forall kind :: Get(stats.value.kinds, kind) == CountIf(OfKind(c, kind), seen))
      && (stats.value.values.None? <==> |Collected(c, seen)| > VALUE_CAP)
      && (stats.value.values.Some? ==> ExactDomain(c, stats.value.values.value, seen))
  }

  lemma {:induction false} KindsAreCounted(c: Classifier, seen: seq<(string, string)>, kind: Kind)
    ensures Get(AddAll(c, NO_VALUES, seen).kinds, kind) == CountIf(OfKind(c, kind), seen)
  {
    if seen != [] {
      KindsAreCounted(c, seen[..|seen| - 1], kind);
    }
  }

  lemma {:induction false} OccurrencesByMultiset(seen: seq<(string, string)>, text: string, source: string)
    ensures Occurrences(seen, text, source) == multiset(seen)[(text, source)]
  {
    if seen != [] {
      OccurrencesByMultiset(seen[..|seen| - 1], text, source);
      assert seen == seen[..|seen| - 1] + [seen[|seen| - 1]];
    }
  }

  lemma SameMembers<A>(xs: seq<A>, ys: seq<A>)
    requires multiset(xs) == multiset(ys)
    ensures |xs| == |ys| && forall x :: x in xs <==> x in ys
  {
    assert |xs| == |multiset(xs)| == |multiset(ys)| == |ys|;
    forall x ensures x in xs <==> x in ys {
      assert x in xs <==> x in multiset(xs);
      assert x in ys <==> x in multiset(ys);
    }
  }

  lemma HoldingIsExact(
      c: Classifier, stats: Option<ValueStats>, seen: seq<(string, string)>, others: seq<(string, string)>)
    requires Holds(c, stats, seen) && multiset(seen) == multiset(others)
    ensures ExactValues(c, stats, others)
  {
    SameMembers(seen, others);
    if seen != [] {
      DomainIsExact(c, seen);
      assert Collected(c, seen) == Collected(c, others);
      forall kind ensures Get(stats.value.kinds, kind) == CountIf(OfKind(c, kind), others) {
        KindsAreCounted(c, seen, kind);
        CountIfPermutes(OfKind(c, kind), seen, others);
      }
      forall text, source ensures Occurrences(seen, text, source) == Occurrences(others, text, source) {
        OccurrencesByMultiset(seen, text, source);
        OccurrencesByMultiset(others, text, source);
      }
    }
  }

  // ---- documents ----------------------------------------------------------------------------------------------

  function Having(key: Path, fold: bool): Document -> bool {
    (d: Document) => ElementsOf(d, key, fold) != []
  }

  function HavingIn(key: Path, fold: bool, source: string): Document -> bool {
    (d: Document) => d.source == source && ElementsOf(d, key, fold) != []
  }

  lemma VisitedIffHaving(d: Document, key: Path, fold: bool)
    ensures VisitsAt(Records(d), key, fold) != [] <==> ElementsOf(d, key, fold) != []
  {
    var vs, es := VisitsAt(Records(d), key, fold), ElementsOf(d, key, fold);
    DocumentVisits(d, key, fold);
    PlacesAgree(d, key, fold);
    SameMembers(Collect(VisitPlace, vs), Collect(PlaceOf, es));
    OnePlaceEach(es);
    if vs != [] {
      SomePlace(vs);
    }
  }

  lemma PlacesAgree(d: Document, key: Path, fold: bool)
    ensures
      multiset(Collect(VisitPlace, VisitsAt(Records(d), key, fold))) ==
      multiset(Collect(PlaceOf, ElementsOf(d, key, fold)))
  {
    AllRead(d);
    VisitsReadElements(d, VisitPlace, PlaceOf, [], [], d.root, key, fold);
  }

  lemma SomePlace(vs: seq<Visit>)
    requires vs != [] && vs[0].Enter?
    ensures Collect(VisitPlace, vs) != []
  {
    assert vs == [vs[0]] + vs[1..];
    CollectOfAppend(VisitPlace, [vs[0]], vs[1..]);
    CollectOne(VisitPlace, vs[0]);
  }

  lemma {:induction false} OnePlaceEach(es: seq<Found>)
    ensures |Collect(PlaceOf, es)| == |es|
  {
    if es != [] {
      OnePlaceEach(es[..|es| - 1]);
    }
  }

  /** However often a document visits a key it counts there once. */
  lemma {:induction false} DocumentCountsOnce(c: Classifier, p: PathStats, vs: seq<Visit>, id: nat, source: string)
    requires OneDocument(vs, id) && p.doc != Some(id)
    requires forall v | v in vs && v.Enter? :: v.source == source
    ensures
      var q := FoldVisits(c, p, vs);
      if vs == [] then q == p
      else q.docs == p.docs + 1 && q.sourceDocs == Bump(p.sourceDocs, source) && q.doc == Some(id)
    decreases |vs|
  {
    if vs != [] {
      var init, v := vs[..|vs| - 1], vs[|vs| - 1];
      assert v in vs && forall u | u in init :: u in vs;
      assert init != [] ==> init[0] == vs[0];
      DocumentCountsOnce(c, p, init, id, source);
    }
  }

  lemma {:induction false} DocumentsAreCounted(
      c: Classifier, docs: seq<Document>, key: Path, fold: bool, source: string)
    requires Distinct(docs)
    ensures StatsAt(ScanAll(c, docs, fold), key).docs == CountIf(Having(key, fold), docs)
    ensures Get(StatsAt(ScanAll(c, docs, fold), key).sourceDocs, source) == CountIf(HavingIn(key, fold, source), docs)
  {
    if docs != [] {
      var init, d := docs[..|docs| - 1], docs[|docs| - 1];
      assert docs == init + [d];
      PrefixIsDistinct(init, [d]);
      DocumentsAreCounted(c, init, key, fold, source);
      OnlyScannedIsSeen(c, init, fold, d.id);
      OneMoreFrom(c, ScanAll(c, init, fold), d, key, fold, source);
      CountIfEnds(Having(key, fold), docs);
      CountIfEnds(HavingIn(key, fold, source), docs);
    }
  }

  lemma CountIfEnds<A>(p: A -> bool, xs: seq<A>)
    requires xs != []
    ensures CountIf(p, xs) == CountIf(p, xs[..|xs| - 1]) + if p(xs[|xs| - 1]) then 1 else 0
  {
  }

  lemma OneMoreFrom(c: Classifier, table: Table, d: Document, key: Path, fold: bool, source: string)
    requires Unseen(table, d.id)
    ensures
      var p, q := StatsAt(table, key), StatsAt(ApplyAll(c, table, Records(d), fold), key);
      && q.docs == p.docs + (if Having(key, fold)(d) then 1 else 0)
      && Get(q.sourceDocs, source) == Get(p.sourceDocs, source) + if HavingIn(key, fold, source)(d) then 1 else 0
  {
    OneMoreCounted(c, table, d, key, fold);
  }

  lemma OneMoreCounted(c: Classifier, table: Table, d: Document, key: Path, fold: bool)
    requires Unseen(table, d.id)
    ensures
      var p, q := StatsAt(table, key), StatsAt(ApplyAll(c, table, Records(d), fold), key);
      if Having(key, fold)(d) then q.docs == p.docs + 1 && q.sourceDocs == Bump(p.sourceDocs, d.source)
      else q.docs == p.docs && q.sourceDocs == p.sourceDocs
  {
    ApplyAllAt(c, table, Records(d), fold, key);
    DocumentVisits(d, key, fold);
    VisitsComeFrom(d, key, fold);
    DocumentCountsOnce(c, StatsAt(table, key), VisitsAt(Records(d), key, fold), d.id, d.source);
    VisitedIffHaving(d, key, fold);
  }

  lemma VisitsComeFrom(d: Document, key: Path, fold: bool)
    ensures forall v | v in VisitsAt(Records(d), key, fold) && v.Enter? :: v.source == d.source
  {
    RecordsOfDocument(d);
    VisitsAreRecords(Records(d), key, fold);
  }

  // ---- the tables are exact ---------------------------------------------------------------------------------------

  lemma {:induction false} ScanAllAt(c: Classifier, docs: seq<Document>, key: Path, fold: bool)
    ensures key in ScanAll(c, docs, fold) <==> VisitsOfAll(docs, key, fold) != []
    ensures StatsAt(ScanAll(c, docs, fold), key) == FoldVisits(c, NEW_STATS, VisitsOfAll(docs, key, fold))
    ensures key in ScanAll(c, docs, fold) <==> ElementsOfAll(docs, key, fold) != []
  {
    if docs != [] {
      var init, d := docs[..|docs| - 1], docs[|docs| - 1];
      ScanAllAt(c, init, key, fold);
      ApplyAllAt(c, ScanAll(c, init, fold), Records(d), fold, key);
      VisitedIffHaving(d, key, fold);
      FoldVisitsInTwo(c, NEW_STATS, VisitsOfAll(init, key, fold), VisitsAt(Records(d), key, fold));
    }
  }

  lemma {:induction false} FoldVisitsInTwo(c: Classifier, p: PathStats, a: seq<Visit>, b: seq<Visit>)
    ensures FoldVisits(c, p, a + b) == FoldVisits(c, FoldVisits(c, p, a), b)
    decreases |b|
  {
    if b == [] {
      assert a + b == a;
    } else {
      assert (a + b)[..|a + b| - 1] == a + b[..|b| - 1];
      FoldVisitsInTwo(c, p, a, b[..|b| - 1]);
    }
  }

  ghost predicate ExactCounts(p: PathStats, es: seq<Found>) {
    && p.occ == |es|
    && (forall source :: Get(p.sources, source) == CountIf(FromSource(source), Collect(PlaceOf, es)))
    && (forall version :: Get(p.versions, version) == multiset(Collect(VersionIn, es))[version])
    && IsFirst(p.evidence, Collect(PlaceOf, es))
  }

  ghost predicate ExactContents(c: Classifier, p: PathStats, es: seq<Found>) {
    && (forall name :: ExactValues(c, At(p.attrs, name), Collect(AttrOf(name), es)))
    && ExactValues(c, p.text, Collect(TextOf, es))
    && (forall name :: Sums(At(p.kids, name), Collect(KidsOf(name), es)))
  }

  ghost predicate ExactDocuments(p: PathStats, docs: seq<Document>, key: Path, fold: bool) {
    && p.docs == CountIf(Having(key, fold), docs)
    && forall source :: Get(p.sourceDocs, source) == CountIf(HavingIn(key, fold, source), docs)
  }

  lemma CountsAreExact(c: Classifier, docs: seq<Document>, key: Path, fold: bool)
    ensures ExactCounts(StatsAt(ScanAll(c, docs, fold), key), ElementsOfAll(docs, key, fold))
  {
    var vs, es := VisitsOfAll(docs, key, fold), ElementsOfAll(docs, key, fold);
    var p := FoldVisits(c, NEW_STATS, vs);
    ScanAllAt(c, docs, key, fold);
    forall d ensures Reads(d, VisitPlace, PlaceOf) && Reads(d, VisitVersion, VersionIn) {
      AllRead(d);
    }
    AllVisitsReadElements(docs, VisitPlace, PlaceOf, key, fold);
    AllVisitsReadElements(docs, VisitVersion, VersionIn, key, fold);
    SameMembers(Collect(VisitPlace, vs), Collect(PlaceOf, es));
    OccursAsOften(c, vs);
    OnePlaceEach(es);
    EvidenceIsFirst(c, vs);
    forall source ensures Get(p.sources, source) == CountIf(FromSource(source), Collect(PlaceOf, es)) {
      CountsSources(c, vs, source);
      CountIfPermutes(FromSource(source), Collect(VisitPlace, vs), Collect(PlaceOf, es));
    }
    forall version ensures Get(p.versions, version) == multiset(Collect(VersionIn, es))[version] {
      CountsVersions(c, vs, version);
    }
  }

  lemma AttributesAreExact(c: Classifier, docs: seq<Document>, key: Path, fold: bool, name: string)
    ensures
      ExactValues(
        c, At(StatsAt(ScanAll(c, docs, fold), key).attrs, name),
        Collect(AttrOf(name), ElementsOfAll(docs, key, fold)))
  {
    var vs, es := VisitsOfAll(docs, key, fold), ElementsOfAll(docs, key, fold);
    ScanAllAt(c, docs, key, fold);
    forall d ensures Reads(d, VisitAttr(name), AttrOf(name)) {
      AttributesRead(d, name);
    }
    AllVisitsReadElements(docs, VisitAttr(name), AttrOf(name), key, fold);
    HoldsAttributes(c, vs, name);
    HoldingIsExact(
      c, At(FoldVisits(c, NEW_STATS, vs).attrs, name), Collect(VisitAttr(name), vs), Collect(AttrOf(name), es));
  }

  lemma TextIsExact(c: Classifier, docs: seq<Document>, key: Path, fold: bool)
    ensures ExactValues(c, StatsAt(ScanAll(c, docs, fold), key).text, Collect(TextOf, ElementsOfAll(docs, key, fold)))
  {
    var vs, es := VisitsOfAll(docs, key, fold), ElementsOfAll(docs, key, fold);
    ScanAllAt(c, docs, key, fold);
    forall d ensures Reads(d, VisitText, TextOf) {
      AllRead(d);
    }
    AllVisitsReadElements(docs, VisitText, TextOf, key, fold);
    HoldsText(c, vs);
    HoldingIsExact(c, FoldVisits(c, NEW_STATS, vs).text, Collect(VisitText, vs), Collect(TextOf, es));
  }

  lemma KidsAreExact(c: Classifier, docs: seq<Document>, key: Path, fold: bool, name: string)
    ensures
      Sums(
        At(StatsAt(ScanAll(c, docs, fold), key).kids, name),
        Collect(KidsOf(name), ElementsOfAll(docs, key, fold)))
  {
    var vs, es := VisitsOfAll(docs, key, fold), ElementsOfAll(docs, key, fold);
    ScanAllAt(c, docs, key, fold);
    forall d ensures Reads(d, VisitKids(name), KidsOf(name)) {
      KidsRead(d, name);
    }
    AllVisitsReadElements(docs, VisitKids(name), KidsOf(name), key, fold);
    SumsKids(c, vs, name);
    SameMembers(Collect(VisitKids(name), vs), Collect(KidsOf(name), es));
  }

  lemma ContentsAreExact(c: Classifier, docs: seq<Document>, key: Path, fold: bool)
    ensures ExactContents(c, StatsAt(ScanAll(c, docs, fold), key), ElementsOfAll(docs, key, fold))
  {
    var p, es := StatsAt(ScanAll(c, docs, fold), key), ElementsOfAll(docs, key, fold);
    TextIsExact(c, docs, key, fold);
    forall name ensures ExactValues(c, At(p.attrs, name), Collect(AttrOf(name), es)) {
      AttributesAreExact(c, docs, key, fold, name);
    }
    forall name ensures Sums(At(p.kids, name), Collect(KidsOf(name), es)) {
      KidsAreExact(c, docs, key, fold, name);
    }
  }

  /** One pass, and with it any partition of the documents, holds for every key exactly what a
      reader of the trees would write down. */
  lemma TablesAreExact(c: Classifier, docs: seq<Document>, key: Path, fold: bool)
    requires Distinct(docs)
    ensures key in Part(c, docs, fold) <==> ElementsOfAll(docs, key, fold) != []
    ensures
      key in Part(c, docs, fold) ==>
      var p, es := Part(c, docs, fold)[key], ElementsOfAll(docs, key, fold);
      ExactCounts(p, es) && ExactContents(c, p, es) && ExactDocuments(p, docs, key, fold)
  {
    ScanAllAt(c, docs, key, fold);
    var p, es := StatsAt(ScanAll(c, docs, fold), key), ElementsOfAll(docs, key, fold);
    CountsAreExact(c, docs, key, fold);
    ContentsAreExact(c, docs, key, fold);
    forall source ensures Get(p.sourceDocs, source) == CountIf(HavingIn(key, fold, source), docs) {
      DocumentsAreCounted(c, docs, key, fold, source);
    }
    DocumentsAreCounted(c, docs, key, fold, "");
  }
}
