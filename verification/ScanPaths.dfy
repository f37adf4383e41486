/** Statistics of one element path: what a visit adds, how two of them merge, and that both are
    one commutative operation apart from the counting of documents. */
module ScanPaths {
  import opened Common
  import opened Order
  import opened ScanStats

  // ---- merging tables of mergeable things --------------------------------------------------------

  function MergeMaps<K, V>(f: (V, V) -> V, a: map<K, V>, b: map<K, V>): map<K, V> {
    map k | k in a.Keys + b.Keys ::
      if k in a && k in b then f(a[k], b[k]) else if k in a then a[k] else b[k]
  }

  function MergeOptions<V>(f: (V, V) -> V, a: Option<V>, b: Option<V>): Option<V> {
    if a.Some? && b.Some? then Some(f(a.value, b.value)) else if a.Some? then a else b
  }

  ghost predicate Commutes<V(!new)>(f: (V, V) -> V) {
    forall x, y :: f(x, y) == f(y, x)
  }

  ghost predicate Associates<V(!new)>(f: (V, V) -> V) {
    forall x, y, z :: f(f(x, y), z) == f(x, f(y, z))
  }

  lemma MergeMapsCommutes<K, V(!new)>(f: (V, V) -> V, a: map<K, V>, b: map<K, V>)
    requires Commutes(f)
    ensures MergeMaps(f, a, b) == MergeMaps(f, b, a)
  {
  }

  lemma MergeMapsAt<K, V>(f: (V, V) -> V, a: map<K, V>, b: map<K, V>, k: K)
    ensures At(MergeMaps(f, a, b), k) == MergeOptions(f, At(a, k), At(b, k))
  {
  }

  function At<K, V>(m: map<K, V>, k: K): Option<V> {
    if k in m then Some(m[k]) else None
  }

  lemma SameMap<K, V>(a: map<K, V>, b: map<K, V>)
    requires forall k :: At(a, k) == At(b, k)
    ensures a == b
  {
    forall k ensures k in a <==> k in b {
      assert At(a, k) == At(b, k);
    }
    forall k | k in a ensures a[k] == b[k] {
      assert At(a, k) == At(b, k);
    }
  }

  lemma MergeMapsAssociates<K, V(!new)>(f: (V, V) -> V, a: map<K, V>, b: map<K, V>, c: map<K, V>)
    requires Associates(f)
    ensures MergeMaps(f, MergeMaps(f, a, b), c) == MergeMaps(f, a, MergeMaps(f, b, c))
  {
    var l, r := MergeMaps(f, MergeMaps(f, a, b), c), MergeMaps(f, a, MergeMaps(f, b, c));
    forall k ensures At(l, k) == At(r, k) {
      MergeMapsAt(f, a, b, k);
      MergeMapsAt(f, b, c, k);
      MergeMapsAt(f, MergeMaps(f, a, b), c, k);
      MergeMapsAt(f, a, MergeMaps(f, b, c), k);
    }
    SameMap(l, r);
  }

  // ---- one path -------------------------------------------------------------------------------------

  /** Of a child name: the parents that have it, and the fewest and most of it under one of them. */
  datatype Kid = Kid(parents: nat, low: nat, high: nat)

  /** `doc` is the last document that entered the path. */
  datatype PathStats = PathStats(
    occ: nat,
    docs: nat,
    sources: Counter<string>,
    sourceDocs: Counter<string>,
    versions: Counter<string>,
    attrs: map<string, ValueStats>,
    kids: map<string, Kid>,
    text: Option<ValueStats>,
    evidence: Option<(string, string)>,
    doc: Option<nat>)

  const NEW_STATS := PathStats(0, 0, map[], map[], map[], map[], map[], None, None, None)

  datatype Visit =
    | Enter(doc: nat, source: string, rel: string, version: string, attrib: map<string, string>)
    | Leave(counts: Counter<string>, text: Option<string>, origin: string)

  function Min(a: nat, b: nat): nat { if a <= b then a else b }

  function Max(a: nat, b: nat): nat { if a <= b then b else a }

  function StatsOf(attrs: map<string, ValueStats>, name: string): ValueStats {
    if name in attrs then attrs[name] else NO_VALUES
  }

  function AddAttributes(
    c: Classifier, attrs: map<string, ValueStats>, attrib: map<string, string>, source: string): map<string, ValueStats>
  {
    map name | name in attrs.Keys + attrib.Keys ::
      if name in attrib then Add(c, StatsOf(attrs, name), attrib[name], source) else attrs[name]
  }

  function CountKids(kids: map<string, Kid>, counts: Counter<string>): map<string, Kid> {
    map name | name in kids.Keys + counts.Keys ::
      if name !in counts then kids[name]
      else if name !in kids then Kid(1, counts[name], counts[name])
      else Kid(kids[name].parents + 1, Min(kids[name].low, counts[name]), Max(kids[name].high, counts[name]))
  }

  function Earlier(known: Option<(string, string)>, seen: Option<(string, string)>): Option<(string, string)> {
    if seen.Some? && (known.None? || PairBefore(seen.value, known.value)) then seen else known
  }

  function EnterPath(c: Classifier, p: PathStats, e: Visit): PathStats
    requires e.Enter?
  {
    var first := p.doc != Some(e.doc);
    p.(occ := p.occ + 1,
       sources := Bump(p.sources, e.source),
       versions := Bump(p.versions, e.version),
       doc := Some(e.doc),
       docs := if first then p.docs + 1 else p.docs,
       sourceDocs := if first then Bump(p.sourceDocs, e.source) else p.sourceDocs,
       evidence := Earlier(p.evidence, Some((e.source, e.rel))),
       attrs := AddAttributes(c, p.attrs, e.attrib, e.source))
  }

  function LeavePath(c: Classifier, p: PathStats, l: Visit): PathStats
    requires l.Leave?
  {
    p.(kids := CountKids(p.kids, l.counts),
       text := if l.text.None? then p.text
               else Some(Add(c, if p.text.Some? then p.text.value else NO_VALUES, l.text.value, l.origin)))
  }

  function Apply(c: Classifier, p: PathStats, v: Visit): PathStats {
    if v.Enter? then EnterPath(c, p, v) else LeavePath(c, p, v)
  }

  function MergeKid(a: Kid, b: Kid): Kid {
    Kid(a.parents + b.parents, Min(a.low, b.low), Max(a.high, b.high))
  }

  /** Names missing on one side merge with no values at all, which changes nothing. */
  function MergeAttributes(a: map<string, ValueStats>, b: map<string, ValueStats>): map<string, ValueStats> {
    map name | name in a.Keys + b.Keys :: if name in b then MergeValues(StatsOf(a, name), b[name]) else a[name]
  }

  function MergeText(a: Option<ValueStats>, b: Option<ValueStats>): Option<ValueStats> {
    if b.None? then a else Some(MergeValues(if a.Some? then a.value else NO_VALUES, b.value))
  }

  function MergePath(a: PathStats, b: PathStats): PathStats {
    PathStats(
      a.occ + b.occ,
      a.docs + b.docs,
      Sum(a.sources, b.sources),
      Sum(a.sourceDocs, b.sourceDocs),
      Sum(a.versions, b.versions),
      MergeAttributes(a.attrs, b.attrs),
      MergeMaps(MergeKid, a.kids, b.kids),
      MergeText(a.text, b.text),
      Earlier(a.evidence, b.evidence),
      a.doc)
  }

  /** Without the memory of the last document. */
  function Settled(p: PathStats): PathStats {
    p.(doc := None)
  }

  /** Without anything that counts documents. */
  function Uncounted(p: PathStats): PathStats {
    p.(docs := 0, sourceDocs := map[], doc := None)
  }

  // ---- the algebra ------------------------------------------------------------------------------------

  lemma ValuesMonoid()
    ensures Commutes(MergeValues) && Associates(MergeValues)
  {
    forall x, y ensures MergeValues(x, y) == MergeValues(y, x) {
      MergeValuesIsCommutative(x, y);
    }
    forall x, y, z ensures MergeValues(MergeValues(x, y), z) == MergeValues(x, MergeValues(y, z)) {
      MergeValuesIsAssociative(x, y, z);
    }
  }

  lemma KidMonoid()
    ensures Commutes(MergeKid) && Associates(MergeKid)
  {
  }

  lemma AttributesAreAMap(a: map<string, ValueStats>, b: map<string, ValueStats>)
    ensures MergeAttributes(a, b) == MergeMaps(MergeValues, a, b)
  {
    forall name | name in a.Keys + b.Keys
      ensures MergeAttributes(a, b)[name] == MergeMaps(MergeValues, a, b)[name]
    {
      if name !in a {
        NoValuesIsNeutral(b[name]);
      }
    }
  }

  lemma TextIsAnOption(a: Option<ValueStats>, b: Option<ValueStats>)
    ensures MergeText(a, b) == MergeOptions(MergeValues, a, b)
  {
    if a.None? && b.Some? {
      NoValuesIsNeutral(b.value);
    }
  }

  lemma EarlierCommutes(a: Option<(string, string)>, b: Option<(string, string)>)
    ensures Earlier(a, b) == Earlier(b, a)
  {
    if a.Some? && b.Some? {
      PairBeforeIsTotal(a.value, b.value);
    }
  }

  lemma EarlierAssociates(a: Option<(string, string)>, b: Option<(string, string)>, c: Option<(string, string)>)
    ensures Earlier(Earlier(a, b), c) == Earlier(a, Earlier(b, c))
  {
    if a.Some? && b.Some? && c.Some? {
      PairBeforeIsTotal(a.value, b.value);
      PairBeforeIsTotal(b.value, c.value);
      PairBeforeIsTotal(a.value, c.value);
      if PairBefore(c.value, b.value) && PairBefore(b.value, a.value) {
        PairBeforeIsTransitive(c.value, b.value, a.value);
      }
      if PairBefore(a.value, b.value) && PairBefore(b.value, c.value) {
        PairBeforeIsTransitive(a.value, b.value, c.value);
      }
    }
  }

  /** The order of two merged statistics does not show. */
  lemma MergePathIsCommutative(a: PathStats, b: PathStats)
    ensures Settled(MergePath(a, b)) == Settled(MergePath(b, a))
  {
    ValuesMonoid();
    KidMonoid();
    SumIsCommutative(a.sources, b.sources);
    SumIsCommutative(a.sourceDocs, b.sourceDocs);
    SumIsCommutative(a.versions, b.versions);
    AttributesAreAMap(a.attrs, b.attrs);
    AttributesAreAMap(b.attrs, a.attrs);
    MergeMapsCommutes(MergeValues, a.attrs, b.attrs);
    MergeMapsCommutes(MergeKid, a.kids, b.kids);
    TextIsAnOption(a.text, b.text);
    TextIsAnOption(b.text, a.text);
    EarlierCommutes(a.evidence, b.evidence);
  }

  lemma AttributesAssociate(a: map<string, ValueStats>, b: map<string, ValueStats>, c: map<string, ValueStats>)
    ensures MergeAttributes(MergeAttributes(a, b), c) == MergeAttributes(a, MergeAttributes(b, c))
  {
    ValuesMonoid();
    AttributesAreAMap(a, b);
    AttributesAreAMap(b, c);
    AttributesAreAMap(MergeAttributes(a, b), c);
    AttributesAreAMap(a, MergeAttributes(b, c));
    MergeMapsAssociates(MergeValues, a, b, c);
  }

  lemma TextAssociates(a: Option<ValueStats>, b: Option<ValueStats>, c: Option<ValueStats>)
    ensures MergeText(MergeText(a, b), c) == MergeText(a, MergeText(b, c))
  {
    ValuesMonoid();
    TextIsAnOption(a, b);
    TextIsAnOption(b, c);
    TextIsAnOption(MergeText(a, b), c);
    TextIsAnOption(a, MergeText(b, c));
  }

  /** Neither does the grouping. */
  lemma MergePathIsAssociative(a: PathStats, b: PathStats, c: PathStats)
    ensures MergePath(MergePath(a, b), c) == MergePath(a, MergePath(b, c))
  {
    KidMonoid();
    SumIsAssociative(a.sources, b.sources, c.sources);
    SumIsAssociative(a.sourceDocs, b.sourceDocs, c.sourceDocs);
    SumIsAssociative(a.versions, b.versions, c.versions);
    AttributesAssociate(a.attrs, b.attrs, c.attrs);
    MergeMapsAssociates(MergeKid, a.kids, b.kids, c.kids);
    TextAssociates(a.text, b.text, c.text);
    EarlierAssociates(a.evidence, b.evidence, c.evidence);
  }

  // ---- a visit is a merge ---------------------------------------------------------------------------------

  function Single(c: Classifier, v: Visit): PathStats {
    Apply(c, NEW_STATS, v)
  }

  lemma AddIsMerge(c: Classifier, v: ValueStats, text: string, source: string)
    ensures Add(c, v, text, source) == MergeValues(v, Add(c, NO_VALUES, text, source))
  {
    NoValuesIsNeutral(v);
    AddToMerge(c, v, NO_VALUES, text, source);
  }

  lemma AttributeIsMerged(
    c: Classifier, attrs: map<string, ValueStats>, attrib: map<string, string>, source: string, name: string)
    ensures
      At(AddAttributes(c, attrs, attrib, source), name) ==
      At(MergeAttributes(attrs, AddAttributes(c, map[], attrib, source)), name)
  {
    if name in attrib {
      AddIsMerge(c, StatsOf(attrs, name), attrib[name], source);
      assert StatsOf(map[], name) == NO_VALUES;
    }
  }

  lemma AttributesAreMerged(c: Classifier, attrs: map<string, ValueStats>, attrib: map<string, string>, source: string)
    ensures AddAttributes(c, attrs, attrib, source) == MergeAttributes(attrs, AddAttributes(c, map[], attrib, source))
  {
    var l := AddAttributes(c, attrs, attrib, source);
    var r := MergeAttributes(attrs, AddAttributes(c, map[], attrib, source));
    forall name ensures At(l, name) == At(r, name) {
      AttributeIsMerged(c, attrs, attrib, source, name);
    }
    SameMap(l, r);
  }

  lemma NothingMerges<K, V>(f: (V, V) -> V, a: map<K, V>)
    ensures MergeMaps(f, a, map[]) == a
  {
  }

  lemma NoAttributesMerge(a: map<string, ValueStats>)
    ensures MergeAttributes(a, map[]) == a
  {
  }

  lemma KidsAreMerged(kids: map<string, Kid>, counts: Counter<string>)
    ensures CountKids(kids, counts) == MergeMaps(MergeKid, kids, CountKids(map[], counts))
  {
  }

  lemma BumpIsSum<K>(c: Counter<K>, k: K)
    ensures Bump(c, k) == Sum(c, Bump(map[], k))
  {
  }

  lemma EnterIsMerged(c: Classifier, p: PathStats, v: Visit)
    requires v.Enter?
    ensures
      var s := Single(c, v);
      && Bump(p.sources, v.source) == Sum(p.sources, s.sources)
      && Bump(p.versions, v.version) == Sum(p.versions, s.versions)
      && Bump(p.sourceDocs, v.source) == Sum(p.sourceDocs, s.sourceDocs)
      && AddAttributes(c, p.attrs, v.attrib, v.source) == MergeAttributes(p.attrs, s.attrs)
      && MergeMaps(MergeKid, p.kids, s.kids) == p.kids
      && MergeText(p.text, s.text) == p.text
      && Earlier(p.evidence, Some((v.source, v.rel))) == Earlier(p.evidence, s.evidence)
  {
    BumpIsSum(p.sources, v.source);
    BumpIsSum(p.versions, v.version);
    BumpIsSum(p.sourceDocs, v.source);
    AttributesAreMerged(c, p.attrs, v.attrib, v.source);
    NothingMerges(MergeKid, p.kids);
  }

  lemma LeaveIsMerged(c: Classifier, p: PathStats, v: Visit)
    requires v.Leave?
    ensures
      var s := Single(c, v);
      && Sum(p.sources, s.sources) == p.sources
      && Sum(p.versions, s.versions) == p.versions
      && Sum(p.sourceDocs, s.sourceDocs) == p.sourceDocs
      && MergeAttributes(p.attrs, s.attrs) == p.attrs
      && CountKids(p.kids, v.counts) == MergeMaps(MergeKid, p.kids, s.kids)
      && LeavePath(c, p, v).text == MergeText(p.text, s.text)
      && Earlier(p.evidence, s.evidence) == p.evidence
  {
    NothingAdds(p.sources);
    NothingAdds(p.versions);
    NothingAdds(p.sourceDocs);
    NoAttributesMerge(p.attrs);
    KidsAreMerged(p.kids, v.counts);
    if v.text.Some? {
      AddIsMerge(c, if p.text.Some? then p.text.value else NO_VALUES, v.text.value, v.origin);
    }
  }

  /** A visit of a document already counted here merges everything it has to say but the document. */
  lemma ContinuingVisit(c: Classifier, p: PathStats, v: Visit)
    requires v.Enter? ==> p.doc == Some(v.doc)
    ensures Settled(Apply(c, p, v)) == Settled(MergePath(p, Uncounted(Single(c, v))))
  {
    NothingAdds(p.sourceDocs);
    if v.Enter? {
      EnterIsMerged(c, p, v);
    } else {
      LeaveIsMerged(c, p, v);
    }
  }

  /** The first visit of a document merges with the document. */
  lemma FirstVisit(c: Classifier, p: PathStats, v: Visit)
    requires v.Enter? && p.doc != Some(v.doc)
    ensures Settled(Apply(c, p, v)) == Settled(MergePath(p, Single(c, v)))
  {
    EnterIsMerged(c, p, v);
  }

  /** Apart from documents, every visit is a merge with what it alone would leave. */
  lemma VisitIsMerge(c: Classifier, p: PathStats, v: Visit)
    ensures Uncounted(Apply(c, p, v)) == MergePath(Uncounted(p), Uncounted(Single(c, v)))
  {
    NothingAdds<string>(map[]);
    if v.Enter? && p.doc != Some(v.doc) {
      FirstVisit(c, p, v);
    } else {
      ContinuingVisit(c, p, v);
    }
  }
}
