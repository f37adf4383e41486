/** The mergeable statistics of the structure scanner, and their algebra.

    Values and names are strings; what kind a value is of and whether it is collected at all
    is given by a classifier, since nothing below depends on it. */
module ScanStats {
  import opened Common
  import opened Order

  datatype Kind = Empty | Bool | Int | Decimal | Uuid | Token | Other

  datatype Classifier = Classifier(kind: string -> Kind, collectable: string -> bool)

  // ---- counters ------------------------------------------------------------------------------

  type Counter<!K> = map<K, nat>

  function Get<K>(c: Counter<K>, k: K): nat {
    if k in c then c[k] else 0
  }

  function Bump<K>(c: Counter<K>, k: K): Counter<K> {
    c[k := Get(c, k) + 1]
  }

  function Sum<K>(a: Counter<K>, b: Counter<K>): Counter<K> {
    map k | k in a.Keys + b.Keys :: Get(a, k) + Get(b, k)
  }

  // ---- values of one position -------------------------------------------------------------------

  /** How many different values are remembered before a domain is given up as open. */
  const VALUE_CAP: nat := 64

  type Domain = map<string, Counter<string>>

  function Cap(d: Domain): (o: Option<Domain>) {
    if |d| > VALUE_CAP then None else Some(d)
  }

  datatype Values = Values(kinds: Counter<Kind>, values: Option<Domain>)

  /** A domain that is still collected is within the cap. */
  type ValueStats = v: Values | v.values.Some? ==> |v.values.value| <= VALUE_CAP
    witness Values(map[], Some(map[]))

  const NO_VALUES: ValueStats := Values(map[], Some(map[]))

  function SourcesOf(d: Domain, text: string): Counter<string> {
    if text in d then d[text] else map[]
  }

  function Add(c: Classifier, v: ValueStats, text: string, source: string): ValueStats {
    var kinds := Bump(v.kinds, c.kind(text));
    if v.values.None? || !c.collectable(text) then Values(kinds, v.values)
    else Values(kinds, Cap(AddTo(v.values.value, text, source)))
  }

  function Union(a: Domain, b: Domain): Domain {
    map text | text in a.Keys + b.Keys :: Sum(SourcesOf(a, text), SourcesOf(b, text))
  }

  function MergeValues(a: ValueStats, b: ValueStats): ValueStats {
    Values(Sum(a.kinds, b.kinds),
           if a.values.None? || b.values.None? then None else Cap(Union(a.values.value, b.values.value)))
  }

  lemma SizeOfSubset(a: set<string>, b: set<string>)
    requires a <= b
    ensures |a| <= |b|
  {
    if a != b {
      var x :| x in b && x !in a;
      if a != {} {
        SizeOfSubset(a, b - {x});
      }
    }
  }

  lemma UnionKeys(a: Domain, b: Domain)
    ensures Union(a, b).Keys == a.Keys + b.Keys
    ensures |a| <= |Union(a, b)| && |b| <= |Union(a, b)|
  {
    SizeOfSubset(a.Keys, Union(a, b).Keys);
    SizeOfSubset(b.Keys, Union(a, b).Keys);
    assert |a.Keys| == |a| && |b.Keys| == |b| && |Union(a, b).Keys| == |Union(a, b)|;
  }

  lemma SumIsCommutative<K>(a: Counter<K>, b: Counter<K>)
    ensures Sum(a, b) == Sum(b, a)
  {
  }

  lemma SumIsAssociative<K>(a: Counter<K>, b: Counter<K>, c: Counter<K>)
    ensures Sum(Sum(a, b), c) == Sum(a, Sum(b, c))
  {
    var l, r := Sum(Sum(a, b), c), Sum(a, Sum(b, c));
    forall k | k in l ensures k in r && l[k] == r[k] {
    }
    assert forall k | k in r :: k in l;
  }

  lemma UnionIsCommutative(a: Domain, b: Domain)
    ensures Union(a, b) == Union(b, a)
  {
    forall text | text in Union(a, b) ensures Union(a, b)[text] == Union(b, a)[text] {
      SumIsCommutative(SourcesOf(a, text), SourcesOf(b, text));
    }
  }

  lemma SourcesOfUnion(a: Domain, b: Domain, text: string)
    ensures SourcesOf(Union(a, b), text) == Sum(SourcesOf(a, text), SourcesOf(b, text))
  {
    if text !in Union(a, b) {
      assert Sum<string>(map[], map[]) == map[];
    }
  }

  lemma SameDomain(a: Domain, b: Domain)
    requires a.Keys == b.Keys && forall text | text in a :: a[text] == b[text]
    ensures a == b
  {
  }

  lemma UnionIsAssociative(a: Domain, b: Domain, c: Domain)
    ensures Union(Union(a, b), c) == Union(a, Union(b, c))
  {
    var l, r := Union(Union(a, b), c), Union(a, Union(b, c));
    assert l.Keys == r.Keys by {
      assert (a.Keys + b.Keys) + c.Keys == a.Keys + (b.Keys + c.Keys);
    }
    forall text | text in l ensures l[text] == r[text] {
      UnionAssociativeAt(a, b, c, text);
    }
    SameDomain(l, r);
  }

  lemma UnionAssociativeAt(a: Domain, b: Domain, c: Domain, text: string)
    requires text in Union(Union(a, b), c)
    ensures text in Union(a, Union(b, c))
    ensures Union(Union(a, b), c)[text] == Union(a, Union(b, c))[text]
  {
    SourcesOfUnion(a, b, text);
    SourcesOfUnion(b, c, text);
    SumIsAssociative(SourcesOf(a, text), SourcesOf(b, text), SourcesOf(c, text));
  }

  lemma MergeValuesIsCommutative(a: ValueStats, b: ValueStats)
    ensures MergeValues(a, b) == MergeValues(b, a)
  {
    SumIsCommutative(a.kinds, b.kinds);
    if a.values.Some? && b.values.Some? {
      UnionIsCommutative(a.values.value, b.values.value);
    }
  }

  /** The cap forgets values, and still the order of merging does not show: a domain opened early
      would have been opened late. */
  lemma MergeValuesIsAssociative(a: ValueStats, b: ValueStats, c: ValueStats)
    ensures MergeValues(MergeValues(a, b), c) == MergeValues(a, MergeValues(b, c))
  {
    SumIsAssociative(a.kinds, b.kinds, c.kinds);
    if a.values.Some? && b.values.Some? && c.values.Some? {
      CapAssociates(a.values.value, b.values.value, c.values.value);
    }
  }

  lemma CapAssociates(x: Domain, y: Domain, z: Domain)
    ensures
      (if Cap(Union(x, y)).None? then None else Cap(Union(Cap(Union(x, y)).value, z))) ==
      (if Cap(Union(y, z)).None? then None else Cap(Union(x, Cap(Union(y, z)).value)))
  {
    UnionIsAssociative(x, y, z);
    UnionKeys(Union(x, y), z);
    UnionKeys(x, Union(y, z));
  }

  lemma NothingAdds<K>(a: Counter<K>)
    ensures Sum(a, map[]) == a
  {
  }

  lemma NoValuesIsNeutral(a: ValueStats)
    ensures MergeValues(a, NO_VALUES) == a && MergeValues(NO_VALUES, a) == a
  {
    MergeValuesIsCommutative(a, NO_VALUES);
    NothingAdds(a.kinds);
    if a.values.Some? {
      NothingUnites(a.values.value);
    }
  }

  lemma NothingUnites(d: Domain)
    ensures Union(d, map[]) == d
  {
    forall text | text in d ensures Union(d, map[])[text] == d[text] {
      NothingAdds(d[text]);
    }
    SameDomain(Union(d, map[]), d);
  }

  lemma BumpOfSum<K>(a: Counter<K>, b: Counter<K>, k: K)
    ensures Bump(Sum(a, b), k) == Sum(a, Bump(b, k))
  {
  }

  function AddTo(d: Domain, text: string, source: string): Domain {
    d[text := Bump(SourcesOf(d, text), source)]
  }

  lemma AddToUnion(a: Domain, b: Domain, text: string, source: string)
    ensures AddTo(Union(a, b), text, source) == Union(a, AddTo(b, text, source))
  {
    var l, r := AddTo(Union(a, b), text, source), Union(a, AddTo(b, text, source));
    assert l.Keys == r.Keys;
    forall t | t in l ensures l[t] == r[t] {
      SourcesOfUnion(a, b, t);
      BumpOfSum(SourcesOf(a, text), SourcesOf(b, text), source);
    }
    SameDomain(l, r);
  }

  lemma AddingGrows(d: Domain, text: string, source: string)
    ensures |d| <= |AddTo(d, text, source)|
  {
    SizeOfSubset(d.Keys, AddTo(d, text, source).Keys);
    assert |d.Keys| == |d| && |AddTo(d, text, source).Keys| == |AddTo(d, text, source)|;
  }

  /** Adding a value to a merge is adding it to one side, cap and all. */
  lemma AddToMerge(c: Classifier, a: ValueStats, b: ValueStats, text: string, source: string)
    ensures Add(c, MergeValues(a, b), text, source) == MergeValues(a, Add(c, b, text, source))
  {
    BumpOfSum(a.kinds, b.kinds, c.kind(text));
    if a.values.Some? && b.values.Some? && c.collectable(text) {
      AddToMergedDomain(a.values.value, b.values.value, text, source);
    }
  }

  lemma AddToMergedDomain(x: Domain, y: Domain, text: string, source: string)
    ensures
      (if Cap(Union(x, y)).None? then None else Cap(AddTo(Cap(Union(x, y)).value, text, source))) ==
      (if Cap(AddTo(y, text, source)).None? then None else Cap(Union(x, Cap(AddTo(y, text, source)).value)))
  {
    var y' := AddTo(y, text, source);
    AddToUnion(x, y, text, source);
    AddingGrows(Union(x, y), text, source);
    UnionKeys(x, y');
  }

  // ---- what a sequence of observations leaves ---------------------------------------------------

  function AddAll(c: Classifier, v: ValueStats, seen: seq<(string, string)>): ValueStats {
    if seen == [] then v
    else
      var (text, source) := seen[|seen| - 1];
      Add(c, AddAll(c, v, seen[..|seen| - 1]), text, source)
  }

  /** The distinct values the classifier lets through. */
  function Collected(c: Classifier, seen: seq<(string, string)>): set<string> {
    set o | o in seen && c.collectable(o.0) :: o.0
  }

  function Occurrences(seen: seq<(string, string)>, text: string, source: string): nat {
    if seen == [] then 0
    else Occurrences(seen[..|seen| - 1], text, source) + (if seen[|seen| - 1] == (text, source) then 1 else 0)
  }

  /** The table holds exactly what was seen. */
  ghost predicate ExactDomain(c: Classifier, d: Domain, seen: seq<(string, string)>) {
    && d.Keys == Collected(c, seen)
    && forall text, source | text in d :: Get(d[text], source) == Occurrences(seen, text, source)
  }

  lemma OneMoreSeen(c: Classifier, d: Domain, init: seq<(string, string)>, last: (string, string))
    requires ExactDomain(c, d, init)
    ensures ExactDomain(c, if c.collectable(last.0) then AddTo(d, last.0, last.1) else d, init + [last])
  {
    var seen := init + [last];
    var d' := if c.collectable(last.0) then AddTo(d, last.0, last.1) else d;
    CollectedOfAppend(c, init, last);
    forall text, source | text in d'
      ensures Get(d'[text], source) == Occurrences(seen, text, source)
    {
      assert seen[..|seen| - 1] == init;
      if text !in d {
        NeverMet(init, text, c);
      } else {
        assert text in Collected(c, init);
      }
    }
  }

  lemma CollectedOfAppend(c: Classifier, init: seq<(string, string)>, last: (string, string))
    ensures Collected(c, init + [last]) == Collected(c, init) + if c.collectable(last.0) then {last.0} else {}
  {
    var seen := init + [last];
    forall o | o in init ensures o in seen {
    }
    assert last in seen;
    assert forall o | o in seen :: o in init || o == last;
  }

  /** A domain is open exactly when more distinct values than the cap were met, and otherwise is
      the exact table of occurrences. */
  lemma {:induction false} DomainIsExact(c: Classifier, seen: seq<(string, string)>)
    ensures AddAll(c, NO_VALUES, seen).values.None? <==> |Collected(c, seen)| > VALUE_CAP
    ensures AddAll(c, NO_VALUES, seen).values.Some? ==> ExactDomain(c, AddAll(c, NO_VALUES, seen).values.value, seen)
  {
    if seen != [] {
      var init, last := seen[..|seen| - 1], seen[|seen| - 1];
      DomainIsExact(c, init);
      assert seen == init + [last];
      CollectedOfAppend(c, init, last);
      SizeOfSubset(Collected(c, init), Collected(c, seen));
      var before := AddAll(c, NO_VALUES, init);
      if before.values.Some? {
        OneMoreSeen(c, before.values.value, init, last);
        if c.collectable(last.0) {
          var d := AddTo(before.values.value, last.0, last.1);
          assert |d| == |d.Keys|;
        }
      }
    }
  }

  lemma {:induction false} NeverMet(seen: seq<(string, string)>, text: string, c: Classifier)
    requires c.collectable(text) && text !in Collected(c, seen)
    ensures forall source :: Occurrences(seen, text, source) == 0
  {
    if seen != [] {
      var init, last := seen[..|seen| - 1], seen[|seen| - 1];
      assert last in seen;
      forall o | o in init ensures o in seen {
      }
      NeverMet(init, text, c);
    }
  }
}
