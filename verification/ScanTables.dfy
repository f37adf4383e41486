/** The tables a scan fills: one pass over all documents, or chunks scanned apart and merged. */
module ScanTables {
  import opened Common
  import opened ScanStats
  import opened ScanPaths
  import opened ScanWalk
  import opened PathFolding

  type Table = map<Path, PathStats>

  function StatsAt(table: Table, key: Path): PathStats {
    if key in table then table[key] else NEW_STATS
  }

  function ApplyRecord(c: Classifier, table: Table, r: Record, fold: bool): Table {
    table[KeyOf(r, fold) := Apply(c, StatsAt(table, KeyOf(r, fold)), r.visit)]
  }

  function ApplyAll(c: Classifier, table: Table, rs: seq<Record>, fold: bool): Table
    decreases |rs|
  {
    if rs == [] then table
    else ApplyRecord(c, ApplyAll(c, table, rs[..|rs| - 1], fold), rs[|rs| - 1], fold)
  }

  /** One pass over the documents. */
  function ScanAll(c: Classifier, docs: seq<Document>, fold: bool): Table {
    if docs == [] then map[]
    else ApplyAll(c, ScanAll(c, docs[..|docs| - 1], fold), Records(docs[|docs| - 1]), fold)
  }

  function SettleAll(table: Table): Table {
    map key | key in table :: Settled(table[key])
  }

  /** What a worker hands back for its chunk. */
  function Part(c: Classifier, chunk: seq<Document>, fold: bool): Table {
    SettleAll(ScanAll(c, chunk, fold))
  }

  function MergeTables(mine: Table, theirs: Table): Table {
    MergeMaps(MergePath, mine, theirs)
  }

  function Reduce(parts: seq<Table>): Table {
    if parts == [] then map[] else MergeTables(Reduce(parts[..|parts| - 1]), parts[|parts| - 1])
  }

  function Parts(c: Classifier, chunks: seq<seq<Document>>, fold: bool): (parts: seq<Table>)
    ensures |parts| == |chunks|
    ensures forall i | 0 <= i < |chunks| :: parts[i] == Part(c, chunks[i], fold)
  {
    seq(|chunks|, i requires 0 <= i < |chunks| => Part(c, chunks[i], fold))
  }

  function Flatten(chunks: seq<seq<Document>>): seq<Document> {
    if chunks == [] then [] else Flatten(chunks[..|chunks| - 1]) + chunks[|chunks| - 1]
  }

  /** Document numbers are positions in the list of jobs, so no two documents share one. */
  ghost predicate Distinct(docs: seq<Document>) {
    forall i, j | 0 <= i < j < |docs| :: docs[i].id != docs[j].id
  }

  // ---- a key at a time ---------------------------------------------------------------------------

  function FoldVisits(c: Classifier, p: PathStats, vs: seq<Visit>): PathStats
    decreases |vs|
  {
    if vs == [] then p else Apply(c, FoldVisits(c, p, vs[..|vs| - 1]), vs[|vs| - 1])
  }

  /** Each key of a table sees its own visits only. */
  lemma {:induction false} ApplyAllAt(c: Classifier, table: Table, rs: seq<Record>, fold: bool, key: Path)
    ensures key in ApplyAll(c, table, rs, fold) <==> key in table || VisitsAt(rs, key, fold) != []
    ensures StatsAt(ApplyAll(c, table, rs, fold), key) == FoldVisits(c, StatsAt(table, key), VisitsAt(rs, key, fold))
    decreases |rs|
  {
    if rs != [] {
      var init, last := rs[..|rs| - 1], rs[|rs| - 1];
      ApplyAllAt(c, table, init, fold, key);
      OneMoreVisit(c, StatsAt(table, key), VisitsAt(init, key, fold), last.visit);
      RecordAppliesAt(c, ApplyAll(c, table, init, fold), last, fold, key);
    }
  }

  lemma RecordAppliesAt(c: Classifier, table: Table, r: Record, fold: bool, key: Path)
    ensures key in ApplyRecord(c, table, r, fold) <==> key in table || KeyOf(r, fold) == key
    ensures
      StatsAt(ApplyRecord(c, table, r, fold), key) ==
      if KeyOf(r, fold) == key then Apply(c, StatsAt(table, key), r.visit) else StatsAt(table, key)
  {
  }

  lemma OneMoreVisit(c: Classifier, p: PathStats, vs: seq<Visit>, v: Visit)
    ensures FoldVisits(c, p, vs + [v]) == Apply(c, FoldVisits(c, p, vs), v)
  {
    assert (vs + [v])[..|vs|] == vs;
  }

  // ---- a document is merged -------------------------------------------------------------------------

  function Joined(a: PathStats, b: PathStats): PathStats {
    Settled(MergePath(a, b))
  }

  lemma JoinedForgets(a: PathStats, b: PathStats)
    ensures Joined(Settled(a), b) == Joined(a, b) == Joined(a, Settled(b))
  {
  }

  lemma JoinedMonoid()
    ensures Commutes(Joined) && Associates(Joined)
  {
    forall x, y ensures Joined(x, y) == Joined(y, x) {
      MergePathIsCommutative(x, y);
    }
    forall x, y, z ensures Joined(Joined(x, y), z) == Joined(x, Joined(y, z)) {
      MergePathIsAssociative(x, y, z);
      JoinedForgets(MergePath(x, y), z);
      JoinedForgets(x, MergePath(y, z));
    }
  }

  /** All visits of a new document add up to one merge, whatever was in the table before. */
  lemma {:induction false} DocumentIsMerged(c: Classifier, p: PathStats, vs: seq<Visit>, id: nat)
    requires OneDocument(vs, id) && vs != [] && p.doc != Some(id)
    ensures Settled(FoldVisits(c, p, vs)) == Joined(p, FoldVisits(c, NEW_STATS, vs))
    ensures FoldVisits(c, p, vs).doc == Some(id)
    decreases |vs|
  {
    var init, v := vs[..|vs| - 1], vs[|vs| - 1];
    assert v in vs;
    if init == [] {
      assert v == vs[0];
      assert FoldVisits(c, NEW_STATS, init) == NEW_STATS;
      FirstVisit(c, p, v);
    } else {
      assert init[0] == vs[0];
      assert forall u | u in init :: u in vs;
      DocumentIsMerged(c, p, init, id);
      DocumentIsMerged(c, NEW_STATS, init, id);
      var a, b := FoldVisits(c, p, init), FoldVisits(c, NEW_STATS, init);
      ContinuingVisit(c, a, v);
      ContinuingVisit(c, b, v);
      DocumentGoesOn(p, a, b, Uncounted(Single(c, v)));
      JoinedForgets(p, Apply(c, b, v));
      JoinedForgets(p, MergePath(b, Uncounted(Single(c, v))));
    }
  }

  lemma DocumentGoesOn(p: PathStats, a: PathStats, b: PathStats, s: PathStats)
    requires Settled(a) == Joined(p, b)
    ensures Joined(a, s) == Joined(p, MergePath(b, s))
  {
    JoinedForgets(a, s);
    JoinedForgets(MergePath(p, b), s);
    MergePathIsAssociative(p, b, s);
  }

  ghost predicate Unseen(table: Table, id: nat) {
    forall key | key in table :: table[key].doc != Some(id)
  }

  lemma DocumentIsMergedAt(c: Classifier, table: Table, d: Document, fold: bool, key: Path)
    requires Unseen(table, d.id)
    ensures
      At(SettleAll(ApplyAll(c, table, Records(d), fold)), key) ==
      MergeOptions(Joined, At(SettleAll(table), key), At(SettleAll(ApplyAll(c, map[], Records(d), fold)), key))
  {
    var vs := VisitsAt(Records(d), key, fold);
    ApplyAllAt(c, table, Records(d), fold, key);
    ApplyAllAt(c, map[], Records(d), fold, key);
    if vs != [] {
      DocumentVisits(d, key, fold);
      DocumentIsMerged(c, StatsAt(table, key), vs, d.id);
      JoinedForgets(StatsAt(table, key), FoldVisits(c, NEW_STATS, vs));
      JoinedForgets(StatsAt(table, key), Settled(FoldVisits(c, NEW_STATS, vs)));
    }
  }

  lemma ScanOneMore(c: Classifier, table: Table, d: Document, fold: bool)
    requires Unseen(table, d.id)
    ensures
      SettleAll(ApplyAll(c, table, Records(d), fold)) ==
      MergeMaps(Joined, SettleAll(table), Part(c, [d], fold))
  {
    assert [d][..0] == [] && ScanAll(c, [d], fold) == ApplyAll(c, map[], Records(d), fold);
    var l := SettleAll(ApplyAll(c, table, Records(d), fold));
    var r := MergeMaps(Joined, SettleAll(table), Part(c, [d], fold));
    forall key ensures At(l, key) == At(r, key) {
      DocumentIsMergedAt(c, table, d, fold, key);
      MergeMapsAt(Joined, SettleAll(table), Part(c, [d], fold), key);
    }
    SameMap(l, r);
  }

  lemma {:induction false} OnlyScannedIsSeen(c: Classifier, docs: seq<Document>, fold: bool, id: nat)
    requires forall d | d in docs :: d.id != id
    ensures Unseen(ScanAll(c, docs, fold), id)
  {
    if docs != [] {
      var init, d := docs[..|docs| - 1], docs[|docs| - 1];
      OnlyScannedIsSeen(c, init, fold, id);
      var before, after := ScanAll(c, init, fold), ScanAll(c, docs, fold);
      forall key | key in after ensures after[key].doc != Some(id) {
        ApplyAllAt(c, before, Records(d), fold, key);
        DocumentVisits(d, key, fold);
        OthersStayUnseen(c, StatsAt(before, key), VisitsAt(Records(d), key, fold), d.id, id);
      }
    }
  }

  lemma {:induction false} OthersStayUnseen(c: Classifier, p: PathStats, vs: seq<Visit>, seen: nat, id: nat)
    requires p.doc != Some(id) && seen != id
    requires forall v | v in vs && v.Enter? :: v.doc == seen
    ensures FoldVisits(c, p, vs).doc != Some(id)
    decreases |vs|
  {
    if vs != [] {
      assert vs[|vs| - 1] in vs;
      OthersStayUnseen(c, p, vs[..|vs| - 1], seen, id);
    }
  }

  // ---- any partition, in any order ------------------------------------------------------------------

  ghost predicate AllSettled(table: Table) {
    forall key | key in table :: table[key].doc.None?
  }

  lemma SettledTablesJoin(a: Table, b: Table)
    requires AllSettled(a) && AllSettled(b)
    ensures MergeTables(a, b) == MergeMaps(Joined, a, b) && AllSettled(MergeTables(a, b))
  {
  }

  lemma {:induction false} PartsJoin(c: Classifier, a: seq<Document>, b: seq<Document>, fold: bool)
    requires Distinct(a + b)
    ensures Part(c, a + b, fold) == MergeMaps(Joined, Part(c, a, fold), Part(c, b, fold))
    decreases |b|
  {
    if b == [] {
      assert a + b == a;
    } else {
      var init, d := b[..|b| - 1], b[|b| - 1];
      assert (a + b)[..|a + b| - 1] == a + init;
      PartsJoin(c, a, init, fold);
      assert forall i | 0 <= i < |a + init| :: (a + b)[i] == (a + init)[i];
      assert (a + b)[|a + init|] == d;
      OnlyScannedIsSeen(c, a + init, fold, d.id);
      ScanOneMore(c, ScanAll(c, a + init, fold), d, fold);
      assert forall x | x in init :: x in a + init;
      OnlyScannedIsSeen(c, init, fold, d.id);
      ScanOneMore(c, ScanAll(c, init, fold), d, fold);
      JoinedMonoid();
      MergeMapsAssociates(Joined, Part(c, a, fold), Part(c, init, fold), Part(c, [d], fold));
    }
  }

  lemma ReducedLast(c: Classifier, chunks: seq<seq<Document>>, fold: bool)
    requires chunks != []
    ensures
      var init, last := chunks[..|chunks| - 1], chunks[|chunks| - 1];
      Reduce(Parts(c, chunks, fold)) == MergeTables(Reduce(Parts(c, init, fold)), Part(c, last, fold))
  {
    assert Parts(c, chunks, fold)[..|chunks| - 1] == Parts(c, chunks[..|chunks| - 1], fold);
  }

  /** Scanning chunks apart and merging the results gives the tables of one pass. */
  lemma {:induction false} ParallelScanIsSequential(c: Classifier, chunks: seq<seq<Document>>, fold: bool)
    requires Distinct(Flatten(chunks))
    ensures Reduce(Parts(c, chunks, fold)) == Part(c, Flatten(chunks), fold)
    decreases |chunks|
  {
    if chunks != [] {
      var init, last := chunks[..|chunks| - 1], chunks[|chunks| - 1];
      PrefixIsDistinct(Flatten(init), last);
      ParallelScanIsSequential(c, init, fold);
      PartsJoin(c, Flatten(init), last, fold);
      SettledTablesJoin(Part(c, Flatten(init), fold), Part(c, last, fold));
      ReducedLast(c, chunks, fold);
    }
  }

  /** Moving a document to the end changes nothing. */
  lemma MovedToTheEnd(c: Classifier, u: seq<Document>, d: Document, v: seq<Document>, fold: bool)
    requires Distinct(u + [d] + v)
    ensures Distinct(u + v + [d])
    ensures Part(c, u + [d] + v, fold) == Part(c, u + v + [d], fold)
  {
    var moved, all := u + v + [d], u + [d] + v;
    forall i, j | 0 <= i < j < |moved| ensures moved[i].id != moved[j].id {
      var i' := if i < |u| then i else if i < |u| + |v| then i + 1 else |u|;
      var j' := if j < |u| then j else if j < |u| + |v| then j + 1 else |u|;
      assert moved[i] == all[i'] && moved[j] == all[j'];
    }
    PrefixIsDistinct(u + [d], v);
    PrefixIsDistinct(u + v, [d]);
    PartsJoin(c, u + [d], v, fold);
    PartsJoin(c, u, [d], fold);
    PartsJoin(c, u + v, [d], fold);
    PartsJoin(c, u, v, fold);
    var x, y, z := Part(c, u, fold), Part(c, [d], fold), Part(c, v, fold);
    JoinedMonoid();
    MergeMapsAssociates(Joined, x, y, z);
    MergeMapsAssociates(Joined, x, z, y);
    MergeMapsCommutes(Joined, y, z);
  }

  lemma PrefixIsDistinct(a: seq<Document>, b: seq<Document>)
    requires Distinct(a + b)
    ensures Distinct(a)
  {
    assert forall i | 0 <= i < |a| :: (a + b)[i] == a[i];
  }

  /** The order of the documents does not show in any table. */
  lemma {:induction false} OrderDoesNotShow(c: Classifier, docs: seq<Document>, others: seq<Document>, fold: bool)
    requires Distinct(docs) && Distinct(others) && multiset(docs) == multiset(others)
    ensures Part(c, docs, fold) == Part(c, others, fold)
    decreases |docs|
  {
    if docs == [] {
      assert others == [] by {
        assert |multiset(others)| == 0;
      }
    } else {
      var init, d := docs[..|docs| - 1], docs[|docs| - 1];
      assert docs == init + [d];
      assert d in multiset(others);
      var k :| 0 <= k < |others| && others[k] == d;
      var u, v := others[..k], others[k + 1..];
      assert others == u + [d] + v;
      MovedToTheEnd(c, u, d, v, fold);
      PrefixIsDistinct(init, [d]);
      PrefixIsDistinct(u + v, [d]);
      SameButOne(init, u, v, d);
      OrderDoesNotShow(c, init, u + v, fold);
      PartsJoin(c, init, [d], fold);
      PartsJoin(c, u + v, [d], fold);
    }
  }

  lemma SameButOne<A>(init: seq<A>, u: seq<A>, v: seq<A>, d: A)
    requires multiset(init + [d]) == multiset(u + [d] + v)
    ensures multiset(init) == multiset(u + v)
  {
    assert multiset(init) == multiset(init + [d]) - multiset{d};
    assert multiset(u + v) == multiset(u + [d] + v) - multiset{d};
  }

  /** Distinct documents, as a property of their multiset. */
  lemma {:induction false} DistinctIsOneOfEach(docs: seq<Document>)
    ensures
      Distinct(docs) <==>
      forall x, y | x in docs && y in docs && x.id == y.id :: x == y && multiset(docs)[x] == 1
  {
    if docs != [] {
      var init, d := docs[..|docs| - 1], docs[|docs| - 1];
      assert docs == init + [d];
      DistinctIsOneOfEach(init);
      DistinctOneMore(init, d);
      assert forall x :: multiset(docs)[x] == multiset(init)[x] + if x == d then 1 else 0;
      assert forall x :: x in docs <==> x in init || x == d;
      assert forall x :: x in init <==> multiset(init)[x] > 0;
    }
  }

  lemma DistinctOneMore(init: seq<Document>, d: Document)
    ensures Distinct(init + [d]) <==> Distinct(init) && forall x | x in init :: x.id != d.id
  {
    var docs := init + [d];
    assert forall i | 0 <= i < |init| :: docs[i] == init[i];
    if Distinct(docs) {
      forall x | x in init ensures x.id != d.id {
        var i :| 0 <= i < |init| && init[i] == x;
        assert docs[i].id != docs[|init|].id;
      }
    }
  }

  lemma SameIdsDistinct(docs: seq<Document>, others: seq<Document>)
    requires Distinct(docs) && multiset(docs) == multiset(others)
    ensures Distinct(others)
  {
    DistinctIsOneOfEach(docs);
    DistinctIsOneOfEach(others);
    forall x ensures x in docs <==> x in others {
      assert x in docs <==> x in multiset(docs);
      assert x in others <==> x in multiset(others);
    }
  }

  /** The central claim: documents cut into chunks in any way, the chunks merged in any order, give
      table for table what one pass over the documents in any order gives. */
  lemma AnyPartitionInAnyOrder(c: Classifier, docs: seq<Document>, chunks: seq<seq<Document>>, fold: bool)
    requires Distinct(docs) && multiset(Flatten(chunks)) == multiset(docs)
    ensures Reduce(Parts(c, chunks, fold)) == Part(c, docs, fold)
  {
    SameIdsDistinct(docs, Flatten(chunks));
    ParallelScanIsSequential(c, chunks, fold);
    OrderDoesNotShow(c, Flatten(chunks), docs, fold);
  }
}
