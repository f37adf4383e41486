/** The published table is the full table merged along path folding. */
module ScanFolding {
  import opened Common
  import opened ScanStats
  import opened ScanPaths
  import opened ScanWalk
  import opened ScanTables
  import opened ScanContents
  import opened PathFolding

  const NOTHING: PathStats := Uncounted(NEW_STATS)

  /** What visits add up to when documents are not counted. */
  function Total(c: Classifier, vs: seq<Visit>): PathStats {
    if vs == [] then NOTHING else Joined(Total(c, vs[..|vs| - 1]), Uncounted(Single(c, vs[|vs| - 1])))
  }

  lemma {:induction false} VisitsAddUp(c: Classifier, vs: seq<Visit>)
    ensures Uncounted(FoldVisits(c, NEW_STATS, vs)) == Total(c, vs)
  {
    if vs != [] {
      var init, v := vs[..|vs| - 1], vs[|vs| - 1];
      VisitsAddUp(c, init);
      VisitIsMerge(c, FoldVisits(c, NEW_STATS, init), v);
    }
  }

  function TotalOver(c: Classifier, rs: seq<Record>, paths: seq<Path>): PathStats {
    if paths == [] then NOTHING
    else Joined(TotalOver(c, rs, paths[..|paths| - 1]), Total(c, VisitsAt(rs, paths[|paths| - 1], false)))
  }

  lemma NothingIsNeutral(p: PathStats)
    ensures Joined(p, NOTHING) == Settled(p)
  {
    NothingAdds(p.sources);
    NothingAdds(p.sourceDocs);
    NothingAdds(p.versions);
    NoAttributesMerge(p.attrs);
    NothingMerges(MergeKid, p.kids);
  }

  lemma {:induction false} NoRecordsTotalNothing(c: Classifier, paths: seq<Path>)
    ensures TotalOver(c, [], paths) == NOTHING
  {
    if paths != [] {
      NoRecordsTotalNothing(c, paths[..|paths| - 1]);
      NothingIsNeutral(NOTHING);
    }
  }

  lemma {:induction false} ElsewhereTotalsStay(c: Classifier, rs: seq<Record>, r: Record, paths: seq<Path>)
    requires r.path !in paths
    ensures TotalOver(c, rs + [r], paths) == TotalOver(c, rs, paths)
  {
    if paths != [] {
      assert paths[|paths| - 1] in paths;
      assert (rs + [r])[..|rs|] == rs;
      ElsewhereTotalsStay(c, rs, r, paths[..|paths| - 1]);
    }
  }

  /** It does not matter which of two summands gets one more. */
  lemma EitherGetsOne(a: PathStats, b: PathStats, a': PathStats, b': PathStats, s: PathStats)
    requires (a' == a && b' == Joined(b, s)) || (a' == Joined(a, s) && b' == b)
    ensures Joined(a', b') == Joined(Joined(a, b), s)
  {
    JoinedMonoid();
    assert Joined(Joined(a, s), b) == Joined(a, Joined(s, b));
    assert Joined(s, b) == Joined(b, s);
    assert Joined(Joined(a, b), s) == Joined(a, Joined(b, s));
  }

  lemma VisitsOfOneMore(c: Classifier, rs: seq<Record>, r: Record, key: Path, fold: bool)
    ensures
      Total(c, VisitsAt(rs + [r], key, fold)) ==
      if KeyOf(r, fold) != key then Total(c, VisitsAt(rs, key, fold))
      else Joined(Total(c, VisitsAt(rs, key, fold)), Uncounted(Single(c, r.visit)))
  {
    assert (rs + [r])[..|rs|] == rs;
    var vs := VisitsAt(rs, key, fold);
    assert (vs + [r.visit])[..|vs|] == vs;
  }

  lemma TotalOverLast(c: Classifier, rs: seq<Record>, init: seq<Path>, last: Path)
    ensures TotalOver(c, rs, init + [last]) == Joined(TotalOver(c, rs, init), Total(c, VisitsAt(rs, last, false)))
  {
    assert (init + [last])[..|init|] == init;
  }

  lemma {:induction false} OneMoreInTheTotal(c: Classifier, rs: seq<Record>, r: Record, paths: seq<Path>)
    requires NoTwice(paths) && r.path in paths
    ensures TotalOver(c, rs + [r], paths) == Joined(TotalOver(c, rs, paths), Uncounted(Single(c, r.visit)))
    decreases |paths|
  {
    var init, last, one := paths[..|paths| - 1], paths[|paths| - 1], Uncounted(Single(c, r.visit));
    assert paths == init + [last];
    var before, here := TotalOver(c, rs, init), Total(c, VisitsAt(rs, last, false));
    var before', here' := TotalOver(c, rs + [r], init), Total(c, VisitsAt(rs + [r], last, false));
    NotAmongTheOthers(paths);
    TotalOverLast(c, rs, init, last);
    TotalOverLast(c, rs + [r], init, last);
    VisitsOfOneMore(c, rs, r, last, false);
    if r.path == last {
      ElsewhereTotalsStay(c, rs, r, init);
      EitherGetsOne(before, here, before, here', one);
    } else {
      OneMoreInTheTotal(c, rs, r, init);
      EitherGetsOne(before, here, before', here, one);
    }
  }

  lemma NotAmongTheOthers(paths: seq<Path>)
    requires NoTwice(paths) && paths != []
    ensures paths[|paths| - 1] !in paths[..|paths| - 1] && NoTwice(paths[..|paths| - 1])
  {
    var init := paths[..|paths| - 1];
    forall i | 0 <= i < |init| ensures init[i] != paths[|init|] {
      assert paths[i] != paths[|init|];
    }
  }

  /** The paths that fold onto a key, each once. */
  ghost predicate Onto(paths: seq<Path>, rs: seq<Record>, key: Path) {
    && NoTwice(paths)
    && (forall p | p in paths :: FoldPath(p) == key)
    && (forall r | r in rs && FoldPath(r.path) == key :: r.path in paths)
  }

  lemma {:induction false} FoldedTotal(c: Classifier, rs: seq<Record>, key: Path, paths: seq<Path>)
    requires forall r | r in rs :: r.folded == FoldPath(r.path)
    requires Onto(paths, rs, key)
    ensures Total(c, VisitsAt(rs, key, true)) == TotalOver(c, rs, paths)
    decreases |rs|
  {
    if rs == [] {
      NoRecordsTotalNothing(c, paths);
    } else {
      var init, r := rs[..|rs| - 1], rs[|rs| - 1];
      assert rs == init + [r] && r in rs;
      FoldedTotal(c, init, key, paths);
      VisitsOfOneMore(c, init, r, key, true);
      if r.folded == key {
        OneMoreInTheTotal(c, init, r, paths);
      } else {
        ElsewhereTotalsStay(c, init, r, paths);
      }
    }
  }

  // ---- the two tables of a scan --------------------------------------------------------------------

  function RecordsOfAll(docs: seq<Document>): seq<Record> {
    if docs == [] then [] else RecordsOfAll(docs[..|docs| - 1]) + Records(docs[|docs| - 1])
  }

  lemma {:induction false} AllRecords(docs: seq<Document>, key: Path, fold: bool)
    ensures VisitsAt(RecordsOfAll(docs), key, fold) == VisitsOfAll(docs, key, fold)
    ensures forall r | r in RecordsOfAll(docs) :: r.folded == FoldPath(r.path)
  {
    if docs != [] {
      var init, d := docs[..|docs| - 1], docs[|docs| - 1];
      AllRecords(init, key, fold);
      RecordsOfDocument(d);
      VisitsOfAppend(RecordsOfAll(init), Records(d), key, fold);
    }
  }

  /** The statistics of some paths of a table, merged. */
  function MergedOver(table: Table, paths: seq<Path>): PathStats {
    if paths == [] then NOTHING
    else Joined(MergedOver(table, paths[..|paths| - 1]), Uncounted(StatsAt(table, paths[|paths| - 1])))
  }

  lemma {:induction false} MergedIsTotal(c: Classifier, docs: seq<Document>, paths: seq<Path>)
    ensures MergedOver(Part(c, docs, false), paths) == TotalOver(c, RecordsOfAll(docs), paths)
  {
    if paths != [] {
      var last := paths[|paths| - 1];
      MergedIsTotal(c, docs, paths[..|paths| - 1]);
      ScanAllAt(c, docs, last, false);
      AllRecords(docs, last, false);
      VisitsAddUp(c, VisitsOfAll(docs, last, false));
    }
  }

  lemma {:induction false} RecordHasVisit(rs: seq<Record>, r: Record, fold: bool)
    requires r in rs
    ensures VisitsAt(rs, KeyOf(r, fold), fold) != []
  {
    if r != rs[|rs| - 1] {
      RecordHasVisit(rs[..|rs| - 1], r, fold);
    }
  }

  /** The paths of the full table that fold onto a key, in any order. */
  ghost predicate FoldsOnto(paths: seq<Path>, table: Table, key: Path) {
    && NoTwice(paths)
    && forall p :: p in paths <==> p in table && FoldPath(p) == key
  }

  /** Everything but documents is published exactly: a key of the published table holds the merge of
      all the full paths that fold onto it, and there is such a path whenever there is the key. */
  lemma PublishedIsMerged(c: Classifier, docs: seq<Document>, key: Path, paths: seq<Path>)
    requires FoldsOnto(paths, Part(c, docs, false), key)
    ensures Uncounted(StatsAt(Part(c, docs, true), key)) == MergedOver(Part(c, docs, false), paths)
    ensures key in Part(c, docs, true) <==> paths != []
  {
    var rs := RecordsOfAll(docs);
    AllRecords(docs, key, true);
    ScanAllAt(c, docs, key, true);
    VisitsAddUp(c, VisitsOfAll(docs, key, true));
    forall r | r in rs && FoldPath(r.path) == key ensures r.path in paths {
      RecordHasVisit(rs, r, false);
      AllRecords(docs, r.path, false);
      ScanAllAt(c, docs, r.path, false);
    }
    FoldedTotal(c, rs, key, paths);
    MergedIsTotal(c, docs, paths);
    KeyHasAPath(c, docs, key, paths);
  }

  lemma KeyHasAPath(c: Classifier, docs: seq<Document>, key: Path, paths: seq<Path>)
    requires FoldsOnto(paths, Part(c, docs, false), key)
    ensures key in Part(c, docs, true) <==> paths != []
  {
    var rs := RecordsOfAll(docs);
    AllRecords(docs, key, true);
    ScanAllAt(c, docs, key, true);
    if VisitsOfAll(docs, key, true) != [] {
      VisitsAreRecords(rs, key, true);
      var v := VisitsOfAll(docs, key, true)[0];
      assert v in VisitsAt(rs, key, true);
      var r :| r in rs && r.visit == v && KeyOf(r, true) == key;
      RecordHasVisit(rs, r, false);
      AllRecords(docs, r.path, false);
      ScanAllAt(c, docs, r.path, false);
      assert r.path in paths;
    }
    if paths != [] {
      var p := paths[0];
      assert p in paths;
      ScanAllAt(c, docs, p, false);
      AllRecords(docs, p, false);
      VisitsAreRecords(rs, p, false);
      var v := VisitsOfAll(docs, p, false)[0];
      assert v in VisitsAt(rs, p, false);
      var r :| r in rs && r.visit == v && KeyOf(r, false) == p;
      RecordHasVisit(rs, r, true);
    }
  }

  // ---- documents lie between the most and the sum ----------------------------------------------------

  /** A document has the published key exactly when it has a path that folds onto it. */
  lemma HavingFolds(d: Document, key: Path)
    ensures Having(key, true)(d) <==> exists p :: Having(p, false)(d) && FoldPath(p) == key
  {
    RecordsOfDocument(d);
    VisitedIffHaving(d, key, true);
    if Having(key, true)(d) {
      VisitsAreRecords(Records(d), key, true);
      var v := VisitsAt(Records(d), key, true)[0];
      assert v in VisitsAt(Records(d), key, true);
      var r :| r in Records(d) && r.visit == v && KeyOf(r, true) == key;
      RecordHasVisit(Records(d), r, false);
      VisitedIffHaving(d, r.path, false);
      assert Having(r.path, false)(d) && FoldPath(r.path) == key;
    }
    if p :| Having(p, false)(d) && FoldPath(p) == key {
      VisitedIffHaving(d, p, false);
      VisitsAreRecords(Records(d), p, false);
      var v := VisitsAt(Records(d), p, false)[0];
      assert v in VisitsAt(Records(d), p, false);
      var r :| r in Records(d) && r.visit == v && KeyOf(r, false) == p;
      RecordHasVisit(Records(d), r, true);
    }
  }

  function DocumentSum(table: Table, paths: seq<Path>): nat {
    if paths == [] then 0
    else DocumentSum(table, paths[..|paths| - 1]) + StatsAt(table, paths[|paths| - 1]).docs
  }

  function CountsSum(docs: seq<Document>, paths: seq<Path>): nat {
    if paths == [] then 0
    else CountsSum(docs, paths[..|paths| - 1]) + CountIf(Having(paths[|paths| - 1], false), docs)
  }

  lemma {:induction false} OneMoreDocument(init: seq<Document>, d: Document, paths: seq<Path>)
    ensures CountsSum(init, paths) <= CountsSum(init + [d], paths)
    ensures (exists p :: p in paths && Having(p, false)(d)) ==> CountsSum(init, paths) < CountsSum(init + [d], paths)
  {
    assert (init + [d])[..|init|] == init;
    if paths != [] {
      OneMoreDocument(init, d, paths[..|paths| - 1]);
      var last := paths[|paths| - 1];
      if Having(last, false)(d) {
        assert CountIf(Having(last, false), init + [d]) == CountIf(Having(last, false), init) + 1;
      } else if p :| p in paths && Having(p, false)(d) {
        assert p in paths[..|paths| - 1];
      }
    }
  }

  lemma {:induction false} CountsBetween(docs: seq<Document>, key: Path, paths: seq<Path>)
    requires forall p | p in paths :: FoldPath(p) == key
    requires forall p, d | d in docs && Having(p, false)(d) && FoldPath(p) == key :: p in paths
    ensures forall p | p in paths :: CountIf(Having(p, false), docs) <= CountIf(Having(key, true), docs)
    ensures CountIf(Having(key, true), docs) <= CountsSum(docs, paths)
    decreases |docs|
  {
    if docs != [] {
      var init, d := docs[..|docs| - 1], docs[|docs| - 1];
      assert docs == init + [d] && d in docs;
      forall p, e | e in init && Having(p, false)(e) && FoldPath(p) == key ensures p in paths {
        assert e in docs;
      }
      CountsBetween(init, key, paths);
      HavingFolds(d, key);
      OneMoreDocument(init, d, paths);
    }
  }

  lemma {:induction false} SumsOfDocuments(c: Classifier, docs: seq<Document>, paths: seq<Path>)
    requires Distinct(docs)
    ensures DocumentSum(Part(c, docs, false), paths) == CountsSum(docs, paths)
  {
    if paths != [] {
      SumsOfDocuments(c, docs, paths[..|paths| - 1]);
      DocumentsAreCounted(c, docs, paths[|paths| - 1], false, "");
    }
  }

  lemma {:induction false} HavingIsInTheTable(c: Classifier, docs: seq<Document>, d: Document, p: Path)
    requires d in docs && Having(p, false)(d)
    ensures p in Part(c, docs, false)
  {
    var init := docs[..|docs| - 1];
    ScanAllAt(c, docs, p, false);
    if d != docs[|docs| - 1] {
      HavingIsInTheTable(c, init, d, p);
      ScanAllAt(c, init, p, false);
    }
  }

  /** Documents are the one thing folding cannot add up: a published key counts at least as many as
      any of its paths and at most as many as all of them together. */
  lemma PublishedDocumentsLieBetween(c: Classifier, docs: seq<Document>, key: Path, paths: seq<Path>)
    requires Distinct(docs) && FoldsOnto(paths, Part(c, docs, false), key)
    ensures forall p | p in paths :: StatsAt(Part(c, docs, false), p).docs <= StatsAt(Part(c, docs, true), key).docs
    ensures StatsAt(Part(c, docs, true), key).docs <= DocumentSum(Part(c, docs, false), paths)
  {
    forall p, d | d in docs && Having(p, false)(d) && FoldPath(p) == key ensures p in paths {
      HavingIsInTheTable(c, docs, d, p);
    }
    CountsBetween(docs, key, paths);
    SumsOfDocuments(c, docs, paths);
    DocumentsAreCounted(c, docs, key, true, "");
    forall p | p in paths
      ensures StatsAt(Part(c, docs, false), p).docs == CountIf(Having(p, false), docs)
    {
      DocumentsAreCounted(c, docs, p, false, "");
    }
  }
}
