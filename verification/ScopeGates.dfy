/** The two gates said of the table of changed files, and what the path functions mean. */
module ScopeGates {
  import opened Common
  import opened Order
  import opened ScopeIndex

  // ---- what the path functions mean --------------------------------------------------------------------

  /** Normalising turns every '\' around and drops one leading "./"; nothing else changes. */
  lemma NormalizedSpelling(path: string)
    ensures
      var n, dot := Normalize(path), |path| >= 2 && path[0] == '.' && path[1] in {'/', '\\'};
      && |n| == |path| - (if dot then 2 else 0)
      && forall i | 0 <= i < |n| ::
           var c := path[i + |path| - |n|]; n[i] == if c == '\\' then '/' else c
  {
    var slashed := Slashed(path);
    if "./" <= slashed {
      assert slashed[0] == "./"[0] && slashed[1] == "./"[1];
    }
    if |path| >= 2 && path[0] == '.' && path[1] in {'/', '\\'} {
      assert slashed[..2] == "./";
    }
  }

  lemma NamedIsLast(path: string, name: string)
    requires name !in {"", ".", ".."} && '/' !in name && exists n :: ReadsFrom(path, name, n)
    ensures Last(path) == name && FileName(path) == Some(name)
  {
    var n: nat :| ReadsFrom(path, name, n);
    assert path == path[..n] + name;
    NameBehind(path[..n], name);
  }

  lemma NameBehind(prefix: string, name: string)
    requires name !in {"", ".", ".."} && '/' !in name && (prefix == "" || prefix[|prefix| - 1] == '/')
    ensures Last(prefix + name) == name && FileName(prefix + name) == Some(name)
  {
    LastHasNoSlash(name);
    LastOfJoin(prefix, name);
  }

  /** A path spelled as its components names the last of them, unless that is no name. */
  lemma NameOfClean(path: string, name: string)
    requires Clean(path)
    ensures
      FileName(path) == Some(name) <==>
      name !in {"", ".", ".."} && '/' !in name && exists n :: ReadsFrom(path, name, n)
  {
    LastHasNoSlash(path);
    LastFromStart(path);
    assert ReadsFrom(path, Last(path), Start(path));
    if name !in {"", ".", ".."} && '/' !in name && exists n :: ReadsFrom(path, name, n) {
      NamedIsLast(path, name);
    }
    LastOfMarks();
    if path == "/" || path == "." {
      assert FileName(path[..|path| - 1]) == None;
    }
  }

  /** A separator or a '.' component behind a path does not change what it names. */
  lemma TrailingNamesNothing(path: string)
    ensures FileName(path + "/") == FileName(path)
    ensures FileName(path + "/.") == FileName(path)
  {
    assert (path + "/")[..|path|] == path && Last(path + "/") == "";
    LastOfMarks();
    LastOfJoin(path + "/", ".");
    assert path + "/." == path + "/" + ".";
    assert (path + "/.")[..|path| + 1] == path + "/";
  }

  // ---- the fingerprint -----------------------------------------------------------------------------------

  ghost predicate Tells(hash: Hasher) {
    forall b, r, es, b', r', es' :: hash(b, r, es) == hash(b', r', es') ==> b == b' && r == r' && es == es'
  }

  lemma {:induction false} EntriesAt(files: map<string, FileHunks>, keys: seq<string>)
    requires forall key | key in keys :: key in files
    ensures |Entries(files, keys)| == |keys|
    ensures forall i | 0 <= i < |keys| :: Entries(files, keys)[i] == (keys[i], files[keys[i]])
  {
    if keys != [] {
      EntriesAt(files, keys[1..]);
    }
  }

  /** With a hash that tells its arguments apart, scopes of different contents have different
      fingerprints. */
  lemma FingerprintTellsContents(a: AnalysisScope, b: AnalysisScope, hash: Hasher)
    requires Built(a, hash) && Built(b, hash) && Tells(hash)
    ensures a.fingerprint == b.fingerprint ==>
              a.baseRef == b.baseRef && a.relativeKeys == b.relativeKeys && a.files == b.files
  {
    if a.fingerprint == b.fingerprint {
      var x :| Ordered(x, a.files.Keys) && a.fingerprint == hash(a.baseRef, a.relativeKeys, Entries(a.files, x));
      var y :| Ordered(y, b.files.Keys) && b.fingerprint == hash(b.baseRef, b.relativeKeys, Entries(b.files, y));
      assert Entries(a.files, x) == Entries(b.files, y);
      SameEntries(a.files, b.files, x, y);
    }
  }

  lemma SameEntries(a: map<string, FileHunks>, b: map<string, FileHunks>, x: seq<string>, y: seq<string>)
    requires Ordered(x, a.Keys) && Ordered(y, b.Keys) && Entries(a, x) == Entries(b, y)
    ensures a == b
  {
    EntriesAt(a, x);
    EntriesAt(b, y);
    forall i | 0 <= i < |x| ensures x[i] == y[i] && a[x[i]] == b[y[i]] {
      assert Entries(a, x)[i] == Entries(b, y)[i];
    }
    assert x == y;
    forall key ensures key in a <==> key in b {
      assert key in x <==> key in a.Keys;
    }
    forall key | key in a ensures a[key] == b[key] {
      assert key in x;
    }
  }

  // ---- the gates by the table -----------------------------------------------------------------------------

  /** The one key the table decides by. */
  ghost predicate Decides(s: AnalysisScope, path: string, key: string) {
    var normalized := Normalize(path);
    && key in s.files
    && (key == normalized || (normalized !in s.files && s.relativeKeys && Matching(s.files, normalized) == {key}))
  }

  /** A line counted from 0 is among the lines counted from 1. */
  predicate Holds(h: Hunk, line: nat) {
    h.start <= line + 1 <= h.end
  }

  ghost predicate HoldsOne(hs: seq<Hunk>, start: nat, end: nat) {
    exists i, line: nat :: 0 <= i < |hs| && start <= line <= end && Holds(hs[i], line)
  }

  lemma LinesOfHunks(hs: seq<Hunk>, start: nat, end: nat)
    requires start <= end && forall h | h in hs :: h.start <= h.end
    ensures LinesInScope(Hunks(hs), start, end) <==> HoldsOne(hs, start, end)
  {
    forall i | 0 <= i < |hs|
      ensures Overlaps(hs[i], start, end) <==> exists line: nat :: start <= line <= end && Holds(hs[i], line)
    {
      assert hs[i] in hs;
      var h := hs[i];
      if Overlaps(h, start, end) {
        var line := if h.start <= start + 1 then start else h.start - 1;
        assert start <= line <= end && Holds(h, line);
      }
    }
    if LinesInScope(Hunks(hs), start, end) {
      var i :| 0 <= i < |hs| && Overlaps(hs[i], start, end);
      var line: nat :| start <= line <= end && Holds(hs[i], line);
      assert HoldsOne(hs, start, end);
    }
    if HoldsOne(hs, start, end) {
      var i, line: nat :| 0 <= i < |hs| && start <= line <= end && Holds(hs[i], line);
      assert hs[i] in hs && Overlaps(hs[i], start, end);
    }
  }

  /** Where one key decides, a file passes exactly if no hunks were given for it or there are some, and
      lines pass exactly if no hunks were given or one of them holds such a line. */
  lemma GatesByTheTable(s: AnalysisScope, path: string, key: string, start: nat, end: nat)
    requires Indexes(s.index, s.files.Keys) && NamesOneFile(path) && Decides(s, path, key)
    requires start <= end && (s.files[key].Some? ==> forall h | h in s.files[key].value :: h.start <= h.end)
    ensures FileInScope(Find(s, path)) <==> s.files[key] == None || s.files[key].value != []
    ensures
      LinesInScope(Find(s, path), start, end) <==>
      s.files[key] == None || HoldsOne(s.files[key].value, start, end)
  {
    FindIsTheScan(s, path);
    if s.files[key].Some? {
      LinesOfHunks(s.files[key].value, start, end);
    }
  }

  /** Where none does, all lines pass if several keys match, and none if no key does. */
  lemma GatesUndecided(s: AnalysisScope, path: string, start: nat, end: nat)
    requires Indexes(s.index, s.files.Keys) && NamesOneFile(path) && Normalize(path) !in s.files
    requires !s.relativeKeys || |Matching(s.files, Normalize(path))| != 1
    ensures
      var pass := s.relativeKeys && Matching(s.files, Normalize(path)) != {};
      && (FileInScope(Find(s, path)) <==> pass)
      && (LinesInScope(Find(s, path), start, end) <==> pass)
  {
    FindIsTheScan(s, path);
  }
}
