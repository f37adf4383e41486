/** Which files and lines count as changed: suffix lookup through an index of file names, against
    a scan of all keys.

    A path is its spelling on Unix, where components are separated by '/' and by nothing else: a '\'
    belongs to a name until the path is normalised. (Elsewhere '\' separates to begin with.) */
module ScopeIndex {
  import opened Common
  import opened Order

  /** Changed lines, the first counted 1, both ends included. */
  datatype Hunk = Hunk(start: nat, end: nat)

  /** No hunks given: the whole file. An empty list: no line of it. */
  type FileHunks = Option<seq<Hunk>>

  datatype ScopeEntry = OutOfScope | WholeFile | Hunks(hunks: seq<Hunk>)

  datatype AnalysisScope = AnalysisScope(
    baseRef: string,
    files: map<string, FileHunks>,
    index: map<string, seq<string>>,
    relativeKeys: bool,
    fingerprint: int)

  // ---- paths --------------------------------------------------------------------------------------

  function Slashed(path: string): (s: string)
    ensures |s| == |path|
    ensures forall i | 0 <= i < |path| :: s[i] == if path[i] == '\\' then '/' else path[i]
  {
    if path == "" then "" else [if path[0] == '\\' then '/' else path[0]] + Slashed(path[1..])
  }

  function Normalize(path: string): string {
    var slashed := Slashed(path);
    if "./" <= slashed then slashed[2..] else slashed
  }

  /** What follows the last '/'. */
  function Last(path: string): string {
    if path == "" then ""
    else if path[|path| - 1] == '/' then ""
    else Last(path[..|path| - 1]) + [path[|path| - 1]]
  }

  lemma {:induction false} LastHasNoSlash(path: string)
    ensures '/' !in Last(path) && ('/' !in path ==> Last(path) == path)
  {
    if path != "" && path[|path| - 1] != '/' {
      var init := path[..|path| - 1];
      LastHasNoSlash(init);
      assert path == init + [path[|path| - 1]];
    }
  }

  /** Where the last component begins. */
  function Start(path: string): (i: nat)
    ensures i <= |path| && (i == 0 || path[i - 1] == '/')
  {
    if path == "" || path[|path| - 1] == '/' then |path| else Start(path[..|path| - 1])
  }

  lemma {:induction false} LastFromStart(path: string)
    ensures Last(path) == path[Start(path)..]
  {
    if path != "" && path[|path| - 1] != '/' {
      var init := path[..|path| - 1];
      LastFromStart(init);
      assert path[Start(path)..] == init[Start(init)..] + [path[|path| - 1]];
    }
  }

  lemma LastMatches(path: string)
    ensures SuffixMatches(path, Last(path))
  {
    LastFromStart(path);
  }

  /** The file a path names, if it names one: its last component, separators and '.' behind it
      aside. */
  function FileName(path: string): (name: Option<string>)
    ensures name.Some? ==> name.value !in {"", ".", ".."}
  {
    if path == "" || Last(path) == ".." then None
    else if Last(path) == "" || Last(path) == "." then FileName(path[..|path| - 1])
    else Some(Last(path))
  }

  /** `haystack` ends with `needle`, where a component begins. */
  predicate SuffixMatches(haystack: string, needle: string) {
    && |needle| <= |haystack|
    && haystack[|haystack| - |needle|..] == needle
    && (|needle| == |haystack| || haystack[|haystack| - |needle| - 1] == '/')
  }

  predicate EitherSuffix(a: string, b: string) {
    SuffixMatches(a, b) || SuffixMatches(b, a)
  }

  lemma {:induction false} LastOfJoin(prefix: string, rest: string)
    requires prefix == "" || prefix[|prefix| - 1] == '/'
    ensures Last(prefix + rest) == Last(rest)
  {
    if rest == "" {
      assert prefix + rest == prefix;
    } else {
      assert (prefix + rest)[..|prefix + rest| - 1] == prefix + rest[..|rest| - 1];
      LastOfJoin(prefix, rest[..|rest| - 1]);
    }
  }

  /** A suffix on a boundary has the same last component; this is why the index loses nothing. */
  lemma SuffixKeepsLast(a: string, b: string)
    requires EitherSuffix(a, b)
    ensures Last(a) == Last(b)
  {
    if SuffixMatches(a, b) {
      var prefix := a[..|a| - |b|];
      assert a == prefix + b;
      LastOfJoin(prefix, b);
    } else {
      var prefix := b[..|b| - |a|];
      assert b == prefix + a;
      LastOfJoin(prefix, a);
    }
  }

  lemma SlashOnlyKeepsLast(path: string)
    requires '\\' !in path
    ensures Last(path) == Last(Normalize(path))
  {
    assert Slashed(path) == path;
    if "./" <= path {
      assert path == path[..2] + path[2..];
      LastOfJoin(path[..2], path[2..]);
    }
  }

  // ---- the index --------------------------------------------------------------------------------------

  function Bucket(index: map<string, seq<string>>, name: string): seq<string> {
    if name in index then index[name] else []
  }

  /** Every bucket holds, each once, the keys that name its file. */
  ghost predicate Indexes(index: map<string, seq<string>>, keys: set<string>) {
    forall name ::
      && NoTwice(Bucket(index, name))
      && forall key :: key in Bucket(index, name) <==> key in keys && FileName(key) == Some(name)
  }

  type Hasher = (string, bool, seq<(string, FileHunks)>) -> int

  function Entries(files: map<string, FileHunks>, keys: seq<string>): seq<(string, FileHunks)>
    requires forall key | key in keys :: key in files
  {
    if keys == [] then [] else [(keys[0], files[keys[0]])] + Entries(files, keys[1..])
  }

  /** A scope is what it was built from, a complete index and a hash of its contents. */
  ghost predicate Built(s: AnalysisScope, hash: Hasher) {
    && Indexes(s.index, s.files.Keys)
    && exists sorted ::
      Ordered(sorted, s.files.Keys) && s.fingerprint == hash(s.baseRef, s.relativeKeys, Entries(s.files, sorted))
  }

  lemma IndexOneMore(index: map<string, seq<string>>, keys: set<string>, key: string)
    requires Indexes(index, keys) && key !in keys
    ensures
      var index' :=
        if FileName(key).None? then index
        else index[FileName(key).value := Bucket(index, FileName(key).value) + [key]];
      Indexes(index', keys + {key})
  {
    if FileName(key).Some? {
      var index' := index[FileName(key).value := Bucket(index, FileName(key).value) + [key]];
      forall name
        ensures NoTwice(Bucket(index', name))
        ensures forall k :: k in Bucket(index', name) <==> k in keys + {key} && FileName(k) == Some(name)
      {
        assert NoTwice(Bucket(index, name));
        assert forall k :: k in Bucket(index, name) <==> k in keys && FileName(k) == Some(name);
      }
    }
  }

  /** The keys are visited in no particular order; nothing that is built depends on it but the order
      within a bucket. */
  method Build(baseRef: string, files: map<string, FileHunks>, relativeKeys: bool, hash: Hasher)
    returns (s: AnalysisScope)
    ensures Built(s, hash)
    ensures s.baseRef == baseRef && s.files == files && s.relativeKeys == relativeKeys
  {
    var index: map<string, seq<string>>, sorted := map[], [];
    var rest := files.Keys;
    ghost var done := {};
    while rest != {}
      invariant rest <= files.Keys && done == files.Keys - rest
      invariant Indexes(index, done) && Ordered(sorted, done)
      decreases |rest|
    {
      var key :| key in rest;
      IndexOneMore(index, done, key);
      if FileName(key).Some? {
        index := index[FileName(key).value := Bucket(index, FileName(key).value) + [key]];
      }
      sorted := Insert(sorted, key);
      rest, done := rest - {key}, done + {key};
    }
    assert done == files.Keys;
    s := AnalysisScope(baseRef, files, index, relativeKeys, hash(baseRef, relativeKeys, Entries(files, sorted)));
  }

  /** Equality looks at the fingerprint first. */
  predicate Same(a: AnalysisScope, b: AnalysisScope) {
    a.fingerprint == b.fingerprint && a.relativeKeys == b.relativeKeys && a.baseRef == b.baseRef && a.files == b.files
  }

  /** The fingerprint never separates equal contents, so equality is equality of contents and equal
      scopes hash alike, whatever the hash function and the order the tables iterate in. */
  lemma EqualityIsOfContents(a: AnalysisScope, b: AnalysisScope, hash: Hasher)
    requires Built(a, hash) && Built(b, hash)
    ensures Same(a, b) <==> a.relativeKeys == b.relativeKeys && a.baseRef == b.baseRef && a.files == b.files
  {
    var x :| Ordered(x, a.files.Keys) && a.fingerprint == hash(a.baseRef, a.relativeKeys, Entries(a.files, x));
    var y :| Ordered(y, b.files.Keys) && b.fingerprint == hash(b.baseRef, b.relativeKeys, Entries(b.files, y));
    if a.files == b.files {
      OneOrder(x, y, a.files.Keys);
    }
  }

  // ---- lookup ----------------------------------------------------------------------------------------------

  function EntryOf(hunks: FileHunks): ScopeEntry {
    if hunks.None? then WholeFile else Hunks(hunks.value)
  }

  function EntryFor(files: map<string, FileHunks>, matched: Option<string>): ScopeEntry {
    if matched.Some? && matched.value in files then EntryOf(files[matched.value]) else OutOfScope
  }

  /** The rest of a bucket, given what matched so far. */
  function Resolve(files: map<string, FileHunks>, keys: seq<string>, path: string, matched: Option<string>): ScopeEntry
    decreases |keys|
  {
    if keys == [] then EntryFor(files, matched)
    else if !EitherSuffix(keys[0], path) then Resolve(files, keys[1..], path, matched)
    else if matched.Some? then WholeFile
    else Resolve(files, keys[1..], path, Some(keys[0]))
  }

  function Find(s: AnalysisScope, path: string): ScopeEntry {
    var normalized := Normalize(path);
    if normalized in s.files then EntryOf(s.files[normalized])
    else if !s.relativeKeys then OutOfScope
    else if FileName(path).None? then OutOfScope
    else Resolve(s.files, Bucket(s.index, FileName(path).value), normalized, None)
  }

  lemma ResolveNext(
      files: map<string, FileHunks>, keys: seq<string>, i: nat, path: string, matched: Option<string>)
    requires i < |keys|
    ensures
      Resolve(files, keys[i..], path, matched) ==
      if !EitherSuffix(keys[i], path) then Resolve(files, keys[i + 1..], path, matched)
      else if matched.Some? then WholeFile
      else Resolve(files, keys[i + 1..], path, Some(keys[i]))
  {
    assert keys[i..][1..] == keys[i + 1..];
  }

  method FindEntry(s: AnalysisScope, path: string) returns (r: ScopeEntry)
    ensures r == Find(s, path)
  {
    var normalized := Normalize(path);
    if normalized in s.files {
      return EntryOf(s.files[normalized]);
    }
    if !s.relativeKeys {
      return OutOfScope;
    }
    var filename := FileName(path);
    if filename.None? || filename.value !in s.index {
      return OutOfScope;
    }
    var candidates := s.index[filename.value];
    var matched: Option<string> := None;
    var i := 0;
    while i < |candidates|
      invariant 0 <= i <= |candidates|
      invariant Resolve(s.files, candidates[i..], normalized, matched) == Resolve(s.files, candidates, normalized, None)
    {
      ResolveNext(s.files, candidates, i, normalized, matched);
      if EitherSuffix(candidates[i], normalized) {
        if matched.Some? {
          return WholeFile;
        }
        matched := Some(candidates[i]);
      }
      i := i + 1;
    }
    r := EntryFor(s.files, matched);
  }

  // ---- against a scan of all keys ---------------------------------------------------------------------------

  /** From a place where a component begins, `path` reads `end`. */
  ghost predicate ReadsFrom(path: string, end: string, n: nat) {
    n <= |path| && path[n..] == end && (n == 0 || path[n - 1] == '/')
  }

  /** One path is the end of the other. */
  ghost predicate OneEndsTheOther(a: string, b: string) {
    (exists n :: ReadsFrom(a, b, n)) || exists n :: ReadsFrom(b, a, n)
  }

  lemma EitherSuffixIff(a: string, b: string)
    ensures EitherSuffix(a, b) <==> OneEndsTheOther(a, b)
  {
    SuffixMatchesIff(a, b);
    SuffixMatchesIff(b, a);
  }

  lemma SuffixMatchesIff(a: string, b: string)
    ensures SuffixMatches(a, b) <==> exists n :: ReadsFrom(a, b, n)
  {
    if SuffixMatches(a, b) {
      assert ReadsFrom(a, b, |a| - |b|);
    }
    if n: nat :| ReadsFrom(a, b, n) {
      assert n == |a| - |b|;
    }
  }

  ghost function Matching(files: map<string, FileHunks>, path: string): set<string> {
    set key | key in files && OneEndsTheOther(key, path)
  }

  /** An entry says of a file what its hunks say: none given is the whole of it. */
  ghost predicate Says(r: ScopeEntry, hunks: FileHunks) {
    match hunks
    case None => r.WholeFile?
    case Some(hs) => r.Hunks? && r.hunks == hs
  }

  /** What a scan of all keys answers: a key spelled like the path decides; else absolute keys match
      nothing, and among relative ones a single match decides and several are the whole file. */
  ghost predicate Scanned(files: map<string, FileHunks>, relativeKeys: bool, path: string, r: ScopeEntry) {
    var normalized := Normalize(path);
    if normalized in files then Says(r, files[normalized])
    else if !relativeKeys then r == OutOfScope
    else
      var matching := Matching(files, normalized);
      && (matching == {} ==> r == OutOfScope)
      && (forall key | matching == {key} :: Says(r, files[key]))
      && (|matching| >= 2 ==> r == WholeFile)
  }

  lemma ScansAgree(files: map<string, FileHunks>, relativeKeys: bool, path: string, r: ScopeEntry, q: ScopeEntry)
    requires Scanned(files, relativeKeys, path, r) && Scanned(files, relativeKeys, path, q)
    ensures r == q
  {
    var matching := Matching(files, Normalize(path));
    if matching != {} && |matching| < 2 {
      var key :| key in matching;
      assert |matching - {key}| == 0;
      assert matching == {key};
    }
  }

  /** A scan has exactly one answer, for any keys and any path. */
  lemma ScanIsAFunction(files: map<string, FileHunks>, relativeKeys: bool, path: string)
    ensures exists r ::
              Scanned(files, relativeKeys, path, r) && forall q :: Scanned(files, relativeKeys, path, q) ==> q == r
  {
    var normalized := Normalize(path);
    var matching := Matching(files, normalized);
    var r := OutOfScope;
    if normalized in files {
      r := EntryOf(files[normalized]);
    } else if relativeKeys && |matching| >= 2 {
      r := WholeFile;
    } else if relativeKeys && matching != {} {
      var key :| key in matching;
      assert |matching - {key}| == 0;
      assert matching == {key};
      r := EntryOf(files[key]);
    }
    assert Scanned(files, relativeKeys, path, r) by {
      if |matching| >= 2 {
        var key :| key in matching;
        assert |matching - {key}| >= 1;
      }
    }
    forall q | Scanned(files, relativeKeys, path, q) ensures q == r {
      ScansAgree(files, relativeKeys, path, q, r);
    }
  }

  ghost function Hits(keys: seq<string>, path: string, matched: Option<string>): set<string> {
    (set key | key in keys && EitherSuffix(key, path)) + if matched.Some? then {matched.value} else {}
  }

  lemma HitsOfCons(keys: seq<string>, path: string, matched: Option<string>)
    requires keys != []
    ensures !EitherSuffix(keys[0], path) ==> Hits(keys, path, matched) == Hits(keys[1..], path, matched)
    ensures EitherSuffix(keys[0], path) && matched.None? ==>
              Hits(keys, path, matched) == Hits(keys[1..], path, Some(keys[0]))
    ensures EitherSuffix(keys[0], path) && matched.Some? ==> {keys[0], matched.value} <= Hits(keys, path, matched)
  {
    assert keys == [keys[0]] + keys[1..];
  }

  ghost predicate Decided(files: map<string, FileHunks>, hits: set<string>, r: ScopeEntry)
    requires hits <= files.Keys
  {
    && (hits == {} ==> r == OutOfScope)
    && (forall key | hits == {key} :: r == EntryOf(files[key]))
    && (|hits| >= 2 ==> r == WholeFile)
  }

  lemma HitsOfNil(keys: seq<string>, path: string, matched: Option<string>)
    requires keys == []
    ensures Hits(keys, path, matched) == if matched.Some? then {matched.value} else {}
    ensures forall key :: Hits(keys, path, matched) == {key} ==> matched == Some(key)
  {
    forall key | Hits(keys, path, matched) == {key} ensures matched == Some(key) {
      assert key in Hits(keys, path, matched);
    }
  }

  /** A bucket without repetitions resolves as the set of its matches. */
  lemma {:induction false} ResolveCounts(
      files: map<string, FileHunks>, keys: seq<string>, path: string, matched: Option<string>)
    requires NoTwice(keys) && forall key | key in keys :: key in files
    requires matched.Some? ==> matched.value in files && matched.value !in keys
    ensures Hits(keys, path, matched) <= files.Keys
    ensures Decided(files, Hits(keys, path, matched), Resolve(files, keys, path, matched))
    decreases |keys|
  {
    if keys == [] {
      HitsOfNil(keys, path, matched);
    } else {
      var k, tail := keys[0], keys[1..];
      assert k in keys && k !in tail && forall i | 0 <= i < |tail| :: tail[i] == keys[i + 1];
      HitsOfCons(keys, path, matched);
      if !EitherSuffix(k, path) {
        ResolveCounts(files, tail, path, matched);
      } else if matched.None? {
        ResolveCounts(files, tail, path, Some(k));
      } else {
        TwoMembers(Hits(keys, path, matched), k, matched.value);
      }
    }
  }

  lemma TwoMembers(s: set<string>, a: string, b: string)
    requires a in s && b in s && a != b
    ensures |s| >= 2 && s != {} && forall key :: s != {key}
  {
    assert a in s - {b};
    assert |s - {b}| >= 1;
  }

  /** The path ends in the name of a file, and does once it is normalised. */
  predicate NamesOneFile(path: string) {
    FileName(path) == Some(Last(Normalize(path)))
  }

  /** Through the index the answer for such a path is that of the scan. */
  lemma FindIsTheScan(s: AnalysisScope, path: string)
    requires Indexes(s.index, s.files.Keys) && NamesOneFile(path)
    ensures Scanned(s.files, s.relativeKeys, path, Find(s, path))
  {
    var normalized := Normalize(path);
    if normalized !in s.files && s.relativeKeys {
      var name := FileName(path).value;
      var bucket := Bucket(s.index, name);
      assert NoTwice(bucket);
      assert forall key :: key in bucket <==> key in s.files.Keys && FileName(key) == Some(name);
      ResolveCounts(s.files, bucket, normalized, None);
      BucketHasAll(s.files, bucket, normalized, name);
    }
  }

  lemma BucketHasAll(files: map<string, FileHunks>, bucket: seq<string>, path: string, name: string)
    requires forall key :: key in bucket <==> key in files.Keys && FileName(key) == Some(name)
    requires name == Last(path) && name !in {"", ".", ".."}
    ensures Hits(bucket, path, None) == Matching(files, path)
  {
    forall key ensures key in Hits(bucket, path, None) <==> key in Matching(files, path) {
      if key in files {
        EitherSuffixIff(key, path);
        if EitherSuffix(key, path) {
          SuffixKeepsLast(key, path);
        }
      }
    }
  }

  /** A path with no '\\' in it that ends in the name of a file is one. */
  lemma SlashPathsAreScanned(s: AnalysisScope, path: string)
    requires Indexes(s.index, s.files.Keys) && '\\' !in path && FileName(path) == Some(Last(path))
    ensures Scanned(s.files, s.relativeKeys, path, Find(s, path))
  {
    SlashOnlyKeepsLast(path);
    FindIsTheScan(s, path);
  }

  /** A path is spelled as its components, without an empty one or a '.' among them. */
  predicate Clean(path: string) {
    || path == "/" || path == "."
    || (Last(path) !in {"", "."} && forall i | 0 < i < |path| :: !Stutters(path, i))
  }

  predicate Stutters(path: string, i: nat)
    requires 0 < i < |path|
  {
    && path[i - 1] == '/'
    && (path[i] == '/' || (path[i] == '.' && i + 1 < |path| && path[i + 1] == '/'))
  }

  ghost predicate CleanKeys(s: AnalysisScope) {
    Indexes(s.index, s.files.Keys) && forall key | key in s.files :: Clean(key)
  }

  /** A scope with one relative key, listed whole. */
  function OneKey(key: string): AnalysisScope {
    var name := FileName(key);
    AnalysisScope("", map[key := None], if name.None? then map[] else map[name.value := [key]], true, 0)
  }

  /** A key below the path or above it, and not the path itself. */
  function Below(normalized: string): string {
    if '/' in normalized then Last(normalized) else "x/" + normalized
  }

  lemma BelowIsClean(normalized: string)
    requires Clean(normalized) && Last(normalized) !in {"", "."}
    ensures
      var key := Below(normalized);
      Clean(key) && key != normalized && Last(key) == Last(normalized) && EitherSuffix(key, normalized)
  {
    LastHasNoSlash(normalized);
    if '/' in normalized {
      LastHasNoSlash(Last(normalized));
      LastMatches(normalized);
    } else {
      LastOfJoin("x/", normalized);
      assert ("x/" + normalized)[2..] == normalized;
    }
  }

  lemma LastOfMarks()
    ensures Last("/") == "" && Last(".") == "."
  {
    assert "."[..0] == "" && Last("") == "";
  }

  /** A clean path that ends in no component to name is the root or the current directory. */
  lemma OneNameless(a: string, b: string)
    requires Clean(a) && Clean(b) && Last(a) == Last(b) && Last(a) in {"", "."}
    ensures a == b
  {
    LastOfMarks();
  }

  /** Where keys and paths are spelled as their components, the index answers as the scan does exactly
      for the paths that end in the name of a file as given and normalised, or in no component that
      could be named; any other is missed in some scope. */
  lemma LookupIsExactIff(path: string)
    requires Clean(Normalize(path))
    ensures
      (forall s | CleanKeys(s) :: Scanned(s.files, s.relativeKeys, path, Find(s, path)))
      <==> NamesOneFile(path) || Last(Normalize(path)) in {"", "."}
  {
    if NamesOneFile(path) {
      forall s | CleanKeys(s) ensures Scanned(s.files, s.relativeKeys, path, Find(s, path)) {
        FindIsTheScan(s, path);
      }
    } else if Last(Normalize(path)) in {"", "."} {
      forall s | CleanKeys(s) ensures Scanned(s.files, s.relativeKeys, path, Find(s, path)) {
        NothingIsMissed(s, path);
      }
    } else {
      MissedBelow(path);
    }
  }

  lemma NothingIsMissed(s: AnalysisScope, path: string)
    requires CleanKeys(s) && Clean(Normalize(path)) && Last(Normalize(path)) in {"", "."}
    ensures Scanned(s.files, s.relativeKeys, path, Find(s, path))
  {
    var normalized := Normalize(path);
    if normalized !in s.files && s.relativeKeys {
      forall key | key in s.files ensures !EitherSuffix(key, normalized) && !OneEndsTheOther(key, normalized) {
        EitherSuffixIff(key, normalized);
        if EitherSuffix(key, normalized) {
          SuffixKeepsLast(key, normalized);
          OneNameless(key, normalized);
        }
      }
      assert Matching(s.files, normalized) == {};
      if FileName(path).Some? {
        NoHits(s.files, Bucket(s.index, FileName(path).value), normalized);
      }
    }
  }

  lemma {:induction false} NoHits(files: map<string, FileHunks>, keys: seq<string>, path: string)
    requires forall key | key in keys :: !EitherSuffix(key, path)
    ensures Resolve(files, keys, path, None) == OutOfScope
    decreases |keys|
  {
    if keys != [] {
      assert keys[0] in keys && forall key | key in keys[1..] :: key in keys;
      NoHits(files, keys[1..], path);
    }
  }

  lemma MissedBelow(path: string)
    requires Clean(Normalize(path)) && !NamesOneFile(path) && Last(Normalize(path)) !in {"", "."}
    ensures
      var s := OneKey(Below(Normalize(path)));
      CleanKeys(s) && !Scanned(s.files, s.relativeKeys, path, Find(s, path))
  {
    var normalized := Normalize(path);
    var key := Below(normalized);
    BelowIsClean(normalized);
    var s := OneKey(key);
    assert FileName(key) == if Last(normalized) == ".." then None else Some(Last(normalized));
    EitherSuffixIff(key, normalized);
    assert Matching(s.files, normalized) == {key};
  }

  // ---- the two gates -------------------------------------------------------------------------------------------

  /** Lines are given counted from 0. */
  predicate Overlaps(h: Hunk, start: nat, end: nat) {
    !(end + 1 < h.start || start + 1 > h.end)
  }

  predicate FileInScope(e: ScopeEntry) {
    match e
    case OutOfScope => false
    case WholeFile => true
    case Hunks(hunks) => hunks != []
  }

  predicate LinesInScope(e: ScopeEntry, start: nat, end: nat) {
    match e
    case OutOfScope => false
    case WholeFile => true
    case Hunks(hunks) => exists i | 0 <= i < |hunks| :: Overlaps(hunks[i], start, end)
  }

  predicate Covers(h: Hunk, line: nat) {
    h.start <= line + 1 <= h.end
  }

  predicate SharesLine(h: Hunk, start: nat, end: nat) {
    exists line | start <= line <= end :: Covers(h, line)
  }

  lemma OverlapIsASharedLine(h: Hunk, start: nat, end: nat)
    ensures SharesLine(h, start, end) ==> Overlaps(h, start, end)
    ensures h.start <= h.end && start <= end ==> (Overlaps(h, start, end) <==> SharesLine(h, start, end))
  {
    if h.start <= h.end && start <= end && Overlaps(h, start, end) {
      var line := if h.start <= start + 1 then start else h.start - 1;
      assert start <= line <= end && Covers(h, line);
    }
  }

  /** Skipping a file by the first gate loses no line the second would keep; and a file the first
      lets through has such a line, if its hunks are real ranges. */
  lemma GatesAgree(e: ScopeEntry)
    ensures forall start, end | LinesInScope(e, start, end) :: FileInScope(e)
    ensures
      (e.Hunks? ==> forall h | h in e.hunks :: 1 <= h.start <= h.end) ==>
      (FileInScope(e) <==> exists line: nat :: LinesInScope(e, line, line))
  {
    if (e.Hunks? ==> forall h | h in e.hunks :: 1 <= h.start <= h.end) && FileInScope(e) {
      if e.Hunks? {
        var h := e.hunks[0];
        assert h in e.hunks && Overlaps(h, h.start - 1, h.start - 1);
        assert LinesInScope(e, h.start - 1, h.start - 1);
      } else {
        assert LinesInScope(e, 0, 0);
      }
    }
  }
}
