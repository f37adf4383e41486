/** The diagnostics configuration as a key of memoised answers: its lists are sorted and
    deduplicated, and looked up by binary search. */
module ConfigKey {
  import opened Common
  import opened Order

  // ---- sorting and deduplicating by a key --------------------------------------------------------------

  /** In front of the first entry whose key is not smaller, so entries of one key keep their order. */
  function InsertBy<T>(key: T -> string, x: T, sorted: seq<T>): (r: seq<T>)
    ensures |r| == |sorted| + 1
  {
    if sorted == [] || !Before(key(sorted[0]), key(x)) then [x] + sorted
    else [sorted[0]] + InsertBy(key, x, sorted[1..])
  }

  function SortBy<T>(key: T -> string, xs: seq<T>): (r: seq<T>)
    ensures |r| == |xs|
  {
    if xs == [] then [] else InsertBy(key, xs[0], SortBy(key, xs[1..]))
  }

  /** Of entries of one key next to each other the first stays. */
  function DedupBy<T>(key: T -> string, xs: seq<T>): (r: seq<T>)
    ensures xs != [] ==> r != [] && r[0] == xs[0]
    decreases |xs|
  {
    if |xs| <= 1 then xs
    else if key(xs[0]) == key(xs[1]) then DedupBy(key, [xs[0]] + xs[2..])
    else [xs[0]] + DedupBy(key, xs[1..])
  }

  function Canonical<T>(key: T -> string, xs: seq<T>): seq<T> {
    DedupBy(key, SortBy(key, xs))
  }

  /** The first entry supplied for a code. */
  function First<T>(key: T -> string, xs: seq<T>, code: string): Option<T> {
    if xs == [] then None else if key(xs[0]) == code then Some(xs[0]) else First(key, xs[1..], code)
  }

  ghost predicate Ascending<T>(key: T -> string, xs: seq<T>) {
    forall i, j | 0 <= i < j < |xs| :: !Before(key(xs[j]), key(xs[i]))
  }

  ghost predicate Strict<T>(key: T -> string, xs: seq<T>) {
    forall i, j | 0 <= i < j < |xs| :: Before(key(xs[i]), key(xs[j]))
  }

  lemma NotBeforeIsTransitive(a: string, b: string, c: string)
    requires !Before(b, a) && !Before(c, b)
    ensures !Before(c, a)
  {
    BeforeIsTotal(a, b);
    BeforeIsTotal(b, c);
    if Before(a, b) && Before(b, c) {
      BeforeIsTransitive(a, b, c);
    }
    BeforeIsTotal(a, c);
  }

  lemma AscendingFromHead<T>(key: T -> string, x: T, xs: seq<T>)
    requires Ascending(key, xs) && (xs != [] ==> !Before(key(xs[0]), key(x)))
    ensures Ascending(key, [x] + xs)
  {
    var all := [x] + xs;
    forall i, j | 0 <= i < j < |all| ensures !Before(key(all[j]), key(all[i])) {
      if i == 0 && j > 1 {
        NotBeforeIsTransitive(key(x), key(xs[0]), key(xs[j - 1]));
      }
    }
  }

  lemma {:induction false} InsertKeeps<T>(key: T -> string, x: T, sorted: seq<T>, code: string)
    requires Ascending(key, sorted)
    ensures Ascending(key, InsertBy(key, x, sorted))
    ensures First(key, InsertBy(key, x, sorted), code) == if key(x) == code then Some(x) else First(key, sorted, code)
    ensures InsertBy(key, x, sorted)[0] == x || (sorted != [] && InsertBy(key, x, sorted)[0] == sorted[0])
  {
    BeforeIsTotal(key(x), key(x));
    if sorted == [] || !Before(key(sorted[0]), key(x)) {
      AscendingFromHead(key, x, sorted);
      assert ([x] + sorted)[1..] == sorted;
    } else {
      var head, tail := sorted[0], InsertBy(key, x, sorted[1..]);
      InsertKeeps(key, x, sorted[1..], code);
      BeforeIsTotal(key(head), key(x));
      AscendingFromHead(key, head, tail);
      assert ([head] + tail)[1..] == tail;
    }
  }

  lemma {:induction false} SortKeeps<T>(key: T -> string, xs: seq<T>, code: string)
    ensures Ascending(key, SortBy(key, xs)) && First(key, SortBy(key, xs), code) == First(key, xs, code)
  {
    if xs != [] {
      SortKeeps(key, xs[1..], code);
      InsertKeeps(key, xs[0], SortBy(key, xs[1..]), code);
    }
  }

  lemma {:induction false} DedupKeeps<T>(key: T -> string, xs: seq<T>, code: string)
    requires Ascending(key, xs)
    ensures Strict(key, DedupBy(key, xs)) && First(key, DedupBy(key, xs), code) == First(key, xs, code)
    decreases |xs|
  {
    if |xs| > 1 {
      if key(xs[0]) == key(xs[1]) {
        var fewer := [xs[0]] + xs[2..];
        assert forall i | 1 <= i < |fewer| :: fewer[i] == xs[i + 1];
        DedupKeeps(key, fewer, code);
        assert fewer[1..] == xs[1..][1..];
      } else {
        var tail := DedupBy(key, xs[1..]);
        DedupKeeps(key, xs[1..], code);
        StrictFromHead(key, xs[0], xs[1], tail);
        assert ([xs[0]] + tail)[1..] == tail;
      }
    }
  }

  lemma StrictFromHead<T>(key: T -> string, x: T, y: T, tail: seq<T>)
    requires Strict(key, tail) && tail != [] && tail[0] == y && key(x) != key(y) && !Before(key(y), key(x))
    ensures Strict(key, [x] + tail)
  {
    BeforeIsTotal(key(x), key(y));
    forall j | 1 <= j < |tail| ensures Before(key(x), key(tail[j])) {
      BeforeIsTransitive(key(x), key(y), key(tail[j]));
    }
  }

  /** The canonical list is strictly sorted and holds, for each code, the entry that came first. */
  lemma CanonicalHoldsFirst<T>(key: T -> string, xs: seq<T>, code: string)
    ensures Strict(key, Canonical(key, xs)) && First(key, Canonical(key, xs), code) == First(key, xs, code)
  {
    SortKeeps(key, xs, code);
    DedupKeeps(key, SortBy(key, xs), code);
  }

  // ---- one list per meaning ------------------------------------------------------------------------------

  lemma {:induction false} FirstIsAt<T>(key: T -> string, xs: seq<T>, i: nat)
    requires Strict(key, xs) && i < |xs|
    ensures First(key, xs, key(xs[i])) == Some(xs[i])
  {
    if i > 0 {
      BeforeIsTotal(key(xs[0]), key(xs[i]));
      assert Before(key(xs[0]), key(xs[i]));
      FirstIsAt(key, xs[1..], i - 1);
    }
  }

  lemma {:induction false} FirstIsMember<T>(key: T -> string, xs: seq<T>, code: string)
    ensures First(key, xs, code).Some? ==> First(key, xs, code).value in xs && key(First(key, xs, code).value) == code
    ensures First(key, xs, code).None? ==> forall x | x in xs :: key(x) != code
  {
    if xs != [] && key(xs[0]) != code {
      FirstIsMember(key, xs[1..], code);
      assert xs == [xs[0]] + xs[1..];
    }
  }

  lemma HeadIsLeast<T>(key: T -> string, xs: seq<T>, x: T)
    requires Strict(key, xs) && xs != [] && x in xs
    ensures x == xs[0] || Before(key(xs[0]), key(x))
  {
  }

  lemma {:induction false} StrictIsUnique<T(!new)>(key: T -> string, xs: seq<T>, ys: seq<T>)
    requires Strict(key, xs) && Strict(key, ys)
    requires forall code :: First(key, xs, code) == First(key, ys, code)
    ensures xs == ys
    decreases |xs|
  {
    if xs == [] {
      if ys != [] {
        FirstIsAt(key, ys, 0);
        var other := First(key, xs, key(ys[0]));
      }
    } else {
      SameHead(key, xs, ys);
      forall code ensures First(key, xs[1..], code) == First(key, ys[1..], code) {
        assert First(key, xs, code) == First(key, ys, code);
        if code == key(xs[0]) {
          NotInTail(key, xs);
          NotInTail(key, ys);
        }
      }
      StrictIsUnique(key, xs[1..], ys[1..]);
      assert xs == [xs[0]] + xs[1..] && ys == [ys[0]] + ys[1..];
    }
  }

  lemma SameHead<T(!new)>(key: T -> string, xs: seq<T>, ys: seq<T>)
    requires Strict(key, xs) && Strict(key, ys) && xs != []
    requires forall code :: First(key, xs, code) == First(key, ys, code)
    ensures ys != [] && xs[0] == ys[0]
  {
    FirstIsAt(key, xs, 0);
    assert First(key, ys, key(xs[0])) == Some(xs[0]);
    FirstIsMember(key, ys, key(xs[0]));
    HeadIsLeast(key, ys, xs[0]);
    FirstIsAt(key, ys, 0);
    assert First(key, xs, key(ys[0])) == Some(ys[0]);
    FirstIsMember(key, xs, key(ys[0]));
    HeadIsLeast(key, xs, ys[0]);
    BeforeIsTotal(key(xs[0]), key(ys[0]));
  }

  lemma NotInTail<T>(key: T -> string, xs: seq<T>)
    requires Strict(key, xs) && xs != []
    ensures First(key, xs[1..], key(xs[0])) == None
  {
    FirstIsMember(key, xs[1..], key(xs[0]));
    forall x | x in xs[1..] ensures key(x) != key(xs[0]) {
      var i :| 0 <= i < |xs[1..]| && xs[1..][i] == x;
      assert Before(key(xs[0]), key(xs[i + 1]));
      BeforeIsTotal(key(xs[0]), key(xs[0]));
    }
  }

  ghost predicate SameAnswers<T>(key: T -> string, xs: seq<T>, ys: seq<T>) {
    forall code :: First(key, xs, code) == First(key, ys, code)
  }

  /** Two lists have one canonical form exactly if they answer alike for every code. */
  lemma SameKeyIffSameAnswers<T(!new)>(key: T -> string, xs: seq<T>, ys: seq<T>)
    ensures Canonical(key, xs) == Canonical(key, ys) <==> SameAnswers(key, xs, ys)
  {
    var cx, cy := Canonical(key, xs), Canonical(key, ys);
    CanonicalHoldsFirst(key, xs, "");
    CanonicalHoldsFirst(key, ys, "");
    if cx == cy {
      forall code ensures First(key, xs, code) == First(key, ys, code) {
        CanonicalHoldsFirst(key, xs, code);
        CanonicalHoldsFirst(key, ys, code);
      }
    }
    if SameAnswers(key, xs, ys) {
      forall code ensures First(key, cx, code) == First(key, cy, code) {
        CanonicalHoldsFirst(key, xs, code);
        CanonicalHoldsFirst(key, ys, code);
        assert First(key, xs, code) == First(key, ys, code);
      }
      StrictIsUnique(key, cx, cy);
    }
  }

  ghost predicate OnePerCode<T>(key: T -> string, xs: seq<T>) {
    forall x, y | x in xs && y in xs && key(x) == key(y) :: x == y
  }

  /** The order in which entries are supplied does not show, if no code is given two of them. */
  lemma OrderDoesNotShow<T(!new)>(key: T -> string, xs: seq<T>, ys: seq<T>)
    requires OnePerCode(key, xs) && forall x :: x in xs <==> x in ys
    ensures Canonical(key, xs) == Canonical(key, ys)
  {
    forall code ensures First(key, xs, code) == First(key, ys, code) {
      FirstIsMember(key, xs, code);
      FirstIsMember(key, ys, code);
    }
    SameKeyIffSameAnswers(key, xs, ys);
  }

  // ---- looking up --------------------------------------------------------------------------------------------

  method BinarySearch<T>(key: T -> string, xs: seq<T>, code: string) returns (found: Option<nat>)
    requires Strict(key, xs)
    ensures found.Some? ==> found.value < |xs| && key(xs[found.value]) == code
    ensures found.None? ==> forall i | 0 <= i < |xs| :: key(xs[i]) != code
  {
    var low, high := 0, |xs|;
    while low < high
      invariant 0 <= low <= high <= |xs|
      invariant forall i | 0 <= i < low :: Before(key(xs[i]), code)
      invariant forall i | high <= i < |xs| :: Before(code, key(xs[i]))
    {
      var middle := (low + high) / 2;
      BeforeIsTotal(key(xs[middle]), code);
      if key(xs[middle]) == code {
        return Some(middle);
      } else if Before(key(xs[middle]), code) {
        forall i | low <= i <= middle ensures Before(key(xs[i]), code) {
          if i < middle {
            BeforeIsTransitive(key(xs[i]), key(xs[middle]), code);
          }
        }
        low := middle + 1;
      } else {
        forall i | middle <= i < high ensures Before(code, key(xs[i])) {
          if i > middle {
            BeforeIsTransitive(code, key(xs[middle]), key(xs[i]));
          }
        }
        high := middle;
      }
    }
    forall i | 0 <= i < |xs| ensures key(xs[i]) != code {
      BeforeIsTotal(key(xs[i]), code);
    }
    found := None;
  }

  // ---- the configuration --------------------------------------------------------------------------------------

  function Code(code: string): string { code }

  function CodeOf(entry: (string, string)): string { entry.0 }

  /** The lists of the key; what else is in it is passed through untouched. */
  datatype Config = Config(
    disabled: seq<string>,
    enabled: seq<string>,
    parameters: seq<(string, string)>,
    onlyEnabled: Option<seq<string>>,
    overrides: seq<(string, string)>,
    rest: int)

  function FromRaw(disabled: seq<string>, enabled: seq<string>, parameters: seq<(string, string)>, rest: int): Config {
    Config(Canonical(Code, disabled), Canonical(Code, enabled), Canonical(CodeOf, parameters), None, [], rest)
  }

  function WithFilters(c: Config, only: Option<seq<string>>, overrides: seq<(string, string)>): Config {
    c.(onlyEnabled := if only.None? then None else Some(Canonical(Code, only.value)),
       overrides := Canonical(CodeOf, overrides))
  }

  lemma {:induction false} FirstOfCodes(xs: seq<string>, code: string)
    ensures First(Code, xs, code) == if code in xs then Some(code) else None
  {
    FirstIsMember(Code, xs, code);
  }

  /** A list in its canonical form holds the codes supplied, and nothing else. */
  lemma CodesAreKept(codes: seq<string>)
    ensures forall code :: code in Canonical(Code, codes) <==> code in codes
  {
    forall code ensures code in Canonical(Code, codes) <==> code in codes {
      CanonicalHoldsFirst(Code, codes, code);
      FirstOfCodes(codes, code);
      FirstOfCodes(Canonical(Code, codes), code);
    }
  }

  /** What a configuration is made of: each list under its own name, in strict order, each code with the
      first that was supplied for it, and no filters yet. */
  lemma RawIsKept(d: seq<string>, e: seq<string>, p: seq<(string, string)>, rest: int)
    ensures
      var c := FromRaw(d, e, p, rest);
      && (forall code :: code in c.disabled <==> code in d)
      && (forall code :: code in c.enabled <==> code in e)
      && SameAnswers(CodeOf, c.parameters, p)
      && Strict(Code, c.disabled) && Strict(Code, c.enabled) && Strict(CodeOf, c.parameters)
      && c.onlyEnabled == None && c.overrides == [] && c.rest == rest
  {
    CodesAreKept(d);
    CodesAreKept(e);
    CanonicalHoldsFirst(Code, d, "");
    CanonicalHoldsFirst(Code, e, "");
    forall code ensures First(CodeOf, FromRaw(d, e, p, rest).parameters, code) == First(CodeOf, p, code) {
      CanonicalHoldsFirst(CodeOf, p, code);
    }
    CanonicalHoldsFirst(CodeOf, p, "");
  }

  /** Filters are put beside that and leave it alone. */
  lemma FiltersAreKept(c: Config, only: Option<seq<string>>, o: seq<(string, string)>)
    ensures
      var k := WithFilters(c, only, o);
      && (k.onlyEnabled.None? <==> only.None?)
      && (only.Some? ==> forall code :: code in k.onlyEnabled.value <==> code in only.value)
      && SameAnswers(CodeOf, k.overrides, o) && Strict(CodeOf, k.overrides)
      && k == c.(onlyEnabled := k.onlyEnabled, overrides := k.overrides)
  {
    if only.Some? {
      CodesAreKept(only.value);
    }
    forall code ensures First(CodeOf, WithFilters(c, only, o).overrides, code) == First(CodeOf, o, code) {
      CanonicalHoldsFirst(CodeOf, o, code);
    }
    CanonicalHoldsFirst(CodeOf, o, "");
  }

  /** A code is disabled exactly if it was among the codes supplied. */
  method IsDisabled(
      ghost d: seq<string>, ghost e: seq<string>, ghost p: seq<(string, string)>, c: Config, code: string)
    returns (yes: bool)
    requires c == FromRaw(d, e, p, c.rest).(onlyEnabled := c.onlyEnabled, overrides := c.overrides)
    ensures yes <==> code in d
  {
    RawIsKept(d, e, p, c.rest);
    FirstIsMember(Code, c.disabled, code);
    FirstOfCodes(c.disabled, code);
    var found := BinarySearch(Code, c.disabled, code);
    yes := found.Some?;
  }

  /** The parameters of a code are the first that were supplied for it. */
  method GetParameters(
      ghost d: seq<string>, ghost e: seq<string>, ghost p: seq<(string, string)>, c: Config, code: string)
    returns (r: Option<string>)
    requires c == FromRaw(d, e, p, c.rest).(onlyEnabled := c.onlyEnabled, overrides := c.overrides)
    ensures
      var first := First(CodeOf, p, code);
      r == if first.None? then None else Some(first.value.1)
  {
    RawIsKept(d, e, p, c.rest);
    FirstIsMember(CodeOf, c.parameters, code);
    var found := BinarySearch(CodeOf, c.parameters, code);
    if found.None? {
      return None;
    }
    FirstIsAt(CodeOf, c.parameters, found.value);
    r := Some(c.parameters[found.value].1);
  }

  /** Two configurations are one key exactly if they disable and enable the same codes, answer alike
      for parameters, and agree in the rest: no memoised answer is computed twice for a mere
      reordering, and none is shared between configurations that differ. */
  lemma SameConfigIff(
    d: seq<string>, e: seq<string>, p: seq<(string, string)>, rest: int,
    d': seq<string>, e': seq<string>, p': seq<(string, string)>, rest': int)
    ensures
      FromRaw(d, e, p, rest) == FromRaw(d', e', p', rest') <==>
      && (forall code :: code in d <==> code in d')
      && (forall code :: code in e <==> code in e')
      && SameAnswers(CodeOf, p, p')
      && rest == rest'
  {
    SameCodesIff(d, d');
    SameCodesIff(e, e');
    SameKeyIffSameAnswers(CodeOf, p, p');
  }

  lemma SameCodesIff(d: seq<string>, d': seq<string>)
    ensures Canonical(Code, d) == Canonical(Code, d') <==> forall code :: code in d <==> code in d'
  {
    SameKeyIffSameAnswers(Code, d, d');
    forall code ensures First(Code, d, code) == First(Code, d', code) <==> (code in d <==> code in d') {
      FirstOfCodes(d, code);
      FirstOfCodes(d', code);
    }
    if SameAnswers(Code, d, d') {
      forall code ensures code in d <==> code in d' {
        assert First(Code, d, code) == First(Code, d', code);
      }
    }
  }

  /** The same of the filters. */
  lemma SameFiltersIff(
    c: Config, only: seq<string>, o: seq<(string, string)>, only': seq<string>, o': seq<(string, string)>)
    ensures
      WithFilters(c, Some(only), o) == WithFilters(c, Some(only'), o') <==>
      && (forall code :: code in only <==> code in only')
      && SameAnswers(CodeOf, o, o')
    ensures WithFilters(c, None, o) != WithFilters(c, Some(only), o)
  {
    SameCodesIff(only, only');
    SameKeyIffSameAnswers(CodeOf, o, o');
  }
}
