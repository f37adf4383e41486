/** The order of strings by code point, and sorting by it. */
module Order {

  /** Strictly before, as tuples and strings compare. */
  predicate Before(a: string, b: string) {
    if b == "" then false
    else if a == "" then true
    else if a[0] != b[0] then a[0] < b[0]
    else Before(a[1..], b[1..])
  }

  lemma {:induction false} BeforeIsTotal(a: string, b: string)
    ensures a == b || Before(a, b) || Before(b, a)
    ensures !(Before(a, b) && Before(b, a))
    ensures !Before(a, a)
  {
    if a != "" && b != "" && a[0] == b[0] {
      BeforeIsTotal(a[1..], b[1..]);
      assert a == [a[0]] + a[1..] && b == [b[0]] + b[1..];
    }
    if a != "" {
      BeforeIsTotal(a[1..], a[1..]);
    }
  }

  lemma {:induction false} BeforeIsTransitive(a: string, b: string, c: string)
    requires Before(a, b) && Before(b, c)
    ensures Before(a, c)
  {
    if a != "" && a[0] == b[0] && b[0] == c[0] {
      BeforeIsTransitive(a[1..], b[1..], c[1..]);
    }
  }

  /** Up to some place the two agree, and there the first ends, or has the smaller character. */
  ghost predicate Differ(a: string, b: string, n: nat) {
    && n <= |a| && n < |b| && a[..n] == b[..n]
    && (n == |a| || a[n] < b[n])
  }

  /** What the order of strings means: a proper prefix is before, and else the first difference tells. */
  lemma {:induction false} BeforeIff(a: string, b: string)
    ensures Before(a, b) <==> exists n :: Differ(a, b, n)
  {
    if b != "" && a != "" && a[0] == b[0] {
      BeforeIff(a[1..], b[1..]);
      if n: nat :| Differ(a[1..], b[1..], n) {
        assert a[..n + 1] == [a[0]] + a[1..][..n] && b[..n + 1] == [b[0]] + b[1..][..n];
        assert Differ(a, b, n + 1);
      }
      if n: nat :| Differ(a, b, n) {
        assert n > 0;
        assert a[1..][..n - 1] == a[..n][1..] && b[1..][..n - 1] == b[..n][1..];
        assert Differ(a[1..], b[1..], n - 1);
      }
    } else if b != "" {
      assert Differ(a, b, 0) <==> a == "" || a[0] < b[0];
      forall n: nat ensures Differ(a, b, n) ==> n == 0 {
        if Differ(a, b, n) {
          SameHead(a, b, n);
        }
      }
    }
  }

  lemma SameHead(a: string, b: string, n: nat)
    requires Differ(a, b, n)
    ensures n > 0 ==> a != "" && b != "" && a[0] == b[0]
  {
    if n > 0 {
      assert a[0] == a[..n][0] && b[0] == b[..n][0];
    }
  }

  /** A pair is compared by its first component, then by its second. */
  predicate PairBefore(a: (string, string), b: (string, string)) {
    Before(a.0, b.0) || (a.0 == b.0 && Before(a.1, b.1))
  }

  lemma PairBeforeIff(a: (string, string), b: (string, string))
    ensures
      PairBefore(a, b) <==>
      (exists n :: Differ(a.0, b.0, n)) || (a.0 == b.0 && exists n :: Differ(a.1, b.1, n))
  {
    BeforeIff(a.0, b.0);
    BeforeIff(a.1, b.1);
  }

  lemma PairBeforeIsTotal(a: (string, string), b: (string, string))
    ensures a == b || PairBefore(a, b) || PairBefore(b, a)
    ensures !(PairBefore(a, b) && PairBefore(b, a))
  {
    BeforeIsTotal(a.0, b.0);
    BeforeIsTotal(a.1, b.1);
    BeforeIsTotal(a.0, a.0);
  }

  lemma PairBeforeIsTransitive(a: (string, string), b: (string, string), c: (string, string))
    requires PairBefore(a, b) && PairBefore(b, c)
    ensures PairBefore(a, c)
  {
    if Before(a.0, b.0) && Before(b.0, c.0) {
      BeforeIsTransitive(a.0, b.0, c.0);
    } else if a.0 == b.0 && b.0 == c.0 {
      BeforeIsTransitive(a.1, b.1, c.1);
    }
  }

  // ---- sorted pairs -------------------------------------------------------------------------------

  ghost predicate PairsInOrder(pairs: seq<(string, string)>) {
    forall i, j | 0 <= i < j < |pairs| :: !PairBefore(pairs[j], pairs[i])
  }

  lemma PairsFollow(a: (string, string), b: (string, string), c: (string, string))
    requires !PairBefore(b, a) && !PairBefore(c, b)
    ensures !PairBefore(c, a)
  {
    PairBeforeIsTotal(a, b);
    PairBeforeIsTotal(b, c);
    PairBeforeIsTotal(a, c);
    if PairBefore(c, a) && PairBefore(a, b) {
      PairBeforeIsTransitive(c, a, b);
    }
  }

  method InsertPair(sorted: seq<(string, string)>, pair: (string, string)) returns (r: seq<(string, string)>)
    requires PairsInOrder(sorted)
    ensures PairsInOrder(r) && multiset(r) == multiset(sorted) + multiset{pair}
  {
    var i := 0;
    while i < |sorted| && !PairBefore(pair, sorted[i])
      invariant 0 <= i <= |sorted|
      invariant forall j | 0 <= j < i :: !PairBefore(pair, sorted[j])
    {
      i := i + 1;
    }
    r := sorted[..i] + [pair] + sorted[i..];
    PairInserted(sorted, pair, i);
    assert sorted == sorted[..i] + sorted[i..];
  }

  lemma PairInserted(sorted: seq<(string, string)>, pair: (string, string), i: nat)
    requires PairsInOrder(sorted) && i <= |sorted|
    requires forall j | 0 <= j < i :: !PairBefore(pair, sorted[j])
    requires i < |sorted| ==> PairBefore(pair, sorted[i])
    ensures PairsInOrder(sorted[..i] + [pair] + sorted[i..])
  {
    var r := sorted[..i] + [pair] + sorted[i..];
    forall j, k | 0 <= j < k < |r| ensures !PairBefore(r[k], r[j]) {
      if j == i {
        LaterPairs(sorted, pair, i, k - 1);
      }
    }
  }

  lemma LaterPairs(sorted: seq<(string, string)>, pair: (string, string), i: nat, k: nat)
    requires PairsInOrder(sorted) && i <= k < |sorted| && PairBefore(pair, sorted[i])
    ensures !PairBefore(sorted[k], pair)
  {
    PairBeforeIsTotal(pair, sorted[i]);
    PairBeforeIsTotal(sorted[i], sorted[i]);
    PairsFollow(pair, sorted[i], sorted[k]);
  }

  method SortPairs(pairs: seq<(string, string)>) returns (r: seq<(string, string)>)
    ensures PairsInOrder(r) && multiset(r) == multiset(pairs)
  {
    r := [];
    var i := 0;
    while i < |pairs|
      invariant 0 <= i <= |pairs|
      invariant PairsInOrder(r) && multiset(r) == multiset(pairs[..i])
    {
      assert pairs[..i + 1] == pairs[..i] + [pairs[i]];
      r := InsertPair(r, pairs[i]);
      i := i + 1;
    }
    assert pairs[..|pairs|] == pairs;
  }

  // ---- sorted keys --------------------------------------------------------------------------------

  ghost predicate InOrder(keys: seq<string>) {
    forall i, j | 0 <= i < j < |keys| :: Before(keys[i], keys[j])
  }

  /** The keys in order; there is one such sequence, however the table iterates. */
  ghost predicate Ordered(sorted: seq<string>, keys: set<string>) {
    InOrder(sorted) && forall key :: key in sorted <==> key in keys
  }

  lemma {:induction false} OneOrder(a: seq<string>, b: seq<string>, keys: set<string>)
    requires Ordered(a, keys) && Ordered(b, keys)
    ensures a == b
    decreases |a|
  {
    assert a != [] ==> a[0] in keys;
    assert b != [] ==> b[0] in keys;
    if a != [] && b != [] {
      assert a[0] in b && b[0] in a by {
        assert a[0] in keys && b[0] in keys;
      }
      if a[0] != b[0] {
        var i :| 0 <= i < |b| && b[i] == a[0];
        var j :| 0 <= j < |a| && a[j] == b[0];
        assert Before(b[0], b[i]) && Before(a[0], a[j]);
        BeforeIsTotal(a[0], b[0]);
      }
      FirstIsNotLater(a);
      FirstIsNotLater(b);
      OrderedTail(a, keys);
      OrderedTail(b, keys);
      OneOrder(a[1..], b[1..], keys - {a[0]});
    }
  }

  lemma FirstIsNotLater(a: seq<string>)
    requires InOrder(a) && a != []
    ensures a[0] !in a[1..]
  {
    BeforeIsTotal(a[0], a[0]);
    forall i | 0 <= i < |a| - 1 ensures a[1..][i] != a[0] {
      assert Before(a[0], a[i + 1]);
    }
  }

  lemma OrderedTail(a: seq<string>, keys: set<string>)
    requires Ordered(a, keys) && a != [] && a[0] !in a[1..]
    ensures Ordered(a[1..], keys - {a[0]})
  {
    assert a == [a[0]] + a[1..];
    forall key ensures key in a[1..] <==> key in keys - {a[0]} {
      assert key in a <==> key == a[0] || key in a[1..];
    }
  }

  method Insert(sorted: seq<string>, key: string) returns (r: seq<string>)
    requires InOrder(sorted) && key !in sorted
    ensures InOrder(r) && forall k :: k in r <==> k in sorted || k == key
  {
    var i := 0;
    while i < |sorted| && Before(sorted[i], key)
      invariant 0 <= i <= |sorted|
      invariant forall j | 0 <= j < i :: Before(sorted[j], key)
    {
      i := i + 1;
    }
    r := sorted[..i] + [key] + sorted[i..];
    InsertedInOrder(sorted, key, i);
    InsertedMembers(sorted, key, i);
  }

  lemma InsertedInOrder(sorted: seq<string>, key: string, i: nat)
    requires InOrder(sorted) && key !in sorted && i <= |sorted|
    requires forall j | 0 <= j < i :: Before(sorted[j], key)
    requires i < |sorted| ==> !Before(sorted[i], key)
    ensures InOrder(sorted[..i] + [key] + sorted[i..])
  {
    var r := sorted[..i] + [key] + sorted[i..];
    forall j, k | 0 <= j < k < |r| ensures Before(r[j], r[k]) {
      if j == i {
        BeforeIsTotal(sorted[i], key);
        if k > i + 1 {
          BeforeIsTransitive(key, sorted[i], sorted[k - 1]);
        }
      }
    }
  }

  lemma InsertedMembers(sorted: seq<string>, key: string, i: nat)
    requires i <= |sorted|
    ensures forall k :: k in sorted[..i] + [key] + sorted[i..] <==> k in sorted || k == key
  {
    forall k ensures k in sorted[..i] + [key] + sorted[i..] <==> k in sorted || k == key {
      assert sorted == sorted[..i] + sorted[i..];
    }
  }
}
