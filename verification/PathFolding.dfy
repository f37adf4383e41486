/** Keys for element paths that stay short under recursion: no name is kept more than twice, and
    going deeper leads back to the last place kept. */
module PathFolding {

  type QName = string
  type Path = seq<QName>

  const FOLD_LIMIT: nat := 2

  function Count(path: Path, tag: QName): nat {
    if path == [] then 0 else Count(path[..|path| - 1], tag) + (if path[|path| - 1] == tag then 1 else 0)
  }

  /** The prefix up to and including the last occurrence. */
  function UpToLast(path: Path, tag: QName): (prefix: Path)
    requires Count(path, tag) > 0
    ensures prefix <= path && prefix != [] && prefix[|prefix| - 1] == tag
    ensures forall k | |prefix| <= k < |path| :: path[k] != tag
  {
    if path[|path| - 1] == tag then path else UpToLast(path[..|path| - 1], tag)
  }

  /** The key of `tag` under a folded parent path. */
  function Fold(parent: Path, tag: QName): Path {
    if Count(parent, tag) < FOLD_LIMIT then parent + [tag] else UpToLast(parent, tag)
  }

  function FoldPath(path: Path): Path {
    if path == [] then [] else Fold(FoldPath(path[..|path| - 1]), path[|path| - 1])
  }

  ghost predicate Folded(path: Path) {
    forall tag :: Count(path, tag) <= FOLD_LIMIT
  }

  lemma {:induction false} CountOfAppend(a: Path, b: Path, tag: QName)
    ensures Count(a + b, tag) == Count(a, tag) + Count(b, tag)
  {
    if b == [] {
      assert a + b == a;
    } else {
      assert (a + b)[..|a + b| - 1] == a + b[..|b| - 1];
      CountOfAppend(a, b[..|b| - 1], tag);
    }
  }

  lemma PrefixCountsLess(a: Path, path: Path, tag: QName)
    requires a <= path
    ensures Count(a, tag) <= Count(path, tag)
  {
    assert path == a + path[|a|..];
    CountOfAppend(a, path[|a|..], tag);
  }

  lemma FoldKeepsFolded(parent: Path, tag: QName)
    requires Folded(parent)
    ensures Folded(Fold(parent, tag))
  {
    forall t ensures Count(Fold(parent, tag), t) <= FOLD_LIMIT {
      if Count(parent, tag) < FOLD_LIMIT {
        assert (parent + [tag])[..|parent|] == parent;
      } else {
        PrefixCountsLess(UpToLast(parent, tag), parent, t);
      }
    }
  }

  /** No name is met more than twice on a folded path, and the path ends where it did. */
  lemma {:induction false} FoldedAtMostTwice(path: Path)
    ensures Folded(FoldPath(path))
    ensures path != [] ==> FoldPath(path) != [] && FoldPath(path)[|FoldPath(path)| - 1] == path[|path| - 1]
  {
    if path == [] {
      assert Folded(FoldPath(path));
    } else {
      FoldedAtMostTwice(path[..|path| - 1]);
      FoldKeepsFolded(FoldPath(path[..|path| - 1]), path[|path| - 1]);
    }
  }

  /** A path with no third occurrence is its own key. */
  lemma {:induction false} FoldedPathIsItsKey(path: Path)
    requires Folded(path)
    ensures FoldPath(path) == path
  {
    if path != [] {
      var parent, tag := path[..|path| - 1], path[|path| - 1];
      assert path == parent + [tag];
      forall t ensures Count(parent, t) <= FOLD_LIMIT {
        PrefixCountsLess(parent, path, t);
      }
      FoldedPathIsItsKey(parent);
      assert Count(path, tag) == Count(parent, tag) + 1;
    }
  }

  /** The keys are exactly the paths without a third occurrence, and folding twice is folding once. */
  lemma FoldIsIdempotent(path: Path)
    ensures FoldPath(FoldPath(path)) == FoldPath(path)
    ensures FoldPath(path) == path <==> Folded(path)
  {
    FoldedAtMostTwice(path);
    FoldedPathIsItsKey(FoldPath(path));
    if Folded(path) {
      FoldedPathIsItsKey(path);
    }
  }

  lemma FoldPathEnds(a: Path, suffix: Path)
    requires suffix != []
    ensures FoldPath(a + suffix) == Fold(FoldPath(a + suffix[..|suffix| - 1]), suffix[|suffix| - 1])
  {
    assert (a + suffix)[..|a + suffix| - 1] == a + suffix[..|suffix| - 1];
  }

  /** Folding step by step along a suffix starts from the key of the prefix alone. */
  lemma {:induction false} FoldIsACongruence(a: Path, b: Path, suffix: Path)
    requires FoldPath(a) == FoldPath(b)
    ensures FoldPath(a + suffix) == FoldPath(b + suffix)
  {
    if suffix == [] {
      assert a + suffix == a && b + suffix == b;
    } else {
      var init := suffix[..|suffix| - 1];
      FoldIsACongruence(a, b, init);
      FoldPathEnds(a, suffix);
      FoldPathEnds(b, suffix);
    }
  }

  // ---- where a fold leads ---------------------------------------------------------------------------

  lemma {:induction false} CountIsMultiplicity(path: Path, tag: QName)
    ensures Count(path, tag) == multiset(path)[tag]
  {
    if path != [] {
      CountIsMultiplicity(path[..|path| - 1], tag);
      assert path == path[..|path| - 1] + [path[|path| - 1]];
    }
  }

  lemma {:induction false} UpToLastHasAll(path: Path, tag: QName)
    requires Count(path, tag) > 0
    ensures Count(UpToLast(path, tag), tag) == Count(path, tag)
  {
    if path[|path| - 1] != tag {
      UpToLastHasAll(path[..|path| - 1], tag);
    }
  }

  /** Going deeper adds the name to the key while the key holds it less than twice; from then on it
      leads back up the key itself, to the second place of that name. */
  lemma FoldStaysUnderItsParent(path: Path, tag: QName)
    ensures
      var key, next := FoldPath(path), FoldPath(path + [tag]);
      && multiset(key)[tag] <= 2
      && (multiset(key)[tag] < 2 ==> next == key + [tag])
      && (multiset(key)[tag] == 2 ==>
            next <= key && next != [] && next[|next| - 1] == tag && multiset(next)[tag] == 2)
  {
    var key := FoldPath(path);
    assert (path + [tag])[..|path|] == path;
    FoldedAtMostTwice(path);
    assert Count(key, tag) <= FOLD_LIMIT;
    CountIsMultiplicity(key, tag);
    if Count(key, tag) == 2 {
      UpToLastHasAll(key, tag);
      CountIsMultiplicity(UpToLast(key, tag), tag);
    }
  }

  // ---- how long a key can be --------------------------------------------------------------------

  function Without(path: Path, tag: QName): (rest: Path)
    ensures |rest| == |path| - Count(path, tag)
    ensures forall t | t in rest :: t in path && t != tag
  {
    if path == [] then []
    else
      var rest := Without(path[..|path| - 1], tag);
      if path[|path| - 1] == tag then rest else rest + [path[|path| - 1]]
  }

  lemma {:induction false} CountWithout(path: Path, tag: QName, t: QName)
    ensures Count(Without(path, tag), t) <= Count(path, t)
  {
    if path != [] {
      CountWithout(path[..|path| - 1], tag, t);
      var rest := Without(path[..|path| - 1], tag);
      assert (rest + [path[|path| - 1]])[..|rest|] == rest;
    }
  }

  /** Keys over an alphabet are at most twice as long as the alphabet is large, however deep the
      documents nest. */
  lemma {:induction false} FoldedLengthIsBounded(path: Path, alphabet: set<QName>)
    requires Folded(path) && forall t | t in path :: t in alphabet
    ensures |path| <= FOLD_LIMIT * |alphabet|
    decreases |alphabet|
  {
    if path != [] {
      var tag := path[0];
      var rest := Without(path, tag);
      forall t ensures Count(rest, t) <= FOLD_LIMIT {
        CountWithout(path, tag, t);
      }
      FoldedLengthIsBounded(rest, alphabet - {tag});
      assert |alphabet - {tag}| == |alphabet| - 1;
    }
  }

  lemma {:induction false} FoldAddsNoNames(path: Path)
    ensures forall t | t in FoldPath(path) :: t in path
  {
    if path != [] {
      var parent := FoldPath(path[..|path| - 1]);
      FoldAddsNoNames(path[..|path| - 1]);
      forall t | t in FoldPath(path) ensures t in path {
        FoldAddsItsTag(parent, path[|path| - 1], t);
        assert t in path[..|path| - 1] || t == path[|path| - 1];
      }
    }
  }

  lemma FoldAddsItsTag(parent: Path, tag: QName, t: QName)
    requires t in Fold(parent, tag)
    ensures t in parent || t == tag
  {
  }

  lemma KeyLengthIsBounded(path: Path, alphabet: set<QName>)
    requires forall t | t in path :: t in alphabet
    ensures |FoldPath(path)| <= FOLD_LIMIT * |alphabet|
  {
    FoldAddsNoNames(path);
    FoldedAtMostTwice(path);
    FoldedLengthIsBounded(FoldPath(path), alphabet);
  }
}
