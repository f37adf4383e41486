/** The edit between two texts: what the incremental parser is told about a change.

    A text is a sequence of bytes; `char` stands for a byte. The program compares whole
    blocks before it compares bytes, so the two scans below are loops proved to compute
    the plain recursive definitions. */
module TextEdits {
  import opened Common

  type Text = string

  /** Half-open ranges: `oldStart..oldEnd` of the old text became `newStart..newEnd`. */
  datatype TextEdit = TextEdit(oldStart: nat, oldEnd: nat, newStart: nat, newEnd: nat)

  /** How many leading elements two texts share. */
  function CommonPrefixLength(a: Text, b: Text): (n: nat)
    ensures n <= |a| && n <= |b|
    ensures n < |a| && n < |b| ==> a[n] != b[n]
  {
    if |a| == 0 || |b| == 0 || a[0] != b[0] then 0 else 1 + CommonPrefixLength(a[1..], b[1..])
  }

  /** How many trailing elements two texts share. */
  function CommonSuffixLength(a: Text, b: Text): (n: nat)
    ensures n <= |a| && n <= |b|
    ensures n < |a| && n < |b| ==> a[|a| - 1 - n] != b[|b| - 1 - n]
  {
    if |a| == 0 || |b| == 0 || a[|a| - 1] != b[|b| - 1] then 0
    else 1 + CommonSuffixLength(a[..|a| - 1], b[..|b| - 1])
  }

  lemma {:induction false} PrefixIsShared(a: Text, b: Text)
    ensures forall k :: 0 <= k < CommonPrefixLength(a, b) ==> a[k] == b[k]
  {
    if CommonPrefixLength(a, b) > 0 {
      PrefixIsShared(a[1..], b[1..]);
      forall k | 0 < k < CommonPrefixLength(a, b) ensures a[k] == b[k] {
        assert a[1..][k - 1] == b[1..][k - 1];
      }
    }
  }

  lemma {:induction false} SuffixIsShared(a: Text, b: Text)
    ensures forall j :: |a| - CommonSuffixLength(a, b) <= j < |a| ==> a[j] == b[j - |a| + |b|]
  {
    if CommonSuffixLength(a, b) > 0 {
      SuffixIsShared(a[..|a| - 1], b[..|b| - 1]);
    }
  }

  const BLOCK: nat := 256

  /** Whole blocks first, then one element at a time. */
  method CommonPrefix(a: Text, b: Text) returns (i: nat)
    ensures i == CommonPrefixLength(a, b)
  {
    var n := if |a| <= |b| then |a| else |b|;
    i := 0;
    while i + BLOCK <= n && a[i..i + BLOCK] == b[i..i + BLOCK]
      invariant i <= n
      invariant forall k :: 0 <= k < i ==> a[k] == b[k]
    {
      forall k | i <= k < i + BLOCK ensures a[k] == b[k] {
        assert a[i..i + BLOCK][k - i] == b[i..i + BLOCK][k - i];
      }
      i := i + BLOCK;
    }
    while i < n && a[i] == b[i]
      invariant i <= n
      invariant forall k :: 0 <= k < i ==> a[k] == b[k]
    {
      i := i + 1;
    }
    PrefixIsShared(a, b);
  }

  /** A shared stretch right before a shared tail makes a longer one. */
  lemma LongerTail(a: Text, b: Text, i: nat, n: nat)
    requires i + n <= |a| && i + n <= |b| && a[|a| - i..] == b[|b| - i..]
    requires a[|a| - i - n..|a| - i] == b[|b| - i - n..|b| - i]
    ensures a[|a| - (i + n)..] == b[|b| - (i + n)..]
  {
    assert a[|a| - (i + n)..] == a[|a| - i - n..|a| - i] + a[|a| - i..];
    assert b[|b| - (i + n)..] == b[|b| - i - n..|b| - i] + b[|b| - i..];
  }

  lemma OneLonger(a: Text, b: Text, i: nat)
    requires i < |a| && i < |b| && a[|a| - i..] == b[|b| - i..] && a[|a| - 1 - i] == b[|b| - 1 - i]
    ensures a[|a| - (i + 1)..] == b[|b| - (i + 1)..]
  {
    assert a[|a| - (i + 1)..] == [a[|a| - 1 - i]] + a[|a| - i..];
    assert b[|b| - (i + 1)..] == [b[|b| - 1 - i]] + b[|b| - i..];
  }

  lemma TailEntry(a: Text, b: Text, n: nat, k: nat)
    requires k < n <= |a| && n <= |b| && a[|a| - n..] == b[|b| - n..]
    ensures a[|a| - 1 - k] == b[|b| - 1 - k]
  {
    assert a[|a| - n..][n - 1 - k] == b[|b| - n..][n - 1 - k];
  }

  /** A shared tail that cannot be made longer is all that is shared. */
  lemma LongestTail(a: Text, b: Text, i: nat)
    requires i <= |a| && i <= |b| && a[|a| - i..] == b[|b| - i..]
    requires i < |a| && i < |b| ==> a[|a| - 1 - i] != b[|b| - 1 - i]
    ensures i == CommonSuffixLength(a, b)
  {
    var n := CommonSuffixLength(a, b);
    SharedTail(a, b, n);
    if n < i {
      TailEntry(a, b, i, n);
    } else if i < n {
      TailEntry(a, b, n, i);
    }
  }

  method CommonSuffix(a: Text, b: Text) returns (i: nat)
    ensures i == CommonSuffixLength(a, b)
  {
    var n := if |a| <= |b| then |a| else |b|;
    i := 0;
    while i + BLOCK <= n
      && a[|a| - i - BLOCK..|a| - i] == b[|b| - i - BLOCK..|b| - i]
      invariant i <= n && a[|a| - i..] == b[|b| - i..]
    {
      LongerTail(a, b, i, BLOCK);
      i := i + BLOCK;
    }
    while i < n && a[|a| - 1 - i] == b[|b| - 1 - i]
      invariant i <= n && a[|a| - i..] == b[|b| - i..]
    {
      OneLonger(a, b, i);
      i := i + 1;
    }
    LongestTail(a, b, i);
  }

  /** The edit that turns `before` into `after`, or nothing when the texts are equal. The suffix
      is taken after the prefix, so the two never overlap. */
  function EditBetween(before: Text, after: Text): Option<TextEdit>
  {
    var prefix := CommonPrefixLength(before, after);
    if prefix == |before| && prefix == |after| then None
    else
      var suffix := CommonSuffixLength(before[prefix..], after[prefix..]);
      Some(TextEdit(prefix, |before| - suffix, prefix, |after| - suffix))
  }

  method FindEdit(before: Text, after: Text) returns (edit: Option<TextEdit>)
    ensures edit == EditBetween(before, after)
  {
    var prefix := CommonPrefix(before, after);
    if prefix == |before| && prefix == |after| {
      return None;
    }
    var suffix := CommonSuffix(before[prefix..], after[prefix..]);
    return Some(TextEdit(prefix, |before| - suffix, prefix, |after| - suffix));
  }

  /** What an edit does: the old text outside its range, the new text inside. */
  function Applied(before: Text, after: Text, e: TextEdit): Text
    requires e.oldStart <= e.oldEnd <= |before| && e.newStart <= e.newEnd <= |after|
  {
    before[..e.oldStart] + after[e.newStart..e.newEnd] + before[e.oldEnd..]
  }

  /** Texts that share a prefix and, after it, a suffix differ only in between. */
  lemma SplitAtSharedEnds(before: Text, after: Text, p: nat, s: nat)
    requires p <= |before| - s && p <= |after| - s
    requires before[..p] == after[..p] && before[|before| - s..] == after[|after| - s..]
    ensures Applied(before, after, TextEdit(p, |before| - s, p, |after| - s)) == after
  {
    assert after == after[..p] + after[p..|after| - s] + after[|after| - s..];
  }

  /** What two rests share at their ends, the whole texts share. */
  lemma TailOf(t: Text, rest: Text, p: nat, s: nat)
    requires p <= |t| && rest == t[p..] && s <= |rest|
    ensures p + s <= |t| && rest[|rest| - s..] == t[|t| - s..]
  {
  }

  /** Equal prefixes and suffixes, as slices. */
  lemma SharedHead(a: Text, b: Text, n: nat)
    requires n == CommonPrefixLength(a, b)
    ensures a[..n] == b[..n]
  {
    PrefixIsShared(a, b);
  }

  lemma SharedTail(a: Text, b: Text, n: nat)
    requires n == CommonSuffixLength(a, b)
    ensures a[|a| - n..] == b[|b| - n..]
  {
    SuffixIsShared(a, b);
  }

  /** No edit means equal texts; an edit has ordered ranges and rebuilds the new text from
      the old one. */
  lemma EditRebuildsTheNewText(before: Text, after: Text)
    ensures EditBetween(before, after).None? <==> before == after
    ensures EditBetween(before, after).Some? ==>
      var e := EditBetween(before, after).value;
      && e.oldStart <= e.oldEnd <= |before| && e.newStart <= e.newEnd <= |after|
      && Applied(before, after, e) == after
  {
    NoEditMeansEqual(before, after);
    if EditBetween(before, after).Some? {
      SomeEditRebuilds(before, after, EditBetween(before, after).value);
    }
  }

  /** It starts where the texts first differ, and its end is then as early as it can be. */
  lemma EditStartsAtTheFirstDifference(before: Text, after: Text, e: TextEdit)
    requires EditBetween(before, after) == Some(e)
    ensures e.oldStart == e.newStart <= |before| && e.oldStart <= |after| && before[..e.oldStart] == after[..e.oldStart]
    ensures e.oldStart < |before| && e.oldStart < |after| ==> before[e.oldStart] != after[e.oldStart]
    ensures e.oldStart <= e.oldEnd <= |before| && e.newStart <= e.newEnd <= |after|
    ensures before[e.oldEnd..] == after[e.newEnd..]
    ensures e.oldStart < e.oldEnd && e.newStart < e.newEnd ==> before[e.oldEnd - 1] != after[e.newEnd - 1]
  {
    EditHead(before, after, e);
    SomeEditRebuilds(before, after, e);
    WhatFollowsIsShared(before, after, e);
    if e.oldStart < e.oldEnd && e.newStart < e.newEnd {
      EditIsNarrow(before, after, e);
    }
  }

  lemma EditHead(before: Text, after: Text, e: TextEdit)
    requires EditBetween(before, after) == Some(e)
    ensures e.oldStart == e.newStart <= |before| && e.oldStart <= |after| && before[..e.oldStart] == after[..e.oldStart]
    ensures e.oldStart < |before| && e.oldStart < |after| ==> before[e.oldStart] != after[e.oldStart]
  {
    SharedHead(before, after, e.oldStart);
  }

  /** What follows an edit that rebuilds the new text is shared. */
  lemma WhatFollowsIsShared(before: Text, after: Text, e: TextEdit)
    requires e.oldStart <= e.oldEnd <= |before| && e.newStart <= e.newEnd <= |after| && e.oldStart == e.newStart
    requires Applied(before, after, e) == after
    ensures before[e.oldEnd..] == after[e.newEnd..]
  {
    var head := before[..e.oldStart] + after[e.newStart..e.newEnd];
    assert |head| == e.newEnd && after == head + before[e.oldEnd..];
  }

  lemma NoEditMeansEqual(before: Text, after: Text)
    ensures EditBetween(before, after).None? <==> before == after
  {
    EqualIffAllShared(before, after);
  }

  lemma SomeEditRebuilds(before: Text, after: Text, e: TextEdit)
    requires EditBetween(before, after) == Some(e)
    ensures e.oldStart <= e.oldEnd <= |before| && e.newStart <= e.newEnd <= |after|
    ensures Applied(before, after, e) == after
  {
    var p := CommonPrefixLength(before, after);
    SharedHead(before, after, p);
    AfterThePrefix(before, after, before[p..], after[p..], p, e);
  }

  lemma AfterThePrefix(before: Text, after: Text, a: Text, b: Text, p: nat, e: TextEdit)
    requires p <= |before| && p <= |after| && before[..p] == after[..p] && a == before[p..] && b == after[p..]
    requires e == TextEdit(p, |before| - CommonSuffixLength(a, b), p, |after| - CommonSuffixLength(a, b))
    ensures e.oldStart <= e.oldEnd <= |before| && e.newStart <= e.newEnd <= |after|
    ensures Applied(before, after, e) == after
  {
    var s := CommonSuffixLength(a, b);
    SharedTail(a, b, s);
    RestsRebuild(before, after, a, b, p, s, e);
  }

  lemma RestsRebuild(before: Text, after: Text, a: Text, b: Text, p: nat, s: nat, e: TextEdit)
    requires p <= |before| && p <= |after| && before[..p] == after[..p]
    requires a == before[p..] && b == after[p..] && s <= |a| && s <= |b| && a[|a| - s..] == b[|b| - s..]
    requires e == TextEdit(p, |before| - s, p, |after| - s)
    ensures e.oldStart <= e.oldEnd <= |before| && e.newStart <= e.newEnd <= |after|
    ensures Applied(before, after, e) == after
  {
    TailOf(before, a, p, s);
    TailOf(after, b, p, s);
    SplitAtSharedEnds(before, after, p, s);
  }

  lemma EqualIffAllShared(a: Text, b: Text)
    ensures a == b <==> CommonPrefixLength(a, b) == |a| && CommonPrefixLength(a, b) == |b|
  {
    PrefixIsShared(a, b);
  }

  /** The edit is as narrow as it can be: a non-empty pair of ranges differs at both ends. */
  lemma EditIsNarrow(before: Text, after: Text, e: TextEdit)
    requires EditBetween(before, after) == Some(e)
    requires e.oldStart < e.oldEnd && e.newStart < e.newEnd
    ensures e.oldEnd <= |before| && e.newEnd <= |after|
    ensures before[e.oldStart] != after[e.newStart] && before[e.oldEnd - 1] != after[e.newEnd - 1]
  {
    var p := CommonPrefixLength(before, after);
    var s := CommonSuffixLength(before[p..], after[p..]);
    assert before[p..][|before| - p - 1 - s] == before[e.oldEnd - 1];
  }
}
