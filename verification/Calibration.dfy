/** Noise out of calibration series, and the check that no series of a calibration is judged a
    regression of another by the noise they gave. Ratios are reals. */
module Calibration {
  import opened Common

  const NOISE_SERIES: nat := 5
  const BLOCK_DELTA: real := 0.40
  const ISSUE_DELTA: real := 0.10

  // ---- medians ----------------------------------------------------------------------------------------

  ghost predicate Ascending(s: seq<real>) {
    forall i, j | 0 <= i < j < |s| :: s[i] <= s[j]
  }

  function Insert(x: real, s: seq<real>): (r: seq<real>)
    ensures |r| == |s| + 1
  {
    if s == [] || x <= s[0] then [x] + s else [s[0]] + Insert(x, s[1..])
  }

  function Sort(s: seq<real>): (r: seq<real>)
    ensures |r| == |s|
  {
    if s == [] then [] else Insert(s[0], Sort(s[1..]))
  }

  lemma {:induction false} InsertSorts(x: real, s: seq<real>)
    requires Ascending(s)
    ensures Ascending(Insert(x, s)) && forall y :: y in Insert(x, s) <==> y == x || y in s
  {
    if s != [] && x > s[0] {
      var tail := Insert(x, s[1..]);
      InsertSorts(x, s[1..]);
      assert s == [s[0]] + s[1..];
      forall j | 0 <= j < |tail| ensures s[0] <= tail[j] {
        assert tail[j] in tail;
        if tail[j] != x {
          var i :| 0 <= i < |s[1..]| && s[1..][i] == tail[j];
        }
      }
    }
  }

  /** Sorting sorts, and keeps the values. */
  lemma {:induction false} SortSorts(s: seq<real>)
    ensures Ascending(Sort(s)) && forall y :: y in Sort(s) <==> y in s
  {
    if s != [] {
      SortSorts(s[1..]);
      InsertSorts(s[0], Sort(s[1..]));
      assert s == [s[0]] + s[1..];
    }
  }

  function Median(s: seq<real>): real
    requires s != []
  {
    var sorted := Sort(s);
    if |s| % 2 == 1 then sorted[|s| / 2] else (sorted[|s| / 2 - 1] + sorted[|s| / 2]) / 2.0
  }

  function Max(s: seq<real>): real
    requires s != []
  {
    if |s| == 1 then s[0] else if s[0] >= Max(s[1..]) then s[0] else Max(s[1..])
  }

  function Min(s: seq<real>): real
    requires s != []
  {
    if |s| == 1 then s[0] else if s[0] <= Min(s[1..]) then s[0] else Min(s[1..])
  }

  lemma {:induction false} WithinMinMax(s: seq<real>, k: nat)
    requires k < |s|
    ensures Min(s) <= s[k] <= Max(s)
  {
    if |s| > 1 {
      WithinMinMax(s[1..], if k > 0 then k - 1 else 0);
    }
  }

  /** The place of the first value equal to another. */
  function Index(s: seq<real>, x: real): (i: nat)
    requires x in s
    ensures i < |s| && s[i] == x && forall j | 0 <= j < i :: s[j] != x
  {
    if s[0] == x then 0 else 1 + Index(s[1..], x)
  }

  /** The series in the middle: the one with the median, or the upper of the two around it. */
  function Middle(values: seq<real>): (m: nat)
    requires values != []
    ensures m < |values| && values[m] == Sort(values)[|values| / 2]
  {
    SortSorts(values);
    assert Sort(values)[|values| / 2] in Sort(values);
    Index(values, Sort(values)[|values| / 2])
  }

  lemma MiddleAndMedian(values: seq<real>)
    requires values != []
    ensures Median(values) <= values[Middle(values)]
    ensures |values| % 2 == 1 ==> Median(values) == values[Middle(values)]
  {
    SortSorts(values);
    if |values| % 2 == 0 {
      assert Sort(values)[|values| / 2 - 1] <= Sort(values)[|values| / 2];
    }
  }

  // ---- noise ---------------------------------------------------------------------------------------------

  datatype Kind = Delta | Growth

  /** One series: its value of the metric, and the memory it was ready with, if they are valid. */
  datatype Side = Side(value: Option<real>, ready: Option<real>)

  datatype Entry = Entry(medians: seq<real>, noise: Option<real>)

  function Values(sides: seq<Side>): seq<real> {
    if sides == [] then []
    else
      var last := sides[|sides| - 1];
      Values(sides[..|sides| - 1]) + if last.value.Some? then [last.value.value] else []
  }

  /** Where every value is valid, what each series was ready with; none if one is unknown. */
  function Readies(sides: seq<Side>): Option<seq<real>> {
    if sides == [] then Some([])
    else
      var last, before := sides[|sides| - 1], Readies(sides[..|sides| - 1]);
      if before.None? || last.value.None? then before
      else if last.ready.None? then None
      else Some(before.value + [last.ready.value])
  }

  function Scale(kind: Kind, medians: seq<real>, ready: Option<seq<real>>): Option<real>
    requires medians != []
  {
    if kind.Delta? then Some(Median(medians))
    else if ready.None? || ready.value == [] then None
    else Some(Median(ready.value))
  }

  function Width(values: seq<real>): real
    requires values != []
  {
    Max(values) - Min(values)
  }

  function Relative(spread: real, scale: Option<real>): Option<real> {
    if scale.None? || scale.value == 0.0 then None else Some(spread / scale.value)
  }

  function NoiseOf(kind: Kind, sides: seq<Side>): Option<real> {
    var medians := Values(sides);
    if |medians| != |sides| || medians == [] then None
    else Relative(Width(medians), Scale(kind, medians, Readies(sides)))
  }

  method BuildNoise(kind: Kind, sides: seq<Side>) returns (entry: Entry)
    ensures entry == Entry(Values(sides), NoiseOf(kind, sides))
  {
    var medians, ready, complete := [], [], true;
    var i := 0;
    while i < |sides|
      invariant 0 <= i <= |sides|
      invariant medians == Values(sides[..i])
      invariant Readies(sides[..i]) == if complete then Some(ready) else None
    {
      assert sides[..i + 1][..i] == sides[..i];
      if sides[i].value.Some? {
        medians := medians + [sides[i].value.value];
        if sides[i].ready.Some? {
          ready := ready + [sides[i].ready.value];
        } else {
          complete := false;
        }
      }
      i := i + 1;
    }
    assert sides[..|sides|] == sides;
    if |medians| != |sides| || medians == [] {
      return Entry(medians, None);
    }
    var scale := Scale(kind, medians, if complete then Some(ready) else None);
    if scale.None? || scale.value == 0.0 {
      return Entry(medians, None);
    }
    entry := Entry(medians, Some((Max(medians) - Min(medians)) / scale.value));
  }

  // ---- judging ---------------------------------------------------------------------------------------------

  datatype Outcome = Block | Issue | Improved | Ok | Noisy

  function Abs(x: real): real { if x < 0.0 then -x else x }

  function DeltaOutcome(delta: real, noise: real, change: real, floor: Option<real>, issue: real): Outcome {
    if delta > BLOCK_DELTA && (floor.None? || change > floor.value) then Block
    else if delta >= issue && delta > noise then Issue
    else if delta <= -issue && Abs(delta) > noise then Improved
    else Ok
  }

  /** A change within the noise is nothing, whatever the thresholds. */
  lemma WithinNoiseIsOk(delta: real, noise: real, change: real, floor: Option<real>, issue: real)
    requires Abs(delta) <= noise <= NOISY
    ensures DeltaOutcome(delta, noise, change, floor, issue) == Ok
  {
  }

  /** Growth is reported exactly if it reaches the issue threshold and exceeds the noise, and the same
      of shrinking as an improvement; the floor only decides how growth is reported. */
  lemma ReportedIff(delta: real, noise: real, change: real, floor: Option<real>, issue: real)
    requires 0.0 <= noise <= NOISY && 0.0 < issue <= BLOCK_DELTA
    ensures DeltaOutcome(delta, noise, change, floor, issue) in {Block, Issue} <==> delta >= issue && delta > noise
    ensures DeltaOutcome(delta, noise, change, floor, issue) == Improved <==> -delta >= issue && -delta > noise
  {
  }

  /** The change over the base, or over the memory the base was ready with; from a scale that is zero or
      unknown any change at all is beyond every threshold. */
  function JudgedDelta(kind: Kind, base: Side, candidate: Side): real
    requires base.value.Some? && candidate.value.Some?
  {
    var scale := if kind.Delta? then base.value.value else if base.ready.Some? then base.ready.value else 0.0;
    if scale != 0.0 then (candidate.value.value - base.value.value) / scale
    else if candidate.value.value == base.value.value then 0.0 else BLOCK_DELTA + 1.0
  }

  function Judge(kind: Kind, base: Side, candidate: Side, noise: real, floor: Option<real>, issue: real): Outcome
    requires base.value.Some? && candidate.value.Some?
  {
    if noise > NOISY then Noisy
    else
      DeltaOutcome(JudgedDelta(kind, base, candidate), noise, candidate.value.value - base.value.value, floor, issue)
  }

  /** There is noise only where every series has a value. */
  lemma NoiseNeedsValues(kind: Kind, sides: seq<Side>)
    requires NoiseOf(kind, sides).Some?
    ensures sides != [] && |Values(sides)| == |sides|
    ensures forall i | 0 <= i < |sides| :: sides[i].value.Some? && Values(sides)[i] == sides[i].value.value
  {
    AllValid(sides);
    ValuesOf(sides);
  }

  lemma {:induction false} FewerValues(sides: seq<Side>)
    ensures |Values(sides)| <= |sides|
  {
    if sides != [] {
      FewerValues(sides[..|sides| - 1]);
    }
  }

  lemma {:induction false} AllValid(sides: seq<Side>)
    requires |Values(sides)| == |sides|
    ensures forall i | 0 <= i < |sides| :: sides[i].value.Some?
  {
    if sides != [] {
      FewerValues(sides[..|sides| - 1]);
      AllValid(sides[..|sides| - 1]);
    }
  }

  lemma {:induction false} ValuesOf(sides: seq<Side>)
    requires forall i | 0 <= i < |sides| :: sides[i].value.Some?
    ensures |Values(sides)| == |sides| && forall i | 0 <= i < |sides| :: Values(sides)[i] == sides[i].value.value
  {
    if sides != [] {
      ValuesOf(sides[..|sides| - 1]);
    }
  }

  lemma {:induction false} ReadiesOf(sides: seq<Side>)
    requires forall i | 0 <= i < |sides| :: sides[i].value.Some? && sides[i].ready.Some?
    ensures Readies(sides).Some? && |Readies(sides).value| == |sides|
    ensures forall i | 0 <= i < |sides| :: Readies(sides).value[i] == sides[i].ready.value
  {
    if sides != [] {
      ReadiesOf(sides[..|sides| - 1]);
    }
  }

  /** A ratio over a scale at least as large is no larger. */
  lemma RatioBound(part: real, whole: real, small: real, large: real)
    requires 0.0 <= part <= whole && 0.0 < small <= large
    ensures part / large <= whole / small
  {
    assert part / large <= whole / large by {
      DivideOrder(part, whole, large);
    }
    assert whole / large <= whole / small by {
      DivideByLess(whole, small, large);
    }
  }

  lemma DivideOrder(a: real, b: real, c: real)
    requires a <= b && c > 0.0
    ensures a / c <= b / c
  {
    assert (b / c - a / c) * c == b - a;
    NonNegativeFactor(b / c - a / c, c);
  }

  lemma DivideByLess(w: real, small: real, large: real)
    requires 0.0 <= w && 0.0 < small <= large
    ensures w / large <= w / small
  {
    var x, y := w / large, w / small;
    assert x * large == w && y * small == w;
    DivideOrder(0.0, w, small);
    assert y * (large - small) >= 0.0;
    NonNegativeFactor(y - x, large);
  }

  lemma AbsOfRatio(a: real, c: real)
    requires c > 0.0
    ensures Abs(a / c) == Abs(a) / c
  {
    assert (-a) / c == -(a / c);
    if a < 0.0 {
      DivideOrder(a, 0.0, c);
    } else {
      DivideOrder(0.0, a, c);
    }
  }

  lemma RatioCompares(x: real, noise: real, part: real, base: real, spread: real, scale: real)
    requires 0.0 < scale <= base && Abs(part) <= spread
    requires x == part / base && noise == spread / scale
    ensures Abs(x) <= noise
  {
    AbsOfRatio(part, base);
    RatioBound(Abs(part), spread, scale, base);
  }

  lemma SpreadBounds(values: seq<real>, k: nat, m: nat)
    requires k < |values| && m < |values|
    ensures Abs(values[k] - values[m]) <= Width(values)
  {
    WithinMinMax(values, k);
    WithinMinMax(values, m);
  }

  /** A change within the spread is, over no less than the scale, within the noise. */
  lemma JudgedWithin(kind: Kind, base: Side, candidate: Side, spread: real, scale: real, noise: real)
    requires base.value.Some? && candidate.value.Some? && Abs(candidate.value.value - base.value.value) <= spread
    requires kind.Growth? ==> base.ready.Some?
    requires 0.0 < scale <= if kind.Delta? then base.value.value else base.ready.value
    requires Relative(spread, Some(scale)) == Some(noise)
    ensures Abs(JudgedDelta(kind, base, candidate)) <= noise
  {
    var part, over := candidate.value.value - base.value.value,
        if kind.Delta? then base.value.value else base.ready.value;
    RatioCompares(part / over, spread / scale, part, over, spread, scale);
  }

  /** By construction: against the middle series, every other is within the noise. */
  lemma DeltaIsWithinNoise(sides: seq<Side>, k: nat, m: nat, noise: real)
    requires NoiseOf(Delta, sides) == Some(noise) && |Values(sides)| == |sides| && k < |sides|
    requires m == Middle(Values(sides)) && Median(Values(sides)) > 0.0
    ensures sides[m].value.Some? && sides[k].value.Some?
    ensures Abs(JudgedDelta(Delta, sides[m], sides[k])) <= noise
  {
    NoiseNeedsValues(Delta, sides);
    var values, scale := Values(sides), Median(Values(sides));
    MiddleAndMedian(values);
    SpreadBounds(values, k, m);
    JudgedWithin(Delta, sides[m], sides[k], Width(values), scale, noise);
  }

  // ---- the self-check ------------------------------------------------------------------------------------

  datatype Metric = Metric(kind: Kind, floor: Option<real>, issue: real)

  /** What the self-check finds against the middle series, where there is a noise it can judge by. */
  ghost predicate Violates(metric: Metric, sides: seq<Side>, noise: Option<real>, k: nat) {
    && noise.Some? && noise.value <= NOISY && |Values(sides)| == |sides| && k < |sides|
    && var m := Middle(Values(sides));
       && k != m && sides[m].value.Some? && sides[k].value.Some?
       && Judge(metric.kind, sides[m], sides[k], noise.value, metric.floor, metric.issue) in {Issue, Block}
  }

  /** Every series against the middle one; what is judged a regression is a violation. */
  method SelfCheck(metric: Metric, sides: seq<Side>, entry: Entry) returns (checked: nat, violations: seq<nat>)
    requires entry == Entry(Values(sides), NoiseOf(metric.kind, sides))
    ensures checked == if entry.noise.None? || entry.noise.value > NOISY then 0 else |sides| - 1
    ensures forall k: nat :: k in violations <==> Violates(metric, sides, entry.noise, k)
  {
    checked, violations := 0, [];
    if entry.noise.None? || entry.noise.value > NOISY {
      return;
    }
    NoiseNeedsValues(metric.kind, sides);
    var noise, middle := entry.noise.value, Middle(entry.medians);
    var i := 0;
    while i < |sides|
      invariant 0 <= i <= |sides|
      invariant checked == if i > middle then i - 1 else i
      invariant forall k: nat :: k in violations <==> k < i && Violates(metric, sides, entry.noise, k)
    {
      if i != middle {
        var outcome := Judge(metric.kind, sides[middle], sides[i], noise, metric.floor, metric.issue);
        checked := checked + 1;
        if outcome == Issue || outcome == Block {
          violations := violations + [i];
        }
      }
      i := i + 1;
    }
  }

  /** A calibration of a `delta` metric with positive median never finds its own series regressed. */
  lemma DeltaCalibrationIsConsistent(metric: Metric, sides: seq<Side>, k: nat)
    requires metric.kind.Delta? && (Values(sides) != [] ==> Median(Values(sides)) > 0.0)
    ensures !Violates(metric, sides, NoiseOf(Delta, sides), k)
  {
    var noise := NoiseOf(Delta, sides);
    if noise.Some? && noise.value <= NOISY && k < |sides| {
      NoiseNeedsValues(Delta, sides);
      var m := Middle(Values(sides));
      DeltaIsWithinNoise(sides, k, m, noise.value);
      WithinNoiseIsOk(
        JudgedDelta(Delta, sides[m], sides[k]), noise.value, sides[k].value.value - sides[m].value.value,
        metric.floor, metric.issue);
    }
  }

  // ---- growth ------------------------------------------------------------------------------------------------

  function GrowthSides(values: seq<real>, ready: seq<real>): (sides: seq<Side>)
    requires |values| == |ready|
    ensures |sides| == |values|
    ensures forall i | 0 <= i < |values| :: sides[i] == Side(Some(values[i]), Some(ready[i]))
  {
    seq(|values|, i requires 0 <= i < |values| => Side(Some(values[i]), Some(ready[i])))
  }

  lemma GrowthSidesRead(values: seq<real>, ready: seq<real>)
    requires |values| == |ready|
    ensures Values(GrowthSides(values, ready)) == values && Readies(GrowthSides(values, ready)) == Some(ready)
  {
    ValuesOf(GrowthSides(values, ready));
    ReadiesOf(GrowthSides(values, ready));
    assert Values(GrowthSides(values, ready)) == values;
    assert Readies(GrowthSides(values, ready)).value == ready;
  }

  lemma NoiseOfGrowth(values: seq<real>, ready: seq<real>)
    requires |values| == |ready| > 0
    ensures NoiseOf(Growth, GrowthSides(values, ready)) == Relative(Width(values), Some(Median(ready)))
  {
    GrowthSidesRead(values, ready);
  }

  /** Growth over ready memory is within the noise too, provided the middle series was ready with no
      less than the median. */
  lemma GrowthIsWithinNoise(values: seq<real>, ready: seq<real>, k: nat, m: nat, noise: real)
    requires |values| == |ready| && k < |values| && m < |values| && ready[m] >= Median(ready) > 0.0
    requires Relative(Width(values), Some(Median(ready))) == Some(noise)
    ensures Abs(JudgedDelta(Growth, GrowthSides(values, ready)[m], GrowthSides(values, ready)[k])) <= noise
  {
    var sides := GrowthSides(values, ready);
    SpreadBounds(values, k, m);
    JudgedWithin(Growth, sides[m], sides[k], Width(values), Median(ready), noise);
  }

  predicate AllPositive(ready: seq<real>) {
    forall i | 0 <= i < |ready| :: ready[i] > 0.0
  }

  const GROWTH_METRIC: Metric := Metric(Growth, None, ISSUE_DELTA)

  /** The calibration accepts itself: no series is a violation. */
  ghost predicate AcceptsItself(metric: Metric, values: seq<real>, ready: seq<real>)
    requires |values| == |ready|
  {
    var sides := GrowthSides(values, ready);
    forall k: nat :: !Violates(metric, sides, NoiseOf(metric.kind, sides), k)
  }

  lemma MedianIsPositive(ready: seq<real>)
    requires |ready| % 2 == 1 && AllPositive(ready)
    ensures Median(ready) > 0.0
  {
    MiddleAndMedian(ready);
  }

  /** Whatever the floor and the threshold. */
  lemma ReadyMiddleAccepts(metric: Metric, values: seq<real>, ready: seq<real>)
    requires metric.kind.Growth? && |values| == |ready| && |values| % 2 == 1 && AllPositive(ready)
    requires ready[Middle(values)] >= Median(ready)
    ensures AcceptsItself(metric, values, ready)
  {
    var sides, m := GrowthSides(values, ready), Middle(values);
    GrowthSidesRead(values, ready);
    NoiseOfGrowth(values, ready);
    MedianIsPositive(ready);
    var noise := NoiseOf(Growth, sides);
    forall k: nat ensures !Violates(metric, sides, noise, k) {
      if noise.Some? && noise.value <= NOISY && k < |sides| {
        GrowthIsWithinNoise(values, ready, k, m, noise.value);
        WithinNoiseIsOk(
          JudgedDelta(Growth, sides[m], sides[k]), noise.value, values[k] - values[m], metric.floor, metric.issue);
      }
    }
  }

  function CountBelow(s: seq<real>, x: real): nat {
    if s == [] then 0 else (if s[0] < x then 1 else 0) + CountBelow(s[1..], x)
  }

  function CountAbove(s: seq<real>, x: real): nat {
    if s == [] then 0 else (if s[0] > x then 1 else 0) + CountAbove(s[1..], x)
  }

  lemma {:induction false} InsertCounts(x: real, s: seq<real>, y: real)
    ensures CountBelow(Insert(x, s), y) == CountBelow(s, y) + if x < y then 1 else 0
    ensures CountAbove(Insert(x, s), y) == CountAbove(s, y) + if x > y then 1 else 0
  {
    if s == [] || x <= s[0] {
      assert ([x] + s)[1..] == s;
    } else {
      InsertCounts(x, s[1..], y);
      var tail := Insert(x, s[1..]);
      assert ([s[0]] + tail)[1..] == tail;
    }
  }

  lemma {:induction false} SortCounts(s: seq<real>, y: real)
    ensures CountBelow(Sort(s), y) == CountBelow(s, y) && CountAbove(Sort(s), y) == CountAbove(s, y)
  {
    if s != [] {
      SortCounts(s[1..], y);
      InsertCounts(s[0], Sort(s[1..]), y);
    }
  }

  lemma {:induction false} AscendingCounts(s: seq<real>, y: real, i: nat)
    requires Ascending(s) && i < |s|
    ensures s[i] < y ==> CountBelow(s, y) >= i + 1
    ensures s[i] > y ==> CountAbove(s, y) >= |s| - i
  {
    if i > 0 {
      assert s[0] <= s[i];
      AscendingCounts(s[1..], y, i - 1);
    } else if |s| > 1 {
      assert s[0] <= s[1];
      AscendingCounts(s[1..], y, 0);
    }
  }

  /** A value with at most half of the others on either side is the median. */
  lemma MedianIs(s: seq<real>, x: real)
    requires |s| % 2 == 1 && CountBelow(s, x) <= |s| / 2 && CountAbove(s, x) <= |s| / 2
    ensures Median(s) == x
  {
    SortCounts(s, x);
    SortSorts(s);
    AscendingCounts(Sort(s), x, |s| / 2);
  }

  /** Two series a little below the middle one, two a unit above, at a given scale. */
  function Spread(m: nat, low: real, high: real): (values: seq<real>)
    requires m < 5
    ensures |values| == 5
  {
    if m == 0 then [0.0, low, low, high, high]
    else if m == 1 then [low, 0.0, low, high, high]
    else if m == 2 then [low, low, 0.0, high, high]
    else if m == 3 then [low, low, high, 0.0, high]
    else [low, low, high, high, 0.0]
  }

  lemma CountFive(s: seq<real>, y: real)
    requires |s| == 5
    ensures
      CountBelow(s, y) ==
      (if s[0] < y then 1 else 0) + (if s[1] < y then 1 else 0) + (if s[2] < y then 1 else 0)
      + (if s[3] < y then 1 else 0) + (if s[4] < y then 1 else 0)
    ensures
      CountAbove(s, y) ==
      (if s[0] > y then 1 else 0) + (if s[1] > y then 1 else 0) + (if s[2] > y then 1 else 0)
      + (if s[3] > y then 1 else 0) + (if s[4] > y then 1 else 0)
  {
    var s1 := s[1..];
    var s2 := s1[1..];
    var s3 := s2[1..];
    var s4 := s3[1..];
    assert CountBelow(s4, y) == (if s4[0] < y then 1 else 0) + CountBelow(s4[1..], y);
    assert CountAbove(s4, y) == (if s4[0] > y then 1 else 0) + CountAbove(s4[1..], y);
    assert s4[1..] == [];
    assert CountBelow(s2, y) == (if s2[0] < y then 1 else 0) + CountBelow(s3, y);
    assert CountAbove(s2, y) == (if s2[0] > y then 1 else 0) + CountAbove(s3, y);
  }

  lemma SpreadCounts(m: nat, low: real, high: real)
    requires m < 5 && low < 0.0 < high
    ensures
      var values := Spread(m, low, high);
      && values[m] == 0.0 && (forall j | 0 <= j < 5 && j != m :: values[j] != 0.0)
      && CountBelow(values, 0.0) == 2 && CountAbove(values, 0.0) == 2
      && (exists k | 0 <= k < 5 :: values[k] == high)
      && forall j | 0 <= j < 5 :: low <= values[j] <= high
  {
    var values := Spread(m, low, high);
    CountFive(values, 0.0);
    assert values[if m < 4 then 4 else 3] == high;
  }

  lemma {:induction false} MaxMinWithin(s: seq<real>, low: real, high: real)
    requires s != [] && forall j | 0 <= j < |s| :: low <= s[j] <= high
    ensures low <= Min(s) && Max(s) <= high
  {
    if |s| > 1 {
      MaxMinWithin(s[1..], low, high);
    }
  }

  lemma PartIsReported(base: Side, candidate: Side, r: real, spread: real, scale: real, noise: real)
    requires base == Side(Some(0.0), Some(r)) && candidate.value == Some(0.4 * r) && 0.0 < r < scale
    requires spread <= 0.4 * r + 0.2 * (scale - r) && Relative(spread, Some(scale)) == Some(noise)
    ensures noise < 0.4 && Judge(Growth, base, candidate, noise, None, ISSUE_DELTA) == Issue
  {
    SmallerThanPart(spread, scale, r, noise);
    PartOfItself(0.4, r);
  }

  /** A spread around zero, a little over the median's share of it, is reported against a base that
      was ready with less than the median. */
  lemma SpreadIsReported(ready: seq<real>, m: nat, values: seq<real>, k: nat)
    requires |ready| == |values| == NOISE_SERIES && AllPositive(ready) && m < NOISE_SERIES && k < NOISE_SERIES
    requires ready[m] < Median(ready) && Middle(values) == m && values[m] == 0.0 && values[k] == 0.4 * ready[m]
    requires Width(values) <= 0.4 * ready[m] + 0.2 * (Median(ready) - ready[m])
    ensures !AcceptsItself(GROWTH_METRIC, values, ready)
  {
    var sides := GrowthSides(values, ready);
    GrowthSidesRead(values, ready);
    NoiseOfGrowth(values, ready);
    var noise := NoiseOf(Growth, sides).value;
    PartIsReported(sides[m], sides[k], ready[m], Width(values), Median(ready), noise);
    assert Violates(GROWTH_METRIC, sides, Some(noise), k);
  }

  lemma PartOfItself(part: real, r: real)
    requires r > 0.0
    ensures (part * r - 0.0) / r == part
  {
  }

  lemma SmallerThanPart(spread: real, med: real, r: real, noise: real)
    requires 0.0 < r < med && spread <= 0.4 * r + 0.2 * (med - r) && Relative(spread, Some(med)) == Some(noise)
    ensures noise < 0.4
  {
    assert noise * med == spread < 0.4 * med;
    assert (0.4 - noise) * med > 0.0;
    PositiveFactor(0.4 - noise, med);
  }

  lemma PositiveFactor(a: real, b: real)
    requires a * b > 0.0 && b > 0.0
    ensures a > 0.0
  {
  }

  /** A middle series that was ready with less than the median can be reported as a base. */
  lemma ShortMiddleRejects(ready: seq<real>, m: nat)
    requires |ready| == NOISE_SERIES && AllPositive(ready) && m < NOISE_SERIES && ready[m] < Median(ready)
    ensures exists values: seq<real> ::
              |values| == NOISE_SERIES && Middle(values) == m && !AcceptsItself(GROWTH_METRIC, values, ready)
  {
    var low, high := -(0.2 * (Median(ready) - ready[m])), 0.4 * ready[m];
    var values := Spread(m, low, high);
    SpreadCounts(m, low, high);
    MedianIs(values, 0.0);
    assert Middle(values) == m;
    var k :| 0 <= k < 5 && values[k] == high;
    MaxMinWithin(values, low, high);
    WithinMinMax(values, k);
    SpreadIsReported(ready, m, values, k);
  }

  /** With five series ready with given amounts of memory, the calibration of memory growth accepts
      itself whatever was measured with a given series in the middle, exactly if that series was
      ready with at least the median; and then whatever the floor and the threshold are. */
  lemma GrowthCalibrationIsConsistentIff(ready: seq<real>, m: nat)
    requires |ready| == NOISE_SERIES && AllPositive(ready) && m < NOISE_SERIES
    ensures AcceptsAll(GROWTH_METRIC, ready, m) <==> ready[m] >= Median(ready)
    ensures (forall metric: Metric | metric.kind.Growth? :: AcceptsAll(metric, ready, m)) <==> ready[m] >= Median(ready)
  {
    if ready[m] >= Median(ready) {
      forall metric: Metric | metric.kind.Growth? ensures AcceptsAll(metric, ready, m) {
        forall values: seq<real> | |values| == NOISE_SERIES && Middle(values) == m
          ensures AcceptsItself(metric, values, ready)
        {
          ReadyMiddleAccepts(metric, values, ready);
        }
      }
    } else {
      ShortMiddleRejects(ready, m);
    }
  }

  /** Whatever was measured with a given series in the middle. */
  ghost predicate AcceptsAll(metric: Metric, ready: seq<real>, m: nat)
    requires |ready| == NOISE_SERIES
  {
    forall values: seq<real> | |values| == NOISE_SERIES && Middle(values) == m :: AcceptsItself(metric, values, ready)
  }
}
