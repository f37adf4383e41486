/** What a calibration measures and what a comparison with it decides, said of the measured values:
    how many lie on either side of the median, how far apart the ends are, and by how much a value
    changed, without dividing. */
module CalibrationLaws {
  import opened Common
  import opened Calibration

  // ---- medians ----------------------------------------------------------------------------------------

  lemma {:induction false} NoneBelow(s: seq<real>, y: real)
    requires forall i | 0 <= i < |s| :: y <= s[i]
    ensures CountBelow(s, y) == 0
  {
    if s != [] {
      NoneBelow(s[1..], y);
    }
  }

  lemma {:induction false} AboveAtMost(s: seq<real>, y: real)
    ensures CountAbove(s, y) <= |s|
  {
    if s != [] {
      AboveAtMost(s[1..], y);
    }
  }

  lemma {:induction false} PlaceBounds(s: seq<real>, i: nat, y: real)
    requires Ascending(s) && i < |s| && y == s[i]
    ensures CountBelow(s, y) <= i && CountAbove(s, y) <= |s| - 1 - i
  {
    if i == 0 {
      NoneBelow(s, y);
      AboveAtMost(s[1..], y);
    } else {
      PlaceBounds(s[1..], i - 1, y);
    }
  }

  /** Whether a value is one of those measured, with at most so many smaller and so many larger. */
  ghost predicate Stands(s: seq<real>, x: real, below: nat, above: nat) {
    x in s && CountBelow(s, x) <= below && CountAbove(s, x) <= above
  }

  lemma SortedStands(s: seq<real>, i: nat)
    requires i < |s|
    ensures Stands(s, Sort(s)[i], i, |s| - 1 - i)
  {
    SortSorts(s);
    assert Sort(s)[i] in Sort(s);
    PlaceBounds(Sort(s), i, Sort(s)[i]);
    SortCounts(s, Sort(s)[i]);
  }

  lemma TwiceTheHalf(x: real, y: real)
    ensures 2.0 * ((x + y) / 2.0) == x + y
  {
  }

  lemma MedianAt(s: seq<real>, i: nat, j: nat)
    requires s != [] && i == (|s| - 1) / 2 && j == |s| / 2
    ensures 2.0 * Median(s) == Sort(s)[i] + Sort(s)[j]
  {
    TwiceTheHalf(Sort(s)[i], Sort(s)[j]);
    if |s| % 2 == 1 {
      assert i == j;
    } else {
      assert i == j - 1;
    }
  }

  /** The median is halfway between the two values in the middle, which are one value if there is an
      odd number of them. */
  lemma MedianIsBetweenTheMiddles(s: seq<real>) returns (low: real, high: real)
    requires s != []
    ensures 2.0 * Median(s) == low + high && (|s| % 2 == 1 ==> low == high)
    ensures Stands(s, low, (|s| - 1) / 2, |s| / 2) && Stands(s, high, |s| / 2, (|s| - 1) / 2)
  {
    var i, j := (|s| - 1) / 2, |s| / 2;
    SortedStands(s, i);
    SortedStands(s, j);
    MedianAt(s, i, j);
    low, high := Sort(s)[i], Sort(s)[j];
  }

  /** The series in the middle is the first with the upper of the two. */
  lemma MiddleStands(values: seq<real>)
    requires values != []
    ensures Stands(values, values[Middle(values)], |values| / 2, (|values| - 1) / 2)
    ensures forall j | 0 <= j < Middle(values) :: values[j] != values[Middle(values)]
  {
    SortedStands(values, |values| / 2);
    SortSorts(values);
  }

  // ---- noise ------------------------------------------------------------------------------------------

  lemma {:induction false} MaxIsOne(s: seq<real>) returns (i: nat)
    requires s != []
    ensures i < |s| && s[i] == Max(s)
  {
    if |s| == 1 || s[0] >= Max(s[1..]) {
      i := 0;
    } else {
      i := MaxIsOne(s[1..]);
      i := i + 1;
    }
  }

  lemma {:induction false} MinIsOne(s: seq<real>) returns (i: nat)
    requires s != []
    ensures i < |s| && s[i] == Min(s)
  {
    if |s| == 1 || s[0] <= Min(s[1..]) {
      i := 0;
    } else {
      i := MinIsOne(s[1..]);
      i := i + 1;
    }
  }

  /** The least and the greatest of the values. */
  ghost predicate Ends(s: seq<real>, low: real, high: real) {
    low in s && high in s && forall i | 0 <= i < |s| :: low <= s[i] <= high
  }

  lemma WidthIsBetweenTheEnds(s: seq<real>) returns (low: real, high: real)
    requires s != []
    ensures Ends(s, low, high) && Width(s) == high - low
  {
    var i := MinIsOne(s);
    var j := MaxIsOne(s);
    low, high := s[i], s[j];
    forall k | 0 <= k < |s| ensures low <= s[k] <= high {
      WithinMinMax(s, k);
    }
  }

  /** The measured values, and what the series were ready with. */
  ghost predicate Measured(kind: Kind, sides: seq<Side>, values: seq<real>, ready: seq<real>) {
    && |sides| == |values| == |ready|
    && (forall i | 0 <= i < |sides| :: sides[i].value == Some(values[i]))
    && (kind.Growth? ==> forall i | 0 <= i < |sides| :: sides[i].ready == Some(ready[i]))
  }

  lemma MeasuredReads(kind: Kind, sides: seq<Side>, values: seq<real>, ready: seq<real>)
    requires Measured(kind, sides, values, ready)
    ensures Values(sides) == values && (kind.Growth? ==> Readies(sides) == Some(ready))
  {
    ValuesOf(sides);
    assert Values(sides) == values;
    if kind.Growth? {
      ReadiesOf(sides);
      assert Readies(sides).value == ready;
    }
  }

  lemma ShareOf(width: real, scale: real, noise: real)
    requires scale != 0.0 && noise == width / scale
    ensures noise * scale == width
  {
  }

  /** There is a share of anything but nothing. */
  lemma RelativeIsTheShare(width: real, scale: real)
    ensures Relative(width, Some(scale)).Some? <==> scale != 0.0
    ensures scale != 0.0 ==> Relative(width, Some(scale)).value * scale == width
    ensures Relative(width, None) == None
  {
    if scale != 0.0 {
      ShareOf(width, scale, width / scale);
    }
  }

  /** Where every series has its values the noise is the share of a median, of the memory they were ready
      with or of the values themselves, that lies between the least and the greatest value. */
  lemma NoiseIsTheShareOfTheSpread(kind: Kind, sides: seq<Side>, values: seq<real>, ready: seq<real>)
    returns (low: real, high: real)
    requires sides != [] && Measured(kind, sides, values, ready)
    ensures Ends(values, low, high)
    ensures NoiseOf(kind, sides) == Relative(high - low, Some(Median(if kind.Growth? then ready else values)))
  {
    NoiseReads(kind, sides, values, ready, if kind.Growth? then ready else values);
    low, high := WidthIsBetweenTheEnds(values);
  }

  lemma NoiseReads(kind: Kind, sides: seq<Side>, values: seq<real>, ready: seq<real>, over: seq<real>)
    requires sides != [] && Measured(kind, sides, values, ready) && over == if kind.Growth? then ready else values
    ensures NoiseOf(kind, sides) == Relative(Width(values), Some(Median(over)))
  {
    MeasuredReads(kind, sides, values, ready);
  }

  /** Anywhere else there is none. */
  lemma NoNoiseWithoutValues(kind: Kind, sides: seq<Side>)
    requires
      || sides == []
      || (exists i | 0 <= i < |sides| :: sides[i].value.None? || (kind.Growth? && sides[i].ready.None?))
    ensures NoiseOf(kind, sides).None?
  {
    if NoiseOf(kind, sides).Some? {
      NoiseNeedsValues(kind, sides);
      if kind.Growth? {
        OneUnready(sides);
      }
    }
  }

  lemma {:induction false} OneUnready(sides: seq<Side>)
    requires forall i | 0 <= i < |sides| :: sides[i].value.Some?
    requires Readies(sides).Some?
    ensures forall i | 0 <= i < |sides| :: sides[i].ready.Some?
  {
    if sides != [] {
      OneUnready(sides[..|sides| - 1]);
    }
  }

  /** The medians of a calibration are those of its series that have one, in their order. */
  lemma {:induction false} MediansInOrder(a: seq<Side>, b: seq<Side>, v: real, ready: Option<real>)
    ensures Values(a + b) == Values(a) + Values(b)
    ensures Values([Side(Some(v), ready)]) == [v] && Values([Side(None, ready)]) == []
  {
    assert [Side(Some(v), ready)][..0] == [] && [Side(None, ready)][..0] == [];
    if b == [] {
      assert a + b == a;
    } else {
      MediansInOrder(a, b[..|b| - 1], v, ready);
      assert (a + b)[..|a + b| - 1] == a + b[..|b| - 1];
    }
  }

  // ---- judging ----------------------------------------------------------------------------------------

  lemma OverScale(part: real, scale: real, delta: real, x: real)
    requires scale > 0.0 && delta * scale == part
    ensures delta > x <==> part > x * scale
    ensures delta >= x <==> part >= x * scale
  {
    assert part - x * scale == (delta - x) * scale;
  }

  lemma UnderScale(part: real, scale: real, delta: real, x: real)
    requires scale > 0.0 && delta * scale == part
    ensures -delta > x <==> -part > x * scale
    ensures -delta >= x <==> -part >= x * scale
  {
    assert (-delta) * scale == -part;
    OverScale(-part, scale, -delta, x);
  }

  /** Against a base that is not zero: more than two fifths of it, and more than the floor, blocks; the
      issue threshold and the noise, both passed, report; the same of a fall is an improvement. */
  lemma JudgedByTheChange(
    kind: Kind, base: Side, candidate: Side, noise: real, floor: Option<real>, issue: real, scale: real)
    requires base.value.Some? && candidate.value.Some? && 0.0 <= noise && 0.0 < issue <= 0.40
    requires scale > 0.0 && (if kind.Delta? then base.value else base.ready) == Some(scale)
    ensures
      var change, outcome :=
        candidate.value.value - base.value.value, Judge(kind, base, candidate, noise, floor, issue);
      var blocks := change > 0.40 * scale && (floor == None || change > floor.value);
      && (outcome == Noisy <==> noise > 0.40)
      && (noise <= 0.40 ==>
            && (outcome == Block <==> blocks)
            && (outcome == Issue <==> !blocks && change >= issue * scale && change > noise * scale)
            && (outcome == Improved <==> -change >= issue * scale && -change > noise * scale))
  {
    var change := candidate.value.value - base.value.value;
    var delta := JudgedDelta(kind, base, candidate);
    JudgedIsTheShare(kind, base, candidate, scale);
    OverScale(change, scale, delta, 0.40);
    OverScale(change, scale, delta, issue);
    OverScale(change, scale, delta, noise);
    UnderScale(change, scale, delta, issue);
    UnderScale(change, scale, delta, noise);
    if noise <= 0.40 {
      OutcomeByThresholds(delta, noise, change, floor, issue);
    }
  }

  /** Whatever the sign of the base, the judged change is its share of it. */
  lemma JudgedIsTheShare(kind: Kind, base: Side, candidate: Side, scale: real)
    requires base.value.Some? && candidate.value.Some? && scale != 0.0
    requires (if kind.Delta? then base.value else base.ready) == Some(scale)
    ensures JudgedDelta(kind, base, candidate) * scale == candidate.value.value - base.value.value
  {
    ShareOf(candidate.value.value - base.value.value, scale, JudgedDelta(kind, base, candidate));
  }

  lemma OutcomeByThresholds(delta: real, noise: real, change: real, floor: Option<real>, issue: real)
    requires 0.0 <= noise <= 0.40 && 0.0 < issue <= 0.40
    ensures
      var blocks, outcome :=
        delta > 0.40 && (floor == None || change > floor.value), DeltaOutcome(delta, noise, change, floor, issue);
      && (outcome == Block <==> blocks)
      && (outcome == Issue <==> !blocks && delta >= issue && delta > noise)
      && (outcome == Improved <==> -delta >= issue && -delta > noise)
  {
    ReportedIff(delta, noise, change, floor, issue);
  }

  /** Against a base that is zero or unknown any change at all, up or down, blocks if it passes the floor
      and is an issue if it does not. */
  lemma JudgedAgainstNothing(kind: Kind, base: Side, candidate: Side, noise: real, floor: Option<real>, issue: real)
    requires base.value.Some? && candidate.value.Some? && 0.0 <= noise <= 0.40 && 0.0 < issue <= 0.40
    requires
      if kind.Delta? then base.value == Some(0.0) else base.ready == None || base.ready == Some(0.0)
    ensures
      var change, outcome :=
        candidate.value.value - base.value.value, Judge(kind, base, candidate, noise, floor, issue);
      && (outcome == Ok <==> change == 0.0)
      && (outcome == Block <==> change != 0.0 && (floor == None || change > floor.value))
      && outcome in {Ok, Block, Issue}
  {
    OutcomeByThresholds(
      JudgedDelta(kind, base, candidate), noise, candidate.value.value - base.value.value, floor, issue);
  }

  /** The self-check finds exactly the other series that are judged an issue or a block against the middle
      one, by a noise that can judge. */
  lemma ViolationIsAReport(metric: Metric, sides: seq<Side>, noise: real, k: nat, m: nat)
    requires k < |sides| == |Values(sides)| && m == Middle(Values(sides))
    requires sides[m].value.Some? && sides[k].value.Some?
    ensures
      Violates(metric, sides, Some(noise), k)
      <==> noise <= 0.40 && k != m
           && Judge(metric.kind, sides[m], sides[k], noise, metric.floor, metric.issue) in {Issue, Block}
    ensures !Violates(metric, sides, None, k)
  {
  }

  /** And that is a rise by the issue threshold and by more than the noise. */
  lemma ReportedRise(
    kind: Kind, base: Side, candidate: Side, noise: real, floor: Option<real>, issue: real, scale: real)
    requires base.value.Some? && candidate.value.Some? && 0.0 <= noise && 0.0 < issue <= 0.40
    requires scale > 0.0 && (if kind.Delta? then base.value else base.ready) == Some(scale)
    ensures
      var rise := candidate.value.value - base.value.value;
      Judge(kind, base, candidate, noise, floor, issue) in {Issue, Block}
      <==> noise <= 0.40 && rise >= issue * scale && rise > noise * scale
  {
    var rise := candidate.value.value - base.value.value;
    var delta := JudgedDelta(kind, base, candidate);
    JudgedIsTheShare(kind, base, candidate, scale);
    OverScale(rise, scale, delta, issue);
    OverScale(rise, scale, delta, noise);
    if noise <= 0.40 {
      ReportedIff(delta, noise, rise, floor, issue);
    }
  }
}
