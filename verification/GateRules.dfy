/** The rows of the release gate against the previous release, the confirming round of the wall
    metric, and the verdict over all rows. */
module GateRules {
  import opened Common

  datatype Side = Valid(value: real) | Failed | Invalid | Missing | NotApplicable

  datatype Outcome = Ok | WithinNoise | Confirm | Block | NoNoise | Noisy | Incomplete

  datatype Verdict = Pass | Undecided | Blocked

  /** Growth over the base; from nothing to something it is beyond every limit. */
  datatype Growth = Finite(ratio: real) | Unbounded

  predicate Above(g: Growth, limit: real) {
    g.Unbounded? || g.ratio > limit
  }

  function GrowthOf(base: real, candidate: real): Growth {
    if base != 0.0 then Finite((candidate - base) / base)
    else if candidate == base then Finite(0.0)
    else Unbounded
  }

  /** What can be said without values: the gate closes on a candidate that broke, and is left open by
      anything else missing. */
  function SideOutcome(base: Side, candidate: Side): Option<Outcome> {
    if candidate.Failed? || candidate.Invalid? then Some(Block)
    else if !base.Valid? || !candidate.Valid? then Some(Incomplete)
    else None
  }

  function GateOutcome(wall: bool, growth: Growth, noise: Option<real>, confirm: Option<Growth>): Outcome {
    if noise.None? then NoNoise
    else if !wall then
      if noise.value > GATE_BAR then Noisy else if Above(growth, GATE_BAR) then Block else Ok
    else if noise.value > NOISY then Noisy
    else if !Above(growth, GATE_BAR) then Ok
    else if !Above(growth, Larger(GATE_BAR, noise.value)) then WithinNoise
    else if noise.value <= GATE_BAR then Block
    else if confirm.None? then Confirm
    else if Above(confirm.value, Larger(GATE_BAR, noise.value)) then Block
    else WithinNoise
  }

  // ---- a row -------------------------------------------------------------------------------------------

  /** The wall decides over two rounds; other work over one; and the growth of traded work is forgiven
      where the wall of the same comparison, if it has one, fell by at least as much. */
  datatype Kind = Wall | Work | Traded(wallGrowth: Option<Growth>)

  predicate Repaid(growth: Growth, wallGrowth: Option<Growth>) {
    growth.Finite? && wallGrowth.Some? && wallGrowth.value.Finite? && -wallGrowth.value.ratio >= growth.ratio
  }

  function FirstOutcome(kind: Kind, growth: Growth, noise: Option<real>): Outcome {
    var outcome := GateOutcome(kind.Wall?, growth, noise, None);
    if kind.Traded? && outcome == Block && Repaid(growth, kind.wallGrowth) then Ok else outcome
  }

  class Row {
    const kind: Kind
    const noise: Option<real>
    var growth: Option<Growth>
    var confirmed: Option<Growth>
    var outcome: Outcome

    /** The first round. */
    constructor (kind: Kind, noise: Option<real>, base: Side, candidate: Side)
      ensures this.kind == kind && this.noise == noise && confirmed == None
      ensures (growth, outcome) == FirstRound(kind, noise, base, candidate)
    {
      var judged := SideOutcome(base, candidate);
      this.kind, this.noise, confirmed := kind, noise, None;
      if judged.Some? {
        growth, outcome := None, judged.value;
      } else {
        var g := GrowthOf(base.value, candidate.value);
        growth, outcome := Some(g), FirstOutcome(kind, g, noise);
      }
    }

    /** The confirming round, measured because the row asked for it. */
    method ConfirmRow(base: Side, candidate: Side)
      requires outcome == Confirm && growth.Some?
      modifies this
      ensures growth == old(growth)
      ensures (confirmed, outcome) == SecondRound(kind, noise, growth.value, base, candidate)
    {
      var judged := SideOutcome(base, candidate);
      confirmed := None;
      if judged.Some? {
        outcome := judged.value;
      } else {
        confirmed := Some(GrowthOf(base.value, candidate.value));
        outcome := GateOutcome(kind.Wall?, growth.value, noise, confirmed);
      }
    }
  }

  function FirstRound(kind: Kind, noise: Option<real>, base: Side, candidate: Side): (Option<Growth>, Outcome) {
    var judged := SideOutcome(base, candidate);
    if judged.Some? then (None, judged.value)
    else
      var g := GrowthOf(base.value, candidate.value);
      (Some(g), FirstOutcome(kind, g, noise))
  }

  function SecondRound(
      kind: Kind, noise: Option<real>, growth: Growth, base: Side, candidate: Side): (Option<Growth>, Outcome)
  {
    var judged := SideOutcome(base, candidate);
    if judged.Some? then (None, judged.value)
    else
      var g := GrowthOf(base.value, candidate.value);
      (Some(g), GateOutcome(kind.Wall?, growth, noise, Some(g)))
  }

  /** What a metric ends with, the second round measured only if the first asks for it. */
  function Final(kind: Kind, noise: Option<real>, base: Side, candidate: Side, base2: Side, candidate2: Side): Outcome {
    var (growth, first) := FirstRound(kind, noise, base, candidate);
    if first == Confirm && growth.Some? then SecondRound(kind, noise, growth.value, base2, candidate2).1 else first
  }

  predicate Grew(base: Side, candidate: Side, limit: real) {
    base.Valid? && candidate.Valid? && Above(GrowthOf(base.value, candidate.value), limit)
  }

  predicate Broken(candidate: Side) {
    candidate.Failed? || candidate.Invalid?
  }

  /** Traded work whose growth the wall made up for. */
  predicate Forgiven(kind: Kind, base: Side, candidate: Side) {
    && kind.Traded? && base.Valid? && candidate.Valid?
    && Repaid(GrowthOf(base.value, candidate.value), kind.wallGrowth)
  }

  /** A confirming round is asked for by the wall alone, when it grew past a noise above the bar. */
  lemma ConfirmsIff(kind: Kind, noise: Option<real>, base: Side, candidate: Side)
    ensures
      FirstRound(kind, noise, base, candidate).1 == Confirm <==>
      && kind.Wall? && noise.Some? && GATE_BAR < noise.value <= NOISY
      && !Broken(candidate) && Grew(base, candidate, noise.value)
    ensures FirstRound(kind, noise, base, candidate).1 == Confirm ==> FirstRound(kind, noise, base, candidate).0.Some?
  {
  }

  /** When a metric blocks: its candidate broke, or grew past its limit in the one round that decides
      and the wall did not make up for it, or, past a noise above the bar, in both rounds (or broke in
      the second). */
  lemma BlocksIff(kind: Kind, noise: Option<real>, base: Side, candidate: Side, base2: Side, candidate2: Side)
    ensures
      Final(kind, noise, base, candidate, base2, candidate2) == Block <==>
      || Broken(candidate)
      || (noise.Some? && noise.value <= GATE_BAR && Grew(base, candidate, GATE_BAR) && !Forgiven(kind, base, candidate))
      || (kind.Wall? && noise.Some? && GATE_BAR < noise.value <= NOISY && Grew(base, candidate, noise.value)
          && (Broken(candidate2) || Grew(base2, candidate2, noise.value)))
  {
    ConfirmsIff(kind, noise, base, candidate);
  }

  /** Growth past a share of the base: the candidate is more than the base and that share; from nothing,
      anything at all. */
  lemma GrewIff(base: real, candidate: real, limit: real)
    requires base >= 0.0 && limit >= 0.0
    ensures
      Grew(Valid(base), Valid(candidate), limit) <==>
      if base == 0.0 then candidate != 0.0 else candidate > base * (1.0 + limit)
  {
    if base > 0.0 {
      RatioAbove(candidate - base, base, limit);
    }
  }

  lemma RatioAbove(change: real, base: real, limit: real)
    requires base > 0.0
    ensures change / base > limit <==> change > limit * base
  {
    var ratio := change / base;
    assert ratio * base == change;
    if ratio > limit {
      PositiveTimes(ratio - limit, base);
    } else {
      NotPositiveTimes(ratio - limit, base);
    }
  }

  lemma PositiveTimes(a: real, b: real)
    requires a > 0.0 && b > 0.0
    ensures a * b > 0.0
  {
  }

  lemma NotPositiveTimes(a: real, b: real)
    requires a <= 0.0 && b > 0.0
    ensures a * b <= 0.0
  {
  }

  /** Traded work is forgiven exactly if the wall that was compared fell by a share as large as it grew. */
  lemma ForgivenIff(base: real, candidate: real, wallBase: real, wallCandidate: real)
    requires base > 0.0 && wallBase > 0.0
    ensures
      Forgiven(Traded(Some(GrowthOf(wallBase, wallCandidate))), Valid(base), Valid(candidate)) <==>
      (candidate - base) / base <= (wallBase - wallCandidate) / wallBase
    ensures !Forgiven(Traded(None), Valid(base), Valid(candidate)) && !Forgiven(Work, Valid(base), Valid(candidate))
  {
    assert (wallBase - wallCandidate) / wallBase == -((wallCandidate - wallBase) / wallBase);
  }

  /** What else a metric can end with, each exactly when: undecided for want of a side or of a noise that
      tells anything, within the noise, or passed. */
  lemma EndsIff(kind: Kind, noise: Option<real>, base: Side, candidate: Side, base2: Side, candidate2: Side)
    ensures
      var end := Final(kind, noise, base, candidate, base2, candidate2);
      var compared := base.Valid? && candidate.Valid?;
      var asks := FirstRound(kind, noise, base, candidate).1 == Confirm;
      && (end == NoNoise <==> compared && noise.None?)
      && (end == Noisy <==> compared && noise.Some? && noise.value > (if kind.Wall? then 0.40 else 0.05))
      && (end == Incomplete <==>
          || (!Broken(candidate) && !compared)
          || (asks && !Broken(candidate2) && !(base2.Valid? && candidate2.Valid?)))
      && (end == WithinNoise <==>
          && kind.Wall? && noise.Some? && 0.05 < noise.value <= 0.40 && Grew(base, candidate, 0.05)
          && (!Grew(base, candidate, noise.value)
              || (base2.Valid? && candidate2.Valid? && !Grew(base2, candidate2, noise.value))))
      && (end == Ok <==>
          && compared && noise.Some? && noise.value <= (if kind.Wall? then 0.40 else 0.05)
          && (!Grew(base, candidate, 0.05) || (kind.Traded? && Forgiven(kind, base, candidate))))
  {
    ConfirmsIff(kind, noise, base, candidate);
  }

  /** Nothing is left open after the confirming round. */
  lemma ConfirmingDecides(kind: Kind, noise: Option<real>, base: Side, candidate: Side, base2: Side, candidate2: Side)
    ensures Final(kind, noise, base, candidate, base2, candidate2) != Confirm
    ensures
      Final(kind, noise, base, candidate, base2, candidate2) in {Ok, WithinNoise} ==>
      && candidate.Valid? && base.Valid? && noise.Some? && noise.value <= NOISY
      && (!kind.Wall? ==> noise.value <= GATE_BAR)
  {
    ConfirmsIff(kind, noise, base, candidate);
  }

  // ---- the rows of a comparison ------------------------------------------------------------------------

  datatype Weight = WallWeight | WorkWeight | TradedWeight

  /** A metric to compare, its sides and its noise. */
  datatype Metric = Metric(weight: Weight, noise: Option<real>, base: Side, candidate: Side)

  /** The growth of the last wall metric, if it could be compared. */
  function WallGrowth(metrics: seq<Metric>): Option<Growth> {
    if metrics == [] then None
    else
      var last := metrics[|metrics| - 1];
      if last.weight.WallWeight? then FirstRound(Wall, last.noise, last.base, last.candidate).0
      else WallGrowth(metrics[..|metrics| - 1])
  }

  function KindOf(metrics: seq<Metric>, i: nat): Kind
    requires i < |metrics|
  {
    match metrics[i].weight
    case WallWeight => Wall
    case WorkWeight => Work
    case TradedWeight => Traded(WallGrowth(metrics[..i]))
  }

  lemma {:induction false} LastWall(metrics: seq<Metric>, w: nat)
    requires forall k | w < k < |metrics| :: !metrics[k].weight.WallWeight?
    requires w < |metrics| ==> metrics[w].weight.WallWeight?
    ensures w < |metrics| ==>
              var m := metrics[w];
              WallGrowth(metrics) ==
              if m.base.Valid? && m.candidate.Valid? then Some(GrowthOf(m.base.value, m.candidate.value)) else None
    ensures (forall k | 0 <= k < |metrics| :: !metrics[k].weight.WallWeight?) ==> WallGrowth(metrics) == None
  {
    if metrics != [] && (w != |metrics| - 1) {
      LastWall(metrics[..|metrics| - 1], w);
    }
  }

  /** Traded work is held against the last wall compared before it, if its sides are valid, and against
      nothing if there is none. */
  lemma TradedAgainstTheLastWall(metrics: seq<Metric>, i: nat, w: nat)
    requires i < |metrics| && metrics[i].weight.TradedWeight?
    requires forall k | w < k < i :: !metrics[k].weight.WallWeight?
    requires w < i ==> metrics[w].weight.WallWeight?
    ensures w < i ==>
              var m := metrics[w];
              KindOf(metrics, i) == Traded(
                if m.base.Valid? && m.candidate.Valid? then Some(GrowthOf(m.base.value, m.candidate.value)) else None)
    ensures (forall k | 0 <= k < i :: !metrics[k].weight.WallWeight?) ==> KindOf(metrics, i) == Traded(None)
  {
    LastWall(metrics[..i], w);
  }

  /** Traded work is judged by the wall compared before it. */
  method RuleRows(metrics: seq<Metric>) returns (rows: seq<Row>)
    ensures |rows| == |metrics| && forall r | r in rows :: fresh(r)
    ensures forall i | 0 <= i < |rows| :: rows[i].kind == KindOf(metrics, i) && rows[i].confirmed == None
    ensures forall i | 0 <= i < |rows| ::
              (rows[i].growth, rows[i].outcome) ==
              FirstRound(rows[i].kind, metrics[i].noise, metrics[i].base, metrics[i].candidate)
  {
    rows := [];
    var wallGrowth: Option<Growth> := None;
    var i := 0;
    while i < |metrics|
      invariant 0 <= i <= |metrics| && |rows| == i && forall r | r in rows :: fresh(r)
      invariant wallGrowth == WallGrowth(metrics[..i])
      invariant forall k | 0 <= k < i :: rows[k].kind == KindOf(metrics, k) && rows[k].confirmed == None
      invariant forall k | 0 <= k < i ::
                  (rows[k].growth, rows[k].outcome) ==
                  FirstRound(rows[k].kind, metrics[k].noise, metrics[k].base, metrics[k].candidate)
    {
      var m := metrics[i];
      var kind :=
        match m.weight
        case WallWeight => Wall
        case WorkWeight => Work
        case TradedWeight => Traded(wallGrowth);
      var row := new Row(kind, m.noise, m.base, m.candidate);
      assert metrics[..i + 1][..i] == metrics[..i];
      if m.weight.WallWeight? {
        wallGrowth := row.growth;
      }
      rows := rows + [row];
      i := i + 1;
    }
  }

  /** Growth past the bar is forgiven only in a comparison whose wall fell by more than the bar; that
      wall does not block, nor ask for another round. */
  lemma TradesNeedAFasterWall(kind: Kind, base: Side, candidate: Side, wall: Metric)
    requires Grew(base, candidate, GATE_BAR) && Forgiven(kind, base, candidate)
    requires kind.wallGrowth == FirstRound(Wall, wall.noise, wall.base, wall.candidate).0
    ensures wall.base.Valid? && wall.candidate.Valid?
    ensures FirstRound(Wall, wall.noise, wall.base, wall.candidate).1 in {Ok, NoNoise, Noisy}
    ensures GrowthOf(wall.base.value, wall.candidate.value).Finite?
    ensures GrowthOf(wall.base.value, wall.candidate.value).ratio < -GATE_BAR
  {
    var paid := kind.wallGrowth.value;
    assert paid == GrowthOf(wall.base.value, wall.candidate.value);
    assert !Above(paid, GATE_BAR);
  }

  // ---- the verdict ----------------------------------------------------------------------------------------

  predicate Open(o: Outcome) {
    o in {NoNoise, Noisy, Confirm, Incomplete}
  }

  /** `reasons` counts what is wrong beside the rows. */
  function VerdictOf(rows: seq<Outcome>, reasons: nat): Verdict {
    if Block in rows then Blocked
    else if (exists i | 0 <= i < |rows| :: Open(rows[i])) || reasons > 0 then Undecided
    else Pass
  }

  function Severity(v: Verdict): nat {
    match v
    case Pass => 0
    case Undecided => 1
    case Blocked => 2
  }

  /** Another row or another reason never makes the verdict better; and it passes exactly if every row
      is decided in favour and nothing is wrong beside them. */
  lemma MoreNeverHelps(rows: seq<Outcome>, more: seq<Outcome>, reasons: nat, others: nat)
    ensures Severity(VerdictOf(rows + more, reasons + others)) >= Severity(VerdictOf(rows, reasons))
    ensures VerdictOf(rows, reasons) == Pass <==> reasons == 0 && forall o | o in rows :: o in {Ok, WithinNoise}
    ensures VerdictOf(rows, reasons) == Blocked <==> Block in rows
  {
    forall i | 0 <= i < |rows| && Open(rows[i]) ensures Open((rows + more)[i]) {
    }
    forall i | 0 <= i < |rows| ensures rows[i] in rows {
    }
    assert forall o :: o in {Ok, WithinNoise} <==> !Open(o) && o != Block;
  }
}
