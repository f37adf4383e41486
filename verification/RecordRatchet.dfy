/** The release gate against a record that only ever gets better: one row out of several rounds, the
    trade against the wall time, and the proposals that move the record. */
module RecordRatchet {
  import opened Common

  // ---- one round -----------------------------------------------------------------------------------

  datatype Outcome = Ok | Incomplete | Block

  /** What a round has of the metric: a valid value, no value at all, or a side that failed. */
  datatype Side = Valid(value: real) | Missing | Broken

  /** A round: its side, and how its wall time compares with the record of the wall. */
  datatype Round = Round(side: Side, wallDelta: Option<real>)

  /** The record of a metric; `traded` metrics may grow where the wall time falls. */
  datatype Record = Record(value: real, noise: Option<real>, traded: bool)

  datatype Cell = Cell(side: Side, delta: Option<real>, improved: bool, outcome: Outcome, repaid: bool)

  function RecordLimit(record: real, margin: real): real {
    record * (1.0 + margin)
  }

  function Margin(r: Record): real {
    if r.noise.None? then GATE_BAR else r.noise.value
  }

  function Improved(value: real, r: Record): bool {
    r.noise.Some? && value < r.value * (1.0 - r.noise.value)
  }

  predicate Repaid(delta: real, wallDelta: Option<real>) {
    wallDelta.Some? && -wallDelta.value >= delta
  }

  function Delta(base: real, value: real): real
    requires base > 0.0
  {
    (value - base) / base
  }

  function CellOf(r: Record, round: Round): Cell
    requires r.value > 0.0
  {
    match round.side
    case Broken => Cell(round.side, None, false, Block, false)
    case Missing => Cell(round.side, None, false, Incomplete, false)
    case Valid(value) =>
      var delta := Delta(r.value, value);
      var over := value > RecordLimit(r.value, Margin(r));
      var repaid := over && r.traded && Repaid(delta, round.wallDelta);
      Cell(round.side, Some(delta), Improved(value, r), if over && !repaid then Block else Ok, repaid)
  }

  // ---- the worst of the rounds ------------------------------------------------------------------------

  function Rank(o: Outcome): nat {
    match o
    case Ok => 0
    case Incomplete => 1
    case Block => 2
  }

  /** Strictly worse: by outcome, then by growth, no growth at all the least. */
  predicate Worse(a: Cell, b: Cell) {
    Rank(a.outcome) > Rank(b.outcome)
    || (Rank(a.outcome) == Rank(b.outcome) && a.delta.Some? && (b.delta.None? || a.delta.value > b.delta.value))
  }

  method WorstCell(cells: seq<Cell>) returns (worst: Cell)
    requires cells != []
    ensures worst in cells && forall c | c in cells :: !Worse(c, worst)
    ensures worst.outcome != Block ==> forall c | c in cells :: c.outcome != Block
    ensures worst.outcome == Ok ==> forall c | c in cells :: c.outcome == Ok
    ensures forall c | c in cells && c.outcome == worst.outcome && c.delta.Some? ::
              worst.delta.Some? && c.delta.value <= worst.delta.value
  {
    worst := cells[0];
    var i := 1;
    while i < |cells|
      invariant 1 <= i <= |cells|
      invariant worst in cells && forall k | 0 <= k < i :: !Worse(cells[k], worst)
    {
      if Worse(cells[i], worst) {
        forall k | 0 <= k < i ensures !Worse(cells[k], cells[i]) {
          WorseIsTransitive(cells[k], cells[i], worst);
        }
        worst := cells[i];
      }
      i := i + 1;
    }
  }

  lemma WorseIsTransitive(a: Cell, b: Cell, c: Cell)
    ensures Worse(a, b) && Worse(b, c) ==> Worse(a, c)
    ensures !Worse(a, a)
  {
  }

  function Cells(r: Record, rounds: seq<Round>): (cells: seq<Cell>)
    requires r.value > 0.0
    ensures |cells| == |rounds| && forall i | 0 <= i < |rounds| :: cells[i] == CellOf(r, rounds[i])
  {
    seq(|rounds|, i requires 0 <= i < |rounds| => CellOf(r, rounds[i]))
  }

  /** A row without rounds is incomplete; else it blocks if some round does, and is incomplete if
      some round is and none blocks. */
  function RowOutcome(cells: seq<Cell>): Outcome {
    if exists i | 0 <= i < |cells| :: cells[i].outcome == Block then Block
    else if cells == [] || exists i | 0 <= i < |cells| :: cells[i].outcome == Incomplete then Incomplete
    else Ok
  }

  /** A round in which the run broke, or its value passed the record by more than the margin (what noise
      there is, or 5 %) and the wall did not fall by as large a share. */
  predicate BlocksIn(r: Record, round: Round)
    requires r.value > 0.0
  {
    match round.side
    case Broken => true
    case Missing => false
    case Valid(value) =>
      && value > r.value * (1.0 + if r.noise.Some? then r.noise.value else 0.05)
      && !(r.traded && round.wallDelta.Some? && (value - r.value) / r.value <= -round.wallDelta.value)
  }

  /** The row as a reader of the rounds would call it. */
  ghost predicate RowIs(r: Record, rounds: seq<Round>, outcome: Outcome)
    requires r.value > 0.0
  {
    && (outcome == Block <==> exists i | 0 <= i < |rounds| :: BlocksIn(r, rounds[i]))
    && (outcome == Incomplete <==>
        && (forall i | 0 <= i < |rounds| :: !BlocksIn(r, rounds[i]))
        && (rounds == [] || exists i | 0 <= i < |rounds| :: rounds[i].side.Missing?))
  }

  lemma CellsTell(r: Record, round: Round)
    requires r.value > 0.0
    ensures CellOf(r, round).outcome == Block <==> BlocksIn(r, round)
    ensures CellOf(r, round).outcome == Incomplete <==> round.side.Missing?
    ensures
      CellOf(r, round).repaid <==>
      && round.side.Valid? && !BlocksIn(r, round)
      && round.side.value > r.value * (1.0 + if r.noise.Some? then r.noise.value else 0.05)
    ensures
      CellOf(r, round).improved <==>
      round.side.Valid? && r.noise.Some? && round.side.value < r.value * (1.0 - r.noise.value)
    ensures CellOf(r, round).side == round.side
    ensures CellOf(r, round).delta ==
              if round.side.Valid? then Some((round.side.value - r.value) / r.value) else None
  {
  }

  lemma RowTells(r: Record, rounds: seq<Round>)
    requires r.value > 0.0
    ensures RowIs(r, rounds, RowOutcome(Cells(r, rounds)))
  {
    var cells := Cells(r, rounds);
    forall i | 0 <= i < |rounds|
      ensures cells[i].outcome == Block <==> BlocksIn(r, rounds[i])
      ensures cells[i].outcome == Incomplete <==> rounds[i].side.Missing?
    {
      CellsTell(r, rounds[i]);
    }
  }

  /** The row of a metric, built round by round and then judged by the worst. There is no record where
      nothing of the measurement compares with one, or its entry is invalid or lacks its noise. */
  method RecordRow(record: Option<Record>, rounds: seq<Round>) returns (cells: seq<Cell>, outcome: Outcome)
    requires record.Some? ==> record.value.value > 0.0
    ensures record.None? ==> cells == [] && outcome == Incomplete
    ensures record.Some? ==> cells == Cells(record.value, rounds) && RowIs(record.value, rounds, outcome)
    ensures outcome == RowOutcome(cells)
  {
    if record.None? {
      return [], Incomplete;
    }
    var r := record.value;
    RowTells(r, rounds);
    cells := [];
    var i := 0;
    while i < |rounds|
      invariant 0 <= i <= |rounds| && |cells| == i
      invariant forall k | 0 <= k < i :: cells[k] == CellOf(r, rounds[k])
    {
      cells := cells + [CellOf(r, rounds[i])];
      i := i + 1;
    }
    if cells == [] {
      return cells, Incomplete;
    }
    var worst := WorstCell(cells);
    outcome := worst.outcome;
    forall k | 0 <= k < |cells| ensures Rank(cells[k].outcome) <= Rank(worst.outcome) {
      assert cells[k] in cells;
    }
  }

  /** Measuring another round never erases a block, nor a round that has no decision. */
  lemma AnotherRoundErasesNothing(r: Record, rounds: seq<Round>, more: seq<Round>)
    requires r.value > 0.0 && rounds != []
    ensures Rank(RowOutcome(Cells(r, rounds + more))) >= Rank(RowOutcome(Cells(r, rounds)))
  {
    var few, all := Cells(r, rounds), Cells(r, rounds + more);
    assert forall i | 0 <= i < |rounds| :: all[i] == few[i];
  }

  /** A round passes exactly if its value is within the limit, or the metric is traded and the wall
      fell by at least as much as it grew. */
  lemma PassesIff(r: Record, round: Round)
    requires r.value > 0.0
    ensures
      CellOf(r, round).outcome == Ok <==>
      && round.side.Valid?
      && (round.side.value <= RecordLimit(r.value, Margin(r))
          || (r.traded && Repaid(Delta(r.value, round.side.value), round.wallDelta)))
  {
  }

  // ---- proposals -----------------------------------------------------------------------------------------

  /** Measurements of a candidate: their rounds, whether all runs of both held and the answers agree. */
  datatype Candidate = Candidate(rounds: seq<Round>, held: bool, answersAgree: bool)

  /** The value proposed as the new record: the worse of two rounds that both improved on it. */
  function Proposal(r: Record, c: Candidate): Option<real>
    requires r.value > 0.0
  {
    if |c.rounds| != 2 || !c.held || !c.answersAgree then None
    else
      var a, b := CellOf(r, c.rounds[0]), CellOf(r, c.rounds[1]);
      if !a.improved || !b.improved then None
      else Some(if a.side.value >= b.side.value then a.side.value else b.side.value)
  }

  /** Of a candidate all of whose runs held and whose answers agree, over exactly two rounds, the larger
      value is proposed, if both are below the record by more than its measured noise. */
  lemma ProposedIff(r: Record, c: Candidate, value: real)
    requires r.value > 0.0
    ensures
      Proposal(r, c) == Some(value) <==>
      && c.held && c.answersAgree && |c.rounds| == 2 && r.noise.Some?
      && c.rounds[0].side.Valid? && c.rounds[1].side.Valid?
      && c.rounds[0].side.value < r.value * (1.0 - r.noise.value)
      && c.rounds[1].side.value < r.value * (1.0 - r.noise.value)
      && value in {c.rounds[0].side.value, c.rounds[1].side.value}
      && c.rounds[0].side.value <= value && c.rounds[1].side.value <= value
  {
  }

  /** The record moves exactly when a proposal was committed. */
  lemma MovesIff(r: Record, e: Release)
    requires r.value > 0.0
    ensures
      NextRecord(r, e) ==
      if e.committed && Proposal(r, e.candidate).Some? && Proposal(r, e.candidate).value > 0.0
      then Record(Proposal(r, e.candidate).value, r.noise, r.traded) else r
  {
  }

  predicate Sane(r: Record) {
    r.value > 0.0 && (r.noise.Some? ==> 0.0 <= r.noise.value < 1.0)
  }

  /** A proposal beats the record by more than the noise, and the rounds it was measured in pass
      against it. */
  lemma ProposalBeatsTheRecord(r: Record, c: Candidate)
    requires Sane(r) && Proposal(r, c).Some? && Proposal(r, c).value > 0.0
    ensures r.noise.Some? && Proposal(r, c).value < r.value * (1.0 - r.noise.value)
    ensures RowOutcome(Cells(r.(value := Proposal(r, c).value), c.rounds)) == Ok
  {
    var proposed := Proposal(r, c).value;
    var next := r.(value := proposed);
    assert RecordLimit(proposed, Margin(next)) >= proposed by {
      assert proposed * (1.0 + r.noise.value) == proposed + proposed * r.noise.value;
      NonNegativeProduct(proposed, r.noise.value);
    }
    assert forall i | 0 <= i < 2 :: c.rounds[i].side.value <= proposed;
    assert forall i | 0 <= i < 2 :: Cells(next, c.rounds)[i].outcome == Ok;
  }

  lemma NonNegativeProduct(a: real, b: real)
    requires a >= 0.0 && b >= 0.0
    ensures a * b >= 0.0
  {
  }

  // ---- many releases ------------------------------------------------------------------------------------------

  /** A candidate is released if its row passes; whether its proposal is committed is decided by a
      person. */
  datatype Release = Release(candidate: Candidate, committed: bool)

  function NextRecord(r: Record, e: Release): Record
    requires r.value > 0.0
  {
    var p := Proposal(r, e.candidate);
    if e.committed && p.Some? && p.value > 0.0 then r.(value := p.value) else r
  }

  function RecordAfter(r: Record, es: seq<Release>): (after: Record)
    requires r.value > 0.0
    ensures after.value > 0.0 && after.noise == r.noise && after.traded == r.traded
    decreases |es|
  {
    if es == [] then r else NextRecord(RecordAfter(r, es[..|es| - 1]), es[|es| - 1])
  }

  /** How often the record was moved. */
  function Moves(r: Record, es: seq<Release>): nat
    requires r.value > 0.0
    decreases |es|
  {
    if es == [] then 0
    else
      var before := RecordAfter(r, es[..|es| - 1]);
      Moves(r, es[..|es| - 1]) + if NextRecord(before, es[|es| - 1]) != before then 1 else 0
  }

  function Power(x: real, n: nat): real {
    if n == 0 then 1.0 else x * Power(x, n - 1)
  }

  lemma ScaleOrder(a: real, b: real, c: real)
    requires a <= b && c >= 0.0
    ensures a * c <= b * c
  {
    NonNegativeProduct(b - a, c);
  }

  predicate WithinPower(value: real, first: real, keep: real, n: nat) {
    value <= first * Power(keep, n)
  }

  lemma OneMoreMove(before: real, after: real, first: real, keep: real, n: nat)
    requires WithinPower(before, first, keep, n) && keep >= 0.0 && after < before * keep
    ensures WithinPower(after, first, keep, n + 1)
  {
    ScaleOrder(before, first * Power(keep, n), keep);
    assert first * Power(keep, n) * keep == first * Power(keep, n + 1);
  }

  lemma MovedGoesDown(r: Record, e: Release)
    requires Sane(r) && r.noise.Some?
    ensures NextRecord(r, e) != r ==> NextRecord(r, e).value < r.value * (1.0 - r.noise.value)
  {
    if NextRecord(r, e) != r {
      ProposalBeatsTheRecord(r, e.candidate);
    }
  }

  /** Over any number of releases the record goes down, each time it is moved at all, to less than
      the share of it that the noise leaves. */
  lemma {:induction false} RecordGoesDown(r: Record, es: seq<Release>, keep: real)
    requires Sane(r) && r.noise.Some? && keep == 1.0 - r.noise.value
    ensures WithinPower(RecordAfter(r, es).value, r.value, keep, Moves(r, es))
    decreases |es|
  {
    if es == [] {
      assert r.value * Power(keep, 0) == r.value;
    } else {
      var init, e := es[..|es| - 1], es[|es| - 1];
      RecordGoesDown(r, init, keep);
      StepGoesDown(r, RecordAfter(r, init), e, keep, Moves(r, init));
    }
  }

  lemma StepGoesDown(r: Record, before: Record, e: Release, keep: real, n: nat)
    requires Sane(before) && before.noise.Some? && keep == 1.0 - before.noise.value
    requires WithinPower(before.value, r.value, keep, n)
    ensures
      var after := NextRecord(before, e);
      WithinPower(after.value, r.value, keep, if after != before then n + 1 else n)
  {
    MovedGoesDown(before, e);
    var after := NextRecord(before, e).value;
    if NextRecord(before, e) != before {
      OneMoreMove(before.value, after, r.value, keep, n);
    }
  }

  lemma {:induction false} RecordNeverRises(r: Record, es: seq<Release>)
    requires Sane(r)
    ensures RecordAfter(r, es).value <= r.value
    decreases |es|
  {
    if es != [] {
      var before := RecordAfter(r, es[..|es| - 1]);
      RecordNeverRises(r, es[..|es| - 1]);
      if before.noise.Some? {
        MovedGoesDown(before, es[|es| - 1]);
        ScaleDown(before.value, 1.0 - before.noise.value);
      }
    }
  }

  lemma ScaleDown(a: real, keep: real)
    requires a > 0.0 && keep <= 1.0
    ensures a * keep <= a
  {
    ScaleOrder(keep, 1.0, a);
  }

  /** After any number of releases, whatever was committed: a candidate that passes and repaid no
      growth is within the first record and its margin. Small regressions do not add up. */
  lemma PassingNeverDrifts(r: Record, es: seq<Release>, candidate: Candidate, i: nat)
    requires Sane(r) && i < |candidate.rounds|
    requires RowOutcome(Cells(RecordAfter(r, es), candidate.rounds)) == Ok
    requires !CellOf(RecordAfter(r, es), candidate.rounds[i]).repaid
    ensures candidate.rounds[i].side.Valid?
    ensures candidate.rounds[i].side.value <= RecordLimit(r.value, Margin(r))
  {
    var now := RecordAfter(r, es);
    assert Cells(now, candidate.rounds)[i] == CellOf(now, candidate.rounds[i]);
    assert CellOf(now, candidate.rounds[i]).outcome == Ok;
    assert candidate.rounds[i].side.value <= RecordLimit(now.value, Margin(now));
    RecordNeverRises(r, es);
    LimitOrder(now.value, r.value, Margin(r));
  }

  lemma LimitOrder(a: real, b: real, margin: real)
    requires a <= b && margin >= 0.0
    ensures RecordLimit(a, margin) <= RecordLimit(b, margin)
  {
    ScaleOrder(a, b, 1.0 + margin);
  }

  /** With a wall time that fell enough, any growth of a traded metric passes. */
  lemma TradedGrowthPasses(r: Record, value: real)
    requires r.value > 0.0 && r.traded
    ensures CellOf(r, Round(Valid(value), Some(-Delta(r.value, value)))).outcome == Ok
  {
  }

  /** Trading is the one way past the record: a value can pass at some wall time exactly if the metric
      is traded or the value is within the limit, and at every wall time exactly in the latter case. */
  lemma OnlyTradesGoPast(r: Record, value: real)
    requires r.value > 0.0
    ensures
      (exists wallDelta :: CellOf(r, Round(Valid(value), wallDelta)).outcome == Ok)
      <==> r.traded || value <= RecordLimit(r.value, Margin(r))
    ensures
      (forall wallDelta :: CellOf(r, Round(Valid(value), wallDelta)).outcome == Ok)
      <==> value <= RecordLimit(r.value, Margin(r))
  {
    PassesIff(r, Round(Valid(value), None));
    if r.traded {
      TradedGrowthPasses(r, value);
    }
    forall wallDelta
      ensures CellOf(r, Round(Valid(value), wallDelta)).outcome == Ok
              ==> r.traded || value <= RecordLimit(r.value, Margin(r))
      ensures value <= RecordLimit(r.value, Margin(r)) ==> CellOf(r, Round(Valid(value), wallDelta)).outcome == Ok
    {
      PassesIff(r, Round(Valid(value), wallDelta));
    }
  }

  // ---- why there is a record ------------------------------------------------------------------------------------

  /** The rule against the previous release alone: growth up to the bar passes. */
  predicate PassesPrevious(previous: real, value: real)
    requires previous > 0.0
  {
    Delta(previous, value) <= GATE_BAR
  }

  function Drift(first: real, n: nat): (value: real)
    requires first > 0.0
    ensures value > 0.0
  {
    if n == 0 then first else Drift(first, n - 1) * (1.0 + GATE_BAR)
  }

  /** Each release passing against the one before it lets a metric grow without bound: by any number
      of releases it has grown by the bar to their power. */
  lemma {:induction false} PreviousRuleDrifts(first: real, n: nat)
    requires first > 0.0
    ensures forall k | 0 <= k < n :: PassesPrevious(Drift(first, k), Drift(first, k + 1))
    ensures Drift(first, n) == first * Power(1.0 + GATE_BAR, n)
  {
    if n > 0 {
      PreviousRuleDrifts(first, n - 1);
      var before := Drift(first, n - 1);
      assert Drift(first, n) - before == GATE_BAR * before;
      ShareOfItself(GATE_BAR, before);
    }
  }

  lemma ShareOfItself(share: real, whole: real)
    requires whole > 0.0
    ensures share * whole / whole == share
  {
  }
}
