/** Measured runs that repeat while the machine is disturbed: waiting and the runs that do not count
    share one budget. What the machine, the window and the runs turn out to be is told in advance by
    an oracle, so that every way they could is covered. */
module GateRunner {
  import opened Common

  const POLL_S: real := 30.0

  datatype Reason = Held | ForeignLoad | OtherReason

  datatype Measurement = Measurement(reason: Reason, durationS: real)

  /** The n-th look at the machine, the n-th question whether a run still fits, the n-th run. */
  datatype Oracle = Oracle(quiet: nat -> bool, fits: nat -> bool, runs: nat -> Measurement)

  datatype Result = Returned(record: Measurement) | MachineBusy | WindowExhausted

  datatype Waited = Quiet | Busy | Closed

  /** Runs last, and how long they last has bounds. */
  ghost predicate Bounded(oracle: Oracle, shortest: real, longest: real) {
    0.0 < shortest && forall n :: shortest <= oracle.runs(n).durationS <= longest
  }

  // ---- termination ------------------------------------------------------------------------------------

  /** After so many charges of `step` the budget is spent. */
  predicate SpentAfter(budget: real, spent: real, step: real, charges: nat)
    decreases charges
  {
    if charges == 0 then spent >= budget else SpentAfter(budget, spent + step, step, charges - 1)
  }

  lemma OneFactorLess(step: real, charges: nat)
    requires charges > 0
    ensures step * (charges as real) == step * ((charges - 1) as real) + step
  {
    assert (charges as real) == ((charges - 1) as real) + 1.0;
  }

  lemma {:induction false} EnoughCharges(budget: real, spent: real, step: real, charges: nat)
    requires budget - spent <= step * (charges as real)
    ensures SpentAfter(budget, spent, step, charges)
    decreases charges
  {
    if charges > 0 {
      OneFactorLess(step, charges);
      EnoughCharges(budget, spent + step, step, charges - 1);
    }
  }

  /** However small the charges are, some number of them spends the budget. */
  lemma ChargesToSpend(budget: real, spent: real, step: real) returns (charges: nat)
    requires step > 0.0
    ensures SpentAfter(budget, spent, step, charges)
  {
    var quotient := (budget - spent) / step;
    Quotient(budget - spent, step, quotient);
    charges := if quotient <= 0.0 then 0 else quotient.Floor + 1;
    NonNegativeProduct((charges as real) - quotient, step);
    assert ((charges as real) - quotient) * step == step * (charges as real) - quotient * step;
    EnoughCharges(budget, spent, step, charges);
  }

  lemma Quotient(a: real, b: real, q: real)
    requires b > 0.0 && q == a / b
    ensures q * b == a
  {
  }

  lemma NonNegativeProduct(a: real, b: real)
    requires a >= 0.0 && b >= 0.0
    ensures a * b >= 0.0
  {
  }

  lemma {:induction false} MoreIsSpentSooner(budget: real, spent: real, more: real, step: real, charges: nat)
    requires SpentAfter(budget, spent, step, charges) && spent <= more
    ensures SpentAfter(budget, more, step, charges)
    decreases charges
  {
    if charges > 0 {
      MoreIsSpentSooner(budget, spent + step, more + step, step, charges - 1);
    }
  }

  /** A charge of at least `step` is one of them. */
  lemma ChargeCounts(budget: real, spent: real, charge: real, step: real, charges: nat)
    requires SpentAfter(budget, spent, step, charges) && spent < budget && charge >= step
    ensures charges > 0 && SpentAfter(budget, spent + charge, step, charges - 1)
  {
    MoreIsSpentSooner(budget, spent + step, spent + charge, step, charges - 1);
  }

  // ---- the runner ---------------------------------------------------------------------------------------

  /** The launches that count. */
  function Counted(launches: seq<Measurement>): seq<Measurement> {
    if launches == [] then []
    else
      var last := launches[|launches| - 1];
      Counted(launches[..|launches| - 1]) + if last.reason == ForeignLoad then [] else [last]
  }

  /** How long the others took. */
  function ForeignTime(launches: seq<Measurement>): real {
    if launches == [] then 0.0
    else
      var last := launches[|launches| - 1];
      ForeignTime(launches[..|launches| - 1]) + if last.reason == ForeignLoad then last.durationS else 0.0
  }

  lemma OneMoreLaunch(launches: seq<Measurement>, m: Measurement)
    ensures Counted(launches + [m]) == if m.reason == ForeignLoad then Counted(launches) else Counted(launches) + [m]
    ensures ForeignTime(launches + [m]) == ForeignTime(launches) + if m.reason == ForeignLoad then m.durationS else 0.0
  {
    assert (launches + [m])[..|launches|] == launches;
  }

  /** What a launch is charged once it has run. */
  function Cost(m: Measurement): real {
    if m.reason == ForeignLoad then m.durationS else 0.0
  }

  /** What is charged: every poll slept through, and every run that did not count. */
  function Charged(sleeps: nat, launches: seq<Measurement>): real
    decreases sleeps + |launches|
  {
    if sleeps > 0 then Charged(sleeps - 1, launches) + POLL_S
    else if launches == [] then 0.0
    else Charged(0, launches[..|launches| - 1]) + Cost(launches[|launches| - 1])
  }

  lemma OneMoreSleep(sleeps: nat, launches: seq<Measurement>)
    ensures Charged(sleeps + 1, launches) == Charged(sleeps, launches) + POLL_S
  {
  }

  lemma {:induction false} OneMoreCharge(sleeps: nat, launches: seq<Measurement>, m: Measurement)
    ensures Charged(sleeps, launches + [m]) == Charged(sleeps, launches) + Cost(m)
    decreases sleeps
  {
    if sleeps > 0 {
      OneMoreCharge(sleeps - 1, launches, m);
    } else {
      assert (launches + [m])[..|launches|] == launches;
    }
  }

  /** A poll's time for each sleep, and their own for the runs that did not count. */
  lemma {:induction false} ChargedIsTheirSum(sleeps: nat, launches: seq<Measurement>)
    ensures Charged(sleeps, launches) == POLL_S * (sleeps as real) + ForeignTime(launches)
    decreases sleeps + |launches|
  {
    if sleeps > 0 {
      ChargedIsTheirSum(sleeps - 1, launches);
      OneFactorLess(POLL_S, sleeps);
    } else if launches != [] {
      ChargedIsTheirSum(0, launches[..|launches| - 1]);
    }
  }

  /** The cost of the last launch, if it did not count. */
  function LastCost(launches: seq<Measurement>): real {
    if launches == [] then 0.0 else Cost(launches[|launches| - 1])
  }

  lemma LaunchIsCharged(spent: real, sleeps: nat, launches: seq<Measurement>, m: Measurement)
    requires spent == Charged(sleeps, launches)
    ensures spent + Cost(m) == Charged(sleeps, launches + [m]) && LastCost(launches + [m]) == Cost(m)
  {
    OneMoreCharge(sleeps, launches, m);
  }

  datatype Attempted = Again | Done(result: Result)

  /** What a runner has charged, launched and asked so far. */
  datatype Books = Books(
    spentS: real, launches: seq<Measurement>, looks: nat, questions: nat, sleeps: nat, spentAtLaunch: real)

  class Runner {
    const oracle: Oracle
    const budgetS: real
    var spentS: real
    var launches: seq<Measurement>
    var looks: nat
    var questions: nat
    ghost var sleeps: nat
    ghost var spentAtLaunch: real

    constructor (oracle: Oracle, budgetMin: real)
      ensures this.oracle == oracle && budgetS == budgetMin * 60.0 && Accounted()
      ensures Now() == Books(0.0, [], 0, 0, 0, 0.0)
    {
      this.oracle, budgetS := oracle, budgetMin * 60.0;
      spentS, launches, looks, questions, sleeps, spentAtLaunch := 0.0, [], 0, 0, 0, 0.0;
    }

    /** All that was charged is accounted for; since the last launch and its cost only polls were
        charged, the last of them while there was budget. */
    ghost predicate Accounted()
      reads this
    {
      && spentS == Charged(sleeps, launches)
      && spentAtLaunch + LastCost(launches) <= spentS
      && (spentS == spentAtLaunch + LastCost(launches) || spentS < budgetS + POLL_S)
    }

    /** The promise: what is charged passes the budget by at most a poll or the run that ended it. */
    ghost predicate WithinPollOrRun()
      reads this
    {
      spentS <= budgetS + Larger(POLL_S, LastCost(launches))
    }

    /** The last launch left room for it: a run as long as a poll, or longer, must have started with
        the budget not yet passed; a shorter one may start late by the difference. */
    ghost predicate LaunchedInTime()
      reads this
    {
      spentAtLaunch <= budgetS + Larger(POLL_S - LastCost(launches), 0.0)
    }

    method Fits() returns (yes: bool)
      modifies this`questions
      ensures questions == old(questions) + 1 && yes == oracle.fits(old(questions))
    {
      yes := oracle.fits(questions);
      questions := questions + 1;
    }

    /** Sleeps, charges for it and looks again. */
    method Poll() returns (quiet: bool)
      requires Accounted() && spentS < budgetS
      modifies this`spentS, this`looks, this`sleeps
      ensures Accounted() && spentS == old(spentS) + POLL_S
      ensures sleeps == old(sleeps) + 1 && looks == old(looks) + 1 && quiet == oracle.quiet(old(looks))
    {
      OneMoreSleep(sleeps, launches);
      spentS := spentS + POLL_S;
      sleeps := sleeps + 1;
      quiet := oracle.quiet(looks);
      looks := looks + 1;
    }

    /** Looks until the machine is quiet and sleeps in between, as long as there is budget and a run
        still fits: each look but the last was followed by a sleep. */
    method WaitQuiet() returns (r: Waited)
      requires Accounted()
      modifies this`spentS, this`looks, this`questions, this`sleeps
      ensures Accounted() && old(spentS) <= spentS
      ensures spentS == old(spentS) || spentS < budgetS + POLL_S
      ensures r.Busy? ==> spentS >= budgetS
      ensures r.Closed? ==> questions > 0 && !oracle.fits(questions - 1)
      ensures looks > old(looks) && looks - old(looks) == sleeps - old(sleeps) + 1
      ensures (r.Quiet? ==> oracle.quiet(looks - 1)) && (r.Busy? ==> !oracle.quiet(looks - 1))
      ensures forall n | old(looks) <= n < looks - 1 :: !oracle.quiet(n)
    {
      var quiet := oracle.quiet(looks);
      looks := looks + 1;
      ghost var left := ChargesToSpend(budgetS, spentS, POLL_S);
      while !quiet
        invariant Accounted() && old(spentS) <= spentS && (spentS == old(spentS) || spentS < budgetS + POLL_S)
        invariant looks - old(looks) == sleeps - old(sleeps) + 1
        invariant looks > old(looks) && quiet == oracle.quiet(looks - 1)
        invariant forall n | old(looks) <= n < looks - 1 :: !oracle.quiet(n)
        invariant SpentAfter(budgetS, spentS, POLL_S, left)
        decreases left
      {
        if spentS >= budgetS {
          return Busy;
        }
        var fits := Fits();
        if !fits {
          return Closed;
        }
        ChargeCounts(budgetS, spentS, POLL_S, POLL_S, left);
        left := left - 1;
        quiet := Poll();
      }
      var fits := Fits();
      r := if fits then Quiet else Closed;
    }

    /** One run on a quiet machine; it is asked for its reason only once it is over. */
    method Launch() returns (record: Measurement)
      requires Accounted()
      modifies this`spentS, this`launches, this`spentAtLaunch
      ensures Accounted() && record == oracle.runs(|old(launches)|) && launches == old(launches) + [record]
      ensures spentAtLaunch == old(spentS) && spentS == old(spentS) + Cost(record)
    {
      record := oracle.runs(|launches|);
      LaunchIsCharged(spentS, sleeps, launches, record);
      spentAtLaunch := spentS;
      launches := launches + [record];
      if record.reason == ForeignLoad {
        spentS := spentS + record.durationS;
      }
      assert spentS == spentAtLaunch + Cost(record);
    }

    ghost function Now(): Books
      reads this
    {
      Books(spentS, launches, looks, questions, sleeps, spentAtLaunch)
    }

    /** Nothing was launched: the budget was spent on a machine that is not quiet, or the window is over. */
    ghost predicate Refused(before: Books, a: Attempted, after: Books) {
      && after.launches == before.launches
      && (after.spentS == before.spentS || after.spentS < budgetS + POLL_S)
      && (|| (a == Done(MachineBusy) && after.spentS >= budgetS && after.looks > 0 && !oracle.quiet(after.looks - 1))
          || (a == Done(WindowExhausted) && after.questions > 0 && !oracle.fits(after.questions - 1)))
    }

    /** A launch on a quiet machine decides: it counts, or it is charged and measured again while there
        is budget. */
    ghost predicate Judged(before: Books, a: Attempted, after: Books) {
      var last := oracle.runs(|before.launches|);
      && after.launches == before.launches + [last] && after.looks > 0 && oracle.quiet(after.looks - 1)
      && before.spentS <= after.spentAtLaunch
      && (after.spentAtLaunch == before.spentS || after.spentAtLaunch < budgetS + POLL_S)
      && after.spentS == after.spentAtLaunch + Cost(last)
      && a == if last.reason != ForeignLoad then Done(Returned(last))
              else if after.spentS >= budgetS then Done(MachineBusy) else Again
    }

    /** One attempt: each look but the last was followed by a sleep, and what was paid for is charged. */
    ghost predicate AttemptMade(before: Books, a: Attempted, after: Books) {
      && after.looks > before.looks && after.looks - before.looks == after.sleeps - before.sleeps + 1
      && (forall n | before.looks <= n < after.looks - 1 :: !oracle.quiet(n))
      && before.spentS <= after.spentS
      && (Refused(before, a, after) || Judged(before, a, after))
    }

    /** One wait, and one run if it ended well. */
    method Attempt() returns (a: Attempted)
      requires Accounted() && forall n :: oracle.runs(n).durationS > 0.0
      modifies this
      ensures Accounted() && AttemptMade(old(Now()), a, Now())
    {
      var waited := WaitQuiet();
      if waited.Busy? {
        a := Done(MachineBusy);
        assert Refused(old(Now()), a, Now());
        return;
      }
      if waited.Closed? {
        a := Done(WindowExhausted);
        assert Refused(old(Now()), a, Now());
        return;
      }
      var record := Launch();
      a :=
        if record.reason != ForeignLoad then Done(Returned(record))
        else if spentS >= budgetS then Done(MachineBusy) else Again;
      assert Judged(old(Now()), a, Now());
    }

    /** An attempt that leads to another was charged a run, and left what counts as it was. */
    lemma AgainCounts(before: Books, after: Books, shortest: real, longest: real, left: nat)
      requires AttemptMade(before, Again, after) && Bounded(oracle, shortest, longest)
      requires SpentAfter(budgetS, before.spentS, shortest, left)
      ensures before.spentS < budgetS && after.spentS < budgetS
      ensures left > 0 && SpentAfter(budgetS, after.spentS, shortest, left - 1)
      ensures before.launches <= after.launches && Counted(after.launches) == Counted(before.launches)
    {
      OneMoreLaunch(before.launches, oracle.runs(|before.launches|));
      var charge := after.spentS - before.spentS;
      ChargeCounts(budgetS, before.spentS, charge, shortest, left);
      assert before.spentS + charge == after.spentS;
    }

    /** What the last attempt of a run leaves. */
    ghost predicate Settled(before: Books, r: Result, after: Books) {
      && before.launches <= after.launches
      && Counted(after.launches) == Counted(before.launches) + (if r.Returned? then [r.record] else [])
      && (r.Returned? ==>
            && r.record.reason != ForeignLoad
            && after.launches != [] && after.launches[|after.launches| - 1] == r.record)
      && (r.MachineBusy? ==> after.spentS >= budgetS)
      && (r.WindowExhausted? ==> after.questions > 0 && !oracle.fits(after.questions - 1))
    }

    lemma DoneSettles(before: Books, a: Attempted, after: Books, longest: real)
      requires AttemptMade(before, a, after) && a.Done? && forall n :: 0.0 < oracle.runs(n).durationS <= longest
      ensures a.result.WindowExhausted? ==> Refused(before, a, after)
      ensures Settled(before, a.result, after)
      ensures before.spentS < budgetS + POLL_S ==>
                after.spentS < budgetS + POLL_S + if a.result.Returned? then 0.0 else longest
    {
      OneMoreLaunch(before.launches, oracle.runs(|before.launches|));
    }

    /** And of the run, the attempts before it having been charged. */
    lemma RunSettles(start: Books, before: Books, a: Attempted, after: Books, longest: real)
      requires AttemptMade(before, a, after) && a.Done? && forall n :: 0.0 < oracle.runs(n).durationS <= longest
      requires start.launches <= before.launches && Counted(before.launches) == Counted(start.launches)
      requires before.spentS == start.spentS || before.spentS < budgetS
      ensures Settled(start, a.result, after)
      ensures start.spentS < budgetS + POLL_S ==>
                after.spentS < budgetS + POLL_S + if a.result.Returned? then 0.0 else longest
    {
      DoneSettles(before, a, after, longest);
    }

    /** The promise is kept exactly if the last launch left room for it. */
    lemma KeptIffInTime()
      requires Accounted()
      ensures WithinPollOrRun() <==> LaunchedInTime()
    {
    }

    /** Measures until a run counts. The launches that were added are runs under foreign load and, last,
        the one that is returned. It ends whatever the machine does, past the budget by less than a
        poll and a run; returning, by less than a poll. It is within a poll or a run exactly if the
        last launch left room for that. The first attempt is made from where it starts, and where that
        is done, so is the run. */
    method Run(ghost shortest: real, ghost longest: real)
      returns (r: Result, ghost first: Attempted, ghost after: Books)
      requires Accounted() && Bounded(oracle, shortest, longest)
      modifies this
      ensures Accounted() && Settled(old(Now()), r, Now())
      ensures old(spentS) < budgetS + POLL_S ==> spentS < budgetS + POLL_S + if r.Returned? then 0.0 else longest
      ensures WithinPollOrRun() <==> LaunchedInTime()
      ensures AttemptMade(old(Now()), first, after)
      ensures first.Done? ==> r == first.result && Now() == after
    {
      var last := Attempt();
      first, after := last, Now();
      ghost var left := ChargesToSpend(budgetS, old(spentS), shortest);
      ghost var before := old(Now());
      while last.Again?
        invariant Accounted() && AttemptMade(before, last, Now())
        invariant old(launches) <= before.launches && Counted(before.launches) == Counted(old(launches))
        invariant before.spentS == old(spentS) || before.spentS < budgetS
        invariant SpentAfter(budgetS, before.spentS, shortest, left)
        invariant first.Done? ==> last == first && Now() == after
        decreases left
      {
        AgainCounts(before, Now(), shortest, longest, left);
        left, before := left - 1, Now();
        last := Attempt();
      }
      r := last.result;
      RunSettles(old(Now()), before, last, Now(), longest);
      KeptIffInTime();
    }

    /** A sequence of runs: what it hands back are exactly the launches that count, in their order, and
        all waiting together exceeds the budget by less than one poll and one run; by no more than one
        of them exactly if the last launch left room for that. */
    method RunAll(count: nat, ghost shortest: real, ghost longest: real)
      returns (records: seq<Measurement>, end: Result)
      requires Accounted() && Bounded(oracle, shortest, longest) && spentS < budgetS + POLL_S
      modifies this
      ensures Accounted()
      ensures Counted(launches) == Counted(old(launches)) + records
      ensures end.Returned? || count == 0 ==> |records| == count
      ensures spentS < budgetS + POLL_S + longest
      ensures WithinPollOrRun() <==> LaunchedInTime()
    {
      records := [];
      end := WindowExhausted;
      assert Counted(launches) + records == Counted(launches);
      var i := 0;
      while i < count
        invariant 0 <= i <= count && |records| == i && (i > 0 ==> end.Returned?) && Accounted()
        invariant Counted(launches) == Counted(old(launches)) + records
        invariant spentS < budgetS + POLL_S
      {
        ghost var first, after;
        end, first, after := Run(shortest, longest);
        if !end.Returned? {
          assert Counted(old(launches)) + records + [] == Counted(old(launches)) + records;
          return;
        }
        records := records + [end.record];
        i := i + 1;
      }
      assert oracle.runs(0).durationS <= longest;
    }
  }

  /** A machine that is busy once, then quiet, and disturbs every run. */
  ghost predicate Disturbs(runner: Runner) {
    && (forall n :: runner.oracle.quiet(n) <==> n == 1) && (forall n :: runner.oracle.fits(n))
    && (forall n :: runner.oracle.runs(n) == Measurement(ForeignLoad, 100.0)) && 0.0 < runner.budgetS < 1.0
  }

  lemma DisturbedAttempt(runner: Runner, a: Attempted, after: Books)
    requires Disturbs(runner) && runner.AttemptMade(Books(0.0, [], 0, 0, 0, 0.0), a, after)
    requires after.spentS == Charged(after.sleeps, after.launches)
    ensures a == Done(MachineBusy) && after.launches == [Measurement(ForeignLoad, 100.0)]
    ensures after.spentS == POLL_S + 100.0 && after.spentAtLaunch == POLL_S
  {
    assert runner.oracle.quiet(1) && after.looks <= 2;
    OneMoreSleep(0, []);
    OneMoreCharge(0, [], Measurement(ForeignLoad, 100.0));
    OneMoreCharge(1, [], Measurement(ForeignLoad, 100.0));
    assert [] + [Measurement(ForeignLoad, 100.0)] == [Measurement(ForeignLoad, 100.0)];
  }

  method MeasureDisturbed(runner: Runner) returns (r: Result)
    requires Disturbs(runner) && runner.Accounted() && runner.Now() == Books(0.0, [], 0, 0, 0, 0.0)
    modifies runner
    ensures runner.Accounted() && runner.launches == [Measurement(ForeignLoad, 100.0)]
    ensures runner.spentS == POLL_S + 100.0 && runner.spentAtLaunch == POLL_S && r == MachineBusy
  {
    ghost var first, after;
    r, first, after := runner.Run(100.0, 100.0);
    assert first.Done? ==> after == runner.Now();
    DisturbedAttempt(runner, first, after);
  }

  /** The two excesses add up: disturbed once and then quiet, a run under foreign load starts when the
      budget is already passed, so what is charged passes it by a poll and a run together. */
  method PollAndRunAddUp() returns (runner: Runner, r: Result)
    ensures runner.Accounted() && runner.spentS == POLL_S + 100.0 && 0.0 < runner.budgetS < 1.0
    ensures runner.spentAtLaunch == POLL_S && !runner.LaunchedInTime() && !runner.WithinPollOrRun()
    ensures r == MachineBusy
  {
    var oracle := Oracle(n => n == 1, _ => true, _ => Measurement(ForeignLoad, 100.0));
    runner := new Runner(oracle, 0.01);
    r := MeasureDisturbed(runner);
  }
}
