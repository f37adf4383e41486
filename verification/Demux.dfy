/** The client's response demultiplexer: callers, one reader and the closing of the connection,
    interleaved step by step. A step is one access to shared state: a section under the lock, one
    entry of a waiter, one event. A step that is not possible changes nothing. */
module Demux {
  import opened Common

  datatype Response = Response(id: int, payload: int)

  /** What a caller waits on. */
  datatype Waiter = Waiter(message: Option<Response>, receivedAt: Option<nat>, error: Option<string>, event: bool)

  const NEW_WAITER: Waiter := Waiter(None, None, None, false)

  /** Where the reader thread is: between messages, filling in a waiter it took, or closing. */
  datatype Reader =
    | Idle
    | Delivering(id: int, message: Response, at: nat, written: nat)
    | Failing(todo: set<int>)
    | FailingOne(current: int, others: set<int>)
    | Closed

  /** What a wait came to. */
  datatype Outcome = Answered(message: Response) | Disconnected(reason: string) | TimedOut

  datatype Client = Client(
    nextId: int,
    waiters: map<int, Waiter>,
    pending: set<int>,
    reader: Reader,
    registered: set<int>,
    late: set<int>,
    gaveUp: set<int>,
    signals: map<int, nat>,
    outcomes: seq<(int, nat, Outcome)>)

  const REASON: string := "connection closed"

  function Start(): Client {
    Client(1, map[], {}, Idle, {}, {}, {}, map[], [])
  }

  datatype Event =
    | Allocate                             // a caller takes the next id and makes its waiter
    | Register(id: int)                    // and puts it among the pending ones
    | Receive(message: Response, at: nat)  // the reader takes the waiter of a response
    | Write                                // and fills in one of its entries, or signals it
    | Swap                                 // the stream ended: all pending waiters are taken
    | Fail(id: int)                        // and one of them given the error
    | SignalFailed                         // and signalled
    | Finish
    | Collect(id: int, deadline: nat)      // a wait ends signalled
    | GiveUp(id: int)                      // a wait ends unsignalled
    | Unregister(id: int, deadline: nat)   // and withdraws its waiter

  predicate Swapped(s: Client) {
    s.reader.Failing? || s.reader.FailingOne? || s.reader.Closed?
  }

  function Signalled(s: Client, id: int): Client
    requires id in s.waiters
  {
    s.(waiters := s.waiters[id := s.waiters[id].(event := true)],
       signals := s.signals[id := (if id in s.signals then s.signals[id] else 0) + 1])
  }

  function OutcomeOf(w: Waiter, deadline: nat): Outcome {
    if w.error.Some? then Disconnected(w.error.value)
    else if w.receivedAt.None? || w.receivedAt.value > deadline || w.message.None? then TimedOut
    else Answered(w.message.value)
  }

  function Step(s: Client, e: Event): Client {
    match e
    case Allocate => s.(nextId := s.nextId + 1, waiters := s.waiters[s.nextId := NEW_WAITER])
    case Register(id) =>
      if id in s.waiters && id !in s.registered then
        s.(pending := s.pending + {id}, registered := s.registered + {id},
           late := if Swapped(s) then s.late + {id} else s.late)
      else s
    case Receive(message, at) =>
      if s.reader.Idle? && message.id in s.pending then
        s.(pending := s.pending - {message.id}, reader := Delivering(message.id, message, at, 0))
      else s
    case Write =>
      if !s.reader.Delivering? || s.reader.id !in s.waiters then s
      else
        var id, w := s.reader.id, s.waiters[s.reader.id];
        if s.reader.written == 0 then
          s.(waiters := s.waiters[id := w.(message := Some(s.reader.message))], reader := s.reader.(written := 1))
        else if s.reader.written == 1 then
          s.(waiters := s.waiters[id := w.(receivedAt := Some(s.reader.at))], reader := s.reader.(written := 2))
        else Signalled(s, id).(reader := Idle)
    case Swap => if s.reader.Idle? then s.(pending := {}, reader := Failing(s.pending)) else s
    case Fail(id) =>
      if s.reader.Failing? && id in s.reader.todo && id in s.waiters then
        s.(waiters := s.waiters[id := s.waiters[id].(error := Some(REASON))],
           reader := FailingOne(id, s.reader.todo - {id}))
      else s
    case SignalFailed =>
      if s.reader.FailingOne? && s.reader.current in s.waiters then
        Signalled(s, s.reader.current).(reader := Failing(s.reader.others))
      else s
    case Finish => if s.reader == Failing({}) then s.(reader := Closed) else s
    case Collect(id, deadline) =>
      if id in s.waiters && s.waiters[id].event then
        s.(outcomes := s.outcomes + [(id, deadline, OutcomeOf(s.waiters[id], deadline))])
      else s
    case GiveUp(id) =>
      if id in s.registered && id in s.waiters && !s.waiters[id].event then s.(gaveUp := s.gaveUp + {id}) else s
    case Unregister(id, deadline) =>
      if id in s.gaveUp then
        s.(pending := s.pending - {id}, outcomes := s.outcomes + [(id, deadline, TimedOut)])
      else s
  }

  function Run(s: Client, es: seq<Event>): Client
    decreases |es|
  {
    if es == [] then s else Step(Run(s, es[..|es| - 1]), es[|es| - 1])
  }

  // ---- the invariant -----------------------------------------------------------------------------------

  function Signals(s: Client, id: int): nat {
    if id in s.signals then s.signals[id] else 0
  }

  /** Untouched by the reader so far. */
  predicate Untouched(s: Client, id: int) {
    id in s.waiters && s.waiters[id] == NEW_WAITER && Signals(s, id) == 0
  }

  /** Signalled once, with either its own response or the error, never both. */
  predicate Complete(s: Client, id: int) {
    && id in s.waiters && s.waiters[id].event && Signals(s, id) == 1
    && var w := s.waiters[id];
       if w.error.Some? then w == Waiter(None, None, Some(REASON), true) && Swapped(s)
       else w.message.Some? && w.message.value.id == id && w.receivedAt.Some?
  }

  predicate HeldByReader(s: Client, id: int) {
    match s.reader
    case Delivering(held, _, _, _) => id == held
    case Failing(todo) => id in todo
    case FailingOne(current, others) => id == current || id in others
    case _ => false
  }

  /** What the reader has done so far with a waiter it holds. */
  predicate InHand(s: Client, id: int) {
    && id in s.waiters && Signals(s, id) == 0
    && match s.reader
       case Delivering(_, message, at, written) =>
         && message.id == id && written <= 2
         && s.waiters[id] ==
            Waiter(if written >= 1 then Some(message) else None, if written >= 2 then Some(at) else None, None, false)
       case FailingOne(current, _) =>
         s.waiters[id] == Waiter(None, None, if id == current then Some(REASON) else None, false)
       case _ => s.waiters[id] == NEW_WAITER
  }

  /** Every registered waiter is in exactly one place. */
  predicate Placed(s: Client, id: int) {
    if id in s.pending then Untouched(s, id) && !HeldByReader(s, id) && (Swapped(s) ==> id in s.late)
    else if HeldByReader(s, id) then InHand(s, id) && id !in s.late
    else (Complete(s, id) && id !in s.late) || (Untouched(s, id) && id in s.gaveUp)
  }

  ghost predicate Inv(s: Client) {
    && (forall id | id in s.registered :: Placed(s, id))
    && (forall id | id in s.waiters && id !in s.registered :: Untouched(s, id))
    && (forall id | id in s.pending || HeldByReader(s, id) :: id in s.registered)
    && (forall id | id in s.registered :: id in s.waiters)
    && (forall id | id in s.waiters :: id < s.nextId)
    && s.signals.Keys <= s.waiters.Keys
    && s.late <= s.registered && s.gaveUp <= s.registered
    && (s.reader.FailingOne? ==> s.reader.current !in s.reader.others)
    && (s.late != {} ==> Swapped(s))
  }

  lemma StartIsInv()
    ensures Inv(Start())
  {
  }

  lemma RegisterKeepsInv(s: Client, id: int)
    requires Inv(s)
    ensures Inv(Step(s, Register(id)))
  {
    var t := Step(s, Register(id));
    forall k | k in t.registered ensures Placed(t, k) {
      if k in s.registered {
        assert Placed(s, k);
      } else {
        assert Untouched(s, k);
      }
    }
  }

  lemma WaitersKeepInv(s: Client, e: Event)
    requires Inv(s) && (e.Collect? || e.GiveUp? || e.Unregister?)
    ensures Inv(Step(s, e))
  {
    var t := Step(s, e);
    forall id | id in t.registered ensures Placed(t, id) {
      assert Placed(s, id);
    }
  }

  lemma AllocateKeepsInv(s: Client)
    requires Inv(s)
    ensures Inv(Step(s, Allocate))
  {
    var t := Step(s, Allocate);
    forall id | id in t.registered ensures Placed(t, id) {
      assert Placed(s, id);
    }
  }

  lemma ReceiveKeepsInv(s: Client, message: Response, at: nat)
    requires Inv(s)
    ensures Inv(Step(s, Receive(message, at)))
  {
    var t := Step(s, Receive(message, at));
    forall id | id in t.registered ensures Placed(t, id) {
      assert Placed(s, id);
    }
  }

  lemma WriteKeepsInv(s: Client)
    requires Inv(s)
    ensures Inv(Step(s, Write))
  {
    var t := Step(s, Write);
    if s.reader.Delivering? {
      assert HeldByReader(s, s.reader.id) && Placed(s, s.reader.id);
    }
    forall id | id in t.registered ensures Placed(t, id) {
      assert Placed(s, id);
    }
  }

  lemma ClosingKeepsInv(s: Client, e: Event)
    requires Inv(s) && (e.Swap? || e.Fail? || e.SignalFailed? || e.Finish?)
    ensures Inv(Step(s, e))
  {
    var t := Step(s, e);
    if s.reader.FailingOne? {
      assert HeldByReader(s, s.reader.current) && Placed(s, s.reader.current);
    }
    if s.reader.Failing? && e.Fail? && e.id in s.reader.todo {
      assert HeldByReader(s, e.id) && Placed(s, e.id);
    }
    forall id | id in t.registered ensures Placed(t, id) {
      assert Placed(s, id);
    }
  }

  lemma StepKeepsInv(s: Client, e: Event)
    requires Inv(s)
    ensures Inv(Step(s, e))
  {
    match e
    case Allocate => AllocateKeepsInv(s);
    case Receive(message, at) => ReceiveKeepsInv(s, message, at);
    case Write => WriteKeepsInv(s);
    case Swap => ClosingKeepsInv(s, e);
    case Fail(_) => ClosingKeepsInv(s, e);
    case SignalFailed => ClosingKeepsInv(s, e);
    case Finish => ClosingKeepsInv(s, e);
    case Register(id) => RegisterKeepsInv(s, id);
    case _ => WaitersKeepInv(s, e);
  }

  lemma {:induction false} RunKeepsInv(s: Client, es: seq<Event>)
    requires Inv(s)
    ensures Inv(Run(s, es))
    decreases |es|
  {
    if es != [] {
      RunKeepsInv(s, es[..|es| - 1]);
      StepKeepsInv(Run(s, es[..|es| - 1]), es[|es| - 1]);
    }
  }

  lemma InvInEveryRun(es: seq<Event>)
    ensures Inv(Run(Start(), es))
  {
    StartIsInv();
    RunKeepsInv(Start(), es);
  }

  // ---- what callers are promised ---------------------------------------------------------------------------

  /** In every interleaving: a waiter is signalled at most once, and a signalled one holds either a
      response of its own id, with the time it came, or the error of the closed connection. */
  lemma CompletedOnce(es: seq<Event>, id: int)
    requires id in Run(Start(), es).waiters
    ensures
      var s := Run(Start(), es);
      var w := s.waiters[id];
      && Signals(s, id) <= 1 && (w.event <==> Signals(s, id) == 1)
      && !(w.message.Some? && w.error.Some?)
      && (w.message.Some? ==> w.message.value.id == id)
      && (w.event ==> w.error == Some(REASON) || (w.error.None? && w.message.Some? && w.receivedAt.Some?))
  {
    InvInEveryRun(es);
    var s := Run(Start(), es);
    if id in s.registered {
      assert Placed(s, id);
    }
  }

  /** What a wait may come to. */
  ghost predicate Honest(o: (int, nat, Outcome)) {
    match o.2
    case Answered(message) => message.id == o.0
    case Disconnected(reason) => reason == REASON
    case TimedOut => true
  }

  /** No caller is ever handed another's response. */
  lemma {:induction false} EveryOutcomeIsHonest(es: seq<Event>)
    ensures forall i | 0 <= i < |Run(Start(), es).outcomes| :: Honest(Run(Start(), es).outcomes[i])
    decreases |es|
  {
    if es != [] {
      var init, e := es[..|es| - 1], es[|es| - 1];
      EveryOutcomeIsHonest(init);
      var s := Run(Start(), init);
      if e.Collect? && e.id in s.waiters {
        CompletedOnce(init, e.id);
      }
    }
  }

  /** A response in time is never taken for a timeout once its waiter was signalled: the wait comes
      to the response, exactly if it was received by the deadline. */
  lemma SignalledWaitEnds(es: seq<Event>, id: int, deadline: nat)
    requires id in Run(Start(), es).waiters && Run(Start(), es).waiters[id].event
    ensures
      var w := Run(Start(), es).waiters[id];
      var o := OutcomeOf(w, deadline);
      && (o.Disconnected? <==> w.error.Some?)
      && (o.Answered? <==> w.error.None? && w.receivedAt.Some? && w.receivedAt.value <= deadline)
      && (o.Answered? ==> w.message == Some(o.message))
  {
    CompletedOnce(es, id);
  }

  lemma {:induction false} ReaderWaits(s: Client, between: seq<Event>)
    requires s.reader.Delivering? && forall e | e in between :: !e.Write?
    ensures Run(s, between).reader == s.reader
    decreases |between|
  {
    if between != [] {
      var init, e := between[..|between| - 1], between[|between| - 1];
      assert e in between && forall x | x in init :: x in between;
      ReaderWaits(s, init);
    }
  }

  lemma OneWrite(s: Client, between: seq<Event>)
    requires Inv(s) && s.reader.Delivering? && forall e | e in between :: !e.Write?
    ensures
      var t, d := Step(Run(s, between), Write), s.reader;
      && Inv(t)
      && (d.written < 2 ==> t.reader == d.(written := d.written + 1))
      && (d.written == 2 ==> d.id in t.waiters && t.waiters[d.id] == Waiter(Some(d.message), Some(d.at), None, true))
      && d.written <= 2
  {
    RunKeepsInv(s, between);
    ReaderWaits(s, between);
    var u := Run(s, between);
    assert HeldByReader(u, u.reader.id) && Placed(u, u.reader.id);
    WriteKeepsInv(u);
  }

  /** A response that finds its waiter pending is the one that waiter gets, with the time it came,
      whatever callers do between the reader's steps; a timeout meanwhile does not lose it. */
  lemma TakenMeansDelivered(es: seq<Event>, message: Response, at: nat, a: seq<Event>, b: seq<Event>, c: seq<Event>)
    requires Run(Start(), es).reader.Idle? && message.id in Run(Start(), es).pending
    requires forall e | e in a + b + c :: !e.Write?
    ensures
      var taken := Step(Run(Start(), es), Receive(message, at));
      var written := Step(Run(Step(Run(Step(Run(taken, a), Write), b), Write), c), Write);
      && message.id in written.waiters
      && written.waiters[message.id] == Waiter(Some(message), Some(at), None, true)
  {
    InvInEveryRun(es);
    ReceiveKeepsInv(Run(Start(), es), message, at);
    assert forall e | e in a || e in b || e in c :: e in a + b + c;
    var taken := Step(Run(Start(), es), Receive(message, at));
    OneWrite(taken, a);
    var first := Step(Run(taken, a), Write);
    OneWrite(first, b);
    OneWrite(Step(Run(first, b), Write), c);
  }

  /** Once the reader is through closing, whoever registered before it took the pending waiters was
      signalled, or gave up before. */
  lemma NobodyIsForgotten(es: seq<Event>, id: int)
    requires Run(Start(), es).reader.Closed? && id in Run(Start(), es).registered
    ensures
      var s := Run(Start(), es);
      id in s.waiters && (id !in s.late && id !in s.gaveUp ==> s.waiters[id].event)
  {
    InvInEveryRun(es);
    assert Placed(Run(Start(), es), id);
  }

  /** Whoever registers later is never signalled: such a wait can only time out. */
  lemma LateIsNeverSignalled(es: seq<Event>, id: int)
    requires id in Run(Start(), es).late
    ensures id in Run(Start(), es).waiters && Run(Start(), es).waiters[id] == NEW_WAITER
  {
    InvInEveryRun(es);
    assert Placed(Run(Start(), es), id);
  }

  /** After closing, a waiter that nobody gave up on is signalled exactly if it was registered
      before the pending ones were taken. */
  lemma SignalledIffInTime(es: seq<Event>, id: int)
    requires Run(Start(), es).reader.Closed? && id in Run(Start(), es).registered && id !in Run(Start(), es).gaveUp
    ensures id in Run(Start(), es).waiters
    ensures Run(Start(), es).waiters[id].event <==> id !in Run(Start(), es).late
  {
    NobodyIsForgotten(es, id);
    if id in Run(Start(), es).late {
      LateIsNeverSignalled(es, id);
    }
  }

  /** There are such waiters: a request made once the connection has closed. */
  lemma LateRequestWaitsInVain()
    ensures
      var s := Run(Start(), [Swap, Finish, Allocate, Register(1)]);
      s.reader.Closed? && 1 in s.late && 1 in s.waiters && !s.waiters[1].event
  {
    RunAppends([], Swap, [Swap]);
    var swapped := Run(Start(), [Swap]);
    assert swapped.reader == Failing({});
    RunAppends([Swap], Finish, [Swap, Finish]);
    var closed := Run(Start(), [Swap, Finish]);
    assert closed.reader == Closed;
    RunAppends([Swap, Finish], Allocate, [Swap, Finish, Allocate]);
    var made := Run(Start(), [Swap, Finish, Allocate]);
    assert made.waiters == map[1 := NEW_WAITER] && made.registered == {};
    RunAppends([Swap, Finish, Allocate], Register(1), [Swap, Finish, Allocate, Register(1)]);
  }

  lemma RunAppends(es: seq<Event>, e: Event, longer: seq<Event>)
    requires longer == es + [e]
    ensures Run(Start(), longer) == Step(Run(Start(), es), e)
  {
    assert longer[..|es|] == es;
  }

  // ---- closing ends --------------------------------------------------------------------------------------------

  /** What the reader has left to do before it is through. */
  function ClosingLeft(s: Client): nat {
    match s.reader
    case Failing(todo) => 2 * |todo| + 1
    case FailingOne(_, others) => 2 * |others| + 2
    case _ => 0
  }

  predicate ClosingStep(s: Client, e: Event) {
    match s.reader
    case Failing(todo) => (e.Fail? && e.id in todo) || (e.Finish? && todo == {})
    case FailingOne(_, _) => e.SignalFailed?
    case _ => false
  }

  lemma SomethingLeft(s: Client, todo: set<int>)
    requires s.reader == Failing(todo)
    ensures exists next :: ClosingStep(s, next)
  {
    if todo == {} {
      assert ClosingStep(s, Finish);
    } else {
      var id := AMember(todo);
      assert ClosingStep(s, Fail(id));
    }
  }

  lemma AMember<T>(some: set<T>) returns (x: T)
    requires some != {}
    ensures x in some
  {
    x :| x in some;
  }

  /** Nothing a caller does holds up closing, and until it is through the reader can go on. */
  lemma ClosingProceeds(s: Client, e: Event)
    requires Inv(s)
    ensures Swapped(s) ==> ClosingLeft(Step(s, e)) <= ClosingLeft(s)
    ensures ClosingStep(s, e) ==> ClosingLeft(Step(s, e)) < ClosingLeft(s)
    ensures Swapped(s) && !s.reader.Closed? ==> exists next :: ClosingStep(s, next)
  {
    if s.reader.Failing? {
      SomethingLeft(s, s.reader.todo);
      if e.Fail? && e.id in s.reader.todo {
        assert HeldByReader(s, e.id) && Placed(s, e.id);
        assert |s.reader.todo - {e.id}| == |s.reader.todo| - 1;
      }
    } else if s.reader.FailingOne? {
      assert HeldByReader(s, s.reader.current) && Placed(s, s.reader.current);
      assert ClosingStep(s, SignalFailed);
    }
  }
}
