/** One request from its id to its outcome, beside whatever else is under way. */
module DemuxRequests {
  import opened Common
  import opened Demux

  /** A caller takes an id and registers it. */
  function Asked(s: Client): Client {
    Step(Step(s, Allocate), Register(s.nextId))
  }

  lemma AskedIsPending(s: Client)
    requires Inv(s) && s.reader.Idle?
    ensures
      var t := Asked(s);
      && t == s.(nextId := s.nextId + 1, waiters := s.waiters[s.nextId := NEW_WAITER],
                 pending := s.pending + {s.nextId}, registered := s.registered + {s.nextId})
      && s.nextId !in s.waiters && s.nextId !in s.registered && s.nextId !in s.signals && s.nextId !in s.pending
  {
  }

  /** The reader takes the waiter of a response, fills it in and signals it. */
  function Delivered(s: Client, message: Response, at: nat): Client {
    Step(Step(Step(Step(s, Receive(message, at)), Write), Write), Write)
  }

  lemma DeliveredToItsWaiter(s: Client, message: Response, at: nat)
    requires s.reader.Idle? && message.id in s.pending && message.id in s.waiters
    requires s.waiters[message.id] == NEW_WAITER && message.id !in s.signals
    ensures
      Delivered(s, message, at) ==
      s.(pending := s.pending - {message.id}, signals := s.signals[message.id := 1],
         waiters := s.waiters[message.id := Waiter(Some(message), Some(at), None, true)])
  {
    var id := message.id;
    var taken := Step(s, Receive(message, at));
    assert taken == s.(pending := s.pending - {id}, reader := Delivering(id, message, at, 0));
    var first := Step(taken, Write);
    assert first.waiters == s.waiters[id := NEW_WAITER.(message := Some(message))];
    var second := Step(first, Write);
    assert second.waiters == s.waiters[id := NEW_WAITER.(message := Some(message), receivedAt := Some(at))];
  }

  /** In any state in which the reader waits for the next message, a request made then and answered is
      waited for with success if the answer came by the deadline, and as timed out if not; nothing else
      of the client is touched but that one id is spent and one signal given. */
  lemma RequestIsAnswered(es: seq<Event>, payload: int, at: nat, deadline: nat)
    requires Run(Start(), es).reader.Idle?
    ensures
      var s := Run(Start(), es);
      var message := Response(s.nextId, payload);
      var t := Step(Delivered(Asked(s), message, at), Collect(s.nextId, deadline));
      && t.outcomes == s.outcomes + [(s.nextId, deadline, if at <= deadline then Answered(message) else TimedOut)]
      && t.pending == s.pending && t.reader == Idle && t.nextId == s.nextId + 1
      && s.nextId !in s.signals && t.signals == s.signals[s.nextId := 1]
  {
    var s := Run(Start(), es);
    InvInEveryRun(es);
    AskedIsPending(s);
    DeliveredToItsWaiter(Asked(s), Response(s.nextId, payload), at);
  }

  /** A request that is still pending when the stream ends is told so. */
  lemma PendingIsToldOfClosing(es: seq<Event>, id: int, deadline: nat)
    requires Run(Start(), es).reader.Idle? && id in Run(Start(), es).pending
    ensures
      var s := Run(Start(), es);
      var t := Step(Step(Step(Step(s, Swap), Fail(id)), SignalFailed), Collect(id, deadline));
      && t.pending == {} && t.reader == Failing(s.pending - {id})
      && t.outcomes == s.outcomes + [(id, deadline, Disconnected("connection closed"))]
  {
    InvInEveryRun(es);
    var s := Run(Start(), es);
    assert Placed(s, id);
    var failed := Step(Step(s, Swap), Fail(id));
    assert failed.waiters == s.waiters[id := NEW_WAITER.(error := Some(REASON))];
  }

  /** A request that was given up is no longer pending; a response that comes for it then is dropped. */
  lemma LateResponseIsDropped(es: seq<Event>, id: int, deadline: nat, message: Response, at: nat)
    requires
      var s := Run(Start(), es);
      id in s.registered && id in s.waiters && !s.waiters[id].event && message.id == id
    ensures
      var s := Run(Start(), es);
      var t := Step(Step(s, GiveUp(id)), Unregister(id, deadline));
      && t.pending == s.pending - {id} && t.outcomes == s.outcomes + [(id, deadline, TimedOut)]
      && Step(t, Receive(message, at)) == t
  {
  }

  /** A wait that was signalled cannot be given up, one that was not cannot end signalled. */
  lemma WaitsEndOneWay(s: Client, id: int, deadline: nat)
    ensures Step(s, GiveUp(id)) != s ==> id in s.waiters && !s.waiters[id].event
    ensures Step(s, Collect(id, deadline)) != s <==> id in s.waiters && s.waiters[id].event
  {
    if id in s.waiters && s.waiters[id].event {
      assert |Step(s, Collect(id, deadline)).outcomes| == |s.outcomes| + 1;
    }
  }
}
