/**
  Concrete schedules from a fresh requestor, showing that the behaviours the
  general lemmas describe are reachable, and one end-to-end rejection.
*/
module Scenarios {
  import opened Wrappers
  import opened Json
  import Envelope
  import opened Requestor
  import opened Transactions
  import opened Future

  const Fresh: Requestor := NewRequestor("channel.test", "requestor-id-abc")

  function OkResponse(id: Int64, body: Value): Bytes {
    Wellformed(Envelope.EncodeResponse(Envelope.Response(true, id, true, Some(body), 0, "")))
  }

  lemma RunCons(q: Requestor, e: Event, es: seq<Event>)
    requires WellFormed(q) && Enabled(q, e)
    ensures Run(q, [e] + es) == Run(Step(q, e), es)
  {
    assert ([e] + es)[1..] == es;
  }

  /** From a new requestor: issue a request, let its timer expire, deliver the
      answer, let the closure reject.  The caller's callbacks are called twice,
      accept first and then reject. */
  lemma DoubleResolutionReachable(subj: string, reply: string, id: Int64, m: string, v: Value, answer: Value)
    ensures var es := [Issue(id, m, Encodable(v)), Expiry(0), Deliver(OkResponse(id, answer)), FireReject(0)];
      var r := Run(NewRequestor(subj, reply), es);
      && r.Some?
      && CallsFor(r.value.calls, 0) == [Accept(0, Some(answer)), Reject(0, TimeoutCode, Timeout(DefaultRequestTimeout, id, m))]
  {
    var q0 := NewRequestor(subj, reply);
    InitialValid(subj, reply);
    var q1 := Request(q0, id, m, Encodable(v));
    RequestKeepsValid(q0, id, m, Encodable(v));
    var msg := OkResponse(id, answer);
    assert Correlates(q1, msg);
    ReplyAfterExpiryResolvesTwice(q1, msg);
    var q2 := TimerExpire(q1, 0);
    var q3 := HandleMessage(q2, msg);
    RunCons(q3, FireReject(0), []);
    RunCons(q2, Deliver(msg), [FireReject(0)]);
    RunCons(q1, Expiry(0), [Deliver(msg), FireReject(0)]);
    RunCons(q0, Issue(id, m, Encodable(v)), [Expiry(0), Deliver(msg), FireReject(0)]);
  }

  /** The states along the collision schedule, without the schedule. */
  lemma CollisionStates(q0: Requestor, id: Int64, m1: string, m2: string, v: Value, answer: Value)
    returns (q2: Requestor, q3: Requestor, q4: Requestor, q5: Requestor)
    requires q0.timers == [] && q0.table == map[] && q0.calls == []
    ensures q2 == Request(Request(q0, id, m1, Encodable(v)), id, m2, Encodable(v))
    ensures |q2.timers| == 2 && q2.timers[0].phase.Armed? && WellFormed(q2)
    ensures q3 == TimerExpire(q2, 0) && q3.timers[0].phase.Expired?
    ensures q4 == TimeoutReject(q3, 0) && q4.timers[0].phase.Rejecting?
    ensures q5 == TimeoutCleanup(q4, 0)
    ensures id !in q5.table && |q5.timers| == 2 && q5.timers[1].phase == Armed(q0.timeout)
    ensures HandleMessage(q5, OkResponse(id, answer)) == q5
    ensures CallsFor(q5.calls, 1) == []
  {
    var q1 := Request(q0, id, m1, Encodable(v));
    q2 := Request(q1, id, m2, Encodable(v));
    assert q2.timers[0] == q1.timers[0];
    q3 := TimerExpire(q2, 0);
    q4 := TimeoutReject(q3, 0);
    q5 := TimeoutCleanup(q4, 0);
    assert q5.timers[1] == q2.timers[1];
    assert q5.calls == [Reject(0, TimeoutCode, Timeout(q0.timeout, id, m1))];
    CallsForNone(q5.calls, 1);
  }

  /** Delivering a message that changes nothing, as the last event of a schedule. */
  lemma DeliverAtEnd(q: Requestor, msg: Bytes)
    requires WellFormed(q) && HandleMessage(q, msg) == q
    ensures Run(q, [Deliver(msg)]) == Some(q)
  {
    RunCons(q, Deliver(msg), []);
  }

  /** From a new requestor: two requests share an id.  The first one's timer runs to
      completion and its cleanup deletes the id, which now belongs to the second
      request; the answer to the second request is then dropped, and its own timer
      is still armed. */
  lemma IdCollisionReachable(subj: string, reply: string, id: Int64, m1: string, m2: string, v: Value, answer: Value)
    ensures var es := [Issue(id, m1, Encodable(v)), Issue(id, m2, Encodable(v)),
                       Expiry(0), FireReject(0), FireCleanup(0), Deliver(OkResponse(id, answer))];
      var r := Run(NewRequestor(subj, reply), es);
      && r.Some?
      && id !in r.value.table
      && |r.value.timers| == 2
      && r.value.timers[1].phase == Armed(DefaultRequestTimeout)
      && CallsFor(r.value.calls, 1) == []
  {
    var q0 := NewRequestor(subj, reply);
    var q1 := Request(q0, id, m1, Encodable(v));
    var q2, q3, q4, q5 := CollisionStates(q0, id, m1, m2, v, answer);
    var msg := OkResponse(id, answer);
    DeliverAtEnd(q5, msg);
    RunCons(q4, FireCleanup(0), [Deliver(msg)]);
    RunCons(q3, FireReject(0), [FireCleanup(0), Deliver(msg)]);
    RunCons(q2, Expiry(0), [FireReject(0), FireCleanup(0), Deliver(msg)]);
    RunCons(q1, Issue(id, m2, Encodable(v)), [Expiry(0), FireReject(0), FireCleanup(0), Deliver(msg)]);
    RunCons(q0, Issue(id, m1, Encodable(v)), [Issue(id, m2, Encodable(v)), Expiry(0), FireReject(0), FireCleanup(0), Deliver(msg)]);
  }

  /** An async "offer" answered by the responder with reject(404, "Not found"):
      the future is rejected with exactly that code and reason. */
  lemma RejectedOfferScenario()
    ensures var (r0, h) := AsyncRequest(Fresh, 1234, "offer", Encodable(Object(map["sdp" := String("dummy")])));
      var msg := Wellformed(Envelope.EncodeResponseError(Envelope.ResponseError(true, 1234, false, 404, "Not found")));
      Settlements(HandleMessage(r0, msg).calls, h) == [RejectWith(Error(404, Remote("Not found")))]
  {
    InitialValid("channel.test", "requestor-id-abc");
    var msg := Wellformed(Envelope.EncodeResponseError(Envelope.ResponseError(true, 1234, false, 404, "Not found")));
    AsyncReplyInTimeSettlesOnce(Fresh, 1234, "offer", Object(map["sdp" := String("dummy")]), msg, []);
  }
}
