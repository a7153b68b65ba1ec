/**
  What the transaction table guarantees about callbacks, over whole schedules of
  events.  The timeout closure calls reject before it takes the lock and
  without checking the table, so a response that arrives after the timer expired
  but before the closure's reject still finds the entry and calls accept or
  reject as well.  What does hold:

  - each transaction's callbacks are called at most once by a response and at
    most once by its timer (`ReachableAtMostOnceEach`);
  - a response that stops the timer before it expires is the only call the
    transaction ever gets (`ReplyInTimeResolvesExactlyOnce`);
  - a timer that runs to completion with no response in between rejects exactly
    once with code 480 (`TimeoutRejectsExactlyOnce`).
*/
module Transactions {
  import opened Wrappers
  import opened Json
  import Envelope
  import opened Requestor

  /** The calls of the callbacks of the transaction with serial `s`, in order. */
  function CallsFor(calls: seq<Callback>, s: Serial): (r: seq<Callback>)
    ensures |r| <= |calls|
    ensures forall i :: 0 <= i < |r| ==> r[i].serial == s && r[i] in calls
    ensures forall i :: 0 <= i < |calls| && calls[i].serial == s ==> calls[i] in r
    decreases |calls|
  {
    if calls == [] then []
    else
      var last := calls[|calls| - 1];
      var prefix := CallsFor(calls[..|calls| - 1], s);
      assert forall i :: 0 <= i < |calls| - 1 ==> calls[i] == calls[..|calls| - 1][i];
      prefix + (if last.serial == s then [last] else [])
  }

  lemma {:induction false} CallsForAppend(calls: seq<Callback>, c: Callback, s: Serial)
    ensures c.serial == s ==> CallsFor(calls + [c], s) == CallsFor(calls, s) + [c]
    ensures c.serial != s ==> CallsFor(calls + [c], s) == CallsFor(calls, s)
  {
    assert (calls + [c])[..|calls|] == calls;
    assert CallsFor(calls, s) + [] == CallsFor(calls, s);
  }

  /** A transaction none of whose callbacks was called has an empty call list. */
  lemma {:induction false} CallsForNone(calls: seq<Callback>, s: Serial)
    requires forall i :: 0 <= i < |calls| ==> calls[i].serial != s
    ensures CallsFor(calls, s) == []
    decreases |calls|
  {
    if calls != [] {
      var prefix := calls[..|calls| - 1];
      assert forall i :: 0 <= i < |prefix| ==> prefix[i] == calls[i];
      CallsForNone(prefix, s);
    }
  }

  /** How many of `cs` came from a timer (`byTimer`) or from a response (`!byTimer`). */
  function Count(cs: seq<Callback>, byTimer: bool): (n: nat)
    ensures n <= |cs|
    decreases |cs|
  {
    if cs == [] then 0
    else Count(cs[..|cs| - 1], byTimer) + (if cs[|cs| - 1].ByTimer() == byTimer then 1 else 0)
  }

  lemma {:induction false} CountAppend(cs: seq<Callback>, c: Callback, b: bool)
    ensures Count(cs + [c], b) == Count(cs, b) + (if c.ByTimer() == b then 1 else 0)
  {
    assert (cs + [c])[..|cs|] == cs;
  }

  /** Every call came either from a timer or from a response. */
  lemma {:induction false} CountSplit(cs: seq<Callback>)
    ensures Count(cs, true) + Count(cs, false) == |cs|
    decreases |cs|
  {
    if cs != [] {
      CountSplit(cs[..|cs| - 1]);
    }
  }

  /** How the calls of one transaction relate to where its timer is. */
  predicate OnceEach(q: Requestor, s: Serial)
    requires s < |q.timers|
  {
    var remote := Count(CallsFor(q.calls, s), false);
    var timer := Count(CallsFor(q.calls, s), true);
    var p := q.timers[s].phase;
    && remote <= 1
    && (Pending(q, s) || p.Armed? ==> remote == 0)
    && (p.Stopped? ==> remote == 1)
    && timer == (if p.Rejecting? || p.Done? then 1 else 0)
  }

  /** The invariant of every reachable requestor. */
  predicate Valid(q: Requestor) {
    && WellFormed(q)
    && (forall i :: 0 <= i < |q.calls| ==> q.calls[i].serial < |q.timers|)
    && (forall s :: 0 <= s < |q.timers| ==> OnceEach(q, s))
  }

  lemma InitialValid(subj: string, reply: string)
    ensures Valid(NewRequestor(subj, reply))
  {
  }

  lemma RequestKeepsValid(q: Requestor, id: Int64, m: string, data: Payload)
    requires Valid(q)
    ensures Valid(Request(q, id, m, data))
  {
    var r := Request(q, id, m, data);
    if data.Encodable? {
      var n := |q.timers|;
      forall s | 0 <= s < |r.timers|
        ensures OnceEach(r, s)
      {
        if s < n {
          assert r.timers[s] == r.timers[..n][s] == q.timers[s];
          assert OnceEach(q, s);
          assert Pending(r, s) ==> Pending(q, s);
        } else {
          CallsForNone(q.calls, s);
        }
      }
    }
  }

  lemma HandleResponseKeepsOnce(q: Requestor, p: Envelope.Response, s: Serial)
    requires Valid(q) && p.id in q.table && s < |q.timers|
    ensures OnceEach(HandleResponse(q, p), s)
  {
    var r := HandleResponse(q, p);
    var t := q.table[p.id];
    var c := Answer(t, p);
    assert OnceEach(q, s);
    assert r.calls == q.calls + [c];
    CallsForAppend(q.calls, c, s);
    if s == t.serial {
      assert Pending(q, s);
      CountAppend(CallsFor(q.calls, s), c, false);
      CountAppend(CallsFor(q.calls, s), c, true);
    } else {
      assert Pending(r, s) ==> Pending(q, s);
    }
  }

  lemma HandleResponseKeepsValid(q: Requestor, p: Envelope.Response)
    requires Valid(q)
    ensures Valid(HandleResponse(q, p))
  {
    var r := HandleResponse(q, p);
    if p.id in q.table {
      forall s | 0 <= s < |r.timers|
        ensures OnceEach(r, s)
      {
        HandleResponseKeepsOnce(q, p, s);
      }
    }
  }

  lemma HandleMessageKeepsValid(q: Requestor, msg: Bytes)
    requires Valid(q)
    ensures Valid(HandleMessage(q, msg))
  {
    if Correlates(q, msg) {
      HandleResponseKeepsValid(q, Envelope.DecodeResponse(msg).value);
    }
  }

  lemma TimerExpireKeepsValid(q: Requestor, s: Serial)
    requires Valid(q) && s < |q.timers| && q.timers[s].phase.Armed?
    ensures Valid(TimerExpire(q, s))
  {
    var r := TimerExpire(q, s);
    forall j | 0 <= j < |r.timers|
      ensures OnceEach(r, j)
    {
      assert OnceEach(q, j);
      assert Pending(r, j) ==> Pending(q, j);
    }
  }

  lemma TimeoutRejectKeepsOnce(q: Requestor, s: Serial, j: Serial)
    requires Valid(q) && s < |q.timers| && q.timers[s].phase.Expired? && j < |q.timers|
    ensures OnceEach(TimeoutReject(q, s), j)
  {
    var r := TimeoutReject(q, s);
    var c := Reject(s, TimeoutCode, Timeout(q.timeout, q.timers[s].txn.id, q.timers[s].txn.methodName));
    assert OnceEach(q, j);
    CallsForAppend(q.calls, c, j);
    if j == s {
      CountAppend(CallsFor(q.calls, j), c, false);
      CountAppend(CallsFor(q.calls, j), c, true);
    }
    assert Pending(r, j) ==> Pending(q, j);
  }

  lemma TimeoutRejectKeepsValid(q: Requestor, s: Serial)
    requires Valid(q) && s < |q.timers| && q.timers[s].phase.Expired?
    ensures Valid(TimeoutReject(q, s))
  {
    var r := TimeoutReject(q, s);
    forall j | 0 <= j < |r.timers|
      ensures OnceEach(r, j)
    {
      TimeoutRejectKeepsOnce(q, s, j);
    }
  }

  lemma TimeoutCleanupKeepsValid(q: Requestor, s: Serial)
    requires Valid(q) && s < |q.timers| && q.timers[s].phase.Rejecting?
    ensures Valid(TimeoutCleanup(q, s))
  {
    var r := TimeoutCleanup(q, s);
    forall j | 0 <= j < |r.timers|
      ensures OnceEach(r, j)
    {
      assert OnceEach(q, j);
      assert Pending(r, j) ==> Pending(q, j);
    }
  }

  lemma StepKeepsValid(q: Requestor, e: Event)
    requires Valid(q) && Enabled(q, e)
    ensures Valid(Step(q, e))
  {
    match e
    case Issue(id, m, data) => RequestKeepsValid(q, id, m, data);
    case Deliver(msg) => HandleMessageKeepsValid(q, msg);
    case Expiry(s) => TimerExpireKeepsValid(q, s);
    case FireReject(s) => TimeoutRejectKeepsValid(q, s);
    case FireCleanup(s) => TimeoutCleanupKeepsValid(q, s);
    case SetTimeout(d) =>
      forall s | 0 <= s < |q.timers|
        ensures OnceEach(Step(q, e), s)
      {
        assert OnceEach(q, s);
      }
  }

  lemma {:induction false} RunKeepsValid(q: Requestor, es: seq<Event>)
    requires Valid(q)
    ensures Run(q, es).Some? ==> Valid(Run(q, es).value)
    decreases |es|
  {
    if es != [] && Enabled(q, es[0]) {
      StepKeepsValid(q, es[0]);
      RunKeepsValid(Step(q, es[0]), es[1..]);
    }
  }

  /** In every state reachable from a new requestor, each transaction's callbacks
      have been called at most once by a response and at most once by its timer;
      if its timer was stopped, exactly once, by the response. */
  lemma ReachableAtMostOnceEach(subj: string, reply: string, es: seq<Event>, s: Serial)
    requires Run(NewRequestor(subj, reply), es).Some?
    requires s < |Run(NewRequestor(subj, reply), es).value.timers|
    ensures var q := Run(NewRequestor(subj, reply), es).value;
      && Count(CallsFor(q.calls, s), false) <= 1
      && Count(CallsFor(q.calls, s), true) <= 1
      && |CallsFor(q.calls, s)| <= 2
      && (q.timers[s].phase.Stopped? ==> |CallsFor(q.calls, s)| == 1 && !CallsFor(q.calls, s)[0].ByTimer())
  {
    InitialValid(subj, reply);
    RunKeepsValid(NewRequestor(subj, reply), es);
    var q := Run(NewRequestor(subj, reply), es).value;
    assert OnceEach(q, s);
    CountSplit(CallsFor(q.calls, s));
    if q.timers[s].phase.Stopped? {
      var cs := CallsFor(q.calls, s);
      assert |cs| == 1;
      assert cs == cs[..0] + [cs[0]];
      CountAppend(cs[..0], cs[0], false);
    }
  }

  /** A stopped or finished timer is final: no later step touches it or calls its
      transaction's callbacks again (it is out of the table, and serials are never
      reused). */
  lemma FinalStep(q: Requestor, e: Event, s: Serial)
    requires WellFormed(q) && Enabled(q, e)
    requires s < |q.timers| && (q.timers[s].phase.Stopped? || q.timers[s].phase.Done?)
    ensures s < |Step(q, e).timers| && Step(q, e).timers[s] == q.timers[s]
    ensures CallsFor(Step(q, e).calls, s) == CallsFor(q.calls, s)
  {
    var r := Step(q, e);
    match e
    case Issue(id, m, data) =>
      if data.Encodable? {
        assert r.timers[s] == r.timers[..|q.timers|][s];
      }
    case Deliver(msg) =>
      if Correlates(q, msg) {
        var p := Envelope.DecodeResponse(msg).value;
        CallsForAppend(q.calls, Answer(q.table[p.id], p), s);
      }
    case Expiry(_) =>
    case FireReject(s') =>
      CallsForAppend(q.calls, r.calls[|q.calls|], s);
      assert r.calls == q.calls + [r.calls[|q.calls|]];
    case FireCleanup(_) =>
    case SetTimeout(_) =>
  }

  lemma {:induction false} FinalRun(q: Requestor, es: seq<Event>, s: Serial)
    requires WellFormed(q)
    requires s < |q.timers| && (q.timers[s].phase.Stopped? || q.timers[s].phase.Done?)
    ensures Run(q, es).Some? ==>
      && s < |Run(q, es).value.timers|
      && Run(q, es).value.timers[s] == q.timers[s]
      && CallsFor(Run(q, es).value.calls, s) == CallsFor(q.calls, s)
    decreases |es|
  {
    if es != [] && Enabled(q, es[0]) {
      FinalStep(q, es[0], s);
      FinalRun(Step(q, es[0]), es[1..], s);
    }
  }

  /** A transaction with no call yet has an empty call list. */
  lemma NoCallsYet(q: Requestor, s: Serial)
    requires Valid(q) && s < |q.timers| && q.timers[s].phase.Armed?
    ensures CallsFor(q.calls, s) == []
  {
    assert OnceEach(q, s);
  }

  /** A response that reaches a pending transaction before its timer expires is
      the only call that transaction ever gets: accept with the response's data
      when `ok`, otherwise reject with its code and reason; the timer stays
      stopped whatever happens afterwards. */
  lemma ReplyInTimeResolvesExactlyOnce(q: Requestor, msg: Bytes, es: seq<Event>)
    requires Valid(q) && Correlates(q, msg)
    requires var t := q.table[Envelope.DecodeResponse(msg).value.id]; q.timers[t.serial].phase.Armed?
    ensures var p := Envelope.DecodeResponse(msg).value;
      var t := q.table[p.id];
      var r := HandleMessage(q, msg);
      && r.timers[t.serial].phase.Stopped?
      && (Run(r, es).Some? ==> CallsFor(Run(r, es).value.calls, t.serial) == [Answer(t, p)])
  {
    var p := Envelope.DecodeResponse(msg).value;
    var t := q.table[p.id];
    var r := HandleMessage(q, msg);
    NoCallsYet(q, t.serial);
    CallsForAppend(q.calls, Answer(t, p), t.serial);
    FinalRun(r, es, t.serial);
  }

  /** A timer that expires, rejects and cleans up with no response in between
      rejects its transaction exactly once with code 480, removes its id from the
      table, and nothing afterwards calls that transaction again. */
  lemma TimeoutRejectsExactlyOnce(q: Requestor, s: Serial, es: seq<Event>)
    requires Valid(q) && s < |q.timers| && q.timers[s].phase.Armed?
    ensures var t := q.timers[s].txn;
      var r := TimeoutCleanup(TimeoutReject(TimerExpire(q, s), s), s);
      && t.id !in r.table
      && CallsFor(r.calls, s) == [Reject(s, TimeoutCode, Timeout(q.timeout, t.id, t.methodName))]
      && (Run(r, es).Some? ==> CallsFor(Run(r, es).value.calls, s) == CallsFor(r.calls, s))
  {
    var q1 := TimerExpire(q, s);
    var q2 := TimeoutReject(q1, s);
    var r := TimeoutCleanup(q2, s);
    var t := q.timers[s].txn;
    NoCallsYet(q, s);
    CallsForAppend(q1.calls, Reject(s, TimeoutCode, Timeout(q.timeout, t.id, t.methodName)), s);
    FinalRun(r, es, s);
  }

  /** The race the code leaves open: a response that arrives after the timer expired
      but before the closure's reject still finds the entry, so the transaction
      is resolved by the response and then rejected by the timer as well. */
  lemma ReplyAfterExpiryResolvesTwice(q: Requestor, msg: Bytes)
    requires Valid(q) && Correlates(q, msg)
    requires var t := q.table[Envelope.DecodeResponse(msg).value.id]; q.timers[t.serial].phase.Armed?
    ensures var p := Envelope.DecodeResponse(msg).value;
      var t := q.table[p.id];
      var r := TimeoutReject(HandleMessage(TimerExpire(q, t.serial), msg), t.serial);
      CallsFor(r.calls, t.serial) == [Answer(t, p), Reject(t.serial, TimeoutCode, Timeout(q.timeout, t.id, t.methodName))]
  {
    var p := Envelope.DecodeResponse(msg).value;
    var t := q.table[p.id];
    var q1 := TimerExpire(q, t.serial);
    assert Correlates(q1, msg);
    var q2 := HandleMessage(q1, msg);
    NoCallsYet(q, t.serial);
    CallsForAppend(q1.calls, Answer(t, p), t.serial);
    CallsForAppend(q2.calls, Reject(t.serial, TimeoutCode, Timeout(q.timeout, t.id, t.methodName)), t.serial);
  }

  /** When a newer request reused the id, a stale timer's cleanup deletes the newer
      entry: a response for that id is then dropped, and the newer transaction can
      only be rejected by its own timer. */
  lemma StaleCleanupDropsNewerEntry(q: Requestor, s: Serial, msg: Bytes)
    requires WellFormed(q) && s < |q.timers| && q.timers[s].phase.Rejecting?
    requires q.timers[s].txn.id in q.table && q.table[q.timers[s].txn.id].serial != s
    requires Envelope.DecodeResponse(msg).Success? && Envelope.DecodeResponse(msg).value.id == q.timers[s].txn.id
    ensures var newer := q.table[q.timers[s].txn.id].serial;
      var r := TimeoutCleanup(q, s);
      && !Pending(r, newer)
      && InFlight(r.timers[newer].phase)
      && HandleMessage(r, msg) == r
  {
  }
}
