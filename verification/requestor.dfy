/**
  The transaction table of a requestor (requestor.go), as a sequential state
  machine.  Every mutation of the table happens under the requestor's mutex, so
  each event below is one atomic step from one state to the next:

  - `Request` encodes the request, inserts the transaction, arms its timer and
    sends the envelope;
  - `HandleMessage` classifies an inbound reply and, for a response,
    `HandleResponse` stops the matching timer, calls exactly one of the
    transaction's callbacks and deletes the entry;
  - a timer goes off in three steps: the runtime expires it (`TimerExpire`), the
    closure calls reject without holding the lock and without looking at the
    table (`TimeoutReject`), then takes the lock and deletes the id
    (`TimeoutCleanup`);
  - `SetRequestTimeout` changes the stored default.

  Callbacks are not run: every call of a transaction's accept or reject is
  appended to the `calls` log, and every publish to the `sent` log.
*/
module Requestor {
  import opened Wrappers
  import opened Json
  import Envelope

  /** `DefaultRequestTimeout`: 30 seconds, as a `time.Duration` in nanoseconds. */
  const DefaultRequestTimeout: Int64 := 30_000_000_000

  /** The error code the timeout closure passes to reject. */
  const TimeoutCode: Int64 := 480

  /** The identity of one registered transaction: which `*Transcation` (and which
      accept/reject pair) a timer or a callback belongs to.  Serials are handed out
      in registration order, so they stay distinct even when correlation ids collide. */
  type Serial = nat

  /** The caller's `data`: `json.Marshal` either produces a JSON value or fails. */
  datatype Payload = Encodable(value: Value) | Unencodable

  datatype EncodeError = UnsupportedValue

  /** `json.Marshal(data)`. */
  function Marshal(p: Payload): (r: Result<Value, EncodeError>)
    ensures r.Success? <==> p.Encodable?
    ensures r.Success? ==> r.value == p.value
  {
    match p
    case Encodable(v) => Success(v)
    case Unencodable => Failure(UnsupportedValue)
  }

  /** A pending transaction: its correlation id and the method it asked for.  Its
      accept and reject callbacks are identified by its serial. */
  datatype Transaction = Transaction(serial: Serial, id: Int64, methodName: string)

  /** Where a transaction's `time.AfterFunc` timer is. */
  datatype Phase =
    | Armed(after: Int64)   // waiting; `after` is the duration it was started with
    | Stopped               // `Stop` took effect before expiry: the closure never runs
    | Expired               // the runtime has started the closure
    | Rejecting             // the closure has called reject and waits for the lock
    | Done                  // the closure has deleted the id and returned

  datatype Timer = Timer(txn: Transaction, phase: Phase)

  /** The reason a reject callback receives.  The timeout text is formatted from the
      requestor's timeout (read when the closure runs), the id and the method. */
  datatype Reason = Remote(text: string) | Timeout(timeout: Int64, id: Int64, methodName: string)

  /** One call of a transaction's callback. */
  datatype Callback =
    | Accept(serial: Serial, data: Option<Value>)
    | Reject(serial: Serial, code: Int64, reason: Reason)
  {
    /** The call came from the timeout closure rather than from a response. */
    predicate ByTimer() {
      Reject? && reason.Timeout?
    }
  }

  /** One `Send(payload, subject, reply)` to the transport. */
  datatype Sent = Sent(subject: string, reply: string, body: Bytes)

  /** The state of one requestor.  `timers[s]` is the timer of the transaction with
      serial `s`, kept after the transaction leaves the table, because a timer that
      was not stopped goes on running. */
  datatype Requestor = Requestor(
    subj: string,
    reply: string,
    timeout: Int64,
    table: map<Int64, Transaction>,
    timers: seq<Timer>,
    sent: seq<Sent>,
    calls: seq<Callback>)

  /** A timer that still belongs to a transaction in the table. */
  predicate InFlight(p: Phase) {
    p.Armed? || p.Expired? || p.Rejecting?
  }

  /** The representation invariant: every timer knows its own serial, and every
      table entry sits under its own id and has an in-flight timer (the timer is
      armed before the lock is released, so no reply can see an entry without one). */
  predicate WellFormed(q: Requestor) {
    && (forall s :: 0 <= s < |q.timers| ==> q.timers[s].txn.serial == s)
    && (forall k :: k in q.table ==>
          && q.table[k].id == k
          && q.table[k].serial < |q.timers|
          && q.timers[q.table[k].serial].txn == q.table[k]
          && InFlight(q.timers[q.table[k].serial].phase))
  }

  /** The transaction with serial `s` is the one the table holds under its id. */
  predicate Pending(q: Requestor, s: Serial) {
    s < |q.timers| && q.timers[s].txn.id in q.table && q.table[q.timers[s].txn.id].serial == s
  }

  /** `newRequestor`, for the parts that concern the table: the default timeout
      and an empty table. */
  function NewRequestor(subj: string, reply: string): (q: Requestor)
    ensures WellFormed(q)
    ensures q.timeout == DefaultRequestTimeout && q.table == map[]
    ensures q.subj == subj && q.reply == reply
    ensures q.timers == [] && q.sent == [] && q.calls == []
  {
    Requestor(subj, reply, DefaultRequestTimeout, map[], [], [], [])
  }

  /** The envelope `Request` builds: the request tag, the id, the method and the
      marshalled body.  The reply subject travels as the transport's reply
      argument, not in the envelope. */
  function RequestEnvelope(id: Int64, methodName: string, body: Value): Envelope.Request {
    Envelope.Request(true, id, "", methodName, Some(body))
  }

  /** `Request`: a marshalling failure leaves everything as it was; otherwise the
      transaction goes into the table under its id (replacing any entry with that
      id), its timer is armed with the timeout current now, and the request is sent
      to the requestor's subject with its private reply subject. */
  function Request(q: Requestor, id: Int64, methodName: string, data: Payload): (r: Requestor)
    ensures WellFormed(q) ==> WellFormed(r)
    ensures data.Unencodable? ==> r == q
    ensures data.Encodable? ==>
      && r.table.Keys == q.table.Keys + {id}
      && r.table[id] == Transaction(|q.timers|, id, methodName)
      && (forall k :: k in q.table && k != id ==> r.table[k] == q.table[k])
      && |r.timers| == |q.timers| + 1
      && r.timers[..|q.timers|] == q.timers
      && r.timers[|q.timers|] == Timer(r.table[id], Armed(q.timeout))
      && |r.sent| == |q.sent| + 1
      && r.sent[..|q.sent|] == q.sent
      && r.sent[|q.sent|].subject == q.subj
      && r.sent[|q.sent|].reply == q.reply
      && Envelope.DecodeRequest(r.sent[|q.sent|].body) == Success(Envelope.Request(true, id, "", methodName, Some(data.value)))
      && Envelope.DecodeProbe(r.sent[|q.sent|].body) == Success(Envelope.PeerMsg(true, false, false, false))
    ensures r.calls == q.calls && r.timeout == q.timeout && r.subj == q.subj && r.reply == q.reply
  {
    match Marshal(data)
    case Failure(_) => q
    case Success(body) =>
      var txn := Transaction(|q.timers|, id, methodName);
      var payload := Envelope.EncodeRequest(RequestEnvelope(id, methodName, body));
      q.(table := q.table[id := txn],
         timers := q.timers + [Timer(txn, Armed(q.timeout))],
         sent := q.sent + [Sent(q.subj, q.reply, Wellformed(payload))])
  }

  /** `SetRequestTimeout`: only the default for later requests changes; timers
      already armed keep the duration they were started with. */
  function SetRequestTimeout(q: Requestor, d: Int64): (r: Requestor)
    ensures r.timeout == d
    ensures r.table == q.table && r.timers == q.timers && r.calls == q.calls && r.sent == q.sent
    ensures r.subj == q.subj && r.reply == q.reply
    ensures WellFormed(q) ==> WellFormed(r)
  {
    q.(timeout := d)
  }

  /** `time.Timer.Stop`: it only prevents a timer that has not expired yet. */
  function Stop(p: Phase): (r: Phase)
    ensures p.Armed? ==> r == Stopped
    ensures !p.Armed? ==> r == p
  {
    if p.Armed? then Stopped else p
  }

  /** The callback a response calls on the transaction it matches. */
  function Answer(t: Transaction, p: Envelope.Response): (c: Callback)
    ensures c.serial == t.serial && !c.ByTimer()
    ensures c.Accept? <==> p.ok
    ensures c.Accept? ==> c.data == p.data
    ensures c.Reject? ==> c.code == p.errorCode && c.reason == Remote(p.errorReason)
  {
    if p.ok then Accept(t.serial, p.data) else Reject(t.serial, p.errorCode, Remote(p.errorReason))
  }

  /** `handleResponse`: an unknown id changes nothing and calls nothing.  A known id
      stops that transaction's timer, calls exactly one of its callbacks once
      (accept with the data when `ok`, reject with the code and reason otherwise),
      and removes the id while every other entry stays as it was. */
  function HandleResponse(q: Requestor, p: Envelope.Response): (r: Requestor)
    requires WellFormed(q)
    ensures WellFormed(r)
    ensures p.id !in q.table ==> r == q
    ensures p.id in q.table ==>
      var s := q.table[p.id].serial;
      && r.table == q.table - {p.id}
      && r.calls == q.calls + [Answer(q.table[p.id], p)]
      && |r.timers| == |q.timers|
      && r.timers[s] == Timer(q.timers[s].txn, Stop(q.timers[s].phase))
      && (forall j :: 0 <= j < |q.timers| && j != s ==> r.timers[j] == q.timers[j])
    ensures r.sent == q.sent && r.timeout == q.timeout && r.subj == q.subj && r.reply == q.reply
  {
    if p.id !in q.table then q
    else
      var t := q.table[p.id];
      var timer := q.timers[t.serial];
      q.(table := q.table - {p.id},
         timers := q.timers[t.serial := timer.(phase := Stop(timer.phase))],
         calls := q.calls + [Answer(t, p)])
  }

  /** The message reaches the table: it decodes as a probe with the response tag,
      then as a response, and its id is pending. */
  predicate Correlates(q: Requestor, msg: Bytes) {
    && Envelope.DecodeProbe(msg).Success?
    && Envelope.DecodeProbe(msg).value.response
    && Envelope.DecodeResponse(msg).Success?
    && Envelope.DecodeResponse(msg).value.id in q.table
  }

  /** `handleMessage`: only a message whose probe carries the response tag and that
      decodes as a response is looked up; malformed bytes, requests,
      notifications and unknown ids leave the state exactly as it was. */
  function HandleMessage(q: Requestor, msg: Bytes): (r: Requestor)
    requires WellFormed(q)
    ensures WellFormed(r)
    ensures r != q <==> Correlates(q, msg)
    ensures !Envelope.Tagged(msg, "response") ==> r == q
    ensures Correlates(q, msg) ==> r == HandleResponse(q, Envelope.DecodeResponse(msg).value)
  {
    match Envelope.DecodeProbe(msg)
    case Failure(_) => q
    case Success(probe) =>
      if !probe.response then q
      else
        match Envelope.DecodeResponse(msg)
        case Failure(_) => q
        case Success(p) => HandleResponse(q, p)
  }

  /** The runtime expires an armed timer and starts its closure.  Nothing is
      observable yet, but `Stop` can no longer prevent the closure. */
  function TimerExpire(q: Requestor, s: Serial): (r: Requestor)
    requires s < |q.timers| && q.timers[s].phase.Armed?
    ensures WellFormed(q) ==> WellFormed(r)
    ensures r.table == q.table && r.calls == q.calls && r.sent == q.sent && r.timeout == q.timeout
    ensures r.subj == q.subj && r.reply == q.reply
    ensures |r.timers| == |q.timers| && r.timers[s] == q.timers[s].(phase := Expired)
    ensures forall j :: 0 <= j < |q.timers| && j != s ==> r.timers[j] == q.timers[j]
  {
    q.(timers := q.timers[s := q.timers[s].(phase := Expired)])
  }

  /** The first half of the timeout closure: it calls reject with code 480 before
      taking the lock and without checking that the transaction is still in the
      table.  The reported timeout is the requestor's setting at this moment. */
  function TimeoutReject(q: Requestor, s: Serial): (r: Requestor)
    requires s < |q.timers| && q.timers[s].phase.Expired?
    ensures WellFormed(q) ==> WellFormed(r)
    ensures r.calls == q.calls + [Reject(s, TimeoutCode, Timeout(q.timeout, q.timers[s].txn.id, q.timers[s].txn.methodName))]
    ensures r.table == q.table && r.sent == q.sent && r.timeout == q.timeout
    ensures r.subj == q.subj && r.reply == q.reply
    ensures |r.timers| == |q.timers| && r.timers[s] == q.timers[s].(phase := Rejecting)
    ensures forall j :: 0 <= j < |q.timers| && j != s ==> r.timers[j] == q.timers[j]
  {
    var t := q.timers[s].txn;
    q.(timers := q.timers[s := q.timers[s].(phase := Rejecting)],
       calls := q.calls + [Reject(s, TimeoutCode, Timeout(q.timeout, t.id, t.methodName))])
  }

  /** The second half of the timeout closure: under the lock it deletes the
      transaction's id, whichever transaction the table now holds under it. */
  function TimeoutCleanup(q: Requestor, s: Serial): (r: Requestor)
    requires s < |q.timers| && q.timers[s].phase.Rejecting?
    ensures WellFormed(q) ==> WellFormed(r)
    ensures r.table == q.table - {q.timers[s].txn.id}
    ensures r.calls == q.calls && r.sent == q.sent && r.timeout == q.timeout
    ensures r.subj == q.subj && r.reply == q.reply
    ensures |r.timers| == |q.timers| && r.timers[s] == q.timers[s].(phase := Done)
    ensures forall j :: 0 <= j < |q.timers| && j != s ==> r.timers[j] == q.timers[j]
  {
    q.(table := q.table - {q.timers[s].txn.id},
       timers := q.timers[s := q.timers[s].(phase := Done)])
  }

  /** Everything that can happen to a requestor, one atomic step each. */
  datatype Event =
    | Issue(id: Int64, methodName: string, data: Payload)
    | Deliver(msg: Bytes)
    | Expiry(serial: Serial)
    | FireReject(serial: Serial)
    | FireCleanup(serial: Serial)
    | SetTimeout(d: Int64)

  /** The runtime only runs a timer's steps in order. */
  predicate Enabled(q: Requestor, e: Event) {
    match e
    case Expiry(s) => s < |q.timers| && q.timers[s].phase.Armed?
    case FireReject(s) => s < |q.timers| && q.timers[s].phase.Expired?
    case FireCleanup(s) => s < |q.timers| && q.timers[s].phase.Rejecting?
    case _ => true
  }

  function Step(q: Requestor, e: Event): (r: Requestor)
    requires WellFormed(q) && Enabled(q, e)
    ensures WellFormed(r)
    ensures |q.timers| <= |r.timers| && |q.calls| <= |r.calls|
  {
    match e
    case Issue(id, m, data) => Request(q, id, m, data)
    case Deliver(msg) => HandleMessage(q, msg)
    case Expiry(s) => TimerExpire(q, s)
    case FireReject(s) => TimeoutReject(q, s)
    case FireCleanup(s) => TimeoutCleanup(q, s)
    case SetTimeout(d) => SetRequestTimeout(q, d)
  }

  /** The state after a schedule of events, or None when the schedule runs a timer
      step the runtime could not have run. */
  function Run(q: Requestor, es: seq<Event>): (r: Option<Requestor>)
    requires WellFormed(q)
    ensures r.Some? ==> WellFormed(r.value)
    decreases |es|
  {
    if es == [] then Some(q)
    else if !Enabled(q, es[0]) then None
    else Run(Step(q, es[0]), es[1..])
  }

  /** Requests, notifications and undecodable bytes never reach the table: the
      state is left exactly as it was and no callback is called. */
  lemma NonResponsesIgnored(q: Requestor, x: Envelope.Request, n: Envelope.Notification)
    requires WellFormed(q)
    ensures HandleMessage(q, Malformed) == q
    ensures HandleMessage(q, Wellformed(Envelope.EncodeRequest(x))) == q
    ensures HandleMessage(q, Wellformed(Envelope.EncodeNotification(n))) == q
  {
  }

  /** A success response written for a pending id reaches exactly the transaction
      pending under that id and hands its accept callback the body it carried. */
  lemma SuccessResponseReachesItsTransaction(q: Requestor, id: Int64, body: Value, code: Int64, reason: string)
    requires WellFormed(q) && id in q.table
    ensures var r := HandleMessage(q, Wellformed(Envelope.EncodeResponse(Envelope.Response(true, id, true, Some(body), code, reason))));
      && r.calls == q.calls + [Accept(q.table[id].serial, Some(body))]
      && id !in r.table
  {
  }

  /** An error response written for a pending id hands that transaction's reject
      callback exactly the remote code and reason. */
  lemma ErrorResponseReachesItsTransaction(q: Requestor, id: Int64, code: Int64, reason: string)
    requires WellFormed(q) && id in q.table
    ensures var r := HandleMessage(q, Wellformed(Envelope.EncodeResponseError(Envelope.ResponseError(true, id, false, code, reason))));
      && r.calls == q.calls + [Reject(q.table[id].serial, code, Remote(reason))]
      && id !in r.table
  {
  }

  /** A new timeout is used by the requests issued after it; timers armed before
      keep their duration. */
  lemma TimeoutSettingAppliesToLaterRequests(q: Requestor, d: Int64, id: Int64, m: string, v: Value)
    ensures var r := Request(SetRequestTimeout(q, d), id, m, Encodable(v));
      && r.timers[|q.timers|].phase == Armed(d)
      && r.timers[..|q.timers|] == q.timers
  {
  }

  /** The timeout message reports the requestor's setting when the closure runs,
      which after a `SetRequestTimeout` is not the duration the timer was armed with. */
  lemma TimeoutMessageReportsCurrentSetting(q: Requestor, s: Serial, d: Int64)
    requires s < |q.timers| && q.timers[s].phase.Expired?
    ensures TimeoutReject(SetRequestTimeout(q, d), s).calls[|q.calls|].reason == Timeout(d, q.timers[s].txn.id, q.timers[s].txn.methodName)
  {
  }
}
