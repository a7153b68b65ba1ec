/**
  `AsyncRequest` (requestor.go): a request whose callbacks are the resolve and
  reject of a fresh future.  The future type itself is not part of this model;
  what is modelled is what the future is handed by those two adapters.
*/
module Future {
  import opened Wrappers
  import opened Json
  import Envelope
  import opened Requestor
  import opened Transactions

  /** Go's `Error{Code, Reason}`, the value a future is rejected with. */
  datatype Error = Error(code: Int64, reason: Reason)

  /** One call of the future's resolve or reject. */
  datatype Settlement = Resolve(data: Option<Value>) | RejectWith(err: Error)

  /** The adapter pair: accept resolves with the data unchanged, reject rejects with
      an Error holding the code and reason unchanged. */
  function Settle(c: Callback): (r: Settlement)
    ensures r.Resolve? <==> c.Accept?
    ensures c.Accept? ==> r.data == c.data
    ensures c.Reject? ==> r.err.code == c.code && r.err.reason == c.reason
  {
    match c
    case Accept(_, data) => Resolve(data)
    case Reject(_, code, reason) => RejectWith(Error(code, reason))
  }

  /** From the responder's envelope to the future: a success response written on the
      wire resolves the future with its body (a nil body arrives as the raw `null`),
      and an error response rejects it with exactly the remote code and reason. */
  lemma WireAnswerSettlesFuture(t: Transaction, p: Envelope.Response, e: Envelope.ResponseError)
    ensures p.ok ==>
      Settle(Answer(t, Envelope.DecodeResponse(Wellformed(Envelope.EncodeResponse(p))).value))
        == Resolve(Some(RawValue(p.data)))
    ensures !e.ok ==>
      Settle(Answer(t, Envelope.DecodeResponse(Wellformed(Envelope.EncodeResponseError(e))).value))
        == RejectWith(Error(e.errorCode, Remote(e.errorReason)))
  {
  }

  /** Which transaction a future hangs on.  When marshalling fails, `AsyncRequest`
      still returns a future, but no transaction exists to settle it. */
  datatype Handle = Bound(serial: Serial) | Orphan

  /** `AsyncRequest`: the future is bound to the transaction `Request` registers. */
  function AsyncRequest(q: Requestor, id: Int64, m: string, data: Payload): (r: (Requestor, Handle))
    ensures r.0 == Request(q, id, m, data)
    ensures data.Unencodable? <==> r.1.Orphan?
    ensures data.Encodable? ==> r.1.serial == r.0.table[id].serial && r.1.serial == |q.timers|
  {
    var r := Request(q, id, m, data);
    if data.Encodable? then (r, Bound(|q.timers|)) else (r, Orphan)
  }

  /** Everything a future has been handed so far, in order. */
  function Settlements(calls: seq<Callback>, h: Handle): (r: seq<Settlement>)
    ensures h.Orphan? ==> r == []
    ensures h.Bound? ==> |r| == |CallsFor(calls, h.serial)|
    ensures h.Bound? ==> forall i :: 0 <= i < |r| ==> r[i] == Settle(CallsFor(calls, h.serial)[i])
  {
    match h
    case Orphan => []
    case Bound(s) =>
      var cs := CallsFor(calls, s);
      seq(|cs|, i requires 0 <= i < |cs| => Settle(cs[i]))
  }

  /** In any state satisfying the invariant (every reachable state does), a response
      that finds the future's transaction still pending with its timer armed settles
      the future exactly once and for good, whatever requests, replies and timer
      steps came before it and whatever follows: resolved with exactly the
      response's data when `ok`, otherwise rejected with exactly its code and reason. */
  lemma ReplyInTimeSettlesFutureOnce(q: Requestor, msg: Bytes, s: Serial, es: seq<Event>)
    requires Valid(q) && Correlates(q, msg)
    requires q.table[Envelope.DecodeResponse(msg).value.id].serial == s
    requires q.timers[s].phase.Armed?
    ensures var p := Envelope.DecodeResponse(msg).value;
      var end := Run(HandleMessage(q, msg), es);
      end.Some? ==>
        Settlements(end.value.calls, Bound(s)) ==
          [if p.ok then Resolve(p.data) else RejectWith(Error(p.errorCode, Remote(p.errorReason)))]
  {
    ReplyInTimeResolvesExactlyOnce(q, msg, es);
  }

  /** The case of a response delivered right after `AsyncRequest`: it settles
      the future exactly once and for good: resolved with exactly the response's
      data when `ok`, otherwise rejected with exactly its code and reason. */
  lemma AsyncReplyInTimeSettlesOnce(q: Requestor, id: Int64, m: string, v: Value, msg: Bytes, es: seq<Event>)
    requires Valid(q)
    requires Envelope.DecodeProbe(msg).Success? && Envelope.DecodeProbe(msg).value.response
    requires Envelope.DecodeResponse(msg).Success? && Envelope.DecodeResponse(msg).value.id == id
    ensures var (r0, h) := AsyncRequest(q, id, m, Encodable(v));
      var p := Envelope.DecodeResponse(msg).value;
      var end := Run(HandleMessage(r0, msg), es);
      end.Some? ==>
        Settlements(end.value.calls, h) ==
          [if p.ok then Resolve(p.data) else RejectWith(Error(p.errorCode, Remote(p.errorReason)))]
  {
    var (r0, h) := AsyncRequest(q, id, m, Encodable(v));
    RequestKeepsValid(q, id, m, Encodable(v));
    assert Correlates(r0, msg);
    ReplyInTimeSettlesFutureOnce(r0, msg, h.serial, es);
  }
}
