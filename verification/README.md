# Requestor transaction table of nats-protoo, in Dafny

This project models the client side of nats-protoo, a request/response/notification
protocol over NATS. The part modelled is the `Requestor`'s transaction table:
a map from correlation id to pending transaction. The envelope shapes it
exchanges are modelled too.

- `json.dfy` (module `Json`): JSON values, and how `json.Unmarshal` fills one
  struct field from one object member. For a `bool`, `int` or `string` field a
  missing member or `null` gives the zero value. A `json.RawMessage` field takes
  its member verbatim, `null` included, and stays nil only when the member is
  missing. A member of the wrong type is an error, and unknown members are
  ignored. Turning bytes into values is abstract: a message is either
  `Wellformed(value)` or `Malformed`.
- `envelope.dfy` (module `Envelope`, types.go): the four-flag `PeerMsg` probe and
  the `Request`, `Response`, `ResponseError` and `Notification` envelopes. Each
  has an encoder whose contract gives its member names, its decoding round trip,
  and what the probe reads from it.
- `requestor.dfy` (module `Requestor`, requestor.go): the state of one
  requestor, with one pure transition function per event. The events are
  `Request`, `HandleMessage`/`HandleResponse`, the timer closure's three steps
  and `SetRequestTimeout`.
  - Each registered transaction gets a serial number. This stands for the
    identity of the Go `*Transcation` and its callback pair.
  - Callback calls go into a `calls` log as `Accept(serial, data)` or
    `Reject(serial, code, reason)`.
  - Publishes go into a `sent` log.
  - `WellFormed` is the representation invariant: every table entry sits under
    its own id and has a running timer. `NewRequestor` establishes it and every
    event keeps it. Functions that look up a transaction's timer require it.
  - Every table mutation happens under `req.mutex`, so each event is one atomic
    step. The `defer` inside `Request`'s block runs at function exit, so
    registration and send form one step.
- `transactions.dfy` (module `Transactions`): an invariant that every reachable
  state satisfies, and what it implies about how often callbacks are called.
- `future.dfy` (module `Future`): `AsyncRequest`'s adapters from the callback
  pair to the arguments of a future's resolve and reject.
- `scenarios.dfy` (module `Scenarios`): concrete schedules from a new requestor.

## The timer, as the code has it

`time.AfterFunc`'s closure calls `reject` before it takes the lock, and it does
not check that the id is still pending (requestor.go:123-129). The model
therefore runs a timer in three steps:

- `TimerExpire`: the runtime starts the closure. After this, `Stop` no longer
  prevents it.
- `TimeoutReject`: the closure calls reject with code 480.
- `TimeoutCleanup`: under the lock, the closure deletes the id.

Two consequences follow, and both are proved:

- A response that arrives between expiry and the closure's reject still finds
  the entry. The transaction is then resolved by the response and rejected by
  the timer (`Transactions.ReplyAfterExpiryResolvesTwice`,
  `Scenarios.DoubleResolutionReachable`). What does hold in every reachable
  state: at most one call per transaction from a response, and at most one from
  its timer (`Transactions.ReachableAtMostOnceEach`). A transaction answered
  before its timer expired is called exactly once
  (`Transactions.ReplyInTimeResolvesExactlyOnce`).
- Registration overwrites an entry with the same id. A stale timer's cleanup
  deletes by id, so on a collision it removes the newer entry. The answer to the
  newer request is then dropped (`Transactions.StaleCleanupDropsNewerEntry`,
  `Scenarios.IdCollisionReachable`).

Further facts about the code that the model keeps:

- The timeout closure calls reject before it takes the lock and without looking
  at the table, so resolution is not exactly once (above).
- `handleResponse` calls the callbacks while it holds the mutex. In the model a
  response is one atomic step either way, so this makes no difference to the
  table.
- Nothing in `PeerMsg` keeps the request, response and notification tags
  exclusive: any combination of the four flags decodes
  (`Envelope.ProbeTagsIndependent`).
- The timeout message reports `req.timeout` as read when the closure runs, not
  the duration the timer was armed with
  (`Requestor.TimeoutMessageReportsCurrentSetting`).

## Model

| member | source | states |
|---|---|---|
| `Envelope.DecodeProbe` | types.go:20-25 | decoding succeeds exactly when the message is well-formed `null` or an object whose four flag members are each missing, `null` or a boolean; otherwise it fails with a syntax error for malformed bytes and a type error else; each flag is true exactly when its member is `true` |
| `Envelope.ProbeTagsIndependent` | types.go:20-25 | every combination of the four flags is the probe of some message: the type does not make the tags exclusive |
| `Envelope.DecodeRequest` | types.go:40-46 | decoding succeeds exactly when the message is `null` or an object whose `request` member is missing, `null` or a boolean, whose `id` is missing, `null` or a 64-bit number, and whose `reply` and `method` are missing, `null` or strings; the flag, id, reply, method and body are those members' values (zero values when missing or `null`), and the body is the `data` member verbatim, nil only when it is missing |
| `Envelope.EncodeRequest` | types.go:40-46 | a request is written with exactly the members request, id, reply, method, data; it decodes back to itself (a nil body comes back as `null`); its probe shows only the request tag |
| `Envelope.DecodeResponse` | types.go:60-67 | decoding succeeds exactly when the message is `null` or an object whose `response` and `ok` are missing, `null` or booleans, whose `id` and `errorCode` are missing, `null` or 64-bit numbers, and whose `errorReason` is missing, `null` or a string; every field is its member's value, with 0, `false` or "" when missing or `null`; the body is the `data` member verbatim, nil only when it is missing |
| `Envelope.EncodeResponse` | types.go:60-67 | a success response is written with response, id, ok, data, errorCode and errorReason; it decodes back to itself; its probe shows the response and ok flags it carries |
| `Envelope.EncodeResponseError` | types.go:79-85 | an error response has no data member; read as a `Response` it keeps id, ok, code and reason and has a nil body |
| `Envelope.DecodeNotification` | types.go:98-102 | decoding succeeds exactly when the message is `null` or an object whose `notification` is missing, `null` or a boolean and whose `method` is missing, `null` or a string; the flag, method and body are those members' values, the body verbatim and nil only when missing |
| `Envelope.EncodeNotification` | types.go:98-102 | a notification is written with notification, method and data only; its probe has no response tag, and read as a `Response` it has id 0 and no response flag |
| `Requestor.NewRequestor` | requestor.go:32-64 | a new requestor satisfies the representation invariant, keeps the subject and reply inbox it was given, and starts with the 30-second default timeout, an empty table, no timers, nothing sent and no callback called |
| `Requestor.Request` | requestor.go:86-134 | on a marshalling failure nothing is registered, armed or sent; otherwise the id maps to a fresh transaction and replaces any earlier entry while other entries stay; a timer is armed with the timeout current now and earlier timers are untouched; one envelope is sent that decodes to a request with this id, method and body; no callback is called |
| `Requestor.SetRequestTimeout` | requestor.go:78-84 | only the stored default changes; the subject, the reply inbox, the table, every armed timer, the callbacks and the sent messages stay as they were |
| `Requestor.HandleResponse` | requestor.go:178-197 | an unknown id changes nothing; a pending id gets exactly one callback call, on the transaction registered under that id, `Stop` is called on its timer, which prevents the closure only if it has not expired yet, it leaves the table, and every other entry and timer is unchanged |
| `Requestor.HandleMessage` | requestor.go:161-176 | the state changes exactly when the message decodes as a probe with the response tag, then as a response whose id is pending; without the response tag it is left exactly as it was |
| `Requestor.TimerExpire` | requestor.go:123 | expiry alone calls nothing and leaves the table as it was |
| `Requestor.TimeoutReject` | requestor.go:123-125 | the closure calls reject with code 480 and the timeout, id and method, whether or not the id is still in the table, and does not touch the table |
| `Requestor.TimeoutCleanup` | requestor.go:126-128 | the closure removes its transaction's id from the table, whichever transaction is now there, and calls nothing |
| `Requestor.NonResponsesIgnored` | requestor.go:161-176 | malformed bytes, requests and notifications leave the requestor unchanged |
| `Requestor.SuccessResponseReachesItsTransaction` | requestor.go:181-196 | a success response for a pending id calls accept of the transaction under that id with the body it carried, and removes the id |
| `Requestor.ErrorResponseReachesItsTransaction` | requestor.go:190-194 | an error response for a pending id calls reject of that transaction with exactly the remote code and reason, and removes the id |
| `Requestor.TimeoutSettingAppliesToLaterRequests` | requestor.go:123 | a request issued after `SetRequestTimeout(d)` is armed with `d`, and earlier timers keep their durations |
| `Requestor.TimeoutMessageReportsCurrentSetting` | requestor.go:125 | the timeout reason reports the setting when the closure runs, not the duration the timer was armed with |
| `Transactions.InitialValid` | requestor.go:62 | a new requestor satisfies the callback invariant |
| `Transactions.RequestKeepsValid` | requestor.go:119-130 | registering keeps the invariant: the new transaction has no calls and an armed timer |
| `Transactions.HandleResponseKeepsValid` | requestor.go:178-197 | a response keeps the invariant: at most one call from a response per transaction |
| `Transactions.TimeoutRejectKeepsValid` | requestor.go:123-125 | the closure's reject keeps the invariant: at most one call from the timer |
| `Transactions.TimeoutCleanupKeepsValid` | requestor.go:126-128 | the closure's cleanup keeps the invariant |
| `Transactions.ReachableAtMostOnceEach` | requestor.go:119-196 | in every state reachable from a new requestor, each transaction has at most one call from a response and one from its timer, and exactly one in all if its timer was stopped |
| `Transactions.FinalRun` | requestor.go:188-196 | once a timer is stopped or finished, no later event calls that transaction again or changes its timer |
| `Transactions.ReplyInTimeResolvesExactlyOnce` | requestor.go:188-196 | a response that reaches a pending transaction before its timer expires is that transaction's only call, forever after |
| `Transactions.TimeoutRejectsExactlyOnce` | requestor.go:123-129 | a timer run to completion with no response in between rejects once with code 480, removes the id, and nothing afterwards calls that transaction |
| `Transactions.ReplyAfterExpiryResolvesTwice` | requestor.go:123-128 | a response arriving after expiry but before the closure's reject calls a callback, and the timer then rejects the same transaction too |
| `Transactions.StaleCleanupDropsNewerEntry` | requestor.go:122-128 | after an id collision, the older timer's cleanup removes the newer entry, whose answer is then dropped while its own timer runs on |
| `Future.WireAnswerSettlesFuture` | requestor.go:142-152 | a success response on the wire resolves the future with exactly its body (a nil body arrives as `null`); an error response rejects it with an `Error` holding exactly the remote code and reason |
| `Future.AsyncRequest` | requestor.go:142-154 | the future is bound to the transaction `Request` registers, or to none when marshalling fails |
| `Future.ReplyInTimeSettlesFutureOnce` | requestor.go:142-152 | in any state the invariant holds in, whatever events came before, a response that finds the future's transaction pending with its timer still armed settles the future exactly once, under every later schedule: resolved with the response data when `ok`, otherwise rejected with its code and reason |
| `Future.AsyncReplyInTimeSettlesOnce` | requestor.go:142-154 | the case of a response delivered right after `AsyncRequest`: it settles the future exactly once: resolved with the response data when `ok`, otherwise rejected with its code and reason |
| `Scenarios.DoubleResolutionReachable` | requestor.go:123-128 | from a new requestor, request, expiry, answer and timer reject give the caller an accept followed by a reject |
| `Scenarios.IdCollisionReachable` | requestor.go:122-128 | from a new requestor, two requests with one id and the first timer's completion leave the id unmapped, drop the second answer, and leave the second timer armed |
| `Scenarios.RejectedOfferScenario` | requestor.go:149-151 | an async "offer" answered with reject(404, "Not found") rejects its future with exactly (404, "Not found") |

## Left out

- Transport plumbing (subscribe, queue-subscribe, flush, `np.Send`) and reply-inbox naming: a send is an appended `Sent` record, and the reply subject is a parameter of `NewRequestor`.
- Correlation id generation (`GenerateRandomNumber`): the id is a parameter of `Request`, so every id, colliding or not, is covered.
- JSON text: parsing and printing bytes are abstract. Numbers are integers only. Object keys are matched exactly; Go's case-insensitive key matching and duplicate keys are not modelled.
- Marshalling the envelope: in Go it can only fail on an invalid `json.RawMessage`. The body comes from `json.Marshal`, so that branch (requestor.go:104-108) cannot be taken and has no counterpart in the model.
- Real time: a timer has no clock. Expiry may happen at any step after arming, and the armed duration is only recorded.
- The float-seconds text of the timeout message: the reason is the structured `Timeout(timeout, id, method)`.
- Logging.
- The lifecycle relay and `Close`, and the transaction's unused `close` closure: event-emitter plumbing over an external library. `Close` touches no transaction.
- The `Future` type itself, `Await` and `SyncRequest`: the future's implementation is not part of this model. Only what its resolve and reject are handed is modelled.
- Callback re-entrancy: callbacks run while `handleResponse` holds the mutex. In the model a callback is a log entry, so a callback that calls back into the requestor is not modelled.
- broadcaster.go and the example programs: a marshal-then-send wrapper and process wiring.
- The embedded `RequestData`/`CommonData` structs that `Request` builds its envelope from are not part of this model. The flat `Request` shape of types.go is used, with an empty `reply` member, because `Request` does not set one.
- Transactions.TimeoutRejectsExactlyOnce: covers only the timer's three steps run back to back. A response interleaved with them is covered by `Transactions.ReplyAfterExpiryResolvesTwice` and by the general bound `Transactions.ReachableAtMostOnceEach`.
