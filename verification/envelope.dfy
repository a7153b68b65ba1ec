/**
  The wire shapes of the protocol (types.go): the four-flag probe used to sniff
  a message, and the Request, Response, ResponseError and Notification
  envelopes.  Each envelope is written as a JSON object whose member names are
  the struct tags; every field is always written (no field is `omitempty`).
  Decoding follows `json.Unmarshal` into the same struct, so a member the
  struct lacks is ignored and a member the message lacks stays at its zero value.
*/
module Envelope {
  import opened Wrappers
  import opened Json

  /** The probe: four independent flags, decoded from any message before anything else. */
  datatype PeerMsg = PeerMsg(request: bool, response: bool, ok: bool, notification: bool)

  /** A request: the caller's correlation id, the remote method and an opaque body. */
  datatype Request = Request(request: bool, id: Int64, replySubj: string, methodName: string, data: Option<Value>)

  /** A response as the requestor decodes it: both the success body and the error pair. */
  datatype Response = Response(response: bool, id: Int64, ok: bool, data: Option<Value>, errorCode: Int64, errorReason: string)

  /** An error response: it has no data member at all. */
  datatype ResponseError = ResponseError(response: bool, id: Int64, ok: bool, errorCode: Int64, errorReason: string)

  /** A notification: it has no id, so nothing can correlate it with a request. */
  datatype Notification = Notification(notification: bool, methodName: string, data: Option<Value>)

  /** The message is an object whose member `key` is the JSON literal `true`. */
  predicate Tagged(b: Bytes, key: string) {
    b.Wellformed? && b.value.Object? && key in b.value.members && b.value.members[key] == Bool(true)
  }

  /** `json.Unmarshal(message, &PeerMsg{})`. */
  function DecodeProbe(b: Bytes): (r: Result<PeerMsg, DecodeError>)
    ensures r.Success? <==> && Unmarshalable(b)
                            && FitsBool(b, "request") && FitsBool(b, "response")
                            && FitsBool(b, "ok") && FitsBool(b, "notification")
    ensures r.Failure? ==> r.error == ErrorOf(b)
    ensures r.Success? ==> r.value.request == Tagged(b, "request")
    ensures r.Success? ==> r.value.response == Tagged(b, "response")
    ensures r.Success? ==> r.value.ok == Tagged(b, "ok")
    ensures r.Success? ==> r.value.notification == Tagged(b, "notification")
  {
    var m :- Members(b);
    var request :- BoolField(m, "request");
    var response :- BoolField(m, "response");
    var ok :- BoolField(m, "ok");
    var notification :- BoolField(m, "notification");
    Success(PeerMsg(request, response, ok, notification))
  }

  /** `json.Unmarshal(message, &Request{})`. */
  function DecodeRequest(b: Bytes): (r: Result<Request, DecodeError>)
    ensures r.Success? <==> && Unmarshalable(b)
                            && FitsBool(b, "request") && FitsInt(b, "id")
                            && FitsString(b, "reply") && FitsString(b, "method")
    ensures r.Failure? ==> r.error == ErrorOf(b)
    ensures r.Success? ==> r.value.request == Tagged(b, "request")
    ensures r.Success? ==> r.value.id == IntOf(b, "id")
    ensures r.Success? ==> r.value.replySubj == StringOf(b, "reply")
    ensures r.Success? ==> r.value.methodName == StringOf(b, "method")
    ensures r.Success? ==> r.value.data == Member(b, "data")
  {
    var m :- Members(b);
    var request :- BoolField(m, "request");
    var id :- IntField(m, "id");
    var reply :- StringField(m, "reply");
    var methodName :- StringField(m, "method");
    Success(Request(request, id, reply, methodName, RawField(m, "data")))
  }

  /** `json.Unmarshal(message, &Response{})`: the shape the requestor correlates. */
  function DecodeResponse(b: Bytes): (r: Result<Response, DecodeError>)
    ensures r.Success? <==> && Unmarshalable(b)
                            && FitsBool(b, "response") && FitsInt(b, "id") && FitsBool(b, "ok")
                            && FitsInt(b, "errorCode") && FitsString(b, "errorReason")
    ensures r.Failure? ==> r.error == ErrorOf(b)
    ensures r.Success? ==> r.value.response == Tagged(b, "response")
    ensures r.Success? ==> r.value.id == IntOf(b, "id")
    ensures r.Success? ==> r.value.ok == Tagged(b, "ok")
    ensures r.Success? ==> r.value.data == Member(b, "data")
    ensures r.Success? ==> r.value.errorCode == IntOf(b, "errorCode")
    ensures r.Success? ==> r.value.errorReason == StringOf(b, "errorReason")
  {
    var m :- Members(b);
    var response :- BoolField(m, "response");
    var id :- IntField(m, "id");
    var ok :- BoolField(m, "ok");
    var code :- IntField(m, "errorCode");
    var reason :- StringField(m, "errorReason");
    Success(Response(response, id, ok, RawField(m, "data"), code, reason))
  }

  /** `json.Unmarshal(message, &Notification{})`. */
  function DecodeNotification(b: Bytes): (r: Result<Notification, DecodeError>)
    ensures r.Success? <==> Unmarshalable(b) && FitsBool(b, "notification") && FitsString(b, "method")
    ensures r.Failure? ==> r.error == ErrorOf(b)
    ensures r.Success? ==> r.value.notification == Tagged(b, "notification")
    ensures r.Success? ==> r.value.methodName == StringOf(b, "method")
    ensures r.Success? ==> r.value.data == Member(b, "data")
  {
    var m :- Members(b);
    var notification :- BoolField(m, "notification");
    var methodName :- StringField(m, "method");
    Success(Notification(notification, methodName, RawField(m, "data")))
  }

  /** `json.Marshal(&Request{...})`.  A nil body is written as `null`, which decodes
      back as the raw text `null` rather than nil. */
  function EncodeRequest(q: Request): (v: Value)
    ensures v.Object? && v.members.Keys == {"request", "id", "reply", "method", "data"}
    ensures DecodeRequest(Wellformed(v)) == Success(q.(data := Some(RawValue(q.data))))
    ensures DecodeProbe(Wellformed(v)) == Success(PeerMsg(q.request, false, false, false))
  {
    Object(map[
      "request" := Bool(q.request),
      "id" := Number(q.id),
      "reply" := String(q.replySubj),
      "method" := String(q.methodName),
      "data" := RawValue(q.data)])
  }

  /** `json.Marshal(&Response{...})`. */
  function EncodeResponse(p: Response): (v: Value)
    ensures v.Object? && v.members.Keys == {"response", "id", "ok", "data", "errorCode", "errorReason"}
    ensures DecodeResponse(Wellformed(v)) == Success(p.(data := Some(RawValue(p.data))))
    ensures DecodeProbe(Wellformed(v)) == Success(PeerMsg(false, p.response, p.ok, false))
  {
    Object(map[
      "response" := Bool(p.response),
      "id" := Number(p.id),
      "ok" := Bool(p.ok),
      "data" := RawValue(p.data),
      "errorCode" := Number(p.errorCode),
      "errorReason" := String(p.errorReason)])
  }

  /** `json.Marshal(&ResponseError{...})`: read back as a Response, its body is nil. */
  function EncodeResponseError(e: ResponseError): (v: Value)
    ensures v.Object? && v.members.Keys == {"response", "id", "ok", "errorCode", "errorReason"}
    ensures DecodeResponse(Wellformed(v)) == Success(Response(e.response, e.id, e.ok, None, e.errorCode, e.errorReason))
    ensures DecodeProbe(Wellformed(v)) == Success(PeerMsg(false, e.response, e.ok, false))
  {
    Object(map[
      "response" := Bool(e.response),
      "id" := Number(e.id),
      "ok" := Bool(e.ok),
      "errorCode" := Number(e.errorCode),
      "errorReason" := String(e.errorReason)])
  }

  /** `json.Marshal(&Notification{...})`: read back as a Response, it is not a
      response and its id is 0. */
  function EncodeNotification(n: Notification): (v: Value)
    ensures v.Object? && v.members.Keys == {"notification", "method", "data"}
    ensures DecodeNotification(Wellformed(v)) == Success(n.(data := Some(RawValue(n.data))))
    ensures DecodeProbe(Wellformed(v)) == Success(PeerMsg(false, false, false, n.notification))
    ensures DecodeResponse(Wellformed(v)) == Success(Response(false, 0, false, Some(RawValue(n.data)), 0, ""))
  {
    Object(map[
      "notification" := Bool(n.notification),
      "method" := String(n.methodName),
      "data" := RawValue(n.data)])
  }

  /** Nothing in the probe's type keeps its tags apart: every combination of the four
      flags is the probe of some well-formed message. */
  lemma ProbeTagsIndependent(request: bool, response: bool, ok: bool, notification: bool)
    ensures exists b :: DecodeProbe(b) == Success(PeerMsg(request, response, ok, notification))
  {
    var b := Wellformed(Object(map[
      "request" := Bool(request),
      "response" := Bool(response),
      "ok" := Bool(ok),
      "notification" := Bool(notification)]));
    assert DecodeProbe(b) == Success(PeerMsg(request, response, ok, notification));
  }
}
