/**
  The part of Go's `encoding/json` that the envelopes rely on, at the level of
  JSON values rather than bytes.  Turning bytes into a value (and back) is a
  foreign library: a message on the wire is either well-formed text standing for
  a value, or malformed.  What is modelled exactly is how `json.Unmarshal`
  fills one struct field from one object member: a missing member or `null`
  leaves the field at its zero value, a member of the wrong JSON type is an
  error, and unknown members are ignored.
*/
module Json {
  import opened Wrappers

  const MinInt64: int := -0x8000_0000_0000_0000
  const MaxInt64: int := 0x7FFF_FFFF_FFFF_FFFF

  /** Go's `int` on a 64-bit platform (also `time.Duration`). */
  type Int64 = x: int | MinInt64 <= x <= MaxInt64

  /** A JSON value.  Numbers are integers here; fractions and exponents are not modelled. */
  datatype Value =
    | Null
    | Bool(b: bool)
    | Number(n: int)
    | String(s: string)
    | Array(items: seq<Value>)
    | Object(members: map<string, Value>)

  /** The bytes of one transport message. */
  datatype Bytes = Wellformed(value: Value) | Malformed

  /** Why `json.Unmarshal` returned an error. */
  datatype DecodeError = SyntaxError | TypeMismatch

  /** The object members a struct is filled from.  A top-level `null` fills nothing
      and is not an error; any other non-object is a type error. */
  function Members(b: Bytes): (r: Result<map<string, Value>, DecodeError>)
    ensures b.Malformed? <==> r == Failure(SyntaxError)
    ensures r.Success? <==> b.Wellformed? && (b.value.Object? || b.value.Null?)
    ensures r.Success? && b.value.Object? ==> r.value == b.value.members
    ensures r.Success? && b.value.Null? ==> r.value == map[]
  {
    match b
    case Malformed => Failure(SyntaxError)
    case Wellformed(Object(m)) => Success(m)
    case Wellformed(Null) => Success(map[])
    case Wellformed(_) => Failure(TypeMismatch)
  }

  /** A `bool` field. */
  function BoolField(m: map<string, Value>, key: string): (r: Result<bool, DecodeError>)
    ensures r.Success? <==> key !in m || m[key].Null? || m[key].Bool?
    ensures r.Success? ==> (r.value <==> key in m && m[key] == Bool(true))
  {
    if key !in m then Success(false)
    else match m[key]
      case Null => Success(false)
      case Bool(b) => Success(b)
      case _ => Failure(TypeMismatch)
  }

  /** An `int` field: a number outside the 64-bit range is a type error. */
  function IntField(m: map<string, Value>, key: string): (r: Result<Int64, DecodeError>)
    ensures r.Success? <==> key !in m || m[key].Null? || (m[key].Number? && MinInt64 <= m[key].n <= MaxInt64)
    ensures r.Success? && r.value != 0 ==> key in m && m[key] == Number(r.value)
    ensures r.Success? && key in m && m[key].Number? ==> r.value == m[key].n
  {
    if key !in m then Success(0)
    else match m[key]
      case Null => Success(0)
      case Number(n) => if MinInt64 <= n <= MaxInt64 then Success(n) else Failure(TypeMismatch)
      case _ => Failure(TypeMismatch)
  }

  /** A `string` field. */
  function StringField(m: map<string, Value>, key: string): (r: Result<string, DecodeError>)
    ensures r.Success? <==> key !in m || m[key].Null? || m[key].String?
    ensures r.Success? && r.value != "" ==> key in m && m[key] == String(r.value)
    ensures r.Success? && key in m && m[key].String? ==> r.value == m[key].s
  {
    if key !in m then Success("")
    else match m[key]
      case Null => Success("")
      case String(s) => Success(s)
      case _ => Failure(TypeMismatch)
  }

  /** A `json.RawMessage` field: it takes any member verbatim, `null` included, and
      stays nil only when the member is missing. */
  function RawField(m: map<string, Value>, key: string): (r: Option<Value>)
    ensures r.Some? <==> key in m
    ensures r.Some? ==> r.value == m[key]
  {
    if key in m then Some(m[key]) else None
  }

  /** How `json.Marshal` writes a `json.RawMessage`: a nil one becomes `null`. */
  function RawValue(raw: Option<Value>): (v: Value)
    ensures raw.Some? ==> v == raw.value
    ensures raw.None? ==> v == Null
  {
    raw.GetOr(Null)
  }

  /*
    The same rules read off a whole message, member by member, independently of
    the field decoders above.  The envelope decoders are specified with these.
  */

  /** `json.Unmarshal` into a struct can start: the message is an object or `null`. */
  predicate Unmarshalable(b: Bytes) {
    b.Wellformed? && (b.value.Object? || b.value.Null?)
  }

  /** The member `key` of the message, when it is an object that has one. */
  function Member(b: Bytes, key: string): Option<Value> {
    if b.Wellformed? && b.value.Object? && key in b.value.members then Some(b.value.members[key]) else None
  }

  /** A `bool` field can be filled from the message: its member is missing, `null` or a boolean. */
  predicate FitsBool(b: Bytes, key: string) {
    Member(b, key).None? || Member(b, key).value.Null? || Member(b, key).value.Bool?
  }

  /** An `int` field can be filled: its member is missing, `null` or a number in the 64-bit range. */
  predicate FitsInt(b: Bytes, key: string) {
    || Member(b, key).None? || Member(b, key).value.Null?
    || (Member(b, key).value.Number? && MinInt64 <= Member(b, key).value.n <= MaxInt64)
  }

  /** A `string` field can be filled: its member is missing, `null` or a string. */
  predicate FitsString(b: Bytes, key: string) {
    Member(b, key).None? || Member(b, key).value.Null? || Member(b, key).value.String?
  }

  /** The value an `int` field gets when it fits: the member's number, otherwise 0. */
  function IntOf(b: Bytes, key: string): Int64 {
    match Member(b, key)
    case Some(Number(n)) => if MinInt64 <= n <= MaxInt64 then n else 0
    case _ => 0
  }

  /** The value a `string` field gets when it fits: the member's text, otherwise "". */
  function StringOf(b: Bytes, key: string): string {
    match Member(b, key)
    case Some(String(s)) => s
    case _ => ""
  }

  /** Which error `json.Unmarshal` reports for a message it rejects. */
  function ErrorOf(b: Bytes): DecodeError {
    if b.Malformed? then SyntaxError else TypeMismatch
  }
}
