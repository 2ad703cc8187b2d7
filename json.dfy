/** The JSON values the API routes (the route files under app/api) receive and store,
    with the two JavaScript operations their handlers rely on: truthiness,
    behind `!x.name` and `x.credits || 3`, and strict equality `===`. */
module Json {
  import opened Collections

  /** A parsed JSON value; numbers are taken as exact reals. */
  datatype Value =
    | Null
    | Bool(b: bool)
    | Num(n: real)
    | Str(s: string)
    | Arr(items: seq<Value>)
    | Obj(fields: map<string, Value>)

  /** A JSON object: its fields by name. */
  type Record = map<string, Value>

  /** `r.k`: the field, or None for `undefined`. */
  function Field(r: Record, k: string): (v: Option<Value>)
    ensures v.Some? <==> k in r
  {
    if k in r then Some(r[k]) else None
  }

  /** JavaScript truthiness: `undefined`, `null`, `false`, `0` and `""` are
      falsy; every other value, empty arrays and objects included, is truthy. */
  predicate Truthy(v: Option<Value>) {
    match v
    case None => false
    case Some(Null) => false
    case Some(Bool(b)) => b
    case Some(Num(n)) => n != 0.0
    case Some(Str(s)) => s != ""
    case Some(Arr(_)) => true
    case Some(Obj(_)) => true
  }

  /** `r.k || d`: the field when it is truthy, the default otherwise. */
  function OrDefault(r: Record, k: string, d: Value): (v: Value)
    ensures Truthy(Field(r, k)) ==> v == r[k]
    ensures !Truthy(Field(r, k)) ==> v == d
  {
    if Truthy(Field(r, k)) then r[k] else d
  }

  /** `a === b` between a stored field and a freshly parsed one:
      `undefined` equals only `undefined`, primitives compare by value, and
      an array or object is never the same reference as one parsed anew. */
  predicate StrictEq(a: Option<Value>, b: Option<Value>) {
    match (a, b)
    case (None, None) => true
    case (Some(Null), Some(Null)) => true
    case (Some(Bool(x)), Some(Bool(y))) => x == y
    case (Some(Num(x)), Some(Num(y))) => x == y
    case (Some(Str(x)), Some(Str(y))) => x == y
    case _ => false
  }

  /** A truthy value is never strictly equal to `undefined`. */
  lemma TruthyNotUndefined(a: Option<Value>)
    requires Truthy(a)
    ensures !StrictEq(None, a) && !StrictEq(a, None)
  {
  }

  /** The fields a request body spreads into a record: an object's own,
      none for any other value. */
  function Fields(body: Value): (r: Record)
    ensures body.Obj? ==> r == body.fields
  {
    if body.Obj? then body.fields else map[]
  }

  /** `body.k` on a parsed request body: a field of an object; every other
      value (a string, a number, an array) has no such property. */
  function Prop(body: Value, k: string): (v: Option<Value>)
    ensures body.Obj? ==> v == Field(body.fields, k)
    ensures !body.Obj? ==> v == None
  {
    if body.Obj? then Field(body.fields, k) else None
  }

  /** `records.some(r => r.k === v)`. */
  predicate Taken(records: seq<Record>, k: string, v: Option<Value>) {
    exists i :: 0 <= i < |records| && StrictEq(Field(records[i], k), v)
  }

  /** No two records hold strictly equal values under `k`. */
  predicate Unique(records: seq<Record>, k: string) {
    forall i, j :: 0 <= i < j < |records| ==> !StrictEq(Field(records[i], k), Field(records[j], k))
  }

  /** Appending a record whose value under `k` is not taken keeps `k` unique. */
  lemma UniqueAppend(records: seq<Record>, k: string, r: Record)
    requires Unique(records, k) && !Taken(records, k, Field(r, k))
    ensures Unique(records + [r], k)
  {
    var rs := records + [r];
    forall i, j | 0 <= i < j < |rs|
      ensures !StrictEq(Field(rs[i], k), Field(rs[j], k))
    {
      if j == |records| {
        assert rs[i] == records[i] && rs[j] == r;
      } else {
        assert rs[i] == records[i] && rs[j] == records[j];
      }
    }
  }

  /** What a POST handler answers: 200 with the stored record, 400 with a
      message, or 500 when the body cannot be read. */
  datatype Response = Created(data: Record) | BadRequest(error: string) | ServerError(error: string)

  function Status(r: Response): (code: int)
    ensures code == 200 <==> r.Created?
    ensures code == 400 <==> r.BadRequest?
    ensures code == 500 <==> r.ServerError?
  {
    match r
    case Created(_) => 200
    case BadRequest(_) => 400
    case ServerError(_) => 500
  }
}
