/** The teachers API route (app/api/teachers/route.ts): an in-memory list
    that GET returns and POST appends to after checking the required fields
    and that no stored teacher has the same email. */
module TeacherRoute {
  import opened Collections
  import opened Json

  const RequiredMessage := "Name, email, and department are required"
  const DuplicateMessage := "Teacher with this email already exists"
  const FailureMessage := "Failed to create teacher"

  /** The fields the handler overwrites with an `||` default. */
  const Defaulted: set<string> := {"subjects", "availability", "phone", "maxHoursPerWeek"}

  /** The validation: name, email and department must be truthy. */
  predicate HasRequired(body: Value) {
    Truthy(Prop(body, "name")) && Truthy(Prop(body, "email")) && Truthy(Prop(body, "department"))
  }

  /** The stored teacher: the timestamp id, overridden by any id the body
      carries, every field of the body, and the four defaulted fields. */
  function NewTeacher(p: Record, now: string): (t: Record)
    ensures t.Keys == p.Keys + {"id"} + Defaulted
    ensures t["id"] == if "id" in p then p["id"] else Str(now)
    ensures forall k :: k in p && k !in Defaulted ==> t[k] == p[k]
    ensures t["subjects"] == OrDefault(p, "subjects", Arr([]))
    ensures t["availability"] == OrDefault(p, "availability", Obj(map[]))
    ensures t["phone"] == OrDefault(p, "phone", Str(""))
    ensures t["maxHoursPerWeek"] == OrDefault(p, "maxHoursPerWeek", Num(20.0))
  {
    (map["id" := Str(now)] + p)
      ["subjects" := OrDefault(p, "subjects", Arr([]))]
      ["availability" := OrDefault(p, "availability", Obj(map[]))]
      ["phone" := OrDefault(p, "phone", Str(""))]
      ["maxHoursPerWeek" := OrDefault(p, "maxHoursPerWeek", Num(20.0))]
  }

  /** What POST answers for a body (None: it is not valid JSON), given the
      stored teachers: 500 when the body cannot be read or is `null`, 400
      for a missing field (checked first) or a taken email, else the teacher. */
  function Respond(teachers: seq<Record>, body: Option<Value>, now: string): (r: Response)
    ensures r.ServerError? <==> body.None? || body == Some(Null)
    ensures r.ServerError? ==> r.error == FailureMessage
    ensures r.BadRequest? <==> body.Some? && body.value != Null
                               && (!HasRequired(body.value) || Taken(teachers, "email", Prop(body.value, "email")))
    ensures r.BadRequest? ==> r.error == if HasRequired(body.value) then DuplicateMessage else RequiredMessage
    ensures r.Created? ==> body.value.Obj? && r.data == NewTeacher(body.value.fields, now)
                           && !Taken(teachers, "email", Field(r.data, "email"))
  {
    if body.None? || body.value.Null? then ServerError(FailureMessage)
    else if !HasRequired(body.value) then BadRequest(RequiredMessage)
    else if Taken(teachers, "email", Prop(body.value, "email")) then BadRequest(DuplicateMessage)
    else assert "email" !in Defaulted; Created(NewTeacher(Fields(body.value), now))
  }

  /** A successful POST keeps the stored emails pairwise distinct. */
  lemma RespondKeepsEmailsUnique(teachers: seq<Record>, body: Option<Value>, now: string)
    requires Unique(teachers, "email")
    requires Respond(teachers, body, now).Created?
    ensures Unique(teachers + [Respond(teachers, body, now).data], "email")
  {
    UniqueAppend(teachers, "email", Respond(teachers, body, now).data);
  }

  /** Posting an accepted body again is refused as a duplicate, whatever the
      new timestamp, when its email is a string, number or boolean. */
  lemma RepostRejected(teachers: seq<Record>, body: Option<Value>, now: string, later: string)
    requires Respond(teachers, body, now).Created?
    requires !Prop(body.value, "email").value.Arr? && !Prop(body.value, "email").value.Obj?
    ensures Respond(teachers + [Respond(teachers, body, now).data], body, later) == BadRequest(DuplicateMessage)
  {
    var t := Respond(teachers, body, now).data;
    var rs := teachers + [t];
    assert rs[|teachers|] == t;
    assert StrictEq(Field(rs[|teachers|], "email"), Prop(body.value, "email"));
  }

  /** An empty subjects array is truthy, so it is kept rather than defaulted;
      a zero hour limit is falsy and becomes 20. */
  lemma EmptySubjectsKeptZeroHoursDefaulted(p: Record, now: string)
    requires "subjects" in p && p["subjects"] == Arr([])
    requires "maxHoursPerWeek" in p && p["maxHoursPerWeek"] == Num(0.0)
    ensures NewTeacher(p, now)["subjects"] == Arr([])
    ensures NewTeacher(p, now)["maxHoursPerWeek"] == Num(20.0)
  {
  }

  /** The in-memory store behind the route. */
  class TeacherStore {
    var teachers: seq<Record>

    /** The invariant the duplicate check keeps. */
    ghost predicate Valid()
      reads this
    {
      Unique(teachers, "email")
    }

    /** The module-level list, seeded with teachers of distinct emails. */
    constructor(seed: seq<Record>)
      requires Unique(seed, "email")
      ensures teachers == seed && Valid()
    {
      teachers := seed;
    }

    /** GET: the stored teachers, unchanged. */
    method Get() returns (data: seq<Record>)
      ensures data == teachers
    {
      data := teachers;
    }

    /** POST: validate, check the email, build the teacher and push it. */
    method Post(body: Option<Value>, now: string) returns (r: Response)
      requires Valid()
      modifies this
      ensures r == Respond(old(teachers), body, now)
      ensures teachers == if r.Created? then old(teachers) + [r.data] else old(teachers)
      ensures Valid()
    {
      if body.None? {
        // `request.json()` rejected the body.
        return ServerError(FailureMessage);
      }
      var teacherData := body.value;
      if teacherData.Null? {
        // Reading a property of `null` throws.
        return ServerError(FailureMessage);
      }
      if !Truthy(Prop(teacherData, "name")) || !Truthy(Prop(teacherData, "email"))
         || !Truthy(Prop(teacherData, "department")) {
        return BadRequest(RequiredMessage);
      }
      if Taken(teachers, "email", Prop(teacherData, "email")) {
        return BadRequest(DuplicateMessage);
      }
      var newTeacher := NewTeacher(teacherData.fields, now);
      UniqueAppend(teachers, "email", newTeacher);
      teachers := teachers + [newTeacher];
      r := Created(newTeacher);
    }
  }
}
