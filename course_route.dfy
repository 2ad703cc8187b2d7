/** The courses API route (app/api/courses/route.ts): an in-memory list
    that GET returns and POST appends to after checking the required fields
    and that no stored course has the same code. */
module CourseRoute {
  import opened Collections
  import opened Json

  const RequiredMessage := "Name, code, and department are required"
  const DuplicateMessage := "Course with this code already exists"
  const FailureMessage := "Failed to create course"

  /** The fields the handler overwrites with an `||` default. */
  const Defaulted: set<string> := {"credits", "difficulty", "studentsEnrolled", "duration", "requiresLab"}

  /** The validation: name, code and department must be truthy. */
  predicate HasRequired(body: Value) {
    Truthy(Prop(body, "name")) && Truthy(Prop(body, "code")) && Truthy(Prop(body, "department"))
  }

  /** The stored course: the timestamp id, overridden by any id the body
      carries, every field of the body, and the five defaulted fields. */
  function NewCourse(p: Record, now: string): (c: Record)
    ensures c.Keys == p.Keys + {"id"} + Defaulted
    ensures c["id"] == if "id" in p then p["id"] else Str(now)
    ensures forall k :: k in p && k !in Defaulted ==> c[k] == p[k]
    ensures c["credits"] == OrDefault(p, "credits", Num(3.0))
    ensures c["difficulty"] == OrDefault(p, "difficulty", Str("Beginner"))
    ensures c["studentsEnrolled"] == OrDefault(p, "studentsEnrolled", Num(0.0))
    ensures c["duration"] == OrDefault(p, "duration", Num(60.0))
    ensures c["requiresLab"] == OrDefault(p, "requiresLab", Bool(false))
  {
    (map["id" := Str(now)] + p)
      ["credits" := OrDefault(p, "credits", Num(3.0))]
      ["difficulty" := OrDefault(p, "difficulty", Str("Beginner"))]
      ["studentsEnrolled" := OrDefault(p, "studentsEnrolled", Num(0.0))]
      ["duration" := OrDefault(p, "duration", Num(60.0))]
      ["requiresLab" := OrDefault(p, "requiresLab", Bool(false))]
  }

  /** What POST answers for a body (None: it is not valid JSON), given the
      stored courses: 500 when the body cannot be read or is `null`, 400
      for a missing field (checked first) or a taken code, else the course. */
  function Respond(courses: seq<Record>, body: Option<Value>, now: string): (r: Response)
    ensures r.ServerError? <==> body.None? || body == Some(Null)
    ensures r.ServerError? ==> r.error == FailureMessage
    ensures r.BadRequest? <==> body.Some? && body.value != Null
                               && (!HasRequired(body.value) || Taken(courses, "code", Prop(body.value, "code")))
    ensures r.BadRequest? ==> r.error == if HasRequired(body.value) then DuplicateMessage else RequiredMessage
    ensures r.Created? ==> body.value.Obj? && r.data == NewCourse(body.value.fields, now)
                           && !Taken(courses, "code", Field(r.data, "code"))
  {
    if body.None? || body.value.Null? then ServerError(FailureMessage)
    else if !HasRequired(body.value) then BadRequest(RequiredMessage)
    else if Taken(courses, "code", Prop(body.value, "code")) then BadRequest(DuplicateMessage)
    else assert "code" !in Defaulted; Created(NewCourse(Fields(body.value), now))
  }

  /** A successful POST keeps the stored codes pairwise distinct. */
  lemma RespondKeepsCodesUnique(courses: seq<Record>, body: Option<Value>, now: string)
    requires Unique(courses, "code")
    requires Respond(courses, body, now).Created?
    ensures Unique(courses + [Respond(courses, body, now).data], "code")
  {
    UniqueAppend(courses, "code", Respond(courses, body, now).data);
  }

  /** Posting an accepted body again is refused as a duplicate, whatever the
      new timestamp, when its code is a string, number or boolean. */
  lemma RepostRejected(courses: seq<Record>, body: Option<Value>, now: string, later: string)
    requires Respond(courses, body, now).Created?
    requires !Prop(body.value, "code").value.Arr? && !Prop(body.value, "code").value.Obj?
    ensures Respond(courses + [Respond(courses, body, now).data], body, later) == BadRequest(DuplicateMessage)
  {
    var c := Respond(courses, body, now).data;
    var rs := courses + [c];
    assert rs[|courses|] == c;
    assert StrictEq(Field(rs[|courses|], "code"), Prop(body.value, "code"));
  }

  /** `===` compares arrays by reference, so a course whose code is an array
      is accepted again and the stored codes repeat. */
  lemma ArrayCodeAcceptedTwice()
    ensures var body := Some(Obj(map["name" := Str("Algebra"), "code" := Arr([Str("MATH")]),
                                     "department" := Str("Mathematics")]));
            var first := Respond([], body, "1");
            first.Created? && Respond([first.data], body, "2").Created?
  {
    var body := Some(Obj(map["name" := Str("Algebra"), "code" := Arr([Str("MATH")]),
                             "department" := Str("Mathematics")]));
    assert HasRequired(body.value);
    var first := Respond([], body, "1");
    assert !Taken([first.data], "code", Prop(body.value, "code"));
  }

  /** A falsy credits value, 0 included, is replaced by 3. */
  lemma ZeroCreditsBecomeThree(p: Record, now: string)
    requires "credits" in p && p["credits"] == Num(0.0)
    ensures NewCourse(p, now)["credits"] == Num(3.0)
  {
  }

  /** The in-memory store behind the route. */
  class CourseStore {
    var courses: seq<Record>

    /** The invariant the duplicate check keeps. */
    ghost predicate Valid()
      reads this
    {
      Unique(courses, "code")
    }

    /** The module-level list, seeded with courses of distinct codes. */
    constructor(seed: seq<Record>)
      requires Unique(seed, "code")
      ensures courses == seed && Valid()
    {
      courses := seed;
    }

    /** GET: the stored courses, unchanged. */
    method Get() returns (data: seq<Record>)
      ensures data == courses
    {
      data := courses;
    }

    /** POST: validate, check the code, build the course and push it. */
    method Post(body: Option<Value>, now: string) returns (r: Response)
      requires Valid()
      modifies this
      ensures r == Respond(old(courses), body, now)
      ensures courses == if r.Created? then old(courses) + [r.data] else old(courses)
      ensures Valid()
    {
      if body.None? {
        // `request.json()` rejected the body.
        return ServerError(FailureMessage);
      }
      var courseData := body.value;
      if courseData.Null? {
        // Reading a property of `null` throws.
        return ServerError(FailureMessage);
      }
      if !Truthy(Prop(courseData, "name")) || !Truthy(Prop(courseData, "code"))
         || !Truthy(Prop(courseData, "department")) {
        return BadRequest(RequiredMessage);
      }
      if Taken(courses, "code", Prop(courseData, "code")) {
        return BadRequest(DuplicateMessage);
      }
      var newCourse := NewCourse(courseData.fields, now);
      UniqueAppend(courses, "code", newCourse);
      courses := courses + [newCourse];
      r := Created(newCourse);
    }
  }
}
