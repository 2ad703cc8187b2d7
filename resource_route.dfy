/** The resources API route (app/api/resources/route.ts): an in-memory list
    that GET returns and POST appends to after checking the required fields;
    unlike the other routes it checks nothing for uniqueness. */
module ResourceRoute {
  import opened Collections
  import opened Json

  const RequiredMessage := "Name and type are required"
  const FailureMessage := "Failed to create resource"

  /** The fields the handler overwrites with an `||` default. */
  const Defaulted: set<string> := {"capacity", "location", "equipment", "availability"}

  /** The validation: name and type must be truthy. */
  predicate HasRequired(body: Value) {
    Truthy(Prop(body, "name")) && Truthy(Prop(body, "type"))
  }

  /** The stored resource: the timestamp id, overridden by any id the body
      carries, every field of the body, and the four defaulted fields. */
  function NewResource(p: Record, now: string): (r: Record)
    ensures r.Keys == p.Keys + {"id"} + Defaulted
    ensures r["id"] == if "id" in p then p["id"] else Str(now)
    ensures forall k :: k in p && k !in Defaulted ==> r[k] == p[k]
    ensures r["capacity"] == OrDefault(p, "capacity", Num(30.0))
    ensures r["location"] == OrDefault(p, "location", Str(""))
    ensures r["equipment"] == OrDefault(p, "equipment", Arr([]))
    ensures r["availability"] == OrDefault(p, "availability", Obj(map[]))
  {
    (map["id" := Str(now)] + p)
      ["capacity" := OrDefault(p, "capacity", Num(30.0))]
      ["location" := OrDefault(p, "location", Str(""))]
      ["equipment" := OrDefault(p, "equipment", Arr([]))]
      ["availability" := OrDefault(p, "availability", Obj(map[]))]
  }

  /** What POST answers for a body (None: it is not valid JSON): 500 when
      the body cannot be read or is `null`, 400 for a missing field, else
      the resource; the stored list plays no part. */
  function Respond(body: Option<Value>, now: string): (r: Response)
    ensures r.ServerError? <==> body.None? || body == Some(Null)
    ensures r.ServerError? ==> r.error == FailureMessage
    ensures r.BadRequest? <==> body.Some? && body.value != Null && !HasRequired(body.value)
    ensures r.BadRequest? ==> r.error == RequiredMessage
    ensures r.Created? ==> body.value.Obj? && r.data == NewResource(body.value.fields, now)
  {
    if body.None? || body.value.Null? then ServerError(FailureMessage)
    else if !HasRequired(body.value) then BadRequest(RequiredMessage)
    else Created(NewResource(Fields(body.value), now))
  }

  /** A zero capacity is falsy and becomes 30. */
  lemma ZeroCapacityBecomesThirty(p: Record, now: string)
    requires "capacity" in p && p["capacity"] == Num(0.0)
    ensures NewResource(p, now)["capacity"] == Num(30.0)
  {
  }

  /** The in-memory store behind the route. */
  class ResourceStore {
    var resources: seq<Record>

    /** The module-level list, seeded. */
    constructor(seed: seq<Record>)
      ensures resources == seed
    {
      resources := seed;
    }

    /** GET: the stored resources, unchanged. */
    method Get() returns (data: seq<Record>)
      ensures data == resources
    {
      data := resources;
    }

    /** POST: validate, build the resource and push it. */
    method Post(body: Option<Value>, now: string) returns (r: Response)
      modifies this
      ensures r == Respond(body, now)
      ensures resources == if r.Created? then old(resources) + [r.data] else old(resources)
    {
      if body.None? {
        // `request.json()` rejected the body.
        return ServerError(FailureMessage);
      }
      var resourceData := body.value;
      if resourceData.Null? {
        // Reading a property of `null` throws.
        return ServerError(FailureMessage);
      }
      if !Truthy(Prop(resourceData, "name")) || !Truthy(Prop(resourceData, "type")) {
        return BadRequest(RequiredMessage);
      }
      var newResource := NewResource(resourceData.fields, now);
      resources := resources + [newResource];
      r := Created(newResource);
    }
  }

  /** With no uniqueness check, a body accepted once is accepted again at
      any later time, and the two stored records differ at most in their id. */
  lemma SameBodyAcceptedAgain(body: Option<Value>, now: string, later: string)
    requires Respond(body, now).Created?
    ensures Respond(body, later).Created?
    ensures Respond(body, now).data - {"id"} == Respond(body, later).data - {"id"}
  {
    var a, b := Respond(body, now).data, Respond(body, later).data;
    assert a.Keys == b.Keys;
    forall k | k in a && k != "id"
      ensures a[k] == b[k]
    {
    }
  }
}
