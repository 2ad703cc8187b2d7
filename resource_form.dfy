/** The resource form of components/admin-resource-management.tsx: the form
    state, what submitting hands to the dashboard (equipment parsed from the
    comma-separated field), what editing loads into the form, the day
    checkboxes, and the colour of a resource type's badge. */
module ResourceForm {
  import opened Collections
  import opened Entities
  import opened Text
  import Catalog

  /** `formData`: `kind` is the `type` field; `equipment` the text of the
      comma-separated field. */
  datatype Form = Form(
    name: string,
    kind: string,
    capacity: int,
    equipment: string,
    location: string,
    availability: seq<string>)

  /** `resetForm`. */
  function EmptyForm(): Form {
    Form("", "", 30, "", "", [])
  }

  /** `handleSubmit`'s `resourceData`: every field but the id, the equipment parsed. */
  function Submit(f: Form): (p: Catalog.ResourcePatch)
    ensures p.id.None?
    ensures p.name == Some(f.name) && p.kind == Some(f.kind) && p.capacity == Some(f.capacity)
    ensures p.location == Some(f.location) && p.availability == Some(f.availability)
    ensures p.equipment == Some(ParseList(f.equipment))
    ensures forall i :: 0 <= i < |p.equipment.value| ==> CleanItem(p.equipment.value[i])
  {
    Catalog.ResourcePatch(None, Some(f.name), Some(f.kind), Some(f.capacity), Some(ParseList(f.equipment)),
                          Some(f.location), Some(f.availability))
  }

  /** The record `addResource` receives: the submitted fields on an id the
      dashboard replaces. */
  function Submitted(f: Form): Resource {
    Catalog.PatchResource(Resource(0, "", "", 0, [], "", []), Submit(f))
  }

  /** An empty equipment field submits no equipment. */
  lemma SubmitEmptyEquipment(f: Form)
    requires f.equipment == ""
    ensures Submit(f).equipment == Some([])
  {
    ParseEmpty();
  }

  /** `handleEdit`: the resource's fields loaded into the form. */
  function Edit(r: Resource): Form {
    Form(r.name, r.kind, r.capacity, Join(r.equipment, ", "), r.location, r.availability)
  }

  /** Editing a resource and submitting unchanged patches it into itself,
      as long as every item of equipment is non-empty, trimmed and comma-free. */
  lemma EditSubmitRoundTrip(r: Resource)
    requires forall i :: 0 <= i < |r.equipment| ==> CleanItem(r.equipment[i])
    ensures Catalog.PatchResource(r, Submit(Edit(r))) == r
  {
    ParseJoinRoundTrip(r.equipment);
  }

  /** Editing a resource and submitting the form unchanged as a new resource
      gives every field back but the id, which the dashboard then assigns. */
  lemma EditSubmitAdds(r: Resource)
    requires forall i :: 0 <= i < |r.equipment| ==> CleanItem(r.equipment[i])
    ensures Submitted(Edit(r)) == r.(id := 0)
  {
    ParseJoinRoundTrip(r.equipment);
  }

  /** The checkbox for `day` is shown checked. */
  predicate IsChecked(f: Form, day: string) {
    day in f.availability
  }

  /** `handleAvailabilityChange`: checking appends the day (again, if it is
      already there); unchecking drops every occurrence and keeps the order
      of the rest; no other field changes and the box shows the new state. */
  function ToggleDay(f: Form, day: string, checked: bool): (r: Form)
    ensures r.(availability := f.availability) == f
    ensures checked ==> r.availability == f.availability + [day]
    ensures !checked ==> r.availability == Without(f.availability, day)
    ensures IsChecked(r, day) == checked
  {
    f.(availability := if checked then f.availability + [day] else Without(f.availability, day))
  }

  /** Checking a day that was not listed and unchecking it again restores the form. */
  lemma CheckThenUncheck(f: Form, day: string)
    requires day !in f.availability
    ensures ToggleDay(ToggleDay(f, day, true), day, false) == f
  {
    WithoutAppend(f.availability, [day], day);
    WithoutAbsent(f.availability, day);
    assert Without([day], day) == [];
  }

  const BlueBadge := "bg-blue-100 text-blue-800"
  const PurpleBadge := "bg-purple-100 text-purple-800"
  const GreenBadge := "bg-green-100 text-green-800"
  const OrangeBadge := "bg-orange-100 text-orange-800"
  const GrayBadge := "bg-gray-100 text-gray-800"

  /** `getTypeColor`: the type, lower-cased, matched against four names;
      anything else is gray. */
  function TypeColor(kind: string): (r: string)
    ensures ToLower(kind) == "laboratory" ==> r == BlueBadge
    ensures ToLower(kind) == "auditorium" ==> r == PurpleBadge
    ensures ToLower(kind) == "computer lab" ==> r == GreenBadge
    ensures ToLower(kind) == "classroom" ==> r == OrangeBadge
    ensures r == GrayBadge <==> ToLower(kind) !in ["laboratory", "auditorium", "computer lab", "classroom"]
  {
    match ToLower(kind)
    case "laboratory" => BlueBadge
    case "auditorium" => PurpleBadge
    case "computer lab" => GreenBadge
    case "classroom" => OrangeBadge
    case _ => GrayBadge
  }

  /** The colour ignores letter case: a type and its lower-cased form get
      the same badge. */
  lemma TypeColorIgnoresCase(kind: string)
    ensures TypeColor(ToLower(kind)) == TypeColor(kind)
  {
    ToLowerIdempotent(kind);
  }

  /** "Computer Lab", as the type list of the seed data spells it, is green. */
  lemma ComputerLabIsGreen()
    ensures TypeColor("Computer Lab") == GreenBadge
  {
    assert ToLower("Computer Lab") == "computer lab";
  }
}
