/** The teacher form of components/admin-teacher-management.tsx: the form
    state, what submitting hands to the dashboard (subjects parsed from the
    comma-separated field), what editing loads into the form (subjects
    joined with ", "), and the availability checkboxes. */
module TeacherForm {
  import opened Collections
  import opened Entities
  import opened Text
  import Catalog

  /** `formData`: `subjects` is the text of the comma-separated field. */
  datatype Form = Form(
    name: string,
    email: string,
    subjects: string,
    maxHours: int,
    department: string,
    availability: map<string, seq<string>>)

  /** `resetForm`. */
  function EmptyForm(): Form {
    Form("", "", "", 20, "", map[])
  }

  /** `handleSubmit`'s `teacherData`: every field but the id, the subjects
      parsed; the dashboard adds it under a fresh id or patches with it. */
  function Submit(f: Form): (p: Catalog.TeacherPatch)
    ensures p.id.None?
    ensures p.name == Some(f.name) && p.email == Some(f.email) && p.maxHours == Some(f.maxHours)
    ensures p.department == Some(f.department) && p.availability == Some(f.availability)
    ensures p.subjects == Some(ParseList(f.subjects))
    ensures forall i :: 0 <= i < |p.subjects.value| ==> CleanItem(p.subjects.value[i])
  {
    Catalog.TeacherPatch(None, Some(f.name), Some(f.email), Some(ParseList(f.subjects)),
                         Some(f.availability), Some(f.maxHours), Some(f.department))
  }

  /** The record `addTeacher` receives: the submitted fields on an id the
      dashboard replaces. */
  function Submitted(f: Form): Teacher {
    Catalog.PatchTeacher(Teacher(0, "", "", [], map[], 0, ""), Submit(f))
  }

  /** `handleEdit`: the teacher's fields loaded into the form. */
  function Edit(t: Teacher): Form {
    Form(t.name, t.email, Join(t.subjects, ", "), t.maxHours, t.department, t.availability)
  }

  /** Editing a teacher and submitting the form unchanged patches the
      teacher into itself, as long as every subject is non-empty, trimmed
      and comma-free. */
  lemma EditSubmitRoundTrip(t: Teacher)
    requires forall i :: 0 <= i < |t.subjects| ==> CleanItem(t.subjects[i])
    ensures Catalog.PatchTeacher(t, Submit(Edit(t))) == t
  {
    ParseJoinRoundTrip(t.subjects);
  }

  /** Editing a teacher and submitting the form unchanged as a new teacher
      gives every field back but the id, which the dashboard then assigns. */
  lemma EditSubmitAdds(t: Teacher)
    requires forall i :: 0 <= i < |t.subjects| ==> CleanItem(t.subjects[i])
    ensures Submitted(Edit(t)) == t.(id := 0)
  {
    ParseJoinRoundTrip(t.subjects);
  }

  /** A subject with a comma in it comes back as two. */
  lemma CommaSubjectSplits()
    ensures ParseList(Join(["a,b"], ", ")) == ["a", "b"]
  {
    assert Join(["a,b"], ", ") == "a,b";
    assert "a,b" == "a" + [','] + "b";
    SplitAfterPiece("a", ',', "b");
    SplitNoSeparator("b", ',');
    TrimOfTrimmed("a");
    TrimOfTrimmed("b");
  }

  /** The checkbox for `slot` on `day` is shown checked. */
  predicate IsChecked(f: Form, day: string, slot: string) {
    slot in SlotsOn(f.availability, day)
  }

  /** `handleAvailabilityChange`: checking appends the slot to the day's list
      (again, if it is already there); unchecking drops every occurrence and
      keeps the rest in order. The day's checkbox then shows the new state,
      and every other day and every other field is left as it was. */
  function ToggleSlot(f: Form, day: string, slot: string, checked: bool): (r: Form)
    ensures r.(availability := f.availability) == f
    ensures r.availability.Keys == f.availability.Keys + {day}
    ensures forall d :: d in f.availability && d != day ==> r.availability[d] == f.availability[d]
    ensures checked ==> SlotsOn(r.availability, day) == SlotsOn(f.availability, day) + [slot]
    ensures !checked ==> SlotsOn(r.availability, day) == Without(SlotsOn(f.availability, day), slot)
    ensures IsChecked(r, day, slot) == checked
  {
    var slots := SlotsOn(f.availability, day);
    f.(availability := f.availability[day := if checked then slots + [slot] else Without(slots, slot)])
  }

  /** Checking a box and unchecking it again restores the day's list, when
      the slot was not listed and the day was. */
  lemma CheckThenUncheck(f: Form, day: string, slot: string)
    requires day in f.availability && slot !in f.availability[day]
    ensures ToggleSlot(ToggleSlot(f, day, slot, true), day, slot, false) == f
  {
    var slots := f.availability[day];
    var f1 := ToggleSlot(f, day, slot, true);
    var f2 := ToggleSlot(f1, day, slot, false);
    DropAppended(slots, slot);
    assert SlotsOn(f2.availability, day) == slots;
    assert f2.availability.Keys == f.availability.Keys;
    assert f2.availability == f.availability;
  }

  /** Dropping a slot just appended to a list that lacked it gives the list. */
  lemma DropAppended(slots: seq<string>, slot: string)
    requires slot !in slots
    ensures Without(slots + [slot], slot) == slots
  {
    WithoutAppend(slots, [slot], slot);
    WithoutAbsent(slots, slot);
    assert Without([slot], slot) == [];
    assert slots + [] == slots;
  }

  /** Unchecking twice is unchecking once. */
  lemma UncheckIdempotent(f: Form, day: string, slot: string)
    ensures ToggleSlot(ToggleSlot(f, day, slot, false), day, slot, false) == ToggleSlot(f, day, slot, false)
  {
    WithoutAbsent(Without(SlotsOn(f.availability, day), slot), slot);
  }
}
