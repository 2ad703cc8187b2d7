/** The catalog handlers of the admin dashboard
    (components/admin-dashboard.tsx): adding a record under a fresh id,
    patching the records with an id (`{ ...record, ...patch }`), the teacher
    rename cascading to the courses, deleting by id, and the refusal to
    delete a teacher who still has courses. Each handler computes the new
    list from the old one. */
module Catalog {
  import opened Collections
  import opened Entities
  import Allocation

  function TeacherId(t: Teacher): int { t.id }
  function CourseId(c: Course): int { c.id }
  function CourseTeacherId(c: Course): int { c.teacherId }
  function ResourceId(r: Resource): int { r.id }

  /** A patch field: present values override, absent ones keep the record's. */
  function Or<T>(field: Option<T>, keep: T): T {
    if field.Some? then field.value else keep
  }

  // ---------------------------------------------------------------------
  // Teachers

  /** `addTeacher`: the form's record, under the id `now`, appended. */
  function AddTeacher(teachers: seq<Teacher>, data: Teacher, now: int): seq<Teacher> {
    teachers + [data.(id := now)]
  }

  /** `Partial<Teacher>`: the fields the patch sets. */
  datatype TeacherPatch = TeacherPatch(
    id: Option<int>,
    name: Option<string>,
    email: Option<string>,
    subjects: Option<seq<string>>,
    availability: Option<map<string, seq<string>>>,
    maxHours: Option<int>,
    department: Option<string>)

  /** `{ ...teacher, ...teacherData }`. */
  function PatchTeacher(t: Teacher, p: TeacherPatch): Teacher {
    Teacher(Or(p.id, t.id), Or(p.name, t.name), Or(p.email, t.email), Or(p.subjects, t.subjects),
            Or(p.availability, t.availability), Or(p.maxHours, t.maxHours), Or(p.department, t.department))
  }

  /** `teachers.map(t => t.id === id ? { ...t, ...p } : t)`: every teacher
      with the id is patched, every other one is kept, in place. */
  function UpdateTeachers(teachers: seq<Teacher>, id: int, p: TeacherPatch): (r: seq<Teacher>)
    ensures |r| == |teachers|
    ensures forall i :: 0 <= i < |r| && teachers[i].id != id ==> r[i] == teachers[i]
    ensures forall i :: 0 <= i < |r| && teachers[i].id == id ==> r[i] == PatchTeacher(teachers[i], p)
  {
    seq(|teachers|, i requires 0 <= i < |teachers| =>
      if teachers[i].id == id then PatchTeacher(teachers[i], p) else teachers[i])
  }

  /** `if (teacherData.name)`: the patch carries a non-empty name. */
  predicate Renames(p: TeacherPatch) {
    p.name.Some? && p.name.value != ""
  }

  /** The rename cascade of `updateTeacher`: when the patch renames, exactly
      the courses with that `teacherId` get the new `teacher` name, and no
      other field of any course changes. */
  function CascadeRename(courses: seq<Course>, id: int, p: TeacherPatch): (r: seq<Course>)
    ensures |r| == |courses|
    ensures forall i :: 0 <= i < |r| ==> r[i].(teacher := courses[i].teacher) == courses[i]
    ensures forall i :: 0 <= i < |r| ==>
      r[i].teacher == if Renames(p) && courses[i].teacherId == id then p.name.value else courses[i].teacher
  {
    if Renames(p) then
      seq(|courses|, i requires 0 <= i < |courses| =>
        if courses[i].teacherId == id then courses[i].(teacher := p.name.value) else courses[i])
    else courses
  }

  /** The answer of `handleDeleteTeacher`: refused with the number of
      courses still assigned, or the list without the record. */
  datatype Deletion<T> = InUse(count: nat) | Removed(rest: seq<T>)

  /** Refused exactly when a course has the teacher's id, with the count of
      those courses; otherwise every teacher with that id, and nothing else,
      is removed. */
  function DeleteTeacher(teachers: seq<Teacher>, courses: seq<Course>, id: int): (r: Deletion<Teacher>)
    ensures r.InUse? <==> HasKey(courses, CourseTeacherId, id)
    ensures r.InUse? ==> r.count == CountKey(courses, CourseTeacherId, id)
    ensures r.Removed? ==> r.rest == RemoveKey(teachers, TeacherId, id)
  {
    var count := CountKey(courses, CourseTeacherId, id);
    if count > 0 then InUse(count) else Removed(RemoveKey(teachers, TeacherId, id))
  }

  /** Adding a teacher under an unused id and deleting that id restores the list. */
  lemma AddThenDeleteTeacher(teachers: seq<Teacher>, courses: seq<Course>, data: Teacher, now: int)
    requires !HasKey(teachers, TeacherId, now) && !HasKey(courses, CourseTeacherId, now)
    ensures DeleteTeacher(AddTeacher(teachers, data, now), courses, now) == Removed(teachers)
  {
    RemoveKeyAppend(teachers, [data.(id := now)], TeacherId, now);
    RemoveKeyAbsent(teachers, TeacherId, now);
  }

  /** Patching twice with the same patch is patching once. */
  lemma UpdateTeachersIdempotent(teachers: seq<Teacher>, id: int, p: TeacherPatch)
    ensures UpdateTeachers(UpdateTeachers(teachers, id, p), id, p) == UpdateTeachers(teachers, id, p)
  {
  }

  /** The allocator's lookup by id (`teachers.find(t => t.id === x)`) finds
      the same teacher once another id is removed. */
  lemma {:induction false} RemoveKeepsLookup(teachers: seq<Teacher>, id: int, x: int)
    requires x != id
    ensures Allocation.TeacherWithId(RemoveKey(teachers, TeacherId, id), x) == Allocation.TeacherWithId(teachers, x)
    decreases |teachers|
  {
    if teachers != [] {
      var rest := RemoveKey(teachers[1..], TeacherId, id);
      RemoveKeepsLookup(teachers[1..], id, x);
      if teachers[0].id != id {
        assert RemoveKey(teachers, TeacherId, id) == [teachers[0]] + rest;
        assert ([teachers[0]] + rest)[1..] == rest;
      } else {
        assert RemoveKey(teachers, TeacherId, id) == rest;
      }
    }
  }

  /** Deleting a teacher never changes which teacher a course resolves to. */
  lemma DeleteKeepsAssignments(teachers: seq<Teacher>, courses: seq<Course>, id: int)
    requires DeleteTeacher(teachers, courses, id).Removed?
    ensures forall i :: 0 <= i < |courses| ==>
      Allocation.TeacherWithId(DeleteTeacher(teachers, courses, id).rest, courses[i].teacherId)
      == Allocation.TeacherWithId(teachers, courses[i].teacherId)
  {
    forall i | 0 <= i < |courses|
      ensures Allocation.TeacherWithId(RemoveKey(teachers, TeacherId, id), courses[i].teacherId)
           == Allocation.TeacherWithId(teachers, courses[i].teacherId)
    {
      assert CourseTeacherId(courses[i]) != id;
      RemoveKeepsLookup(teachers, id, courses[i].teacherId);
    }
  }

  /** Since the delete is refused while a course has the teacher, a deletion
      that goes through leaves the generated timetable exactly as it was
      (unless it empties the teacher list, which refuses generation). */
  lemma DeleteKeepsTimetable(teachers: seq<Teacher>, courses: seq<Course>, resources: seq<Resource>, id: int)
    requires DeleteTeacher(teachers, courses, id).Removed?
    requires DeleteTeacher(teachers, courses, id).rest != []
    ensures Allocation.Generate(DeleteTeacher(teachers, courses, id).rest, courses, resources)
         == Allocation.Generate(teachers, courses, resources)
  {
    var rest := DeleteTeacher(teachers, courses, id).rest;
    DeleteKeepsAssignments(teachers, courses, id);
    SameScheduleWhenSameTeachers(courses, |courses|, rest, teachers, resources);
  }

  /** Two teacher lists that resolve every course to the same teacher
      schedule the courses identically. */
  lemma {:induction false} SameScheduleWhenSameTeachers(courses: seq<Course>, k: nat, t1: seq<Teacher>, t2: seq<Teacher>,
                                                        resources: seq<Resource>)
    requires k <= |courses|
    requires forall i :: 0 <= i < |courses| ==>
      Allocation.TeacherWithId(t1, courses[i].teacherId) == Allocation.TeacherWithId(t2, courses[i].teacherId)
    ensures Allocation.Schedule(courses, k, t1, resources) == Allocation.Schedule(courses, k, t2, resources)
    decreases k
  {
    if k > 0 {
      SameScheduleWhenSameTeachers(courses, k - 1, t1, t2, resources);
      assert Allocation.AssignmentFor(courses, k - 1, t1, resources) == Allocation.AssignmentFor(courses, k - 1, t2, resources);
    }
  }

  /** Every course's `teacher` field is the name of the teacher its
      `teacherId` resolves to. */
  ghost predicate NamesInStep(teachers: seq<Teacher>, courses: seq<Course>) {
    forall i :: 0 <= i < |courses| && Allocation.TeacherWithId(teachers, courses[i].teacherId).Some? ==>
      courses[i].teacher == Allocation.TeacherWithId(teachers, courses[i].teacherId).value.name
  }

  /** A patch that keeps the id finds, for that id, the patched first teacher. */
  lemma {:induction false} UpdateLookup(teachers: seq<Teacher>, id: int, p: TeacherPatch, x: int)
    requires p.id.None? || p.id == Some(id)
    ensures var found := Allocation.TeacherWithId(teachers, x);
      Allocation.TeacherWithId(UpdateTeachers(teachers, id, p), x)
      == if x == id && found.Some? then Some(PatchTeacher(found.value, p)) else found
    decreases |teachers|
  {
    if teachers != [] {
      assert UpdateTeachers(teachers, id, p)[1..] == UpdateTeachers(teachers[1..], id, p);
      UpdateLookup(teachers[1..], id, p, x);
    }
  }

  /** `updateTeacher` keeps the course names in step with the teachers when
      it keeps the id and either renames or leaves the name alone. */
  lemma UpdateKeepsNamesInStep(teachers: seq<Teacher>, courses: seq<Course>, id: int, p: TeacherPatch)
    requires NamesInStep(teachers, courses)
    requires p.id.None? || p.id == Some(id)
    requires p.name.None? || Renames(p)
    ensures NamesInStep(UpdateTeachers(teachers, id, p), CascadeRename(courses, id, p))
  {
    var ts, cs := UpdateTeachers(teachers, id, p), CascadeRename(courses, id, p);
    forall i | 0 <= i < |cs| && Allocation.TeacherWithId(ts, cs[i].teacherId).Some?
      ensures cs[i].teacher == Allocation.TeacherWithId(ts, cs[i].teacherId).value.name
    {
      UpdateLookup(teachers, id, p, courses[i].teacherId);
    }
  }

  /** The one way out of step: a patch whose name is the empty string
      renames the teacher but, being falsy, skips the cascade. */
  lemma EmptyNameLeavesCoursesBehind()
    ensures var t := Teacher(1, "Ada", "", [], map[], 20, "");
            var c := Course(1, "Logic", "L1", "Ada", 1, 3, 10, "low", "", "");
            var p := TeacherPatch(None, Some(""), None, None, None, None, None);
            NamesInStep([t], [c]) && !NamesInStep(UpdateTeachers([t], 1, p), CascadeRename([c], 1, p))
  {
    var t := Teacher(1, "Ada", "", [], map[], 20, "");
    var c := Course(1, "Logic", "L1", "Ada", 1, 3, 10, "low", "", "");
    var p := TeacherPatch(None, Some(""), None, None, None, None, None);
    assert UpdateTeachers([t], 1, p) == [PatchTeacher(t, p)];
    assert CascadeRename([c], 1, p) == [c];
    assert Allocation.TeacherWithId([t], 1) == Some(t);
    assert Allocation.TeacherWithId([PatchTeacher(t, p)], 1) == Some(PatchTeacher(t, p));
    var ts, cs := UpdateTeachers([t], 1, p), CascadeRename([c], 1, p);
    assert Allocation.TeacherWithId(ts, cs[0].teacherId).value.name == "";
    assert cs[0].teacher == "Ada" != "";
  }

  // ---------------------------------------------------------------------
  // Courses

  /** `addCourse`: the form's record, under the id `now`, appended. */
  function AddCourse(courses: seq<Course>, data: Course, now: int): seq<Course> {
    courses + [data.(id := now)]
  }

  /** `Partial<Course>`: the fields the patch sets. */
  datatype CoursePatch = CoursePatch(
    id: Option<int>,
    name: Option<string>,
    code: Option<string>,
    teacher: Option<string>,
    teacherId: Option<int>,
    weeklyHours: Option<int>,
    studentCount: Option<int>,
    difficulty: Option<string>,
    department: Option<string>,
    semester: Option<string>)

  /** `{ ...course, ...courseData }`. */
  function PatchCourse(c: Course, p: CoursePatch): Course {
    Course(Or(p.id, c.id), Or(p.name, c.name), Or(p.code, c.code), Or(p.teacher, c.teacher),
           Or(p.teacherId, c.teacherId), Or(p.weeklyHours, c.weeklyHours), Or(p.studentCount, c.studentCount),
           Or(p.difficulty, c.difficulty), Or(p.department, c.department), Or(p.semester, c.semester))
  }

  /** `updateCourse`: every course with the id patched, the others kept in place. */
  function UpdateCourses(courses: seq<Course>, id: int, p: CoursePatch): (r: seq<Course>)
    ensures |r| == |courses|
    ensures forall i :: 0 <= i < |r| && courses[i].id != id ==> r[i] == courses[i]
    ensures forall i :: 0 <= i < |r| && courses[i].id == id ==> r[i] == PatchCourse(courses[i], p)
  {
    seq(|courses|, i requires 0 <= i < |courses| =>
      if courses[i].id == id then PatchCourse(courses[i], p) else courses[i])
  }

  /** `deleteCourse`: every course with the id dropped, the rest in order.
      Nothing is checked first, not even whether the id exists. */
  function DeleteCourse(courses: seq<Course>, id: int): (r: seq<Course>)
    ensures r == RemoveKey(courses, CourseId, id)
    ensures !HasKey(r, CourseId, id)
    ensures forall i :: 0 <= i < |r| ==> r[i] in courses
    ensures forall i :: 0 <= i < |courses| && courses[i].id != id ==> courses[i] in r
    ensures |r| == |courses| - CountKey(courses, CourseId, id)
  {
    RemoveKeyLength(courses, CourseId, id);
    RemoveKey(courses, CourseId, id)
  }

  lemma AddThenDeleteCourse(courses: seq<Course>, data: Course, now: int)
    requires !HasKey(courses, CourseId, now)
    ensures DeleteCourse(AddCourse(courses, data, now), now) == courses
  {
    RemoveKeyAppend(courses, [data.(id := now)], CourseId, now);
    RemoveKeyAbsent(courses, CourseId, now);
  }

  lemma UpdateCoursesIdempotent(courses: seq<Course>, id: int, p: CoursePatch)
    ensures UpdateCourses(UpdateCourses(courses, id, p), id, p) == UpdateCourses(courses, id, p)
  {
  }

  // ---------------------------------------------------------------------
  // Resources

  /** `addResource`: the form's record, under the id `now`, appended. */
  function AddResource(resources: seq<Resource>, data: Resource, now: int): seq<Resource> {
    resources + [data.(id := now)]
  }

  /** `Partial<Resource>`: the fields the patch sets. */
  datatype ResourcePatch = ResourcePatch(
    id: Option<int>,
    name: Option<string>,
    kind: Option<string>,
    capacity: Option<int>,
    equipment: Option<seq<string>>,
    location: Option<string>,
    availability: Option<seq<string>>)

  /** `{ ...resource, ...resourceData }`. */
  function PatchResource(r: Resource, p: ResourcePatch): Resource {
    Resource(Or(p.id, r.id), Or(p.name, r.name), Or(p.kind, r.kind), Or(p.capacity, r.capacity),
             Or(p.equipment, r.equipment), Or(p.location, r.location), Or(p.availability, r.availability))
  }

  /** `updateResource`: every resource with the id patched, the others kept in place. */
  function UpdateResources(resources: seq<Resource>, id: int, p: ResourcePatch): (r: seq<Resource>)
    ensures |r| == |resources|
    ensures forall i :: 0 <= i < |r| && resources[i].id != id ==> r[i] == resources[i]
    ensures forall i :: 0 <= i < |r| && resources[i].id == id ==> r[i] == PatchResource(resources[i], p)
  {
    seq(|resources|, i requires 0 <= i < |resources| =>
      if resources[i].id == id then PatchResource(resources[i], p) else resources[i])
  }

  /** `deleteResource`: every resource with the id dropped, the rest in
      order; no check that a course relies on it. */
  function DeleteResource(resources: seq<Resource>, id: int): (r: seq<Resource>)
    ensures r == RemoveKey(resources, ResourceId, id)
    ensures !HasKey(r, ResourceId, id)
    ensures forall i :: 0 <= i < |r| ==> r[i] in resources
    ensures forall i :: 0 <= i < |resources| && resources[i].id != id ==> resources[i] in r
    ensures |r| == |resources| - CountKey(resources, ResourceId, id)
  {
    RemoveKeyLength(resources, ResourceId, id);
    RemoveKey(resources, ResourceId, id)
  }

  lemma AddThenDeleteResource(resources: seq<Resource>, data: Resource, now: int)
    requires !HasKey(resources, ResourceId, now)
    ensures DeleteResource(AddResource(resources, data, now), now) == resources
  {
    RemoveKeyAppend(resources, [data.(id := now)], ResourceId, now);
    RemoveKeyAbsent(resources, ResourceId, now);
  }

  lemma UpdateResourcesIdempotent(resources: seq<Resource>, id: int, p: ResourcePatch)
    ensures UpdateResources(UpdateResources(resources, id, p), id, p) == UpdateResources(resources, id, p)
  {
  }
}
