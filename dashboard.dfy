/** The state the admin dashboard (components/admin-dashboard.tsx) keeps:
    the three catalogs, the generated timetable if any, and whether it was
    published; each handler replaces the lists as the catalog functions
    compute them, generation stores a grid only when a run completes, and
    publishing needs a grid. */
module Dashboard {
  import opened Collections
  import opened Entities
  import opened Catalog
  import Allocation
  import Generator

  class AdminDashboard {
    var teachers: seq<Teacher>
    var courses: seq<Course>
    var resources: seq<Resource>
    var generatedTimetable: Option<Grid>
    var isPublished: bool

    /** Every piece of state starts empty (`useState([])`, `null`, `false`). */
    constructor()
      ensures teachers == [] && courses == [] && resources == []
      ensures generatedTimetable == None && !isPublished
    {
      teachers, courses, resources := [], [], [];
      generatedTimetable, isPublished := None, false;
    }

    method AddTeacher(data: Teacher, now: int)
      modifies this
      ensures teachers == Catalog.AddTeacher(old(teachers), data, now)
      ensures courses == old(courses) && resources == old(resources)
      ensures generatedTimetable == old(generatedTimetable) && isPublished == old(isPublished)
    {
      teachers := Catalog.AddTeacher(teachers, data, now);
    }

    /** `updateTeacher`: the teachers patched and, on a rename, the courses' names with them. */
    method UpdateTeacher(id: int, p: TeacherPatch)
      modifies this
      ensures teachers == UpdateTeachers(old(teachers), id, p)
      ensures courses == CascadeRename(old(courses), id, p)
      ensures resources == old(resources)
      ensures generatedTimetable == old(generatedTimetable) && isPublished == old(isPublished)
    {
      teachers := UpdateTeachers(teachers, id, p);
      if Renames(p) {
        courses := CascadeRename(courses, id, p);
      }
    }

    /** `handleDeleteTeacher`: the list changes only when no course has the teacher. */
    method DeleteTeacher(id: int) returns (r: Deletion<Teacher>)
      modifies this
      ensures r == Catalog.DeleteTeacher(old(teachers), old(courses), id)
      ensures teachers == if r.Removed? then r.rest else old(teachers)
      ensures courses == old(courses) && resources == old(resources)
      ensures generatedTimetable == old(generatedTimetable) && isPublished == old(isPublished)
    {
      r := Catalog.DeleteTeacher(teachers, courses, id);
      if r.Removed? {
        teachers := r.rest;
      }
    }

    method AddCourse(data: Course, now: int)
      modifies this
      ensures courses == Catalog.AddCourse(old(courses), data, now)
      ensures teachers == old(teachers) && resources == old(resources)
      ensures generatedTimetable == old(generatedTimetable) && isPublished == old(isPublished)
    {
      courses := Catalog.AddCourse(courses, data, now);
    }

    method UpdateCourse(id: int, p: CoursePatch)
      modifies this
      ensures courses == UpdateCourses(old(courses), id, p)
      ensures teachers == old(teachers) && resources == old(resources)
      ensures generatedTimetable == old(generatedTimetable) && isPublished == old(isPublished)
    {
      courses := UpdateCourses(courses, id, p);
    }

    method DeleteCourse(id: int)
      modifies this
      ensures courses == Catalog.DeleteCourse(old(courses), id)
      ensures teachers == old(teachers) && resources == old(resources)
      ensures generatedTimetable == old(generatedTimetable) && isPublished == old(isPublished)
    {
      courses := Catalog.DeleteCourse(courses, id);
    }

    method AddResource(data: Resource, now: int)
      modifies this
      ensures resources == Catalog.AddResource(old(resources), data, now)
      ensures teachers == old(teachers) && courses == old(courses)
      ensures generatedTimetable == old(generatedTimetable) && isPublished == old(isPublished)
    {
      resources := Catalog.AddResource(resources, data, now);
    }

    method UpdateResource(id: int, p: ResourcePatch)
      modifies this
      ensures resources == UpdateResources(old(resources), id, p)
      ensures teachers == old(teachers) && courses == old(courses)
      ensures generatedTimetable == old(generatedTimetable) && isPublished == old(isPublished)
    {
      resources := UpdateResources(resources, id, p);
    }

    method DeleteResource(id: int)
      modifies this
      ensures resources == Catalog.DeleteResource(old(resources), id)
      ensures teachers == old(teachers) && courses == old(courses)
      ensures generatedTimetable == old(generatedTimetable) && isPublished == old(isPublished)
    {
      resources := Catalog.DeleteResource(resources, id);
    }

    /** `generateTimetable`: the grid is stored only when the run completes;
        a refused or discarded run keeps the previous grid. The published
        flag is left as it was. */
    method GenerateTimetable() returns (outcome: Allocation.Outcome)
      modifies this
      ensures outcome == Allocation.Generate(teachers, courses, resources)
      ensures teachers == old(teachers) && courses == old(courses) && resources == old(resources)
      ensures generatedTimetable == if outcome.Generated? then Some(outcome.grid) else old(generatedTimetable)
      ensures isPublished == old(isPublished)
    {
      outcome := Generator.GenerateTimetable(teachers, courses, resources);
      if outcome.Generated? {
        generatedTimetable := Some(outcome.grid);
      }
    }

    /** `publishTimetable`: refused while there is no grid. */
    method PublishTimetable() returns (published: bool)
      modifies this
      ensures published <==> old(generatedTimetable).Some?
      ensures isPublished == (old(isPublished) || published)
      ensures teachers == old(teachers) && courses == old(courses) && resources == old(resources)
      ensures generatedTimetable == old(generatedTimetable)
    {
      published := generatedTimetable.Some?;
      if published {
        isPublished := true;
      }
    }
  }
}
