/** `generateTimetable` (components/admin-dashboard.tsx) as the source writes
    it: a nested grid updated by `push`, a set of occupancy keys, the course,
    day and slot loops with their `break`s and the `sessionsScheduled`
    counter. The method is proved to compute `Allocation.Generate`, whose
    properties are proved in module Allocation. */
module Generator {
  import opened Collections
  import opened Entities
  import opened Placement
  import opened Allocation

  /** The inner `timeSlots.forEach`: one day's row, every slot an empty list. */
  method InitialRow() returns (row: map<string, seq<Session>>)
    ensures row == map s | s in Slots :: []
  {
    row := map[];
    for si := 0 to |Slots|
      invariant row == map s | s in Slots[..si] :: []
    {
      row := row[Slots[si] := []];
      assert Slots[..si + 1] == Slots[..si] + [Slots[si]];
    }
    assert Slots[..|Slots|] == Slots;
  }

  /** The `days.forEach` initialisation: the grid the run starts from. */
  method InitialGrid() returns (timetable: Grid)
    ensures timetable == EmptyGrid()
  {
    timetable := map[];
    for di := 0 to |Days|
      invariant timetable == map d | d in Days[..di] :: map s | s in Slots :: []
    {
      var row := InitialRow();
      timetable := timetable[Days[di] := row];
      assert Days[..di + 1] == Days[..di] + [Days[di]];
    }
    assert Days[..|Days|] == Days;
  }

  /** The inner `for (const slot of teacherAvailableSlots)` loop for one day,
      from the state and counter the earlier days left; `threw` when a push
      onto an undefined cell threw. Otherwise it ends where the specification
      of the slot loop does, so the day loop can go on from there. */
  method PlaceDay(ghost k: nat, course: Course, teacher: Teacher, resource: Resource,
                  ghost days: seq<string>, day: string,
                  timetable: Grid, scheduledSessions: set<Key>, ghost bookings: seq<Booking>, sessionsScheduled: int)
    returns (grid: Grid, occupied: set<Key>, ghost trace: seq<Booking>, placed: int, threw: bool)
    requires days != [] && days[0] == day
    ensures var a := Assignment(k, course, teacher, resource);
            var scan := ScanSlots(a, days, AvailableOn(teacher, day),
                                  State(timetable, scheduledSessions, bookings), sessionsScheduled);
            if threw then scan == Threw
            else scan == ScanDays(a, days[1..], State(grid, occupied, trace), placed)
  {
    ghost var a := Assignment(k, course, teacher, resource);
    grid, occupied, trace, placed, threw := timetable, scheduledSessions, bookings, sessionsScheduled, false;
    var teacherAvailableSlots := AvailableOn(teacher, day);
    var si := 0;
    while si < |teacherAvailableSlots|
      invariant 0 <= si <= |teacherAvailableSlots|
      invariant ScanSlots(a, days, teacherAvailableSlots, State(timetable, scheduledSessions, bookings), sessionsScheduled)
             == ScanSlots(a, days, teacherAvailableSlots[si..], State(grid, occupied, trace), placed)
    {
      if placed >= course.weeklyHours {
        break;
      }
      var slot := teacherAvailableSlots[si];
      var sessionKey := Key(teacher.id, day, slot);
      var resourceKey := Key(resource.id, day, slot);
      if sessionKey !in occupied && resourceKey !in occupied {
        if day !in grid || slot !in grid[day] {
          // `timetable[day][slot]` is undefined: the push throws.
          threw := true;
          return;
        }
        var session := Session(course.name, course.code, teacher.name, resource.name,
                               course.studentCount, course.difficulty, course.department);
        grid := grid[day := grid[day][slot := grid[day][slot] + [session]]];
        occupied := occupied + {sessionKey, resourceKey};
        trace := trace + [BookingOf(a, day, slot)];
        placed := placed + 1;
      }
      assert teacherAvailableSlots[si..][1..] == teacherAvailableSlots[si + 1..];
      si := si + 1;
    }
  }

  /** The `for (const day of days)` loop for one course, from the state the
      earlier courses left and a zero counter: the same outcome as the
      specification of the scan. */
  method PlaceCourse(ghost k: nat, course: Course, teacher: Teacher, resource: Resource,
                     timetable: Grid, scheduledSessions: set<Key>, ghost bookings: seq<Booking>)
    returns (grid: Grid, occupied: set<Key>, ghost trace: seq<Booking>, placed: int, threw: bool)
    ensures var scan := ScanDays(Assignment(k, course, teacher, resource), Days,
                                 State(timetable, scheduledSessions, bookings), 0);
            if threw then scan == Threw
            else scan == Reached(State(grid, occupied, trace), placed)
  {
    ghost var a := Assignment(k, course, teacher, resource);
    grid, occupied, trace, placed, threw := timetable, scheduledSessions, bookings, 0, false;
    var days := Days;
    var di := 0;
    while di < |days|
      invariant 0 <= di <= |days| && days == Days
      invariant ScanDays(a, Days, State(timetable, scheduledSessions, bookings), 0)
             == ScanDays(a, Days[di..], State(grid, occupied, trace), placed)
    {
      if placed >= course.weeklyHours {
        break;
      }
      grid, occupied, trace, placed, threw := PlaceDay(k, course, teacher, resource, Days[di..], days[di],
                                                       grid, occupied, trace, placed);
      if threw {
        return;
      }
      di := di + 1;
    }
  }

  /** The whole run: refused on an empty catalog, aborted when a `push`
      throws, otherwise the filled grid with the notices raised. */
  method GenerateTimetable(teachers: seq<Teacher>, courses: seq<Course>, resources: seq<Resource>)
    returns (outcome: Outcome)
    ensures outcome == Generate(teachers, courses, resources)
  {
    if |teachers| == 0 || |courses| == 0 || |resources| == 0 {
      return Refused;
    }
    var timetable := InitialGrid();
    var scheduledSessions: set<Key> := {};
    ghost var bookings: seq<Booking> := [];
    var warnings: seq<Warning> := [];

    for ci := 0 to |courses|
      invariant Schedule(courses, ci, teachers, resources)
             == Some((State(timetable, scheduledSessions, bookings), warnings))
    {
      var course := courses[ci];
      var teacher := TeacherWithId(teachers, course.teacherId);
      var availableResource := ResourceFor(resources, course.studentCount);
      if teacher.None? || availableResource.None? {
        CourseSkipped(courses, ci, teachers, resources);
        warnings := warnings + [Skipped(ci, course.name)];
        continue;
      }
      ghost var st0 := State(timetable, scheduledSessions, bookings);
      var sessionsScheduled, threw;
      timetable, scheduledSessions, bookings, sessionsScheduled, threw :=
        PlaceCourse(ci, course, teacher.value, availableResource.value, timetable, scheduledSessions, bookings);
      if threw {
        // The catch discards the whole run.
        ScanThrew(courses, ci, teachers, resources, st0);
        return Aborted;
      }
      CourseDone(courses, ci, teachers, resources, Assignment(ci, course, teacher.value, availableResource.value),
                 State(timetable, scheduledSessions, bookings), sessionsScheduled);
      assert warnings + [] == warnings;
      if sessionsScheduled < course.weeklyHours {
        warnings := warnings + [Partial(ci, course.name, sessionsScheduled, course.weeklyHours)];
      }
    }
    return Generated(timetable, warnings);
  }

  /** A course whose scan reached the end of its loops leaves that state and
      raises "Partial Schedule" exactly when it fell short. */
  lemma CourseDone(courses: seq<Course>, k: nat, teachers: seq<Teacher>, resources: seq<Resource>,
                   a: Assignment, st: State, placed: int)
    requires k < |courses| && Schedule(courses, k, teachers, resources).Some?
    requires a == Assignment(k, courses[k], a.teacher, a.resource)
    requires AssignmentFor(courses, k, teachers, resources) == Some(a)
    requires ScanDays(a, Days, Schedule(courses, k, teachers, resources).value.0, 0) == Reached(st, placed)
    ensures Schedule(courses, k + 1, teachers, resources)
         == Some((st, Schedule(courses, k, teachers, resources).value.1
                      + if placed < courses[k].weeklyHours
                        then [Partial(k, courses[k].name, placed, courses[k].weeklyHours)] else []))
  {
  }

  /** A course whose teacher or resource does not resolve changes nothing
      and raises the skip notice. */
  lemma CourseSkipped(courses: seq<Course>, k: nat, teachers: seq<Teacher>, resources: seq<Resource>)
    requires k < |courses| && Schedule(courses, k, teachers, resources).Some?
    requires TeacherWithId(teachers, courses[k].teacherId).None? || ResourceFor(resources, courses[k].studentCount).None?
    ensures Schedule(courses, k + 1, teachers, resources)
         == Some((Schedule(courses, k, teachers, resources).value.0,
                  Schedule(courses, k, teachers, resources).value.1 + [Skipped(k, courses[k].name)]))
  {
  }

  /** A scan that threw makes the whole run come out aborted. */
  lemma ScanThrew(courses: seq<Course>, k: nat, teachers: seq<Teacher>, resources: seq<Resource>, st: State)
    requires k < |courses| && Report.CanGenerate(teachers, courses, resources)
    requires Schedule(courses, k, teachers, resources).Some?
    requires Schedule(courses, k, teachers, resources).value.0 == st
    requires AssignmentFor(courses, k, teachers, resources).Some?
    requires ScanDays(AssignmentFor(courses, k, teachers, resources).value, Days, st, 0) == Threw
    ensures Generate(teachers, courses, resources) == Aborted
  {
    assert Schedule(courses, k + 1, teachers, resources) == ScheduleCourse(courses, k, teachers, resources);
    assert ScheduleCourse(courses, k, teachers, resources) == None;
    AbortIsFinal(courses, k + 1, |courses|, teachers, resources);
  }
}
