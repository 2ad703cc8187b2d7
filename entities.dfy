/** The records the admin dashboard keeps in its state and hands to the
    timetable generator (the `Teacher`, `Course` and `Resource` interfaces of
    components/admin-dashboard.tsx), the session record the generator puts in
    the grid, and the fixed days and slots the grid is built over. */
module Entities {

  /** The five teaching days the grid has, Monday to Friday, in scan order. */
  const Days: seq<string> := ["Monday", "Tuesday", "Wednesday", "Thursday", "Friday"]

  /** The six time slots every day of the grid has, in display order. */
  const Slots: seq<string> := ["9:00", "10:00", "11:00", "14:00", "15:00", "16:00"]

  /** `availability` maps a day name to the slots the teacher is free at. */
  datatype Teacher = Teacher(
    id: int,
    name: string,
    email: string,
    subjects: seq<string>,
    availability: map<string, seq<string>>,
    maxHours: int,
    department: string)

  /** `availability[day] || []`: the slots listed for a day, none when the
      day is missing. */
  function SlotsOn(availability: map<string, seq<string>>, day: string): (r: seq<string>)
    ensures day !in availability ==> r == []
  {
    if day in availability then availability[day] else []
  }

  /** `teacher.availability[day] || []`. */
  function AvailableOn(t: Teacher, day: string): (r: seq<string>)
    ensures day !in t.availability ==> r == []
  {
    SlotsOn(t.availability, day)
  }

  datatype Course = Course(
    id: int,
    name: string,
    code: string,
    teacher: string,       // the teacher's display name, kept in step by renames
    teacherId: int,
    weeklyHours: int,      // sessions the generator tries to place
    studentCount: int,
    difficulty: string,
    department: string,
    semester: string)

  /** `kind` is the interface's `type` field. */
  datatype Resource = Resource(
    id: int,
    name: string,
    kind: string,
    capacity: int,
    equipment: seq<string>,
    location: string,
    availability: seq<string>)

  /** What one placed session shows in a grid cell. */
  datatype Session = Session(
    course: string,
    code: string,
    teacher: string,
    resource: string,
    students: int,
    difficulty: string,
    department: string)

  /** The generated timetable: day -> slot -> sessions placed there, in order. */
  type Grid = map<string, map<string, seq<Session>>>
}
