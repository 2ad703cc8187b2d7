/** What `generateTimetable` (components/admin-dashboard.tsx) computes, as
    functions: the day and slot loops, one course, the course loop, and the
    whole run with its refusal guard and its abort path. The imperative
    version in module Generator is proved equal to `Generate`. */
module Allocation {
  import opened Collections
  import opened Entities
  import opened Placement
  import Report

  /** `Skipped` is the console warning for a course whose teacher or resource
      cannot be resolved; `Partial` is the "Partial Schedule" notice. */
  datatype Warning =
    | Skipped(index: nat, course: string)
    | Partial(index: nat, course: string, placed: int, needed: int)

  /** `Refused`: a catalog is empty and nothing is attempted. `Aborted`: a push
      onto a cell the grid does not have threw, and the run was discarded.
      `Generated`: the grid to store, with the notices raised on the way. */
  datatype Outcome = Refused | Aborted | Generated(grid: Grid, warnings: seq<Warning>)

  /** Where a course's scan ended: a push threw, or the loops finished with
      this state and this many sessions placed. */
  datatype Scan = Threw | Reached(st: State, placed: int)

  /** `teachers.find(t => t.id === id)`. */
  function TeacherWithId(teachers: seq<Teacher>, id: int): Option<Teacher>
    decreases |teachers|
  {
    if teachers == [] then None
    else if teachers[0].id == id then Some(teachers[0])
    else TeacherWithId(teachers[1..], id)
  }

  /** `resources.find(r => r.capacity >= students)`. */
  function ResourceFor(resources: seq<Resource>, students: int): Option<Resource>
    decreases |resources|
  {
    if resources == [] then None
    else if resources[0].capacity >= students then Some(resources[0])
    else ResourceFor(resources[1..], students)
  }

  /** The teacher found is the first with that id; None when no teacher has it. */
  lemma {:induction false} TeacherWithIdFirst(teachers: seq<Teacher>, id: int)
    ensures TeacherWithId(teachers, id).None? <==> forall j :: 0 <= j < |teachers| ==> teachers[j].id != id
    ensures TeacherWithId(teachers, id).Some? ==>
      exists i :: 0 <= i < |teachers| && teachers[i] == TeacherWithId(teachers, id).value && teachers[i].id == id
                  && forall j :: 0 <= j < i ==> teachers[j].id != id
    decreases |teachers|
  {
    if teachers != [] && teachers[0].id != id {
      TeacherWithIdFirst(teachers[1..], id);
      if TeacherWithId(teachers, id).Some? {
        var i :| 0 <= i < |teachers[1..]| && teachers[1..][i] == TeacherWithId(teachers, id).value
                 && teachers[1..][i].id == id && forall j :: 0 <= j < i ==> teachers[1..][j].id != id;
        assert teachers[i + 1] == teachers[1..][i];
        assert forall j :: 1 <= j < i + 1 ==> teachers[j] == teachers[1..][j - 1];
      } else {
        assert forall j :: 1 <= j < |teachers| ==> teachers[j] == teachers[1..][j - 1];
      }
    } else if teachers != [] {
      assert teachers[0] == TeacherWithId(teachers, id).value;
    }
  }

  /** The resource found is the first, in list order, large enough; None when
      none is. */
  lemma {:induction false} ResourceForFirst(resources: seq<Resource>, students: int)
    ensures ResourceFor(resources, students).None? <==> forall j :: 0 <= j < |resources| ==> resources[j].capacity < students
    ensures ResourceFor(resources, students).Some? ==>
      exists i :: 0 <= i < |resources| && resources[i] == ResourceFor(resources, students).value
                  && resources[i].capacity >= students
                  && forall j :: 0 <= j < i ==> resources[j].capacity < students
    decreases |resources|
  {
    if resources != [] && resources[0].capacity < students {
      ResourceForFirst(resources[1..], students);
      if ResourceFor(resources, students).Some? {
        var i :| 0 <= i < |resources[1..]| && resources[1..][i] == ResourceFor(resources, students).value
                 && resources[1..][i].capacity >= students && forall j :: 0 <= j < i ==> resources[1..][j].capacity < students;
        assert resources[i + 1] == resources[1..][i];
        assert forall j :: 1 <= j < i + 1 ==> resources[j] == resources[1..][j - 1];
      } else {
        assert forall j :: 1 <= j < |resources| ==> resources[j] == resources[1..][j - 1];
      }
    } else if resources != [] {
      assert resources[0] == ResourceFor(resources, students).value;
    }
  }

  /** The teacher and resource course `k` is scheduled with, if both resolve. */
  function AssignmentFor(courses: seq<Course>, k: nat, teachers: seq<Teacher>, resources: seq<Resource>): Option<Assignment>
    requires k < |courses|
  {
    var t := TeacherWithId(teachers, courses[k].teacherId);
    var r := ResourceFor(resources, courses[k].studentCount);
    if t.Some? && r.Some? then Some(Assignment(k, courses[k], t.value, r.value)) else None
  }

  /** The slot loop over the slots of `days[0]` still to visit, from `placed`
      sessions so far; when they run out, the day loop goes on with the next
      day. A full count stops both loops. */
  function ScanSlots(a: Assignment, days: seq<string>, slots: seq<string>, st: State, placed: int): Scan
    requires days != []
    decreases |days|, 0, |slots|
  {
    if placed >= a.course.weeklyHours then Reached(st, placed)
    else if slots == [] then ScanDays(a, days[1..], st, placed)
    else
      var b := BookingOf(a, days[0], slots[0]);
      if TeacherKey(b) in st.occupied || ResourceKey(b) in st.occupied then
        ScanSlots(a, days, slots[1..], st, placed)
      else if days[0] in st.grid && slots[0] in st.grid[days[0]] then
        ScanSlots(a, days, slots[1..], Book(st, b), placed + 1)
      else
        Threw
  }

  /** The day loop over the days still to visit; a day missing from the
      teacher's availability offers no slots. */
  function ScanDays(a: Assignment, days: seq<string>, st: State, placed: int): Scan
    decreases |days|, 1, 0
  {
    if days == [] || placed >= a.course.weeklyHours then Reached(st, placed)
    else ScanSlots(a, days, AvailableOn(a.teacher, days[0]), st, placed)
  }

  /** The notice course `k` raises, given how many sessions it placed. */
  function WarningFor(courses: seq<Course>, k: nat, teachers: seq<Teacher>, resources: seq<Resource>, placed: int): seq<Warning>
    requires k < |courses|
  {
    var c := courses[k];
    if AssignmentFor(courses, k, teachers, resources).None? then [Skipped(k, c.name)]
    else if placed < c.weeklyHours then [Partial(k, c.name, placed, c.weeklyHours)]
    else []
  }

  /** The state and notices after course `k`, the iteration of
      `for (const course of courses)` on the state the earlier courses left. */
  function ScheduleCourse(courses: seq<Course>, k: nat, teachers: seq<Teacher>, resources: seq<Resource>): Option<(State, seq<Warning>)>
    requires k < |courses|
    decreases k, 1
  {
    match Schedule(courses, k, teachers, resources)
    case None => None
    case Some((st, ws)) =>
      match AssignmentFor(courses, k, teachers, resources)
      case None => Some((st, ws + WarningFor(courses, k, teachers, resources, 0)))
      case Some(a) =>
        match ScanDays(a, Days, st, 0)
        case Threw => None
        case Reached(st', placed) => Some((st', ws + WarningFor(courses, k, teachers, resources, placed)))
  }

  /** The state and notices after the first `k` courses, or None once a push threw. */
  function Schedule(courses: seq<Course>, k: nat, teachers: seq<Teacher>, resources: seq<Resource>): Option<(State, seq<Warning>)>
    requires k <= |courses|
    decreases k, 0
  {
    if k == 0 then Some((Initial(), []))
    else ScheduleCourse(courses, k - 1, teachers, resources)
  }

  /** The whole of `generateTimetable`. */
  function Generate(teachers: seq<Teacher>, courses: seq<Course>, resources: seq<Resource>): Outcome {
    if !Report.CanGenerate(teachers, courses, resources) then Refused
    else
      match Schedule(courses, |courses|, teachers, resources)
      case None => Aborted
      case Some((st, ws)) => Generated(st.grid, ws)
  }

  /** A course is skipped exactly when no teacher has its `teacherId` or no
      resource holds its students; otherwise its sessions use the first
      teacher with that id and the first resource, in list order, whose
      capacity covers the course's students. */
  lemma AssignmentForSpec(courses: seq<Course>, k: nat, teachers: seq<Teacher>, resources: seq<Resource>)
    requires k < |courses|
    ensures var r := AssignmentFor(courses, k, teachers, resources);
      && (r.None? <==>
           || (forall j :: 0 <= j < |teachers| ==> teachers[j].id != courses[k].teacherId)
           || (forall j :: 0 <= j < |resources| ==> resources[j].capacity < courses[k].studentCount))
      && (r.Some? ==>
           && r.value.index == k && r.value.course == courses[k]
           && r.value.teacher.id == courses[k].teacherId
           && r.value.resource.capacity >= courses[k].studentCount
           && (exists i :: 0 <= i < |teachers| && teachers[i] == r.value.teacher
                && forall j :: 0 <= j < i ==> teachers[j].id != courses[k].teacherId)
           && (exists i :: 0 <= i < |resources| && resources[i] == r.value.resource
                && forall j :: 0 <= j < i ==> resources[j].capacity < courses[k].studentCount))
  {
    TeacherWithIdFirst(teachers, courses[k].teacherId);
    ResourceForFirst(resources, courses[k].studentCount);
  }

  // ---------------------------------------------------------------------
  // One course: what a scan adds

  /** A booking the assignment may make: its own ids and session, on a
      configured day and slot that the teacher lists for that day. */
  ghost predicate Fits(a: Assignment, b: Booking) {
    && b == BookingOf(a, b.day, b.slot)
    && b.day in Days && b.slot in Slots
    && b.slot in AvailableOn(a.teacher, b.day)
  }

  /** `st'` extends `st` by bookings that fit `a`, one per counted session;
      the counter moves only while it is below the need; occupancy only grows. */
  ghost predicate Advances(a: Assignment, st: State, placed: int, st': State, placed': int) {
    && |st.bookings| <= |st'.bookings|
    && st'.bookings[..|st.bookings|] == st.bookings
    && placed' - placed == |st'.bookings| - |st.bookings|
    && (placed' == placed || placed' <= a.course.weeklyHours)
    && st.occupied <= st'.occupied
    && forall i :: |st.bookings| <= i < |st'.bookings| ==> Fits(a, st'.bookings[i])
  }

  lemma AdvancesTrans(a: Assignment, st1: State, p1: int, st2: State, p2: int, st3: State, p3: int)
    requires Advances(a, st1, p1, st2, p2) && Advances(a, st2, p2, st3, p3)
    ensures Advances(a, st1, p1, st3, p3)
  {
    var n1, n2 := |st1.bookings|, |st2.bookings|;
    assert st3.bookings[..n1] == st3.bookings[..n2][..n1];
    forall i | n1 <= i < |st3.bookings|
      ensures Fits(a, st3.bookings[i])
    {
      if i < n2 {
        assert st3.bookings[i] == st3.bookings[..n2][i];
      }
    }
  }

  /** A candidate slot is blocked when its teacher key or its resource key is taken. */
  predicate Blocked(occupied: set<Key>, a: Assignment, day: string, slot: string) {
    Key(a.teacher.id, day, slot) in occupied || Key(a.resource.id, day, slot) in occupied
  }

  /** One placement: a fitting booking on a free cell advances the state by one. */
  lemma BookAdvances(a: Assignment, day: string, slot: string, st: State, placed: int)
    requires Wf(st) && day in Days && slot in Slots && slot in AvailableOn(a.teacher, day)
    requires placed < a.course.weeklyHours
    requires !Blocked(st.occupied, a, day, slot)
    ensures day in st.grid && slot in st.grid[day]
    ensures Wf(Book(st, BookingOf(a, day, slot)))
    ensures Advances(a, st, placed, Book(st, BookingOf(a, day, slot)), placed + 1)
  {
    var b := BookingOf(a, day, slot);
    BookWf(st, b);
    assert Book(st, b).bookings[|st.bookings|] == b;
  }

  /** The days still to visit are a tail of the configured days. */
  predicate DaysTail(days: seq<string>) {
    forall i :: 0 <= i < |days| ==> days[i] in Days
  }

  /** The slots still to visit are a tail of the teacher's list for the day. */
  predicate SlotsTail(a: Assignment, day: string, slots: seq<string>) {
    forall i :: 0 <= i < |slots| ==> slots[i] in AvailableOn(a.teacher, day)
  }

  /** Each scan step keeps the state well formed and only adds fitting bookings. */
  lemma {:induction false} ScanSlotsSound(a: Assignment, days: seq<string>, slots: seq<string>, st: State, placed: int)
    requires days != [] && DaysTail(days) && SlotsTail(a, days[0], slots) && Wf(st)
    ensures var r := ScanSlots(a, days, slots, st, placed);
            r.Reached? ==> Wf(r.st) && Advances(a, st, placed, r.st, r.placed)
    decreases |days|, 0, |slots|, 1
  {
    if placed < a.course.weeklyHours {
      if slots == [] {
        assert ScanSlots(a, days, slots, st, placed) == ScanDays(a, days[1..], st, placed);
        ScanDaysSound(a, days[1..], st, placed);
      } else if Blocked(st.occupied, a, days[0], slots[0]) {
        assert ScanSlots(a, days, slots, st, placed) == ScanSlots(a, days, slots[1..], st, placed);
        ScanSlotsSound(a, days, slots[1..], st, placed);
      } else if days[0] in st.grid && slots[0] in st.grid[days[0]] {
        ScanSlotsSoundBook(a, days, slots, st, placed);
      }
    }
  }

  /** The step that books the first slot, then goes on from the new state. */
  lemma {:induction false} ScanSlotsSoundBook(a: Assignment, days: seq<string>, slots: seq<string>, st: State, placed: int)
    requires days != [] && DaysTail(days) && SlotsTail(a, days[0], slots) && Wf(st)
    requires placed < a.course.weeklyHours && slots != [] && !Blocked(st.occupied, a, days[0], slots[0])
    requires days[0] in st.grid && slots[0] in st.grid[days[0]]
    ensures var r := ScanSlots(a, days, slots, st, placed);
            r.Reached? ==> Wf(r.st) && Advances(a, st, placed, r.st, r.placed)
    decreases |days|, 0, |slots|, 0
  {
    assert slots[0] in AvailableOn(a.teacher, days[0]);
    BookAdvances(a, days[0], slots[0], st, placed);
    var st1 := Book(st, BookingOf(a, days[0], slots[0]));
    var rest := ScanSlots(a, days, slots[1..], st1, placed + 1);
    assert ScanSlots(a, days, slots, st, placed) == rest;
    ScanSlotsSound(a, days, slots[1..], st1, placed + 1);
    if rest.Reached? {
      AdvancesTrans(a, st, placed, st1, placed + 1, rest.st, rest.placed);
    }
  }

  lemma {:induction false} ScanDaysSound(a: Assignment, days: seq<string>, st: State, placed: int)
    requires DaysTail(days) && Wf(st)
    ensures var r := ScanDays(a, days, st, placed);
            r.Reached? ==> Wf(r.st) && Advances(a, st, placed, r.st, r.placed)
    decreases |days|, 1, 0, 0
  {
    if days != [] && placed < a.course.weeklyHours {
      ScanSlotsSound(a, days, AvailableOn(a.teacher, days[0]), st, placed);
    }
  }

  /** Every one of the given slots of `day` is blocked for the assignment. */
  ghost predicate SlotsBlocked(occupied: set<Key>, a: Assignment, day: string, slots: seq<string>) {
    forall j :: 0 <= j < |slots| ==> Blocked(occupied, a, day, slots[j])
  }

  /** Every slot the teacher lists on each of the given days is blocked. */
  ghost predicate DaysBlocked(occupied: set<Key>, a: Assignment, days: seq<string>) {
    forall i :: 0 <= i < |days| ==> SlotsBlocked(occupied, a, days[i], AvailableOn(a.teacher, days[i]))
  }

  lemma SlotsBlockedCons(occupied: set<Key>, occupied': set<Key>, a: Assignment, day: string, slots: seq<string>)
    requires slots != [] && occupied <= occupied' && Blocked(occupied, a, day, slots[0])
    requires SlotsBlocked(occupied', a, day, slots[1..])
    ensures SlotsBlocked(occupied', a, day, slots)
  {
    forall j | 1 <= j < |slots|
      ensures Blocked(occupied', a, day, slots[j])
    {
      assert slots[j] == slots[1..][j - 1];
    }
  }

  lemma DaysBlockedCons(occupied: set<Key>, a: Assignment, days: seq<string>)
    requires days != [] && SlotsBlocked(occupied, a, days[0], AvailableOn(a.teacher, days[0]))
    requires DaysBlocked(occupied, a, days[1..])
    ensures DaysBlocked(occupied, a, days)
  {
    forall i | 1 <= i < |days|
      ensures SlotsBlocked(occupied, a, days[i], AvailableOn(a.teacher, days[i]))
    {
      assert days[i] == days[1..][i - 1];
    }
  }

  /** Greedy to the end: a scan that finishes below the need leaves every
      slot it visited, on every day it visited, blocked. */
  lemma {:induction false} ScanSlotsExhausts(a: Assignment, days: seq<string>, slots: seq<string>, st: State, placed: int)
    requires days != [] && DaysTail(days) && SlotsTail(a, days[0], slots) && Wf(st)
    ensures match ScanSlots(a, days, slots, st, placed)
      case Threw => true
      case Reached(st', placed') =>
        placed' < a.course.weeklyHours ==>
          SlotsBlocked(st'.occupied, a, days[0], slots) && DaysBlocked(st'.occupied, a, days[1..])
    decreases |days|, 0, |slots|, 2
  {
    if placed < a.course.weeklyHours {
      if slots == [] {
        ScanDaysExhausts(a, days[1..], st, placed);
      } else if Blocked(st.occupied, a, days[0], slots[0]) {
        ScanSlotsStep(a, days, slots, st, placed, st, placed);
      } else if days[0] in st.grid && slots[0] in st.grid[days[0]] {
        ScanSlotsBook(a, days, slots, st, placed);
      }
    }
  }

  /** The step of `ScanSlotsExhausts` that books the first slot. */
  lemma {:induction false} ScanSlotsBook(a: Assignment, days: seq<string>, slots: seq<string>, st: State, placed: int)
    requires days != [] && DaysTail(days) && SlotsTail(a, days[0], slots) && Wf(st) && slots != []
    requires placed < a.course.weeklyHours && !Blocked(st.occupied, a, days[0], slots[0])
    requires days[0] in st.grid && slots[0] in st.grid[days[0]]
    ensures match ScanSlots(a, days, slots, st, placed)
      case Threw => true
      case Reached(st', placed') =>
        placed' < a.course.weeklyHours ==>
          SlotsBlocked(st'.occupied, a, days[0], slots) && DaysBlocked(st'.occupied, a, days[1..])
    decreases |days|, 0, |slots|, 1
  {
    var b := BookingOf(a, days[0], slots[0]);
    WfShaped(st);
    BookWf(st, b);
    assert ScanSlots(a, days, slots, st, placed) == ScanSlots(a, days, slots[1..], Book(st, b), placed + 1);
    ScanSlotsStep(a, days, slots, st, placed, Book(st, b), placed + 1);
  }

  /** The step of `ScanSlotsExhausts` past the first slot, once that slot is blocked in `st1`. */
  lemma {:induction false} ScanSlotsStep(a: Assignment, days: seq<string>, slots: seq<string>, st: State, placed: int,
                                         st1: State, p1: int)
    requires days != [] && DaysTail(days) && SlotsTail(a, days[0], slots) && Wf(st1) && slots != []
    requires Blocked(st1.occupied, a, days[0], slots[0])
    requires ScanSlots(a, days, slots, st, placed) == ScanSlots(a, days, slots[1..], st1, p1)
    ensures match ScanSlots(a, days, slots, st, placed)
      case Threw => true
      case Reached(st', placed') =>
        placed' < a.course.weeklyHours ==>
          SlotsBlocked(st'.occupied, a, days[0], slots) && DaysBlocked(st'.occupied, a, days[1..])
    decreases |days|, 0, |slots|, 0
  {
    ScanSlotsExhausts(a, days, slots[1..], st1, p1);
    ScanSlotsSound(a, days, slots[1..], st1, p1);
    match ScanSlots(a, days, slots[1..], st1, p1)
    case Threw =>
    case Reached(st', placed') =>
      if placed' < a.course.weeklyHours {
        SlotsBlockedCons(st1.occupied, st'.occupied, a, days[0], slots);
      }
  }

  lemma {:induction false} ScanDaysExhausts(a: Assignment, days: seq<string>, st: State, placed: int)
    requires DaysTail(days) && Wf(st)
    ensures match ScanDays(a, days, st, placed)
      case Threw => true
      case Reached(st', placed') =>
        placed' < a.course.weeklyHours ==> DaysBlocked(st'.occupied, a, days)
    decreases |days|, 1, 0, 0
  {
    if days != [] && placed < a.course.weeklyHours {
      ScanSlotsExhausts(a, days, AvailableOn(a.teacher, days[0]), st, placed);
      match ScanDays(a, days, st, placed)
      case Threw =>
      case Reached(st', placed') =>
        if placed' < a.course.weeklyHours {
          DaysBlockedCons(st'.occupied, a, days);
        }
    }
  }

  /** The teacher lists only configured slots on every configured day. */
  predicate ListsOnlySlots(t: Teacher) {
    forall d, i :: d in Days && 0 <= i < |AvailableOn(t, d)| ==> AvailableOn(t, d)[i] in Slots
  }

  /** A push throws only on a free slot the grid lacks: on a grid with every
      configured cell, a teacher who lists only configured slots never makes
      the scan throw. */
  lemma {:induction false} ScanSlotsNoAbort(a: Assignment, days: seq<string>, slots: seq<string>, st: State, placed: int)
    requires days != [] && DaysTail(days) && Shaped(st.grid) && ListsOnlySlots(a.teacher)
    requires forall i :: 0 <= i < |slots| ==> slots[i] in Slots
    ensures ScanSlots(a, days, slots, st, placed).Reached?
    decreases |days|, 0, |slots|
  {
    if placed < a.course.weeklyHours {
      if slots == [] {
        assert ScanSlots(a, days, slots, st, placed) == ScanDays(a, days[1..], st, placed);
        ScanDaysNoAbort(a, days[1..], st, placed);
      } else if Blocked(st.occupied, a, days[0], slots[0]) {
        assert ScanSlots(a, days, slots, st, placed) == ScanSlots(a, days, slots[1..], st, placed);
        ScanSlotsNoAbort(a, days, slots[1..], st, placed);
      } else {
        var b := BookingOf(a, days[0], slots[0]);
        assert days[0] in Days && slots[0] in Slots;
        assert days[0] in st.grid && slots[0] in st.grid[days[0]];
        var st1 := Book(st, b);
        assert ScanSlots(a, days, slots, st, placed) == ScanSlots(a, days, slots[1..], st1, placed + 1);
        assert Shaped(st1.grid);
        ScanSlotsNoAbort(a, days, slots[1..], st1, placed + 1);
      }
    }
  }

  lemma {:induction false} ScanDaysNoAbort(a: Assignment, days: seq<string>, st: State, placed: int)
    requires DaysTail(days) && Shaped(st.grid) && ListsOnlySlots(a.teacher)
    ensures ScanDays(a, days, st, placed).Reached?
    decreases |days|, 1, 0
  {
    if days != [] && placed < a.course.weeklyHours {
      ScanSlotsNoAbort(a, days, AvailableOn(a.teacher, days[0]), st, placed);
    }
  }
  // ---------------------------------------------------------------------
  // The course loop

  /** How many bookings were made for course `k`. */
  ghost function Count(bs: seq<Booking>, k: nat): nat
    decreases |bs|
  {
    if bs == [] then 0
    else Count(bs[..|bs| - 1], k) + (if bs[|bs| - 1].course == k then 1 else 0)
  }

  lemma {:induction false} CountAppend(bs: seq<Booking>, extra: seq<Booking>, k: nat)
    ensures Count(bs + extra, k) == Count(bs, k) + Count(extra, k)
    decreases |extra|
  {
    if extra == [] {
      assert bs + extra == bs;
    } else {
      var n := |extra| - 1;
      assert (bs + extra)[..|bs + extra| - 1] == bs + extra[..n];
      CountAppend(bs, extra[..n], k);
    }
  }

  /** Bookings all made for one course count in full for it and not at all for another. */
  lemma {:induction false} CountUniform(bs: seq<Booking>, c: nat, k: nat)
    requires forall i :: 0 <= i < |bs| ==> bs[i].course == c
    ensures Count(bs, k) == if c == k then |bs| else 0
    decreases |bs|
  {
    if bs != [] {
      CountUniform(bs[..|bs| - 1], c, k);
    }
  }

  /** Bookings all made for earlier courses count nothing for course `k`. */
  lemma {:induction false} CountBelow(bs: seq<Booking>, k: nat)
    requires forall i :: 0 <= i < |bs| ==> bs[i].course < k
    ensures Count(bs, k) == 0
    decreases |bs|
  {
    if bs != [] {
      CountBelow(bs[..|bs| - 1], k);
    }
  }

  /** The notices the first `k` courses raise, in course order, given the bookings. */
  ghost function ExpectedWarnings(courses: seq<Course>, k: nat, teachers: seq<Teacher>, resources: seq<Resource>,
                                  bs: seq<Booking>): seq<Warning>
    requires k <= |courses|
    decreases k
  {
    if k == 0 then []
    else ExpectedWarnings(courses, k - 1, teachers, resources, bs)
         + WarningFor(courses, k - 1, teachers, resources, Count(bs, k - 1))
  }

  lemma {:induction false} ExpectedWarningsFrame(courses: seq<Course>, k: nat, teachers: seq<Teacher>, resources: seq<Resource>,
                                                 bs: seq<Booking>, bs': seq<Booking>)
    requires k <= |courses|
    requires forall i :: 0 <= i < k ==> Count(bs, i) == Count(bs', i)
    ensures ExpectedWarnings(courses, k, teachers, resources, bs) == ExpectedWarnings(courses, k, teachers, resources, bs')
    decreases k
  {
    if k > 0 {
      ExpectedWarningsFrame(courses, k - 1, teachers, resources, bs, bs');
    }
  }

  /** A booking the source could have made: for a course whose teacher and
      resource resolve, fitting that assignment. */
  ghost predicate Legit(b: Booking, courses: seq<Course>, teachers: seq<Teacher>, resources: seq<Resource>) {
    && b.course < |courses|
    && AssignmentFor(courses, b.course, teachers, resources).Some?
    && Fits(AssignmentFor(courses, b.course, teachers, resources).value, b)
  }

  /** Every booking is legitimate and belongs to one of the first `k` courses. */
  ghost predicate AllLegit(bs: seq<Booking>, courses: seq<Course>, k: nat, teachers: seq<Teacher>, resources: seq<Resource>) {
    forall i :: 0 <= i < |bs| ==> bs[i].course < k && Legit(bs[i], courses, teachers, resources)
  }

  function Max0(n: int): nat {
    if n < 0 then 0 else n
  }

  /** No course among the first `k` has more than `weeklyHours` sessions. */
  ghost predicate WithinNeed(bs: seq<Booking>, courses: seq<Course>, k: nat)
    requires k <= |courses|
  {
    forall i :: 0 <= i < k ==> Count(bs, i) <= Max0(courses[i].weeklyHours)
  }

  /** What holds after the first `k` courses: the state is well formed (no
      double-booking, grid and occupancy match the bookings), every booking
      is legitimate and belongs to one of those courses, no course has more
      than `weeklyHours` sessions, and the notices are exactly the expected ones. */
  ghost predicate Sound(courses: seq<Course>, k: nat, teachers: seq<Teacher>, resources: seq<Resource>,
                        st: State, ws: seq<Warning>)
    requires k <= |courses|
  {
    && Wf(st)
    && AllLegit(st.bookings, courses, k, teachers, resources)
    && WithinNeed(st.bookings, courses, k)
    && ws == ExpectedWarnings(courses, k, teachers, resources, st.bookings)
  }

  /** The counts after course `k`'s scan: `placed` for course `k`, unchanged for the others. */
  lemma ScanCounts(a: Assignment, st: State, st': State, placed: int)
    requires Advances(a, st, 0, st', placed)
    requires forall i :: 0 <= i < |st.bookings| ==> st.bookings[i].course < a.index
    ensures forall i :: 0 <= i <= a.index ==>
      Count(st'.bookings, i) == Count(st.bookings, i) + (if i == a.index then placed else 0)
    ensures Count(st.bookings, a.index) == 0
  {
    var n := |st.bookings|;
    var extra := st'.bookings[n..];
    assert st'.bookings == st.bookings + extra;
    assert forall i :: 0 <= i < |extra| ==> extra[i] == st'.bookings[n + i];
    forall i | 0 <= i <= a.index
      ensures Count(st'.bookings, i) == Count(st.bookings, i) + (if i == a.index then placed else 0)
    {
      CountAppend(st.bookings, extra, i);
      CountUniform(extra, a.index, i);
    }
    CountBelow(st.bookings, a.index);
  }

  lemma ScanLegit(courses: seq<Course>, k: nat, teachers: seq<Teacher>, resources: seq<Resource>,
                  a: Assignment, st: State, st': State, placed: int)
    requires k < |courses| && AllLegit(st.bookings, courses, k, teachers, resources)
    requires AssignmentFor(courses, k, teachers, resources) == Some(a)
    requires Advances(a, st, 0, st', placed)
    ensures AllLegit(st'.bookings, courses, k + 1, teachers, resources)
  {
    var n := |st.bookings|;
    forall i | 0 <= i < |st'.bookings|
      ensures st'.bookings[i].course < k + 1 && Legit(st'.bookings[i], courses, teachers, resources)
    {
      if i < n {
        assert st'.bookings[i] == st'.bookings[..n][i];
      }
    }
  }

  lemma ScanWithinNeed(courses: seq<Course>, k: nat, a: Assignment, st: State, st': State, placed: int)
    requires k < |courses| && a.index == k && a.course == courses[k]
    requires WithinNeed(st.bookings, courses, k)
    requires Advances(a, st, 0, st', placed)
    requires forall i :: 0 <= i < |st.bookings| ==> st.bookings[i].course < k
    ensures WithinNeed(st'.bookings, courses, k + 1)
  {
    ScanCounts(a, st, st', placed);
  }

  lemma ScanWarnings(courses: seq<Course>, k: nat, teachers: seq<Teacher>, resources: seq<Resource>,
                     a: Assignment, st: State, st': State, placed: int)
    requires k < |courses| && a.index == k
    requires Advances(a, st, 0, st', placed)
    requires forall i :: 0 <= i < |st.bookings| ==> st.bookings[i].course < k
    ensures ExpectedWarnings(courses, k, teachers, resources, st.bookings)
            + WarningFor(courses, k, teachers, resources, placed)
         == ExpectedWarnings(courses, k + 1, teachers, resources, st'.bookings)
  {
    ScanCounts(a, st, st', placed);
    ExpectedWarningsFrame(courses, k, teachers, resources, st.bookings, st'.bookings);
  }

  /** Course `k` only adds bookings of its own; the counts of earlier courses,
      and so their notices, stay as they were. */
  lemma ScanCourseSound(courses: seq<Course>, k: nat, teachers: seq<Teacher>, resources: seq<Resource>,
                        st: State, ws: seq<Warning>, a: Assignment, st': State, placed: int)
    requires k < |courses| && Sound(courses, k, teachers, resources, st, ws)
    requires AssignmentFor(courses, k, teachers, resources) == Some(a)
    requires Wf(st') && Advances(a, st, 0, st', placed)
    ensures Sound(courses, k + 1, teachers, resources, st', ws + WarningFor(courses, k, teachers, resources, placed))
  {
    ScanWithinNeed(courses, k, a, st, st', placed);
    ScanLegit(courses, k, teachers, resources, a, st, st', placed);
    ScanWarnings(courses, k, teachers, resources, a, st, st', placed);
  }

  lemma SkipCourseSound(courses: seq<Course>, k: nat, teachers: seq<Teacher>, resources: seq<Resource>,
                        st: State, ws: seq<Warning>)
    requires k < |courses| && Sound(courses, k, teachers, resources, st, ws)
    requires AssignmentFor(courses, k, teachers, resources).None?
    ensures Sound(courses, k + 1, teachers, resources, st, ws + WarningFor(courses, k, teachers, resources, 0))
  {
    CountBelow(st.bookings, k);
  }

  /** The invariant of the course loop holds after every prefix of the courses. */
  lemma {:induction false} ScheduleSound(courses: seq<Course>, k: nat, teachers: seq<Teacher>, resources: seq<Resource>)
    requires k <= |courses|
    ensures match Schedule(courses, k, teachers, resources)
      case None => true
      case Some((st, ws)) => Sound(courses, k, teachers, resources, st, ws)
    decreases k
  {
    if k == 0 {
      InitialWf();
    } else {
      ScheduleSound(courses, k - 1, teachers, resources);
      match Schedule(courses, k - 1, teachers, resources)
      case None =>
      case Some((st, ws)) =>
        match AssignmentFor(courses, k - 1, teachers, resources)
        case None =>
          SkipCourseSound(courses, k - 1, teachers, resources, st, ws);
        case Some(a) =>
          ScanDaysSound(a, Days, st, 0);
          match ScanDays(a, Days, st, 0)
          case Threw =>
          case Reached(st', placed) =>
            ScanCourseSound(courses, k - 1, teachers, resources, st, ws, a, st', placed);
    }
  }

  /** Once a push has thrown, the rest of the run is discarded too. */
  lemma {:induction false} AbortIsFinal(courses: seq<Course>, k: nat, n: nat, teachers: seq<Teacher>, resources: seq<Resource>)
    requires k <= n <= |courses|
    requires Schedule(courses, k, teachers, resources).None?
    ensures Schedule(courses, n, teachers, resources).None?
    decreases n
  {
    if k < n {
      AbortIsFinal(courses, k, n - 1, teachers, resources);
    }
  }

  /** Earlier courses have priority: what the first `k` courses get depends on
      those courses alone, not on any course after them. */
  lemma {:induction false} SchedulePrefix(c1: seq<Course>, c2: seq<Course>, k: nat, teachers: seq<Teacher>, resources: seq<Resource>)
    requires k <= |c1| && k <= |c2| && c1[..k] == c2[..k]
    ensures Schedule(c1, k, teachers, resources) == Schedule(c2, k, teachers, resources)
    decreases k
  {
    if k > 0 {
      assert c1[..k - 1] == c2[..k - 1];
      assert c1[k - 1] == c1[..k][k - 1];
      SchedulePrefix(c1, c2, k - 1, teachers, resources);
    }
  }

  /** Each course keeps what the earlier ones booked and only adds to the occupancy. */
  lemma CourseKeeps(courses: seq<Course>, k: nat, teachers: seq<Teacher>, resources: seq<Resource>)
    requires k < |courses|
    requires Schedule(courses, k + 1, teachers, resources).Some?
    ensures Schedule(courses, k, teachers, resources).Some?
    ensures var st := Schedule(courses, k, teachers, resources).value.0;
            var st' := Schedule(courses, k + 1, teachers, resources).value.0;
            |st.bookings| <= |st'.bookings| && st'.bookings[..|st.bookings|] == st.bookings
            && st.occupied <= st'.occupied
  {
    ScheduleSound(courses, k, teachers, resources);
    var st := Schedule(courses, k, teachers, resources).value.0;
    match AssignmentFor(courses, k, teachers, resources)
    case None =>
    case Some(a) =>
      ScanDaysSound(a, Days, st, 0);
  }

  /** Later courses never take anything back: the bookings and occupancy
      after `k` courses are kept, unchanged, after any later number `n`. */
  lemma {:induction false} ScheduleKeeps(courses: seq<Course>, k: nat, n: nat, teachers: seq<Teacher>, resources: seq<Resource>)
    requires k <= n <= |courses|
    requires Schedule(courses, n, teachers, resources).Some?
    ensures Schedule(courses, k, teachers, resources).Some?
    ensures var st := Schedule(courses, k, teachers, resources).value.0;
            var st' := Schedule(courses, n, teachers, resources).value.0;
            |st.bookings| <= |st'.bookings| && st'.bookings[..|st.bookings|] == st.bookings
            && st.occupied <= st'.occupied
    decreases n
  {
    if k < n {
      CourseKeeps(courses, n - 1, teachers, resources);
      ScheduleKeeps(courses, k, n - 1, teachers, resources);
      var st := Schedule(courses, k, teachers, resources).value.0;
      var st1 := Schedule(courses, n - 1, teachers, resources).value.0;
      var st' := Schedule(courses, n, teachers, resources).value.0;
      assert st'.bookings[..|st.bookings|] == st'.bookings[..|st1.bookings|][..|st.bookings|];
    }
  }

  /** What one course adds, by its outcome. A course whose teacher or
      resource does not resolve changes nothing and raises the skip notice.
      Otherwise it places `Count` sessions, at most `weeklyHours`; it raises
      "Partial Schedule" with placed/needed exactly when it placed fewer than
      `weeklyHours`, and then every slot its teacher lists on every
      configured day is blocked, by the teacher's key or the resource's. */
  lemma CourseOutcome(courses: seq<Course>, k: nat, teachers: seq<Teacher>, resources: seq<Resource>)
    requires k < |courses|
    requires Schedule(courses, k + 1, teachers, resources).Some?
    ensures Schedule(courses, k, teachers, resources).Some?
    ensures var (st, ws) := Schedule(courses, k, teachers, resources).value;
            var (st', ws') := Schedule(courses, k + 1, teachers, resources).value;
            var placed := Count(st'.bookings, k);
            var need := courses[k].weeklyHours;
            && placed <= Max0(need)
            && (AssignmentFor(courses, k, teachers, resources).None? ==>
                  st' == st && ws' == ws + [Skipped(k, courses[k].name)])
            && (AssignmentFor(courses, k, teachers, resources).Some? ==>
                  && ws' == ws + (if placed < need then [Partial(k, courses[k].name, placed, need)] else [])
                  && (placed < need ==> DaysBlocked(st'.occupied, AssignmentFor(courses, k, teachers, resources).value, Days)))
  {
    ScheduleSound(courses, k, teachers, resources);
    var (st, ws) := Schedule(courses, k, teachers, resources).value;
    match AssignmentFor(courses, k, teachers, resources)
    case None =>
      CountBelow(st.bookings, k);
    case Some(a) =>
      ScanOutcome(courses, k, teachers, resources, st, ws, a);
  }

  lemma ScanOutcome(courses: seq<Course>, k: nat, teachers: seq<Teacher>, resources: seq<Resource>,
                    st: State, ws: seq<Warning>, a: Assignment)
    requires k < |courses| && Sound(courses, k, teachers, resources, st, ws)
    requires AssignmentFor(courses, k, teachers, resources) == Some(a)
    ensures var r := ScanDays(a, Days, st, 0);
      r.Reached? ==>
        && Count(r.st.bookings, k) == r.placed && r.placed <= Max0(courses[k].weeklyHours)
        && (r.placed < courses[k].weeklyHours ==> DaysBlocked(r.st.occupied, a, Days))
  {
    ScanDaysSound(a, Days, st, 0);
    ScanDaysExhausts(a, Days, st, 0);
    match ScanDays(a, Days, st, 0)
    case Threw =>
    case Reached(fin, placed) =>
      ScanCounts(a, st, fin, placed);
  }

  /** When every teacher lists only configured slots, no push throws. */
  lemma {:induction false} NoAbortOnConfiguredSlots(courses: seq<Course>, k: nat, teachers: seq<Teacher>, resources: seq<Resource>)
    requires k <= |courses|
    requires forall t :: t in teachers ==> ListsOnlySlots(t)
    ensures Schedule(courses, k, teachers, resources).Some?
    decreases k
  {
    if k > 0 {
      NoAbortOnConfiguredSlots(courses, k - 1, teachers, resources);
      ScheduleSound(courses, k - 1, teachers, resources);
      var prev := Schedule(courses, k - 1, teachers, resources);
      var st := prev.value.0;
      assert Sound(courses, k - 1, teachers, resources, st, prev.value.1);
      assert Wf(st);
      assert Schedule(courses, k, teachers, resources) == ScheduleCourse(courses, k - 1, teachers, resources);
      var a := AssignmentFor(courses, k - 1, teachers, resources);
      if a.Some? {
        TeacherWithIdIn(teachers, courses[k - 1].teacherId);
        assert ListsOnlySlots(a.value.teacher);
        WfShaped(st);
        ScanDaysNoAbort(a.value, Days, st, 0);
      }
    }
  }

  lemma {:induction false} TeacherWithIdIn(teachers: seq<Teacher>, id: int)
    ensures TeacherWithId(teachers, id).Some? ==> TeacherWithId(teachers, id).value in teachers
    decreases |teachers|
  {
    if teachers != [] && teachers[0].id != id {
      TeacherWithIdIn(teachers[1..], id);
    }
  }

  // ---------------------------------------------------------------------
  // The whole run

  /** Generation is refused exactly when the button would be disabled. */
  lemma RefusedIffCannotGenerate(teachers: seq<Teacher>, courses: seq<Course>, resources: seq<Resource>)
    ensures Generate(teachers, courses, resources) == Refused <==> !Report.CanGenerate(teachers, courses, resources)
  {
  }

  /** A generated grid is the grid of a sound set of bookings: the five days
      by six slots, each cell the sessions booked there, no double-booking,
      every session on a slot its teacher lists with the first resource large
      enough, at most `weeklyHours` per course, the notices exactly those
      expected, and a "Total Sessions" figure equal to the sessions placed. */
  lemma GeneratedSound(teachers: seq<Teacher>, courses: seq<Course>, resources: seq<Resource>)
    ensures match Generate(teachers, courses, resources)
      case Generated(g, ws) =>
        exists st :: Sound(courses, |courses|, teachers, resources, st, ws) && st.grid == g
                     && Shaped(g) && Report.TotalSessions(g) == |st.bookings|
      case _ => true
  {
    if Report.CanGenerate(teachers, courses, resources) {
      ScheduleSound(courses, |courses|, teachers, resources);
      match Schedule(courses, |courses|, teachers, resources)
      case None =>
      case Some((st, ws)) =>
        WfShaped(st);
        WfTotal(st);
    }
  }

  /** Every teacher listing only configured slots rules out the abort. */
  lemma GenerateNoAbort(teachers: seq<Teacher>, courses: seq<Course>, resources: seq<Resource>)
    requires forall t :: t in teachers ==> ListsOnlySlots(t)
    ensures Generate(teachers, courses, resources) != Aborted
  {
    NoAbortOnConfiguredSlots(courses, |courses|, teachers, resources);
  }
}
