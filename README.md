# TIME-TABLE: a Dafny model of the timetable engine and its catalogs

TIME-TABLE is a school timetabling web application. An administrator keeps
three catalogs: teachers (with a weekly availability calendar), courses
(each with a teacher, a number of weekly hours and a student count) and
resources (rooms with a capacity). From these the dashboard generates a
timetable. It walks the courses in list order. Each course gets the teacher
with its `teacherId` and the first resource whose capacity covers its
students. The generator then scans the teacher's availability Monday to
Friday, slot by slot, and places sessions on a five-day by six-slot grid
until the course's weekly hours are met. One occupancy set of
`id-day-slot` keys stops any teacher or resource from being booked twice.
Courses that cannot be resolved are skipped. Courses that fall short raise a
"Partial Schedule" notice. A push onto a slot the grid lacks throws, and the
whole run is discarded.

The model covers:

- **The generator.** `Generator.GenerateTimetable` is the imperative loop,
  with a mutable grid, occupancy set, `break`s and counter. It is proved
  equal to the functional specification `Allocation.Generate`. The lemmas
  of module Allocation then prove, about every run:
  - no double-booking;
  - availability and capacity are respected;
  - no course gets more than its weekly hours;
  - the notices are exactly the expected ones;
  - a shortfall means the availability was exhausted;
  - earlier courses have priority;
  - the run aborts only on slots outside the configured six.
- **The dashboard state** (`Dashboard.AdminDashboard`). Its add, update and
  delete handlers are specified by the catalog functions of module Catalog.
  This includes the teacher-rename cascade and the refusal to delete a
  teacher who still has courses. Publishing needs a grid.
- **The figures of the generator panel** (module Report).
- **The teacher and resource forms**: list parsing and joining, and the
  availability toggles (modules Text, TeacherForm and ResourceForm).
- **The three API routes**, as in-memory stores over JSON records (modules
  Json, CourseRoute, TeacherRoute and ResourceRoute). This covers
  validation, the duplicate checks, the `||` defaults and the append.

Behaviour of the code worth knowing:

- **A slot outside the configured six aborts the run.** The code pushes onto
  `timetable[day][slot]`, which throws for such a slot, and the catch
  discards the run (`Allocation.Outcome.Aborted`).
- **No structural validation.** Nothing checks that a course has at least
  one weekly session or that a resource has a capacity of at least one. The
  run is refused only when a catalog is empty. A course with
  `weeklyHours <= 0` places nothing and raises no notice.
- **Teacher and resource keys collide.** The occupancy key is the same
  string for a teacher and a resource, so teacher *n* and resource *n*
  block each other. `Placement.Clash` keeps that.
- **Availability lists can hold duplicates.** The teacher form's toggle
  appends a slot even when it is already listed (`TeacherForm.ToggleSlot`).

## Model

| member | source | states |
|---|---|---|
| Generator.GenerateTimetable | components/admin-dashboard.tsx:189-283 | the imperative run (grid, occupancy set, course/day/slot loops with `break`, counter, abort on an undefined cell) computes exactly `Allocation.Generate` |
| Generator.InitialGrid | components/admin-dashboard.tsx:202-212 | the grid starts as exactly the five days by six slots, each cell an empty list |
| Generator.InitialRow | components/admin-dashboard.tsx:208-211 | one day's row has exactly the six configured slots, each empty |
| Generator.PlaceDay | components/admin-dashboard.tsx:232-256 | the slot loop for one day either throws exactly when the specification's scan does, or ends in the state the scan goes on from with the next day |
| Generator.PlaceCourse | components/admin-dashboard.tsx:225-257 | the day loop for one course ends in the specification's outcome: thrown, or the reached state and count |
| Generator.CourseDone | components/admin-dashboard.tsx:259-265 | a completed course leaves its state and adds a "Partial Schedule" notice exactly when placed < needed |
| Generator.CourseSkipped | components/admin-dashboard.tsx:217-223 | a course whose teacher or resource does not resolve changes nothing and adds the skip notice |
| Generator.ScanThrew | components/admin-dashboard.tsx:273-279 | once one course's push throws, the whole run comes out aborted |
| Allocation.Generate | components/admin-dashboard.tsx:189-197 | the whole run: refused on an empty catalog, aborted if a push threw, otherwise the grid with its notices |
| Allocation.TeacherWithIdFirst | components/admin-dashboard.tsx:217 | the teacher found is the first with the course's `teacherId`; none is found exactly when no teacher has it |
| Allocation.ResourceForFirst | components/admin-dashboard.tsx:218 | the resource found is the first, in list order, with `capacity >= studentCount`; none exactly when none qualifies |
| Allocation.AssignmentForSpec | components/admin-dashboard.tsx:217-223 | a course is skipped iff no teacher has its id or no resource holds its students; otherwise it uses that first teacher and first large-enough resource |
| Allocation.RefusedIffCannotGenerate | components/admin-dashboard.tsx:190-197 | generation is refused exactly when one of the three catalogs is empty |
| Allocation.GeneratedSound | components/admin-dashboard.tsx:214-268 | a generated grid is the grid of a set of bookings with no double-booking (teacher and resource keys untagged), every session on a slot its teacher lists with the first resource large enough, at most `weeklyHours` sessions per course, the notices exactly the expected ones, and a session total equal to the bookings placed |
| Allocation.ScheduleSound | components/admin-dashboard.tsx:216-266 | the course-loop invariant (well-formed state, legitimate bookings, counts within need, expected notices) holds after every prefix of the courses |
| Allocation.ScanCourseSound | components/admin-dashboard.tsx:225-265 | one scanned course keeps the course-loop invariant and adds only its own bookings |
| Allocation.SkipCourseSound | components/admin-dashboard.tsx:220-223 | a skipped course keeps the course-loop invariant |
| Allocation.ScanSlotsSound | components/admin-dashboard.tsx:234-256 | the slot loop keeps the state well formed and only adds bookings that fit the course's teacher, resource and listed slots |
| Allocation.ScanSlotsSoundBook | components/admin-dashboard.tsx:241-254 | one placement on a free cell, followed by the rest of the scan, keeps the state well formed and adds only fitting bookings |
| Allocation.ScanDaysSound | components/admin-dashboard.tsx:229-233 | the day loop keeps the state well formed and only adds fitting bookings |
| Allocation.BookAdvances | components/admin-dashboard.tsx:241-254 | a placement on a cell whose two keys are free adds exactly one fitting booking and keeps the state well formed |
| Allocation.AdvancesTrans | components/admin-dashboard.tsx:234-256 | successive steps of a scan compose: the bookings only grow by fitting ones and the occupancy only grows |
| Allocation.ScanSlotsExhausts | components/admin-dashboard.tsx:234-256 | a slot loop that ends below the need has found every listed slot of the day blocked |
| Allocation.ScanSlotsBook | components/admin-dashboard.tsx:241-254 | exhaustion carries across a placement: the booked slot stays blocked afterwards |
| Allocation.ScanSlotsStep | components/admin-dashboard.tsx:234-256 | exhaustion carries across a skipped (blocked) slot |
| Allocation.ScanDaysExhausts | components/admin-dashboard.tsx:229-235 | a day loop that ends below the need has found every slot the teacher lists on every remaining day blocked |
| Allocation.SlotsBlockedCons | components/admin-dashboard.tsx:241 | a blocked first slot followed by blocked remaining slots makes the whole list blocked |
| Allocation.DaysBlockedCons | components/admin-dashboard.tsx:229-232 | a fully blocked first day followed by fully blocked remaining days makes every day blocked |
| Allocation.ScanOutcome | components/admin-dashboard.tsx:225-265 | a course's scan places exactly the counted sessions, at most its need, and a shortfall means every listed slot on every day is blocked |
| Allocation.CourseOutcome | components/admin-dashboard.tsx:216-266 | per course: a skip changes nothing and adds the skip notice; otherwise placed <= need, "Partial Schedule" with placed/needed iff placed < need, and then every listed slot is blocked by the teacher's or the resource's key |
| Allocation.ScanCounts | components/admin-dashboard.tsx:254 | after a course's scan its booking count equals the counter and the earlier courses' counts are unchanged |
| Allocation.ScanLegit | components/admin-dashboard.tsx:237-253 | the bookings after a course's scan all belong to resolved courses and fit their assignments |
| Allocation.ScanWithinNeed | components/admin-dashboard.tsx:230-235 | after a course's scan no course has more sessions than its weekly hours |
| Allocation.ScanWarnings | components/admin-dashboard.tsx:259-265 | after a course's scan the notices are exactly the expected ones for the counts |
| Allocation.CountAppend | components/admin-dashboard.tsx:254 | a course's booking count over a concatenation is the sum of the counts |
| Allocation.CountUniform | components/admin-dashboard.tsx:254 | bookings all of one course count fully for it and zero for any other |
| Allocation.CountBelow | components/admin-dashboard.tsx:216 | a course not yet reached has no bookings |
| Allocation.ExpectedWarningsFrame | components/admin-dashboard.tsx:259-265 | the expected notices of the first courses depend only on their counts |
| Allocation.AbortIsFinal | components/admin-dashboard.tsx:273-279 | once a push has thrown, every longer prefix of the run is discarded as well |
| Allocation.SchedulePrefix | components/admin-dashboard.tsx:216 | earlier courses have priority: what the first k courses get does not depend on any later course |
| Allocation.CourseKeeps | components/admin-dashboard.tsx:252-253 | one course keeps every earlier booking and only adds to the occupancy set |
| Allocation.ScheduleKeeps | components/admin-dashboard.tsx:214-266 | later courses never take back a booking or free a key |
| Allocation.ScanSlotsNoAbort | components/admin-dashboard.tsx:242 | on a grid with all configured cells, a teacher listing only configured slots never makes the slot loop throw |
| Allocation.ScanDaysNoAbort | components/admin-dashboard.tsx:229-235 | the same for the day loop |
| Allocation.NoAbortOnConfiguredSlots | components/admin-dashboard.tsx:216-266 | when every teacher lists only configured slots, no course makes the run throw |
| Allocation.GenerateNoAbort | components/admin-dashboard.tsx:273-279 | when every teacher lists only configured slots, the run is never aborted |
| Allocation.TeacherWithIdIn | components/admin-dashboard.tsx:217 | the teacher found belongs to the catalog |
| Placement.EmptyGrid | components/admin-dashboard.tsx:202-212 | the initial grid has exactly the configured days and slots, every cell empty |
| Placement.Place | components/admin-dashboard.tsx:242-250 | a push onto an existing cell keeps every day and slot of the grid |
| Placement.BookWf | components/admin-dashboard.tsx:237-253 | placing a booking whose teacher and resource keys are free keeps grid, occupancy set and bookings in step, with no clash |
| Placement.BookNoClash | components/admin-dashboard.tsx:241 | free keys mean the new booking clashes with no earlier one |
| Placement.KeysOfPush | components/admin-dashboard.tsx:252-253 | a booking adds exactly its teacher key and its resource key to the occupancy set |
| Placement.KeysOfHolds | components/admin-dashboard.tsx:252-253 | every booking's two keys are in the occupancy set |
| Placement.GridOfPush | components/admin-dashboard.tsx:242 | booking one more session pushes it onto its own cell and nowhere else |
| Placement.RowOfPush | components/admin-dashboard.tsx:242 | within one day, only the booked slot's cell grows |
| Placement.CellOfPush | components/admin-dashboard.tsx:242 | a cell's list grows by the session exactly when the booking is for that cell |
| Placement.InitialWf | components/admin-dashboard.tsx:202-214 | the empty grid, empty occupancy set and no bookings are in step |
| Placement.WfShaped | components/admin-dashboard.tsx:202-212 | a well-formed state's grid has exactly the five days and six slots |
| Placement.GridOfCount | components/timetable-generator.tsx:228-236 | the session total of the grid of some bookings is their number |
| Placement.WfTotal | components/timetable-generator.tsx:228-236 | the "Total Sessions" figure of a well-formed state is the number of sessions placed |
| Dashboard.AdminDashboard.constructor | components/admin-dashboard.tsx:61-66 | the dashboard starts with empty catalogs, no grid and nothing published |
| Dashboard.AdminDashboard.AddTeacher | components/admin-dashboard.tsx:303-313 | the teachers become `Catalog.AddTeacher` of the old list; nothing else changes |
| Dashboard.AdminDashboard.UpdateTeacher | components/admin-dashboard.tsx:315-325 | the teachers are patched and the courses renamed by `Catalog.CascadeRename`; resources, grid and flag unchanged |
| Dashboard.AdminDashboard.DeleteTeacher | components/admin-dashboard.tsx:327-345 | answers `Catalog.DeleteTeacher`; the list changes only when the deletion is not refused |
| Dashboard.AdminDashboard.AddCourse | components/admin-dashboard.tsx:348-358 | the courses become `Catalog.AddCourse` of the old list; nothing else changes |
| Dashboard.AdminDashboard.UpdateCourse | components/admin-dashboard.tsx:360-366 | the courses become `Catalog.UpdateCourses` of the old list; nothing else changes |
| Dashboard.AdminDashboard.DeleteCourse | components/admin-dashboard.tsx:368-375 | the courses become `Catalog.DeleteCourse` of the old list; nothing else changes |
| Dashboard.AdminDashboard.AddResource | components/admin-dashboard.tsx:378-388 | the resources become `Catalog.AddResource` of the old list; nothing else changes |
| Dashboard.AdminDashboard.UpdateResource | components/admin-dashboard.tsx:390-396 | the resources become `Catalog.UpdateResources` of the old list; nothing else changes |
| Dashboard.AdminDashboard.DeleteResource | components/admin-dashboard.tsx:398-405 | the resources become `Catalog.DeleteResource` of the old list; nothing else changes |
| Dashboard.AdminDashboard.GenerateTimetable | components/admin-dashboard.tsx:189-283 | the run is `Allocation.Generate` of the catalogs; the grid is stored only when generated, the old one kept on refusal or abort |
| Dashboard.AdminDashboard.PublishTimetable | components/admin-dashboard.tsx:285-300 | publishing succeeds iff a grid exists and only then sets the published flag |
| Catalog.UpdateTeachers | components/admin-dashboard.tsx:316 | same length; every teacher with the id is patched (`{ ...t, ...p }`), every other one kept in place |
| Catalog.CascadeRename | components/admin-dashboard.tsx:318-320 | on a non-empty new name exactly the courses with that `teacherId` get it as `teacher`; no other field or course changes |
| Catalog.DeleteTeacher | components/admin-dashboard.tsx:327-345 | refused iff some course has the teacher's id, with the count of such courses; otherwise exactly the teachers with that id are removed |
| Catalog.AddThenDeleteTeacher | components/admin-dashboard.tsx:303-345 | adding a teacher under an unused id and deleting it restores the list |
| Catalog.UpdateTeachersIdempotent | components/admin-dashboard.tsx:316 | applying the same patch twice is applying it once |
| Catalog.RemoveKeepsLookup | components/admin-dashboard.tsx:340 | removing one id leaves the lookup of every other id unchanged |
| Catalog.DeleteKeepsAssignments | components/admin-dashboard.tsx:327-345 | an allowed deletion leaves every course's teacher lookup unchanged |
| Catalog.DeleteKeepsTimetable | components/admin-dashboard.tsx:327-345 | an allowed deletion (leaving a teacher) does not change the timetable generated |
| Catalog.SameScheduleWhenSameTeachers | components/admin-dashboard.tsx:217 | two teacher lists giving every course the same lookup give the same schedule |
| Catalog.UpdateLookup | components/admin-dashboard.tsx:316 | after a patch that keeps the id, looking up that id finds the patched teacher and every other id finds what it found before |
| Catalog.UpdateKeepsNamesInStep | components/admin-dashboard.tsx:315-325 | a rename with a non-empty name keeps every course's `teacher` equal to its teacher's name |
| Catalog.EmptyNameLeavesCoursesBehind | components/admin-dashboard.tsx:318 | a patch with an empty name renames the teacher but not the courses, which then disagree |
| Catalog.UpdateCourses | components/admin-dashboard.tsx:361 | same length; every course with the id is patched, every other one kept in place |
| Catalog.DeleteCourse | components/admin-dashboard.tsx:369-370 | the result is the order-keeping filter of the list: no course keeps the id, every course with another id stays, nothing else is added, and the length drops by the number of courses with the id |
| Catalog.AddThenDeleteCourse | components/admin-dashboard.tsx:348-375 | adding a course under an unused id and deleting it restores the list |
| Catalog.UpdateCoursesIdempotent | components/admin-dashboard.tsx:361 | applying the same patch twice is applying it once |
| Catalog.UpdateResources | components/admin-dashboard.tsx:391 | same length; every resource with the id is patched, every other one kept in place |
| Catalog.DeleteResource | components/admin-dashboard.tsx:399-400 | the result is the order-keeping filter of the list: no resource keeps the id, every resource with another id stays, nothing else is added, and the length drops by the number of resources with the id |
| Catalog.AddThenDeleteResource | components/admin-dashboard.tsx:378-405 | adding a resource under an unused id and deleting it restores the list |
| Catalog.UpdateResourcesIdempotent | components/admin-dashboard.tsx:391 | applying the same patch twice is applying it once |
| Report.DifficultyColor | components/timetable-generator.tsx:62-73 | "high", "medium" and "low" get red, yellow and green; exactly every other string gets gray |
| Report.DifficultyColorInjective | components/timetable-generator.tsx:62-73 | the three difficulties get three different colours |
| Report.TotalSessions | components/timetable-generator.tsx:228-236 | the session total is never negative |
| Report.TotalSessionsPush | components/timetable-generator.tsx:228-236 | a push onto one existing cell raises the total by exactly one |
| Report.TotalSessionsOfEmpty | components/timetable-generator.tsx:228-236 | a grid of empty cells totals zero |
| Report.SlotSizesSet | components/timetable-generator.tsx:147 | replacing one day's list changes a teacher's slot count by the difference in length |
| Report.SlotCountAdd | components/timetable-generator.tsx:147 | adding one slot to one day raises the count by one, duplicates included |
| Report.TotalsSplit | components/timetable-generator.tsx:157-167 | total weekly hours and total capacity split over a concatenation of catalogs |
| Report.TotalTimeSlotsSplit | components/timetable-generator.tsx:147 | the time-slot total splits over a concatenation of teacher lists |
| Text.Trim | components/admin-teacher-management.tsx:74 | the result is an infix of the input with only white space dropped on either side, and it neither starts nor ends with JavaScript white space |
| Text.TrimUnique | components/admin-teacher-management.tsx:74 | only one infix meets both clauses of `Trim`'s contract, so they determine the trimmed string |
| Text.TrimOfTrimmed | components/admin-teacher-management.tsx:74 | a string with no outer white space is its own trim |
| Text.TrimLeadingBlank | components/admin-teacher-management.tsx:74 | a leading blank does not change the trim |
| Text.TrimKeepsCommaFree | components/admin-teacher-management.tsx:74 | trimming a comma-free string gives a comma-free string |
| Text.CleanKeepsCommaFree | components/admin-teacher-management.tsx:73-75 | trimming and filtering comma-free pieces gives comma-free items |
| Text.Split | components/admin-teacher-management.tsx:73 | the pieces contain no separator and, joined back with it, give the input |
| Text.ParseList | components/admin-teacher-management.tsx:72-75 | split on ",", each piece trimmed, empty pieces dropped: every item is non-empty, trimmed and comma-free |
| Text.ParseEmpty | components/admin-resource-management.tsx:72-75 | an empty field parses to no items |
| Text.ParseJoinRoundTrip | components/admin-teacher-management.tsx:72-75 | joining with ", " and parsing again gives back a list of non-empty, trimmed, comma-free items |
| Text.ParseListNormalises | components/admin-teacher-management.tsx:72-75 | parsing a list that was already parsed and joined changes nothing |
| Text.ToLower | components/admin-resource-management.tsx:111 | lower-casing keeps the length and lower-cases each letter |
| Text.ToLowerIdempotent | components/admin-resource-management.tsx:111 | lower-casing twice is lower-casing once |
| TeacherForm.Submit | components/admin-teacher-management.tsx:68-79 | the submitted patch carries no id; name, email, availability, hour limit and department are the form's; subjects are the parsed field, all clean items |
| TeacherForm.EditSubmitAdds | components/admin-teacher-management.tsx:66-102 | editing a teacher and submitting the form unchanged as a new teacher gives every field back but the id, when its subjects are clean |
| TeacherForm.EditSubmitRoundTrip | components/admin-teacher-management.tsx:66-102 | editing a teacher and submitting the form unchanged patches the teacher into itself, when its subjects are clean |
| TeacherForm.CommaSubjectSplits | components/admin-teacher-management.tsx:72-75 | a subject containing a comma comes back as two subjects |
| TeacherForm.ToggleSlot | components/admin-teacher-management.tsx:104-114 | checking appends the slot (again if present) to the day, a missing day counting as empty; unchecking drops every occurrence; other days and fields unchanged; the box then shows the new state |
| TeacherForm.CheckThenUncheck | components/admin-teacher-management.tsx:104-114 | checking an unlisted slot and unchecking it restores the form |
| TeacherForm.UncheckIdempotent | components/admin-teacher-management.tsx:111 | unchecking twice is unchecking once |
| ResourceForm.Submit | components/admin-resource-management.tsx:68-78 | the submitted patch carries no id; name, type, capacity, location and availability are the form's; equipment is the parsed field, all clean items |
| ResourceForm.EditSubmitAdds | components/admin-resource-management.tsx:65-101 | editing a resource and submitting the form unchanged as a new resource gives every field back but the id, when its equipment is clean |
| ResourceForm.SubmitEmptyEquipment | components/admin-resource-management.tsx:72-75 | an empty equipment field submits an empty list |
| ResourceForm.EditSubmitRoundTrip | components/admin-resource-management.tsx:65-101 | editing a resource and submitting unchanged patches it into itself, when its equipment is clean |
| ResourceForm.ToggleDay | components/admin-resource-management.tsx:103-108 | checking appends the day (again if present); unchecking drops every occurrence keeping the order; other fields unchanged; the box then shows the new state |
| ResourceForm.CheckThenUncheck | components/admin-resource-management.tsx:103-108 | checking an unlisted day and unchecking it restores the form |
| ResourceForm.TypeColor | components/admin-resource-management.tsx:110-123 | the lower-cased type picks blue, purple, green or orange for the four names and gray exactly for every other type |
| ResourceForm.TypeColorIgnoresCase | components/admin-resource-management.tsx:111 | a type and its lower-cased form get the same colour |
| ResourceForm.ComputerLabIsGreen | components/admin-resource-management.tsx:116-117 | "Computer Lab" in mixed case is green |
| Json.OrDefault | app/api/courses/route.ts:56-60 | `x || d` keeps a truthy field and takes the default for `undefined`, `null`, `false`, `0` and `""` |
| Json.UniqueAppend | app/api/courses/route.ts:49-63 | appending a record whose key is not taken keeps the key unique |
| Json.Status | app/api/courses/route.ts:44-66 | 200 exactly for a created record, 400 for a refusal, 500 for an unreadable body |
| CourseRoute.NewCourse | app/api/courses/route.ts:53-61 | the stored course has the body's fields plus id and the five defaults; a body `id` overrides the timestamp; falsy credits, difficulty, studentsEnrolled, duration and requiresLab become 3, "Beginner", 0, 60 and false |
| CourseRoute.Respond | app/api/courses/route.ts:39-68 | 500 iff the body is unreadable or `null`; 400 iff a required field is falsy or the code is taken, the missing-field message taking precedence; otherwise the new course, whose code is not taken |
| CourseRoute.RespondKeepsCodesUnique | app/api/courses/route.ts:49-63 | a successful POST keeps the stored codes pairwise distinct |
| CourseRoute.RepostRejected | app/api/courses/route.ts:49-51 | posting an accepted body again is refused as a duplicate when its code is a primitive |
| CourseRoute.ArrayCodeAcceptedTwice | app/api/courses/route.ts:49 | a code that is an array is never `===` a stored one, so it is accepted twice |
| CourseRoute.ZeroCreditsBecomeThree | app/api/courses/route.ts:56 | an explicit `credits: 0` is stored as 3 |
| CourseRoute.CourseStore.constructor | app/api/courses/route.ts:4-33 | the store holds the seed list, whose codes are distinct |
| CourseRoute.CourseStore.Get | app/api/courses/route.ts:35-37 | GET returns the stored courses unchanged |
| CourseRoute.CourseStore.Post | app/api/courses/route.ts:39-68 | POST answers `Respond`, appends exactly the new course on success and leaves the list unchanged otherwise, keeping codes unique |
| TeacherRoute.NewTeacher | app/api/teachers/route.ts:57-64 | the stored teacher has the body's fields plus id and the four defaults; a body `id` overrides the timestamp; falsy subjects, availability, phone and maxHoursPerWeek become [], {}, "" and 20 |
| TeacherRoute.Respond | app/api/teachers/route.ts:43-71 | 500 iff the body is unreadable or `null`; 400 iff a required field is falsy or the email is taken, the missing-field message taking precedence; otherwise the new teacher |
| TeacherRoute.RespondKeepsEmailsUnique | app/api/teachers/route.ts:53-66 | a successful POST keeps the stored emails pairwise distinct |
| TeacherRoute.RepostRejected | app/api/teachers/route.ts:53-55 | posting an accepted body again is refused as a duplicate when its email is a primitive |
| TeacherRoute.EmptySubjectsKeptZeroHoursDefaulted | app/api/teachers/route.ts:60-63 | an empty subjects array is truthy and kept; a zero hour limit becomes 20 |
| TeacherRoute.TeacherStore.constructor | app/api/teachers/route.ts:4-37 | the store holds the seed list, whose emails are distinct |
| TeacherRoute.TeacherStore.Get | app/api/teachers/route.ts:39-41 | GET returns the stored teachers unchanged |
| TeacherRoute.TeacherStore.Post | app/api/teachers/route.ts:43-71 | POST answers `Respond`, appends exactly the new teacher on success and leaves the list unchanged otherwise, keeping emails unique |
| ResourceRoute.NewResource | app/api/resources/route.ts:50-57 | the stored resource has the body's fields plus id and the four defaults; a body `id` overrides the timestamp; falsy capacity, location, equipment and availability become 30, "", [] and {} |
| ResourceRoute.Respond | app/api/resources/route.ts:41-64 | 500 iff the body is unreadable or `null`; 400 iff name or type is falsy; otherwise the new resource, whatever is stored |
| ResourceRoute.ZeroCapacityBecomesThirty | app/api/resources/route.ts:53 | a capacity of 0 is stored as 30 |
| ResourceRoute.SameBodyAcceptedAgain | app/api/resources/route.ts:46-59 | with no uniqueness check, an accepted body is accepted again and the two records differ only in id |
| ResourceRoute.ResourceStore.constructor | app/api/resources/route.ts:4-35 | the store holds the seed list |
| ResourceRoute.ResourceStore.Get | app/api/resources/route.ts:37-39 | GET returns the stored resources unchanged |
| ResourceRoute.ResourceStore.Post | app/api/resources/route.ts:41-64 | POST answers `Respond`, appends exactly the new resource on success and leaves the list unchanged otherwise |

## Left out

- React and request plumbing: `useState` setters, `useCallback`, toasts, `console.warn`, the `isGenerating` flag, `async`, `NextResponse`. Skip and shortfall notices are returned as `Allocation.Warning` lists. HTTP answers are `Json.Response`.
- Generated ids: `Date.now()` is a parameter (`now`). It is an integer in the dashboard and a string in the API routes, as `toString()` makes it.
- The seed records of the three routes are the constructors' `seed` parameter. The courses and teachers stores require distinct codes and emails, which the source's seeds have.
- `request.json()` is not modelled as parsing. The body arrives already parsed, with None for text that is not JSON (the 500 path). A `null` body also gives 500, because reading a property of `null` throws. Any other exception inside the handlers is not modelled.
- JSON numbers are exact reals. NaN, infinities and floating-point rounding are not modelled. Field order of JSON objects is not kept: records are maps.
- Array and object values under `===` are never equal. This holds because a freshly parsed body never shares a reference with a stored record.
- Text.ToLower: lower-cases ASCII letters only. `toLowerCase` also folds other Unicode letters, which the model does not capture.
- Fields the generator never reads are stored but never enforced: `maxHours`, resource `availability`, the teacher's department.
- Allocation.Generate: an aborted run (`Outcome.Aborted`) carries no notices, although the skip warnings and "Partial Schedule" toasts of the courses before the throwing one have already been shown by then.
- The `useEffect` of `components/admin-dashboard.tsx` that loads three sample teachers, courses and resources on mount is not modelled. `Dashboard.AdminDashboard.constructor` starts from the empty `useState` values, and the samples can be added through the add handlers.
- The dashboard's numbers (ids, `weeklyHours`, `studentCount`, `capacity`, `maxHours`) are integers, as the forms' `parseInt` produce them. Fractional values, NaN and floating-point comparison in the loop exits are not modelled.
- The rendering components are not part of this model.
- Export and sharing, the random sample generator and the mock generation route are not part of this model.
- `admin-course-management.tsx` is not part of this model. It is form plumbing around a teacher lookup.
