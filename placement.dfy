/** The working state of the timetable generator (components/admin-dashboard.tsx,
    `generateTimetable`): the day -> slot -> sessions grid, the occupancy set of
    `${id}-${day}-${slot}` keys, and, as a ghost record for the proofs, the
    sequence of bookings made so far. `Wf` ties the three together. */
module Placement {
  import opened Collections
  import opened Entities
  import Report

  /** An occupancy key. The source builds the same string for teacher id n and
      resource id n, so the id carries no tag saying which kind it is. */
  datatype Key = Key(id: int, day: string, slot: string)

  /** A course with the teacher and the resource resolved for it; `index` is
      the course's position in the course list. */
  datatype Assignment = Assignment(index: nat, course: Course, teacher: Teacher, resource: Resource)

  /** One placed session together with what placed it. */
  datatype Booking = Booking(course: nat, teacherId: int, resourceId: int, day: string, slot: string, session: Session)

  datatype State = State(grid: Grid, occupied: set<Key>, bookings: seq<Booking>)

  /** The object pushed into the grid for a session of the assignment's course. */
  function SessionOf(a: Assignment): Session {
    Session(a.course.name, a.course.code, a.teacher.name, a.resource.name,
            a.course.studentCount, a.course.difficulty, a.course.department)
  }

  function BookingOf(a: Assignment, day: string, slot: string): Booking {
    Booking(a.index, a.teacher.id, a.resource.id, day, slot, SessionOf(a))
  }

  function TeacherKey(b: Booking): Key { Key(b.teacherId, b.day, b.slot) }

  function ResourceKey(b: Booking): Key { Key(b.resourceId, b.day, b.slot) }

  /** Exactly the five days, each with exactly the six slots. */
  ghost predicate Shaped(g: Grid) {
    && (forall d :: d in g <==> d in Days)
    && (forall d, s :: d in g ==> (s in g[d] <==> s in Slots))
  }

  /** The grid the generator starts from: every configured cell an empty list. */
  function EmptyGrid(): (g: Grid)
    ensures Shaped(g)
    ensures forall d, s :: d in g && s in g[d] ==> g[d][s] == []
  {
    map d | d in Days :: map s | s in Slots :: []
  }

  /** `timetable[day][slot].push(x)` on a cell that exists. */
  function Place(g: Grid, day: string, slot: string, x: Session): (g': Grid)
    requires day in g && slot in g[day]
    ensures g'.Keys == g.Keys
    ensures forall d :: d in g ==> g'[d].Keys == g[d].Keys
  {
    g[day := g[day][slot := g[day][slot] + [x]]]
  }

  /** Placing a booking: push its session, add both of its keys. */
  function Book(st: State, b: Booking): State
    requires b.day in st.grid && b.slot in st.grid[b.day]
  {
    State(Place(st.grid, b.day, b.slot, b.session),
          st.occupied + {TeacherKey(b), ResourceKey(b)},
          st.bookings + [b])
  }

  /** The sessions of the bookings at one cell, in booking order. */
  ghost function CellOf(bs: seq<Booking>, day: string, slot: string): seq<Session>
    decreases |bs|
  {
    if bs == [] then []
    else
      var b := bs[|bs| - 1];
      CellOf(bs[..|bs| - 1], day, slot) + (if b.day == day && b.slot == slot then [b.session] else [])
  }

  /** Both keys of every booking. */
  ghost function KeysOf(bs: seq<Booking>): set<Key>
    decreases |bs|
  {
    if bs == [] then {}
    else
      var b := bs[|bs| - 1];
      KeysOf(bs[..|bs| - 1]) + {TeacherKey(b), ResourceKey(b)}
  }

  /** Two bookings in the same cell share an id, whether as teacher or as resource. */
  predicate Clash(b1: Booking, b2: Booking) {
    && b1.day == b2.day && b1.slot == b2.slot
    && (|| b1.teacherId == b2.teacherId || b1.teacherId == b2.resourceId
        || b1.resourceId == b2.teacherId || b1.resourceId == b2.resourceId)
  }

  /** No double-booking: no two bookings clash. */
  predicate NoClash(bs: seq<Booking>) {
    forall i, j :: 0 <= i < j < |bs| ==> !Clash(bs[i], bs[j])
  }

  /** The grid a sequence of bookings fills in, starting from the empty grid. */
  ghost function GridOf(bs: seq<Booking>): Grid {
    map d | d in Days :: RowOf(bs, d)
  }

  ghost function RowOf(bs: seq<Booking>, day: string): map<string, seq<Session>> {
    map s | s in Slots :: CellOf(bs, day, s)
  }

  /** Every booking lies on a configured day and slot. */
  ghost predicate OnGrid(bs: seq<Booking>) {
    forall i :: 0 <= i < |bs| ==> bs[i].day in Days && bs[i].slot in Slots
  }

  /** The grid holds exactly the booked sessions, cell by cell and in booking
      order, the occupancy set holds exactly their keys, and no two of them
      clash. */
  ghost predicate Wf(st: State) {
    && OnGrid(st.bookings)
    && st.grid == GridOf(st.bookings)
    && st.occupied == KeysOf(st.bookings)
    && NoClash(st.bookings)
  }

  function Initial(): State {
    State(EmptyGrid(), {}, [])
  }

  lemma InitialWf()
    ensures Wf(Initial())
  {
    assert forall d | d in Days :: RowOf([], d) == EmptyGrid()[d];
  }

  /** The grid of a well-formed state has exactly the five days and six slots. */
  lemma WfShaped(st: State)
    requires Wf(st)
    ensures Shaped(st.grid)
  {
  }

  /** Every booking's two keys are in the occupancy record. */
  lemma {:induction false} KeysOfHolds(bs: seq<Booking>, i: int)
    requires 0 <= i < |bs|
    ensures TeacherKey(bs[i]) in KeysOf(bs) && ResourceKey(bs[i]) in KeysOf(bs)
    decreases |bs|
  {
    if i < |bs| - 1 {
      KeysOfHolds(bs[..|bs| - 1], i);
    }
  }

  lemma KeysOfPush(bs: seq<Booking>, b: Booking)
    ensures KeysOf(bs + [b]) == KeysOf(bs) + {TeacherKey(b), ResourceKey(b)}
  {
    assert (bs + [b])[..|bs|] == bs;
  }

  lemma CellOfPush(bs: seq<Booking>, b: Booking, day: string, slot: string)
    ensures CellOf(bs + [b], day, slot)
         == CellOf(bs, day, slot) + (if b.day == day && b.slot == slot then [b.session] else [])
  {
    assert (bs + [b])[..|bs|] == bs;
  }

  lemma RowOfPush(bs: seq<Booking>, b: Booking, day: string)
    requires b.slot in Slots
    ensures var r := RowOf(bs, day);
      RowOf(bs + [b], day) == if day == b.day then r[b.slot := r[b.slot] + [b.session]] else r
  {
    var r, r' := RowOf(bs, day), RowOf(bs + [b], day);
    var want := if day == b.day then r[b.slot := r[b.slot] + [b.session]] else r;
    forall s | s in Slots
      ensures r'[s] == want[s]
    {
      CellOfPush(bs, b, day, s);
    }
    assert r'.Keys == want.Keys;
  }

  /** Booking one more session pushes it onto its own cell and nowhere else. */
  lemma GridOfPush(bs: seq<Booking>, b: Booking)
    requires b.day in Days && b.slot in Slots
    ensures GridOf(bs + [b]) == Place(GridOf(bs), b.day, b.slot, b.session)
  {
    forall d | d in Days {
      RowOfPush(bs, b, d);
    }
  }

  lemma BookNoClash(st: State, b: Booking)
    requires Wf(st)
    requires TeacherKey(b) !in st.occupied && ResourceKey(b) !in st.occupied
    ensures NoClash(st.bookings + [b])
  {
    var bs := st.bookings + [b];
    forall i, j | 0 <= i < j < |bs|
      ensures !Clash(bs[i], bs[j])
    {
      if j == |bs| - 1 {
        KeysOfHolds(st.bookings, i);
      }
    }
  }

  /** Booking a cell whose two keys are free keeps the state well formed. */
  lemma BookWf(st: State, b: Booking)
    requires Wf(st) && b.day in Days && b.slot in Slots
    requires TeacherKey(b) !in st.occupied && ResourceKey(b) !in st.occupied
    ensures b.day in st.grid && b.slot in st.grid[b.day]
    ensures Wf(Book(st, b))
  {
    WfShaped(st);
    var bs := st.bookings + [b];
    assert OnGrid(bs) by {
      forall i | 0 <= i < |bs|
        ensures bs[i].day in Days && bs[i].slot in Slots
      {
        if i < |st.bookings| {
          assert bs[i] == st.bookings[i];
        }
      }
    }
    assert NoClash(bs) by {
      BookNoClash(st, b);
    }
    assert KeysOf(bs) == st.occupied + {TeacherKey(b), ResourceKey(b)} by {
      KeysOfPush(st.bookings, b);
    }
    assert GridOf(bs) == Place(st.grid, b.day, b.slot, b.session) by {
      GridOfPush(st.bookings, b);
    }
  }

  lemma {:induction false} GridOfCount(bs: seq<Booking>)
    requires OnGrid(bs)
    ensures Report.TotalSessions(GridOf(bs)) == |bs|
    decreases |bs|
  {
    if bs == [] {
      Report.TotalSessionsOfEmpty(GridOf(bs));
    } else {
      var b, bs0 := bs[|bs| - 1], bs[..|bs| - 1];
      assert bs == bs0 + [b];
      GridOfCount(bs0);
      GridOfPush(bs0, b);
      Report.TotalSessionsPush(GridOf(bs0), b.day, b.slot, b.session);
    }
  }

  /** The "Total Sessions" figure of a well-formed state is the number of
      sessions placed. */
  lemma WfTotal(st: State)
    requires Wf(st)
    ensures Report.TotalSessions(st.grid) == |st.bookings|
  {
    GridOfCount(st.bookings);
  }
}
