/**
 Timetable slots: create, update and cancel of
 app/modules/timetables/service.py with the overlap checks of its repository.
 */
module Slots {
  import opened Prelude

  type Id = nat

  datatype Status = ACTIVE | CANCELLED | SUBSTITUTED

  datatype Day = MONDAY | TUESDAY | WEDNESDAY | THURSDAY | FRIDAY | SATURDAY | SUNDAY

  // Dates are day numbers; no effectiveTo means no end.
  datatype Slot = Slot(
    school: Id, timetable: Option<Id>, cohort: Id, period: Id, teacher: Id, subject: Id, day: Day,
    effectiveFrom: int, effectiveTo: Option<int>, status: Status, notes: Option<string>, version: nat)

  /** The school each period, teacher and subject belongs to. */
  datatype Directory = Directory(periods: map<Id, Id>, teachers: map<Id, Id>, subjects: map<Id, Id>)

  datatype State = State(slots: map<Id, Slot>, nextId: Id)

  datatype Data = Data(
    cohort: Id, period: Id, teacher: Id, subject: Id, day: Day,
    effectiveFrom: int, effectiveTo: Option<int>, notes: Option<string>)

  /** The fields of an update that are present; none of them can be set to null. */
  datatype Patch = Patch(
    teacher: Option<Id>, subject: Option<Id>, effectiveTo: Option<int>, status: Option<Status>, notes: Option<string>)

  datatype Op =
    | Create(data: Data)
    | Update(id: Id, patch: Patch, version: nat)
    | Cancel(id: Id, today: int)

  datatype Error =
    | TeacherConflict | CohortConflict | PeriodNotFound | TeacherMismatch | SubjectMismatch | IntegrityError
    | SlotNotFound | StaleResource

  // ------------------------------------------------------------------
  // Specification
  // ------------------------------------------------------------------

  predicate Overlaps(slot: Slot, from: int, to: Option<int>) {
    && (to.None? || slot.effectiveFrom <= to.value)
    && (slot.effectiveTo.None? || slot.effectiveTo.value >= from)
  }

  predicate SameHour(slot: Slot, period: Id, day: Day) {
    slot.period == period && slot.day == day && slot.status == ACTIVE
  }

  predicate TeacherBusy(slots: map<Id, Slot>, teacher: Id, period: Id, day: Day, from: int, to: Option<int>,
                        except: Option<Id>) {
    exists id | id in slots ::
      && slots[id].teacher == teacher && SameHour(slots[id], period, day) && Overlaps(slots[id], from, to)
      && Some(id) != except
  }

  predicate CohortBusy(slots: map<Id, Slot>, cohort: Id, period: Id, day: Day, from: int, to: Option<int>,
                       except: Option<Id>) {
    exists id | id in slots ::
      && slots[id].cohort == cohort && SameHour(slots[id], period, day) && Overlaps(slots[id], from, to)
      && Some(id) != except
  }

  /** Unique constraint uq_slot_cohort_period_day_date. */
  predicate Duplicate(slots: map<Id, Slot>, d: Data) {
    exists id | id in slots ::
      slots[id].cohort == d.cohort && slots[id].period == d.period && slots[id].day == d.day
      && slots[id].effectiveFrom == d.effectiveFrom
  }

  function NewSlot(d: Data, school: Id): Slot {
    Slot(school, None, d.cohort, d.period, d.teacher, d.subject, d.day, d.effectiveFrom, d.effectiveTo,
         ACTIVE, d.notes, 1)
  }

  function Or<T>(change: Option<T>, current: T): T {
    if change.Some? then change.value else current
  }

  function Patched(slot: Slot, p: Patch): Slot {
    slot.(teacher := Or(p.teacher, slot.teacher), subject := Or(p.subject, slot.subject),
          effectiveTo := if p.effectiveTo.Some? then p.effectiveTo else slot.effectiveTo,
          status := Or(p.status, slot.status), notes := if p.notes.Some? then p.notes else slot.notes,
          version := slot.version + 1)
  }

  function UpdateSlot(slots: map<Id, Slot>, id: Id, p: Patch): Result<map<Id, Slot>, Error>
    requires id in slots
  {
    var after := Patched(slots[id], p);
    if p.teacher.Some?
       && TeacherBusy(slots, after.teacher, after.period, after.day, after.effectiveFrom, after.effectiveTo, Some(id))
    then Err(TeacherConflict)
    else if CohortBusy(slots, after.cohort, after.period, after.day, after.effectiveFrom, after.effectiveTo, Some(id))
    then Err(CohortConflict)
    else Ok(slots[id := after])
  }

  function Apply(s: State, dir: Directory, school: Id, op: Op): Result<State, Error> {
    match op
    case Create(d) =>
      if TeacherBusy(s.slots, d.teacher, d.period, d.day, d.effectiveFrom, d.effectiveTo, None)
      then Err(TeacherConflict)
      else if CohortBusy(s.slots, d.cohort, d.period, d.day, d.effectiveFrom, d.effectiveTo, None)
      then Err(CohortConflict)
      else if d.period !in dir.periods || dir.periods[d.period] != school then Err(PeriodNotFound)
      else if d.teacher !in dir.teachers || dir.teachers[d.teacher] != school then Err(TeacherMismatch)
      else if d.subject !in dir.subjects || dir.subjects[d.subject] != school then Err(SubjectMismatch)
      else if Duplicate(s.slots, d) then Err(IntegrityError)
      else Ok(State(s.slots[s.nextId := NewSlot(d, school)], s.nextId + 1))
    case Update(id, p, version) =>
      if id !in s.slots || s.slots[id].school != school then Err(SlotNotFound)
      else if s.slots[id].version != version then Err(StaleResource)
      else
        var r := UpdateSlot(s.slots, id, p);
        if r.Err? then Err(r.error) else Ok(s.(slots := r.value))
    case Cancel(id, today) =>
      if id !in s.slots || s.slots[id].school != school then Err(SlotNotFound)
      else
        var slot := s.slots[id];
        var after := slot.(status := CANCELLED, effectiveTo := Some(today), version := slot.version + 1);
        Ok(s.(slots := s.slots[id := after]))
  }

  datatype Request = Request(school: Id, op: Op)

  function Serve(s: State, dir: Directory, req: Request): State {
    var r := Apply(s, dir, req.school, req.op);
    if r.Ok? then r.value else s
  }

  function Run(s: State, dir: Directory, reqs: seq<Request>): State {
    if reqs == [] then s else Serve(Run(s, dir, reqs[..|reqs| - 1]), dir, reqs[|reqs| - 1])
  }

  const Empty := State(map[], 0)

  // ------------------------------------------------------------------
  // The service
  // ------------------------------------------------------------------

  class SlotService {
    var s: State
    const dir: Directory

    constructor (dir: Directory)
      ensures s == Empty && this.dir == dir
    {
      this.s, this.dir := Empty, dir;
    }

    method CreateSlot(school: Id, d: Data) returns (r: Result<Id, Error>)
      modifies this
      ensures Answers(old(s), s, r, Apply(old(s), dir, school, Create(d)))
      ensures r.Ok? ==> r.value == old(s).nextId
    {
      if TeacherBusy(s.slots, d.teacher, d.period, d.day, d.effectiveFrom, d.effectiveTo, None) {
        return Err(TeacherConflict);
      }
      if CohortBusy(s.slots, d.cohort, d.period, d.day, d.effectiveFrom, d.effectiveTo, None) {
        return Err(CohortConflict);
      }
      if d.period !in dir.periods || dir.periods[d.period] != school {
        return Err(PeriodNotFound);
      }
      if d.teacher !in dir.teachers || dir.teachers[d.teacher] != school {
        return Err(TeacherMismatch);
      }
      if d.subject !in dir.subjects || dir.subjects[d.subject] != school {
        return Err(SubjectMismatch);
      }
      if Duplicate(s.slots, d) {
        return Err(IntegrityError);
      }
      r := Ok(s.nextId);
      s := State(s.slots[s.nextId := NewSlot(d, school)], s.nextId + 1);
    }

    method EditSlot(school: Id, id: Id, p: Patch, version: nat) returns (r: Result<Id, Error>)
      modifies this
      ensures Answers(old(s), s, r, Apply(old(s), dir, school, Update(id, p, version)))
    {
      if id !in s.slots || s.slots[id].school != school {
        return Err(SlotNotFound);
      }
      var slot := s.slots[id];
      if slot.version != version {
        return Err(StaleResource);
      }
      var teacher := if p.teacher.Some? then p.teacher.value else slot.teacher;
      var to := if p.effectiveTo.Some? then p.effectiveTo else slot.effectiveTo;
      if p.teacher.Some? && TeacherBusy(s.slots, teacher, slot.period, slot.day, slot.effectiveFrom, to, Some(id)) {
        return Err(TeacherConflict);
      }
      if CohortBusy(s.slots, slot.cohort, slot.period, slot.day, slot.effectiveFrom, to, Some(id)) {
        return Err(CohortConflict);
      }
      slot := slot.(teacher := teacher, effectiveTo := to);
      if p.subject.Some? { slot := slot.(subject := p.subject.value); }
      if p.status.Some? { slot := slot.(status := p.status.value); }
      if p.notes.Some? { slot := slot.(notes := p.notes); }
      slot := slot.(version := slot.version + 1);
      s := s.(slots := s.slots[id := slot]);
      r := Ok(id);
    }

    method CancelSlot(school: Id, id: Id, today: int) returns (r: Result<Id, Error>)
      modifies this
      ensures Answers(old(s), s, r, Apply(old(s), dir, school, Cancel(id, today)))
    {
      if id !in s.slots || s.slots[id].school != school {
        return Err(SlotNotFound);
      }
      var slot := s.slots[id].(status := CANCELLED);
      slot := slot.(effectiveTo := Some(today));
      slot := slot.(version := slot.version + 1);
      s := s.(slots := s.slots[id := slot]);
      r := Ok(id);
    }
  }

  // ------------------------------------------------------------------
  // Double booking, date by date
  // ------------------------------------------------------------------

  predicate Holds(slot: Slot, date: int) {
    slot.status == ACTIVE && slot.effectiveFrom <= date && (slot.effectiveTo.None? || date <= slot.effectiveTo.value)
  }

  datatype Who = Teachers | Cohorts

  predicate Rivals(a: Slot, b: Slot, who: Who) {
    a.period == b.period && a.day == b.day && (if who == Teachers then a.teacher == b.teacher else a.cohort == b.cohort)
  }

  /** Nobody has two ACTIVE slots effective on one date at the same period and day. */
  ghost predicate NoDoubleBooking(slots: map<Id, Slot>, who: Who) {
    forall i, j, date: int | i in slots && j in slots && i != j && Holds(slots[i], date) && Holds(slots[j], date) ::
      !Rivals(slots[i], slots[j], who)
  }

  /** The overlap test finds exactly the slots that share a date, unless one of them covers no date at all. */
  lemma OverlapIsSharedDate(a: Slot, b: Slot)
    requires a.status == ACTIVE && b.status == ACTIVE
    ensures forall date: int :: Holds(a, date) && Holds(b, date) ==> Overlaps(a, b.effectiveFrom, b.effectiveTo)
    ensures (a.effectiveTo.Some? ==> a.effectiveFrom <= a.effectiveTo.value)
         && (b.effectiveTo.Some? ==> b.effectiveFrom <= b.effectiveTo.value)
         && Overlaps(a, b.effectiveFrom, b.effectiveTo)
         ==> exists date: int :: Holds(a, date) && Holds(b, date)
  {
    var date := if a.effectiveFrom < b.effectiveFrom then b.effectiveFrom else a.effectiveFrom;
    if (a.effectiveTo.Some? ==> a.effectiveFrom <= a.effectiveTo.value)
       && (b.effectiveTo.Some? ==> b.effectiveFrom <= b.effectiveTo.value)
       && Overlaps(a, b.effectiveFrom, b.effectiveTo) {
      assert Holds(a, date) && Holds(b, date);
    }
  }

  /** A slot may be written where the check found nobody else. */
  lemma CheckedWriteIsSafe(slots: map<Id, Slot>, id: Id, slot: Slot, who: Who)
    requires NoDoubleBooking(slots, who)
    requires if who == Teachers
      then !TeacherBusy(slots, slot.teacher, slot.period, slot.day, slot.effectiveFrom, slot.effectiveTo, Some(id))
      else !CohortBusy(slots, slot.cohort, slot.period, slot.day, slot.effectiveFrom, slot.effectiveTo, Some(id))
    ensures NoDoubleBooking(slots[id := slot], who)
  {
    forall other, date: int | other in slots && other != id && Holds(slots[other], date) && Holds(slot, date)
      ensures !Rivals(slots[other], slot, who) && !Rivals(slot, slots[other], who)
    {
      OverlapIsSharedDate(slots[other], slot);
    }
  }

  /** A slot that holds no date it did not hold before cannot collide. */
  lemma ShrinkIsSafe(slots: map<Id, Slot>, id: Id, slot: Slot, who: Who)
    requires NoDoubleBooking(slots, who) && id in slots
    requires slot.period == slots[id].period && slot.day == slots[id].day
    requires slot.teacher == slots[id].teacher && slot.cohort == slots[id].cohort
    requires forall date: int :: Holds(slot, date) ==> Holds(slots[id], date)
    ensures NoDoubleBooking(slots[id := slot], who)
  {
    forall other, date: int | other in slots && other != id && Holds(slots[other], date) && Holds(slot, date)
      ensures !Rivals(slots[other], slot, who) && !Rivals(slot, slots[other], who)
    {
      assert Holds(slots[id], date);
    }
  }

  /** A slot the update brings back, or whose end it moves out, over a period that is not empty. */
  predicate GainsDates(slot: Slot, p: Patch) {
    var after := Patched(slot, p);
    && after.status == ACTIVE
    && (after.effectiveTo.None? || after.effectiveFrom <= after.effectiveTo.value)
    && (slot.status != ACTIVE
        || (slot.effectiveTo.Some? && p.effectiveTo.Some? && p.effectiveTo.value > slot.effectiveTo.value))
  }

  lemma GainsDatesMeansNewDate(slot: Slot, p: Patch)
    ensures GainsDates(slot, p) <==> exists date: int :: Holds(Patched(slot, p), date) && !Holds(slot, date)
  {
    var after := Patched(slot, p);
    if GainsDates(slot, p) {
      var date := GainedDate(slot, p);
      assert Holds(after, date) && !Holds(slot, date);
    }
  }

  function GainedDate(slot: Slot, p: Patch): (date: int)
    requires GainsDates(slot, p)
    ensures Holds(Patched(slot, p), date) && !Holds(slot, date)
  {
    if slot.status != ACTIVE then slot.effectiveFrom else p.effectiveTo.value
  }

  /** Holds for one table: if the update is accepted, it books no teacher twice. */
  ghost predicate SafeOn(slots: map<Id, Slot>, id: Id, p: Patch) {
    id in slots && NoDoubleBooking(slots, Teachers) && UpdateSlot(slots, id, p).Ok? ==>
      NoDoubleBooking(UpdateSlot(slots, id, p).value, Teachers)
  }

  /**
   Without a teacher in the payload the teacher check is skipped. The update is
   still safe whatever else the table holds exactly when it gains no date.
   */
  lemma UncheckedUpdateIsSafeIff(id: Id, slot: Slot, p: Patch)
    requires p.teacher.None?
    ensures (forall slots: map<Id, Slot> | id in slots && slots[id] == slot :: SafeOn(slots, id, p))
       <==> !GainsDates(slot, p)
  {
    GainsDatesMeansNewDate(slot, p);
    if GainsDates(slot, p) {
      CounterexampleTable(id, slot, p);
    } else {
      forall slots: map<Id, Slot> | id in slots && slots[id] == slot ensures SafeOn(slots, id, p) {
        if NoDoubleBooking(slots, Teachers) { ShrinkIsSafe(slots, id, Patched(slot, p), Teachers); }
      }
    }
  }

  /** The teacher teaches another cohort, for just one of the days the slot gains. */
  lemma CounterexampleTable(id: Id, slot: Slot, p: Patch)
    requires p.teacher.None? && GainsDates(slot, p)
    ensures exists slots: map<Id, Slot> :: id in slots && slots[id] == slot && !SafeOn(slots, id, p)
  {
    var date := GainedDate(slot, p);
    var other := slot.(cohort := slot.cohort + 1, effectiveFrom := date, effectiveTo := Some(date), status := ACTIVE);
    var slots := map[id := slot, id + 1 := other];
    var after := slots[id := Patched(slot, p)];
    assert NoDoubleBooking(slots, Teachers);
    assert UpdateSlot(slots, id, p) == Ok(after);
    assert Holds(after[id], date) && Holds(after[id + 1], date) && Rivals(after[id], after[id + 1], Teachers);
  }

  // ------------------------------------------------------------------
  // Over every run
  // ------------------------------------------------------------------

  ghost predicate FreshIds(s: State) {
    forall id | id in s.slots :: id < s.nextId
  }

  /** The update carries the teacher, or gains no date. */
  predicate TeacherGuarded(s: State, op: Op) {
    op.Update? && op.id in s.slots ==> op.patch.teacher.Some? || !GainsDates(s.slots[op.id], op.patch)
  }

  lemma ServeKeepsIds(s: State, dir: Directory, req: Request)
    requires FreshIds(s)
    ensures FreshIds(Serve(s, dir, req))
  {
  }

  lemma CreateIsSafe(s: State, dir: Directory, school: Id, d: Data, who: Who)
    requires FreshIds(s) && NoDoubleBooking(s.slots, who) && Apply(s, dir, school, Create(d)).Ok?
    ensures NoDoubleBooking(Apply(s, dir, school, Create(d)).value.slots, who)
  {
    CheckedWriteIsSafe(s.slots, s.nextId, NewSlot(d, school), who);
  }

  lemma UpdateIsSafe(slots: map<Id, Slot>, id: Id, p: Patch, who: Who)
    requires id in slots && NoDoubleBooking(slots, who) && UpdateSlot(slots, id, p).Ok?
    requires who == Teachers ==> p.teacher.Some? || !GainsDates(slots[id], p)
    ensures NoDoubleBooking(UpdateSlot(slots, id, p).value, who)
  {
    if who == Teachers && p.teacher.None? {
      GainsDatesMeansNewDate(slots[id], p);
      ShrinkIsSafe(slots, id, Patched(slots[id], p), who);
    } else {
      CheckedWriteIsSafe(slots, id, Patched(slots[id], p), who);
    }
  }

  lemma ServeIsSafe(s: State, dir: Directory, req: Request, who: Who)
    requires FreshIds(s) && NoDoubleBooking(s.slots, who) && (who == Teachers ==> TeacherGuarded(s, req.op))
    ensures NoDoubleBooking(Serve(s, dir, req).slots, who)
  {
    if Apply(s, dir, req.school, req.op).Ok? {
      match req.op
      case Create(d) => CreateIsSafe(s, dir, req.school, d, who);
      case Update(id, p, _) => UpdateIsSafe(s.slots, id, p, who);
      case Cancel(id, _) => ShrinkIsSafe(s.slots, id, Serve(s, dir, req).slots[id], who);
    }
  }

  /** In every serial run no cohort is double-booked. */
  lemma {:induction false} CohortsAreNeverDoubleBooked(dir: Directory, reqs: seq<Request>)
    ensures var s := Run(Empty, dir, reqs); FreshIds(s) && NoDoubleBooking(s.slots, Cohorts)
  {
    if reqs != [] {
      var init := reqs[..|reqs| - 1];
      CohortsAreNeverDoubleBooked(dir, init);
      ServeKeepsIds(Run(Empty, dir, init), dir, reqs[|reqs| - 1]);
      ServeIsSafe(Run(Empty, dir, init), dir, reqs[|reqs| - 1], Cohorts);
    }
  }

  /** Nor is a teacher, as long as each update carries the teacher or gains no date. */
  lemma {:induction false} TeachersAreNotDoubleBookedIfGuarded(dir: Directory, reqs: seq<Request>)
    requires forall i | 0 <= i < |reqs| :: TeacherGuarded(Run(Empty, dir, reqs[..i]), reqs[i].op)
    ensures NoDoubleBooking(Run(Empty, dir, reqs).slots, Teachers)
  {
    if reqs != [] {
      var last := |reqs| - 1;
      forall i | 0 <= i < last ensures TeacherGuarded(Run(Empty, dir, reqs[..last][..i]), reqs[..last][i].op) {
        assert reqs[..last][..i] == reqs[..i];
      }
      TeachersAreNotDoubleBookedIfGuarded(dir, reqs[..last]);
      CohortsAreNeverDoubleBooked(dir, reqs[..last]);
      ServeIsSafe(Run(Empty, dir, reqs[..last]), dir, reqs[last], Teachers);
    }
  }

  lemma RunOneMore(s: State, dir: Directory, reqs: seq<Request>, i: nat)
    requires i < |reqs|
    ensures Run(s, dir, reqs[..i + 1]) == Serve(Run(s, dir, reqs[..i]), dir, reqs[i])
  {
    assert reqs[..i + 1][..i] == reqs[..i];
  }

  lemma TwoDays(dir: Directory, first: Data, second: Data)
    requires dir == Directory(map[0 := 7], map[0 := 7], map[0 := 7])
    requires first == Data(1, 0, 0, 0, MONDAY, 1, Some(1), None)
    requires second == Data(2, 0, 0, 0, MONDAY, 2, Some(2), None)
    ensures Serve(Serve(Empty, dir, Request(7, Create(first))), dir, Request(7, Create(second)))
         == State(map[0 := NewSlot(first, 7), 1 := NewSlot(second, 7)], 2)
  {
    assert Serve(Empty, dir, Request(7, Create(first))) == State(map[0 := NewSlot(first, 7)], 1);
  }

  /**
   A run in which an update moves a slot's end out, without the teacher in its
   payload, over the teacher's other class.
   */
  lemma ExtensionDoubleBooks()
    ensures var dir := Directory(map[0 := 7], map[0 := 7], map[0 := 7]);
      var create := (cohort: Id, date: int) =>
        Request(7, Create(Data(cohort, 0, 0, 0, MONDAY, date, Some(date), None)));
      var extend := Request(7, Update(0, Patch(None, None, Some(2), None, None), 1));
      !NoDoubleBooking(Run(Empty, dir, [create(1, 1), create(2, 2), extend]).slots, Teachers)
  {
    var dir := Directory(map[0 := 7], map[0 := 7], map[0 := 7]);
    var first, second := Data(1, 0, 0, 0, MONDAY, 1, Some(1), None), Data(2, 0, 0, 0, MONDAY, 2, Some(2), None);
    var reqs := [Request(7, Create(first)), Request(7, Create(second)),
                 Request(7, Update(0, Patch(None, None, Some(2), None, None), 1))];
    RunOneMore(Empty, dir, reqs, 0);
    RunOneMore(Empty, dir, reqs, 1);
    RunOneMore(Empty, dir, reqs, 2);
    assert reqs[..0] == [] && reqs[..3] == reqs;
    TwoDays(dir, first, second);
    var s2 := State(map[0 := NewSlot(first, 7), 1 := NewSlot(second, 7)], 2);
    var after := s2.slots[0 := Patched(s2.slots[0], reqs[2].op.patch)];
    assert Serve(s2, dir, reqs[2]) == s2.(slots := after);
    assert Holds(after[0], 2) && Holds(after[1], 2) && Rivals(after[0], after[1], Teachers);
  }

  /** No request puts a slot into a timetable: the reference stays null for good. */
  lemma {:induction false} SlotsHaveNoTimetable(dir: Directory, reqs: seq<Request>)
    ensures forall id | id in Run(Empty, dir, reqs).slots :: Run(Empty, dir, reqs).slots[id].timetable.None?
  {
    if reqs != [] { SlotsHaveNoTimetable(dir, reqs[..|reqs| - 1]); }
  }

  // ------------------------------------------------------------------
  // Two creates at a time
  // ------------------------------------------------------------------

  /** A create that made its checks earlier writes: only the unique constraint still guards it. */
  function CreateWrites(s: State, d: Data, school: Id): State {
    if Duplicate(s.slots, d) then s else State(s.slots[s.nextId := NewSlot(d, school)], s.nextId + 1)
  }

  /** Two slots as requested share a date. */
  predicate Meet(a: Data, b: Data) {
    && (a.effectiveTo.None? || a.effectiveFrom <= a.effectiveTo.value)
    && (b.effectiveTo.None? || b.effectiveFrom <= b.effectiveTo.value)
    && (a.effectiveTo.None? || b.effectiveFrom <= a.effectiveTo.value)
    && (b.effectiveTo.None? || a.effectiveFrom <= b.effectiveTo.value)
  }

  lemma MeetIsSharedDate(a: Data, schoolA: Id, b: Data, schoolB: Id)
    ensures Meet(a, b) <==> exists date: int :: Holds(NewSlot(a, schoolA), date) && Holds(NewSlot(b, schoolB), date)
  {
    var date := if a.effectiveFrom < b.effectiveFrom then b.effectiveFrom else a.effectiveFrom;
    if Meet(a, b) { assert Holds(NewSlot(a, schoolA), date) && Holds(NewSlot(b, schoolB), date); }
  }

  /** The unique constraint refuses the second of the two. */
  predicate OneStart(a: Data, b: Data) {
    a.cohort == b.cohort && a.period == b.period && a.day == b.day && a.effectiveFrom == b.effectiveFrom
  }

  /** Written where it collides with one slot at most, a slot double-books exactly if it does so with that one. */
  lemma WriteBesideIsSafeIff(slots: map<Id, Slot>, one: Id, id: Id, slot: Slot, who: Who)
    requires NoDoubleBooking(slots, who) && id !in slots && one in slots
    requires forall other, date: int |
               other in slots && other != one && Holds(slots[other], date) && Holds(slot, date) ::
               !Rivals(slots[other], slot, who)
    ensures NoDoubleBooking(slots[id := slot], who)
       <==> !(Rivals(slots[one], slot, who) && exists date: int :: Holds(slots[one], date) && Holds(slot, date))
  {
    var after := slots[id := slot];
    if date: int :| Holds(slots[one], date) && Holds(slot, date) && Rivals(slots[one], slot, who) {
      assert Holds(after[one], date) && Holds(after[id], date);
    }
  }

  /**
   Two creates whose checks pass before either has written: nobody is booked
   twice afterwards if and only if the two do not book the same one on a common
   date, or are for the same cohort, hour and start.
   */
  lemma OverlappingCreatesAreSafeIff(s: State, dir: Directory, schoolA: Id, a: Data, schoolB: Id, b: Data, who: Who)
    requires FreshIds(s) && NoDoubleBooking(s.slots, who)
    requires Apply(s, dir, schoolA, Create(a)).Ok? && Apply(s, dir, schoolB, Create(b)).Ok?
    ensures NoDoubleBooking(CreateWrites(CreateWrites(s, a, schoolA), b, schoolB).slots, who)
       <==> !(Rivals(NewSlot(a, schoolA), NewSlot(b, schoolB), who) && Meet(a, b)) || OneStart(a, b)
  {
    var first, slot := CreateWrites(s, a, schoolA), NewSlot(b, schoolB);
    CreateIsSafe(s, dir, schoolA, a, who);
    MeetIsSharedDate(a, schoolA, b, schoolB);
    assert first.slots[s.nextId] == NewSlot(a, schoolA);
    if OneStart(a, b) {
      assert Duplicate(first.slots, b);
    } else {
      forall other, date: int |
        other in first.slots && other != s.nextId && Holds(first.slots[other], date) && Holds(slot, date)
        ensures !Rivals(first.slots[other], slot, who)
      {
        OverlapIsSharedDate(s.slots[other], slot);
      }
      WriteBesideIsSafeIff(first.slots, s.nextId, first.nextId, slot, who);
    }
  }

  // ------------------------------------------------------------------
  // When each request succeeds and what it leaves
  // ------------------------------------------------------------------

  /** The slot is for this hour, still ACTIVE, and its dates run into those from `from` to `to`. */
  predicate Occupies(slot: Slot, period: Id, day: Day, from: int, to: Option<int>) {
    && slot.period == period && slot.day == day && slot.status == ACTIVE
    && !(slot.effectiveTo.Some? && slot.effectiveTo.value < from) && !(to.Some? && slot.effectiveFrom > to.value)
  }

  /** The row a create is for stands in nobody's way, and its period, teacher and subject are the school's. */
  lemma CreateSucceedsIff(s: State, dir: Directory, school: Id, d: Data)
    ensures Apply(s, dir, school, Create(d)).Ok?
       <==> && (forall id | id in s.slots && (s.slots[id].teacher == d.teacher || s.slots[id].cohort == d.cohort) ::
                  !Occupies(s.slots[id], d.period, d.day, d.effectiveFrom, d.effectiveTo))
            && (forall id | id in s.slots && s.slots[id].cohort == d.cohort && s.slots[id].period == d.period
                            && s.slots[id].day == d.day :: s.slots[id].effectiveFrom != d.effectiveFrom)
            && d.period in dir.periods && dir.periods[d.period] == school
            && d.teacher in dir.teachers && dir.teachers[d.teacher] == school
            && d.subject in dir.subjects && dir.subjects[d.subject] == school
  {
  }

  /** A create adds one ACTIVE slot with the data sent, outside every timetable. */
  lemma CreateLeaves(s: State, dir: Directory, school: Id, d: Data)
    requires FreshIds(s) && Apply(s, dir, school, Create(d)).Ok?
    ensures var after := Apply(s, dir, school, Create(d)).value;
      s.nextId !in s.slots && after.nextId == s.nextId + 1
      && after.slots == s.slots[s.nextId := Slot(school, None, d.cohort, d.period, d.teacher, d.subject, d.day,
                                                 d.effectiveFrom, d.effectiveTo, ACTIVE, d.notes, 1)]
  {
  }

  /** The slot as an update asks for it. */
  predicate AsAsked(before: Slot, after: Slot, p: Patch) {
    && after == before.(teacher := after.teacher, subject := after.subject, effectiveTo := after.effectiveTo,
                        status := after.status, notes := after.notes, version := before.version + 1)
    && (if p.teacher.Some? then Some(after.teacher) == p.teacher else after.teacher == before.teacher)
    && (if p.subject.Some? then Some(after.subject) == p.subject else after.subject == before.subject)
    && (if p.effectiveTo.Some? then after.effectiveTo == p.effectiveTo else after.effectiveTo == before.effectiveTo)
    && (if p.status.Some? then Some(after.status) == p.status else after.status == before.status)
    && (if p.notes.Some? then after.notes == p.notes else after.notes == before.notes)
  }

  /**
   An update needs the school's slot in the version sent. No other slot of its
   cohort, nor of the teacher if the request names one, may occupy its hour on
   the dates it would then have.
   */
  lemma UpdateSucceedsIff(s: State, dir: Directory, school: Id, id: Id, p: Patch, version: nat)
    ensures Apply(s, dir, school, Update(id, p, version)).Ok?
       <==> && id in s.slots && s.slots[id].school == school && s.slots[id].version == version
            && var slot := s.slots[id];
               var to := if p.effectiveTo.Some? then p.effectiveTo else slot.effectiveTo;
               forall other | other in s.slots && other != id
                              && (s.slots[other].cohort == slot.cohort || p.teacher == Some(s.slots[other].teacher)) ::
                 !Occupies(s.slots[other], slot.period, slot.day, slot.effectiveFrom, to)
  {
  }

  lemma UpdateLeaves(s: State, dir: Directory, school: Id, id: Id, p: Patch, version: nat)
    requires Apply(s, dir, school, Update(id, p, version)).Ok?
    ensures var after := Apply(s, dir, school, Update(id, p, version)).value;
      && after == s.(slots := s.slots[id := after.slots[id]]) && AsAsked(s.slots[id], after.slots[id], p)
  {
  }

  /**
   Any slot of the school can be cancelled, whatever its version. It then ends
   today and holds no date, and no other slot has changed.
   */
  lemma CancelFrees(s: State, dir: Directory, school: Id, id: Id, today: int)
    ensures Apply(s, dir, school, Cancel(id, today)).Ok? <==> id in s.slots && s.slots[id].school == school
    ensures Apply(s, dir, school, Cancel(id, today)).Ok? ==>
      var after := Apply(s, dir, school, Cancel(id, today)).value;
      && after == s.(slots := s.slots[id := after.slots[id]])
      && after.slots[id].status == CANCELLED && after.slots[id].effectiveTo == Some(today)
      && after.slots[id] == s.slots[id].(status := CANCELLED, effectiveTo := Some(today),
                                         version := s.slots[id].version + 1)
      && forall date: int :: !Holds(after.slots[id], date)
  {
  }

  /** Neither check finds a cancelled slot any more: it is in nobody's way. */
  lemma CancelledIsNotFound(s: State, dir: Directory, school: Id, id: Id, today: int, who: Id, period: Id, day: Day,
                            from: int, to: Option<int>)
    requires Apply(s, dir, school, Cancel(id, today)).Ok?
    ensures var after := Apply(s, dir, school, Cancel(id, today)).value.slots;
      && (TeacherBusy(after, who, period, day, from, to, None)
          <==> TeacherBusy(s.slots, who, period, day, from, to, Some(id)))
      && (CohortBusy(after, who, period, day, from, to, None)
          <==> CohortBusy(s.slots, who, period, day, from, to, Some(id)))
  {
    CancelFrees(s, dir, school, id, today);
    var gone := Apply(s, dir, school, Cancel(id, today)).value.slots[id];
    GoneForTeachers(s.slots, id, gone, who, period, day, from, to);
    GoneForCohorts(s.slots, id, gone, who, period, day, from, to);
  }

  lemma GoneForTeachers(slots: map<Id, Slot>, id: Id, gone: Slot, teacher: Id, period: Id, day: Day,
                        from: int, to: Option<int>)
    requires gone.status == CANCELLED
    ensures TeacherBusy(slots[id := gone], teacher, period, day, from, to, None)
       <==> TeacherBusy(slots, teacher, period, day, from, to, Some(id))
  {
    assert forall other | other in slots && other != id :: slots[id := gone][other] == slots[other];
  }

  lemma GoneForCohorts(slots: map<Id, Slot>, id: Id, gone: Slot, cohort: Id, period: Id, day: Day,
                       from: int, to: Option<int>)
    requires gone.status == CANCELLED
    ensures CohortBusy(slots[id := gone], cohort, period, day, from, to, None)
       <==> CohortBusy(slots, cohort, period, day, from, to, Some(id))
  {
    assert forall other | other in slots && other != id :: slots[id := gone][other] == slots[other];
  }

  /**
   So the hour can be given away again: after the cancel a create for it
   succeeds if nothing but that slot was in its way, and it does not start on
   the same day for the same cohort.
   */
  lemma CancelledHourIsFree(s: State, dir: Directory, school: Id, id: Id, today: int, d: Data)
    requires Apply(s, dir, school, Cancel(id, today)).Ok?
    requires d.period in dir.periods && dir.periods[d.period] == school
    requires d.teacher in dir.teachers && dir.teachers[d.teacher] == school
    requires d.subject in dir.subjects && dir.subjects[d.subject] == school
    requires forall other | other in s.slots && other != id
                            && (s.slots[other].teacher == d.teacher || s.slots[other].cohort == d.cohort) ::
               !Occupies(s.slots[other], d.period, d.day, d.effectiveFrom, d.effectiveTo)
    requires forall other | other in s.slots && s.slots[other].cohort == d.cohort && s.slots[other].period == d.period
                            && s.slots[other].day == d.day :: s.slots[other].effectiveFrom != d.effectiveFrom
    ensures Apply(Apply(s, dir, school, Cancel(id, today)).value, dir, school, Create(d)).Ok?
  {
    CancelFrees(s, dir, school, id, today);
    CreateSucceedsIff(Apply(s, dir, school, Cancel(id, today)).value, dir, school, d);
  }

  /** Until it is cancelled, or otherwise given up, a slot does keep others out of its hour. */
  lemma CreatedHourIsTaken(s: State, dir: Directory, school: Id, d: Data, d': Data)
    requires FreshIds(s) && Apply(s, dir, school, Create(d)).Ok?
    requires d'.period == d.period && d'.day == d.day && (d'.teacher == d.teacher || d'.cohort == d.cohort)
    requires Meet(d, d')
    ensures Apply(Apply(s, dir, school, Create(d)).value, dir, school, Create(d')).Err?
  {
    var after := Apply(s, dir, school, Create(d)).value;
    CreateLeaves(s, dir, school, d);
    CreateSucceedsIff(after, dir, school, d');
    assert Occupies(after.slots[s.nextId], d'.period, d'.day, d'.effectiveFrom, d'.effectiveTo);
  }
}
