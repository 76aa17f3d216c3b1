/**
 Teacher assignments: the check-then-insert of app/modules/teachers/service.py,
 with the partial unique indexes of migration 0026 as the arbiter between
 concurrent transactions.
 */
module Assignments {
  import opened Prelude

  type Id = nat

  datatype Role = SUBJECT_TEACHER | CLASS_TEACHER | SUBSTITUTE | COORDINATOR

  datatype Status = ACTIVE | ENDED

  datatype Assignment = Assignment(
    school: Id, teacher: Id, cohort: Id, subject: Option<Id>, year: Id, role: Role, start: int, end: Option<int>,
    status: Status, version: nat)

  /** The school of each teacher, cohort and academic year that is not deleted. */
  datatype Directory = Directory(teachers: map<Id, Id>, cohorts: map<Id, Id>, years: map<Id, Id>)

  datatype Data = Data(teacher: Id, cohort: Id, subject: Option<Id>, year: Id, role: Role, start: int)

  datatype Op =
    | Create(data: Data)
    | Update(id: Id, newEnd: Option<int>, newStatus: Option<Status>, version: nat)
    | End(id: Id, version: nat, today: int)

  datatype Error =
    | TeacherNotFound | CohortNotFound | YearNotFound | AssignmentConflict
    | AssignmentNotFound | StaleResource | IntegrityError

  // ------------------------------------------------------------------
  // What may be held once
  // ------------------------------------------------------------------

  datatype Seat = ClassSeat(school: Id, cohort: Id, year: Id) | SubjectSeat(school: Id, cohort: Id,
                                                                            subject: Option<Id>, year: Id)

  /**
   The position an ACTIVE assignment fills, as check_assignment_conflict
   compares it (no subject matches no subject).
   */
  function SeatOf(a: Assignment): Option<Seat> {
    if a.status != ACTIVE then None
    else match a.role
      case CLASS_TEACHER => Some(ClassSeat(a.school, a.cohort, a.year))
      case SUBJECT_TEACHER => Some(SubjectSeat(a.school, a.cohort, a.subject, a.year))
      case _ => None
  }

  /** The entry of a row in the partial unique indexes; a null subject is never equal to another. */
  function IndexKey(a: Assignment): Option<Seat> {
    if a.role == SUBJECT_TEACHER && a.subject.None? then None else SeatOf(a)
  }

  predicate SameKey(a: Assignment, b: Assignment) {
    IndexKey(a).Some? && IndexKey(a) == IndexKey(b)
  }

  predicate SameSeat(a: Assignment, b: Assignment) {
    SeatOf(a).Some? && SeatOf(a) == SeatOf(b)
  }

  ghost predicate OnePerKey(rows: map<Id, Assignment>) {
    forall i, j | i in rows && j in rows && i != j :: !SameKey(rows[i], rows[j])
  }

  ghost predicate OnePerSeat(rows: map<Id, Assignment>) {
    forall i, j | i in rows && j in rows && i != j :: !SameSeat(rows[i], rows[j])
  }

  // ------------------------------------------------------------------
  // One request
  // ------------------------------------------------------------------

  /** What a request will write once its checks have passed; an update names the version it read. */
  datatype Plan = Plan(id: Id, row: Assignment, basis: Option<nat>)

  function NewAssignment(d: Data, school: Id): Assignment {
    Assignment(school, d.teacher, d.cohort, d.subject, d.year, d.role, d.start, None, ACTIVE, 1)
  }

  predicate Taken(rows: map<Id, Assignment>, a: Assignment) {
    exists id | id in rows :: SameSeat(rows[id], a)
  }

  /** The reads and checks of the service. */
  function Prepare(rows: map<Id, Assignment>, nextId: Id, dir: Directory, school: Id, op: Op): Result<Plan, Error> {
    match op
    case Create(d) =>
      if d.teacher !in dir.teachers || dir.teachers[d.teacher] != school then Err(TeacherNotFound)
      else if d.cohort !in dir.cohorts || dir.cohorts[d.cohort] != school then Err(CohortNotFound)
      else if d.year !in dir.years || dir.years[d.year] != school then Err(YearNotFound)
      else if Taken(rows, NewAssignment(d, school)) then Err(AssignmentConflict)
      else Ok(Plan(nextId, NewAssignment(d, school), None))
    case Update(id, end, status, version) =>
      if id !in rows || rows[id].school != school then Err(AssignmentNotFound)
      else if rows[id].version != version then Err(StaleResource)
      else
        var row := rows[id];
        Ok(Plan(id, row.(end := if end.Some? then end else row.end,
                         status := if status.Some? then status.value else row.status,
                         version := row.version + 1), Some(row.version)))
    case End(id, version, today) =>
      if id !in rows || rows[id].school != school then Err(AssignmentNotFound)
      else if rows[id].version != version then Err(StaleResource)
      else
        var row := rows[id].(status := ENDED, end := Some(today), version := rows[id].version + 1);
        Ok(Plan(id, row, Some(rows[id].version)))
  }

  predicate IndexHit(rows: map<Id, Assignment>, plan: Plan) {
    exists id | id in rows :: id != plan.id && SameKey(rows[id], plan.row)
  }

  /** The flush: the row must still have the version read, and the indexes must accept it. */
  function FlushError(rows: map<Id, Assignment>, plan: Plan): Option<Error> {
    if plan.basis.Some? && (plan.id !in rows || rows[plan.id].version != plan.basis.value) then Some(StaleResource)
    else if !IndexHit(rows, plan) then None
    else if plan.basis.None? then Some(AssignmentConflict) else Some(IntegrityError)
  }

  datatype State = State(rows: map<Id, Assignment>, nextId: Id)

  /** A request served alone. */
  function Apply(s: State, dir: Directory, school: Id, op: Op): Result<State, Error> {
    var p := Prepare(s.rows, s.nextId, dir, school, op);
    if p.Err? then Err(p.error)
    else
      var e := FlushError(s.rows, p.value);
      if e.Some? then Err(e.value)
      else Ok(State(s.rows[p.value.id := p.value.row], if op.Create? then s.nextId + 1 else s.nextId))
  }

  predicate LeadsClass(a: Assignment, school: Id, cohort: Id, year: Id) {
    a.school == school && a.cohort == cohort && a.year == year && a.role == CLASS_TEACHER && a.status == ACTIVE
  }

  predicate TeachesSubject(a: Assignment, school: Id, cohort: Id, subject: Option<Id>, year: Id) {
    && a.school == school && a.cohort == cohort && a.subject == subject && a.year == year
    && a.role == SUBJECT_TEACHER && a.status == ACTIVE
  }

  predicate Rivals(a: Assignment, school: Id, cohort: Id, subject: Option<Id>, year: Id, role: Role) {
    || (role == CLASS_TEACHER && LeadsClass(a, school, cohort, year))
    || (role == SUBJECT_TEACHER && TeachesSubject(a, school, cohort, subject, year))
  }

  class AssignmentService {
    var s: State
    const dir: Directory

    constructor (dir: Directory)
      ensures s == State(map[], 0) && this.dir == dir
    {
      this.s, this.dir := State(map[], 0), dir;
    }

    /** check_assignment_conflict. */
    method CheckConflict(school: Id, cohort: Id, subject: Option<Id>, year: Id, role: Role) returns (conflict: bool)
      ensures conflict <==> exists id :: id in s.rows && Rivals(s.rows[id], school, cohort, subject, year, role)
    {
      if role == SUBJECT_TEACHER {
        conflict := exists id | id in s.rows :: TeachesSubject(s.rows[id], school, cohort, subject, year);
      } else if role == CLASS_TEACHER {
        conflict := exists id | id in s.rows :: LeadsClass(s.rows[id], school, cohort, year);
      } else {
        conflict := false;
      }
    }

    method CreateAssignment(school: Id, d: Data) returns (r: Result<Id, Error>)
      modifies this
      ensures Answers(old(s), s, r, Apply(old(s), dir, school, Create(d)))
    {
      if d.teacher !in dir.teachers || dir.teachers[d.teacher] != school {
        return Err(TeacherNotFound);
      }
      if d.cohort !in dir.cohorts || dir.cohorts[d.cohort] != school {
        return Err(CohortNotFound);
      }
      if d.year !in dir.years || dir.years[d.year] != school {
        return Err(YearNotFound);
      }
      var taken := CheckConflict(school, d.cohort, d.subject, d.year, d.role);
      assert taken <==> Taken(s.rows, NewAssignment(d, school));
      if taken {
        return Err(AssignmentConflict);
      }
      r := Flush(s.nextId, NewAssignment(d, school), None);
      if r.Ok? {
        s := s.(nextId := s.nextId + 1);
      }
    }

    /** The flush of the row, checked by the database. */
    method Flush(id: Id, row: Assignment, basis: Option<nat>) returns (r: Result<Id, Error>)
      modifies this
      ensures match FlushError(old(s).rows, Plan(id, row, basis))
        case Some(e) => r == Err(e) && s == old(s)
        case None => r == Ok(id) && s == old(s).(rows := old(s).rows[id := row])
    {
      if basis.Some? && (id !in s.rows || s.rows[id].version != basis.value) {
        return Err(StaleResource);
      }
      if IndexHit(s.rows, Plan(id, row, basis)) {
        return Err(if basis.None? then AssignmentConflict else IntegrityError);
      }
      s := s.(rows := s.rows[id := row]);
      r := Ok(id);
    }

    method UpdateAssignment(school: Id, id: Id, end: Option<int>, status: Option<Status>, version: nat)
        returns (r: Result<Id, Error>)
      modifies this
      ensures Answers(old(s), s, r, Apply(old(s), dir, school, Update(id, end, status, version)))
    {
      if id !in s.rows || s.rows[id].school != school {
        return Err(AssignmentNotFound);
      }
      var row := s.rows[id];
      if row.version != version {
        return Err(StaleResource);
      }
      if end.Some? { row := row.(end := end); }
      if status.Some? { row := row.(status := status.value); }
      r := Flush(id, row.(version := version + 1), Some(version));
    }

    method EndAssignment(school: Id, id: Id, version: nat, today: int) returns (r: Result<Id, Error>)
      modifies this
      ensures Answers(old(s), s, r, Apply(old(s), dir, school, End(id, version, today)))
    {
      if id !in s.rows || s.rows[id].school != school {
        return Err(AssignmentNotFound);
      }
      var row := s.rows[id];
      if row.version != version {
        return Err(StaleResource);
      }
      row := row.(status := ENDED);
      r := Flush(id, row.(end := Some(today), version := version + 1), Some(version));
    }
  }

  // ------------------------------------------------------------------
  // Concurrent requests
  // ------------------------------------------------------------------

  /** A request that has done its checks, or has also flushed its row, but not committed. */
  datatype Txn = Prepared(plan: Plan) | Written(plan: Plan)

  datatype System = System(rows: map<Id, Assignment>, open: map<Id, Txn>, nextId: Id)

  datatype Action = Begin(txn: Id, school: Id, op: Op) | Flush(txn: Id) | Commit(txn: Id) | Abort(txn: Id)

  /** The database makes a flush wait for an open transaction that wrote the same row or holds the same index entry. */
  predicate WaitsFor(rows: map<Id, Assignment>, plan: Plan, other: Txn) {
    other.Written?
    && (other.plan.id == plan.id || SameKey(other.plan.row, plan.row)
        || (other.plan.id in rows && SameKey(rows[other.plan.id], plan.row)))
  }

  predicate Blocked(s: System, txn: Id)
    requires txn in s.open
  {
    exists t | t in s.open :: t != txn && WaitsFor(s.rows, s.open[txn].plan, s.open[t])
  }

  function Step(s: System, dir: Directory, a: Action): System {
    match a
    case Begin(t, school, op) =>
      var p := Prepare(s.rows, s.nextId, dir, school, op);
      if t in s.open || p.Err? then s
      else s.(open := s.open[t := Prepared(p.value)], nextId := if op.Create? then s.nextId + 1 else s.nextId)
    case Flush(t) =>
      if t !in s.open || s.open[t].Written? || Blocked(s, t) then s
      else if FlushError(s.rows, s.open[t].plan).Some? then s.(open := s.open - {t})
      else s.(open := s.open[t := Written(s.open[t].plan)])
    case Commit(t) =>
      if t !in s.open || s.open[t].Prepared? then s
      else s.(rows := s.rows[s.open[t].plan.id := s.open[t].plan.row], open := s.open - {t})
    case Abort(t) => s.(open := s.open - {t})
  }

  function Run(s: System, dir: Directory, actions: seq<Action>): System {
    if actions == [] then s else Step(Run(s, dir, actions[..|actions| - 1]), dir, actions[|actions| - 1])
  }

  const Empty := System(map[], map[], 0)

  predicate Apart(p: Plan, q: Plan) {
    p.id != q.id && !SameKey(p.row, q.row)
  }

  ghost predicate Fits(rows: map<Id, Assignment>, p: Plan) {
    forall id | id in rows && id != p.id :: !SameKey(rows[id], p.row)
  }

  /** Committed rows repeat no key, and whatever has been written can be committed in any order. */
  ghost predicate Inv(s: System) {
    && OnePerKey(s.rows)
    && (forall t | t in s.open && s.open[t].Written? :: Fits(s.rows, s.open[t].plan))
    && (forall t, u | t in s.open && u in s.open && t != u && s.open[t].Written? && s.open[u].Written? ::
          Apart(s.open[t].plan, s.open[u].plan))
  }

  lemma FlushKeepsInv(s: System, dir: Directory, t: Id)
    requires Inv(s)
    ensures Inv(Step(s, dir, Flush(t)))
  {
    if t in s.open && s.open[t].Prepared? && !Blocked(s, t) && FlushError(s.rows, s.open[t].plan).None? {
      var plan := s.open[t].plan;
      assert Fits(s.rows, plan);
      forall u | u in s.open && u != t && s.open[u].Written?
        ensures Apart(plan, s.open[u].plan) && Apart(s.open[u].plan, plan)
      {
        assert !WaitsFor(s.rows, plan, s.open[u]);
      }
    }
  }

  lemma CommitKeepsInv(s: System, dir: Directory, t: Id)
    requires Inv(s)
    ensures Inv(Step(s, dir, Commit(t)))
  {
    if t in s.open && s.open[t].Written? {
      var plan := s.open[t].plan;
      var s' := Step(s, dir, Commit(t));
      assert Fits(s.rows, plan);
      forall u | u in s'.open && s'.open[u].Written? ensures Fits(s'.rows, s'.open[u].plan) {
        assert Apart(plan, s.open[u].plan) && Fits(s.rows, s.open[u].plan);
      }
    }
  }

  lemma {:induction false} RunKeepsInv(s: System, dir: Directory, actions: seq<Action>)
    requires Inv(s)
    ensures Inv(Run(s, dir, actions))
  {
    if actions != [] {
      var before, a := Run(s, dir, actions[..|actions| - 1]), actions[|actions| - 1];
      RunKeepsInv(s, dir, actions[..|actions| - 1]);
      match a
      case Begin(_, _, _) =>
      case Flush(t) => FlushKeepsInv(before, dir, t);
      case Commit(t) => CommitKeepsInv(before, dir, t);
      case Abort(_) =>
    }
  }

  /**
   In every interleaving at most one ACTIVE class teacher exists per school,
   cohort and year, and at most one ACTIVE subject teacher per school, cohort,
   year and subject, as long as the subject is not null.
   */
  lemma AtMostOneTeacher(dir: Directory, actions: seq<Action>, i: Id, j: Id)
    requires var rows := Run(Empty, dir, actions).rows;
      && i in rows && j in rows && rows[i].status == ACTIVE == rows[j].status
      && rows[i].school == rows[j].school && rows[i].cohort == rows[j].cohort && rows[i].year == rows[j].year
      && rows[i].role == rows[j].role
      && (rows[i].role == CLASS_TEACHER
          || (rows[i].role == SUBJECT_TEACHER && rows[i].subject == rows[j].subject && rows[i].subject.Some?))
    ensures i == j
  {
    RunKeepsInv(Empty, dir, actions);
    assert SameKey(Run(Empty, dir, actions).rows[i], Run(Empty, dir, actions).rows[j]);
  }

  // ------------------------------------------------------------------
  // The null subject
  // ------------------------------------------------------------------

  lemma RunOneMore(s: System, dir: Directory, actions: seq<Action>, n: nat)
    requires n < |actions|
    ensures Run(s, dir, actions[..n + 1]) == Step(Run(s, dir, actions[..n]), dir, actions[n])
  {
    assert actions[..n + 1][..n] == actions[..n];
  }

  /** How far one of two racing creates has got. */
  datatype Phase = Ready | Flushed | Done | Lost

  predicate Holds(p: Phase) {
    p == Flushed || p == Done
  }

  /** A flush waits while the other holds the entry, and fails once the other has committed it. */
  function AfterFlush(mine: Phase, other: Phase, exclusive: bool): Phase {
    if mine != Ready then mine
    else if exclusive && other == Flushed then Ready
    else if exclusive && other == Done then Lost
    else Flushed
  }

  function AfterCommit(mine: Phase): Phase {
    if mine == Flushed then Done else mine
  }

  /** The race between transactions 1 and 2, as phases only. */
  function Race(schedule: seq<Action>, exclusive: bool): (Phase, Phase) {
    if schedule == [] then (Ready, Ready)
    else
      RaceOn(Race(schedule[..|schedule| - 1], exclusive), schedule[|schedule| - 1], exclusive)
  }

  function RaceOn(p: (Phase, Phase), a: Action, exclusive: bool): (Phase, Phase) {
    match a
    case Flush(t) =>
      if t == 1 then (AfterFlush(p.0, p.1, exclusive), p.1)
      else if t == 2 then (p.0, AfterFlush(p.1, p.0, exclusive)) else p
    case Commit(t) =>
      if t == 1 then (AfterCommit(p.0), p.1) else if t == 2 then (p.0, AfterCommit(p.1)) else p
    case _ => p
  }

  predicate IsRace(schedule: seq<Action>) {
    forall i | 0 <= i < |schedule| :: schedule[i] in {Flush(1), Commit(1), Flush(2), Commit(2)}
  }

  predicate Tries(schedule: seq<Action>, txn: Id) {
    schedule != [] && (schedule[|schedule| - 1] == Flush(txn) || Tries(schedule[..|schedule| - 1], txn))
  }

  /** The transaction flushes and commits later on. */
  predicate Completes(schedule: seq<Action>, txn: Id) {
    schedule != []
    && (Completes(schedule[..|schedule| - 1], txn)
        || (schedule[|schedule| - 1] == Commit(txn) && Tries(schedule[..|schedule| - 1], txn)))
  }

  function Opened(open: map<Id, Txn>, t: Id, plan: Plan, p: Phase): map<Id, Txn> {
    match p
    case Ready => open[t := Prepared(plan)]
    case Flushed => open[t := Written(plan)]
    case _ => open
  }

  function Committed(rows: map<Id, Assignment>, plan: Plan, p: Phase): map<Id, Assignment> {
    if p == Done then rows[plan.id := plan.row] else rows
  }

  /** Transaction t has got to phase p with its plan, and o to phase q with its own. */
  function Pair(base: map<Id, Assignment>, nextId: Id, t: Id, mine: Plan, p: Phase, o: Id, theirs: Plan,
                q: Phase): System {
    System(Committed(Committed(base, theirs, q), mine, p), Opened(Opened(map[], o, theirs, q), t, mine, p), nextId)
  }

  /** Two creates, over rows that neither of them collides with. */
  ghost predicate Racing(base: map<Id, Assignment>, t: Id, mine: Plan, o: Id, theirs: Plan) {
    && t != o && mine.id != theirs.id && mine.basis.None? && theirs.basis.None?
    && mine.id !in base && theirs.id !in base
    && forall id | id in base :: !SameKey(base[id], mine.row) && !SameKey(base[id], theirs.row)
  }

  lemma PairSwaps(base: map<Id, Assignment>, nextId: Id, t: Id, mine: Plan, p: Phase, o: Id, theirs: Plan, q: Phase)
    requires Racing(base, t, mine, o, theirs)
    ensures Racing(base, o, theirs, t, mine)
    ensures Pair(base, nextId, t, mine, p, o, theirs, q) == Pair(base, nextId, o, theirs, q, t, mine, p)
  {
    OpenedSwaps(t, mine, p, o, theirs, q);
    CommittedSwaps(base, mine, p, theirs, q);
  }

  lemma OpenedSwaps(t: Id, mine: Plan, p: Phase, o: Id, theirs: Plan, q: Phase)
    requires t != o
    ensures Opened(Opened(map[], o, theirs, q), t, mine, p) == Opened(Opened(map[], t, mine, p), o, theirs, q)
  {
  }

  lemma CommittedSwaps(base: map<Id, Assignment>, mine: Plan, p: Phase, theirs: Plan, q: Phase)
    requires mine.id != theirs.id
    ensures Committed(Committed(base, theirs, q), mine, p) == Committed(Committed(base, mine, p), theirs, q)
  {
  }

  /** A ready flush is blocked by the other's open entry, and by nothing else. */
  lemma BlockedIff(base: map<Id, Assignment>, nextId: Id, t: Id, mine: Plan, o: Id, theirs: Plan, q: Phase)
    requires Racing(base, t, mine, o, theirs)
    ensures var s := Pair(base, nextId, t, mine, Ready, o, theirs, q);
      t in s.open && s.open[t] == Prepared(mine) && (Blocked(s, t) <==> SameKey(theirs.row, mine.row) && q == Flushed)
  {
    var s := Pair(base, nextId, t, mine, Ready, o, theirs, q);
    if SameKey(theirs.row, mine.row) && q == Flushed { assert o in s.open && WaitsFor(s.rows, mine, s.open[o]); }
  }

  /** It is rejected by the other's committed row, and by nothing else. */
  lemma IndexHitIff(base: map<Id, Assignment>, t: Id, mine: Plan, o: Id, theirs: Plan, q: Phase)
    requires Racing(base, t, mine, o, theirs)
    ensures IndexHit(Committed(base, theirs, q), mine) <==> SameKey(theirs.row, mine.row) && q == Done
  {
    var rows := Committed(base, theirs, q);
    if SameKey(theirs.row, mine.row) && q == Done { assert theirs.id in rows && SameKey(rows[theirs.id], mine.row); }
  }

  lemma OpenedMoves(open: map<Id, Txn>, t: Id, plan: Plan, p: Phase)
    requires t !in open
    ensures Opened(open, t, plan, p) - {t} == open
    ensures Opened(open, t, plan, p)[t := Written(plan)] == Opened(open, t, plan, Flushed)
  {
  }

  lemma FlushPair(base: map<Id, Assignment>, nextId: Id, t: Id, mine: Plan, p: Phase, o: Id, theirs: Plan, q: Phase,
                  dir: Directory)
    requires Racing(base, t, mine, o, theirs)
    ensures Step(Pair(base, nextId, t, mine, p, o, theirs, q), dir, Flush(t))
         == Pair(base, nextId, t, mine, AfterFlush(p, q, SameKey(theirs.row, mine.row)), o, theirs, q)
  {
    var s := Pair(base, nextId, t, mine, p, o, theirs, q);
    if p == Ready {
      BlockedIff(base, nextId, t, mine, o, theirs, q);
      IndexHitIff(base, t, mine, o, theirs, q);
      OpenedMoves(Opened(map[], o, theirs, q), t, mine, Ready);
    }
  }

  lemma CommitPair(base: map<Id, Assignment>, nextId: Id, t: Id, mine: Plan, p: Phase, o: Id, theirs: Plan, q: Phase,
                   dir: Directory)
    requires Racing(base, t, mine, o, theirs)
    ensures Step(Pair(base, nextId, t, mine, p, o, theirs, q), dir, Commit(t))
         == Pair(base, nextId, t, mine, AfterCommit(p), o, theirs, q)
  {
    var s := Pair(base, nextId, t, mine, p, o, theirs, q);
    if p == Flushed {
      OpenedMoves(Opened(map[], o, theirs, q), t, mine, Flushed);
    }
  }

  /** The rows two creates would write, and whether both go for one index entry. */
  datatype Rivalry = Rivalry(one: Assignment, two: Assignment)

  predicate Exclusive(r: Rivalry) {
    SameKey(r.one, r.two)
  }

  function First(s: State, r: Rivalry): Plan {
    Plan(s.nextId, r.one, None)
  }

  function Second(s: State, r: Rivalry): Plan {
    Plan(s.nextId + 1, r.two, None)
  }

  function RaceState(s: State, r: Rivalry, p: (Phase, Phase)): System {
    Pair(s.rows, s.nextId + 2, 1, First(s, r), p.0, 2, Second(s, r), p.1)
  }

  /** What the checks and fresh ids say about the rows there are. */
  ghost predicate Untaken(s: State, r: Rivalry) {
    Racing(s.rows, 1, First(s, r), 2, Second(s, r))
  }

  lemma FirstMoves(s: State, dir: Directory, r: Rivalry, p: (Phase, Phase))
    requires Untaken(s, r)
    ensures Step(RaceState(s, r, p), dir, Flush(1))
         == RaceState(s, r, (AfterFlush(p.0, p.1, SameKey(r.two, r.one)), p.1))
    ensures Step(RaceState(s, r, p), dir, Commit(1)) == RaceState(s, r, (AfterCommit(p.0), p.1))
  {
    FlushPair(s.rows, s.nextId + 2, 1, First(s, r), p.0, 2, Second(s, r), p.1, dir);
    CommitPair(s.rows, s.nextId + 2, 1, First(s, r), p.0, 2, Second(s, r), p.1, dir);
  }

  /** The same race seen from the other side. */
  function RaceMirrored(s: State, r: Rivalry, p: (Phase, Phase)): System {
    Pair(s.rows, s.nextId + 2, 2, Second(s, r), p.1, 1, First(s, r), p.0)
  }

  lemma MirrorIsSame(s: State, r: Rivalry, p: (Phase, Phase))
    requires Untaken(s, r)
    ensures Racing(s.rows, 2, Second(s, r), 1, First(s, r)) && RaceState(s, r, p) == RaceMirrored(s, r, p)
  {
    PairSwaps(s.rows, s.nextId + 2, 1, First(s, r), p.0, 2, Second(s, r), p.1);
  }

  lemma MirrorMoves(s: State, dir: Directory, r: Rivalry, p: (Phase, Phase))
    requires Racing(s.rows, 2, Second(s, r), 1, First(s, r))
    ensures Step(RaceMirrored(s, r, p), dir, Flush(2))
         == RaceMirrored(s, r, (p.0, AfterFlush(p.1, p.0, SameKey(r.one, r.two))))
    ensures Step(RaceMirrored(s, r, p), dir, Commit(2)) == RaceMirrored(s, r, (p.0, AfterCommit(p.1)))
  {
    FlushPair(s.rows, s.nextId + 2, 2, Second(s, r), p.1, 1, First(s, r), p.0, dir);
    CommitPair(s.rows, s.nextId + 2, 2, Second(s, r), p.1, 1, First(s, r), p.0, dir);
  }

  lemma SecondMoves(s: State, dir: Directory, r: Rivalry, p: (Phase, Phase))
    requires Untaken(s, r)
    ensures Step(RaceState(s, r, p), dir, Flush(2))
         == RaceState(s, r, (p.0, AfterFlush(p.1, p.0, SameKey(r.one, r.two))))
    ensures Step(RaceState(s, r, p), dir, Commit(2)) == RaceState(s, r, (p.0, AfterCommit(p.1)))
  {
    MirrorIsSame(s, r, p);
    MirrorMoves(s, dir, r, p);
    MirrorIsSame(s, r, (p.0, AfterFlush(p.1, p.0, SameKey(r.one, r.two))));
    MirrorIsSame(s, r, (p.0, AfterCommit(p.1)));
  }

  lemma ActionIsRace(s: State, dir: Directory, r: Rivalry, p: (Phase, Phase), a: Action)
    requires Untaken(s, r) && a in {Flush(1), Commit(1), Flush(2), Commit(2)}
    ensures Step(RaceState(s, r, p), dir, a) == RaceState(s, r, RaceOn(p, a, Exclusive(r)))
  {
    SameKeyIsSymmetric(r.one, r.two);
    if a.txn == 1 { FirstMoves(s, dir, r, p); } else { SecondMoves(s, dir, r, p); }
    RaceOnIs(p, Exclusive(r));
  }

  lemma SameKeyIsSymmetric(a: Assignment, b: Assignment)
    ensures SameKey(a, b) <==> SameKey(b, a)
  {
  }

  lemma RaceOnIs(p: (Phase, Phase), exclusive: bool)
    ensures RaceOn(p, Flush(1), exclusive) == (AfterFlush(p.0, p.1, exclusive), p.1)
    ensures RaceOn(p, Commit(1), exclusive) == (AfterCommit(p.0), p.1)
    ensures RaceOn(p, Flush(2), exclusive) == (p.0, AfterFlush(p.1, p.0, exclusive))
    ensures RaceOn(p, Commit(2), exclusive) == (p.0, AfterCommit(p.1))
  {
  }

  lemma {:induction false} RunIsRace(s: State, dir: Directory, r: Rivalry, schedule: seq<Action>)
    requires Untaken(s, r) && IsRace(schedule)
    ensures Run(RaceState(s, r, (Ready, Ready)), dir, schedule) == RaceState(s, r, Race(schedule, Exclusive(r)))
  {
    if schedule != [] {
      var init := schedule[..|schedule| - 1];
      RunIsRace(s, dir, r, init);
      ActionIsRace(s, dir, r, Race(init, Exclusive(r)), schedule[|schedule| - 1]);
    }
  }

  /** Whoever flushed and committed is done, unless an exclusive entry went to the other. */
  lemma {:induction false} RaceOutcome(schedule: seq<Action>, exclusive: bool)
    ensures var (a, b) := Race(schedule, exclusive);
      && (exclusive ==> !(Holds(a) && Holds(b)) && (a == Lost ==> Holds(b)) && (b == Lost ==> Holds(a)))
      && (Tries(schedule, 1) ==> Holds(a) || (exclusive && Holds(b)))
      && (Tries(schedule, 2) ==> Holds(b) || (exclusive && Holds(a)))
      && (Completes(schedule, 1) ==> a == Done || (exclusive && Holds(b)))
      && (Completes(schedule, 2) ==> b == Done || (exclusive && Holds(a)))
      && (!exclusive ==> a != Lost && b != Lost)
  {
    if schedule != [] { RaceOutcome(schedule[..|schedule| - 1], exclusive); }
  }

  /** A create and the school it comes from. */
  datatype Wish = Wish(school: Id, data: Data)

  function RowOf(w: Wish): Assignment {
    NewAssignment(w.data, w.school)
  }

  predicate Passes(s: State, dir: Directory, w: Wish) {
    Prepare(s.rows, s.nextId, dir, w.school, Create(w.data)).Ok?
  }

  function BothBegun(s: State, dir: Directory, a: Wish, b: Wish): System {
    Step(Step(System(s.rows, map[], s.nextId), dir, Begin(1, a.school, Create(a.data))), dir,
         Begin(2, b.school, Create(b.data)))
  }

  /** Both creates pass the check before either has written. */
  lemma BothPassTheCheck(s: State, dir: Directory, a: Wish, b: Wish)
    requires Passes(s, dir, a) && Passes(s, dir, b)
    ensures BothBegun(s, dir, a, b) == RaceState(s, Rivalry(RowOf(a), RowOf(b)), (Ready, Ready))
  {
    assert Prepare(s.rows, s.nextId + 1, dir, b.school, Create(b.data)) == Ok(Plan(s.nextId + 1, RowOf(b), None));
  }

  /**
   Two concurrent creates of any two assignments, from any table on which both
   checks pass and under every schedule in which both flush and commit: both
   rows are there in the end if and only if they do not go for one index entry.
   Otherwise exactly one is.
   */
  lemma RaceIsLostIff(s: State, dir: Directory, a: Wish, b: Wish, schedule: seq<Action>)
    requires Passes(s, dir, a) && Passes(s, dir, b) && forall id | id in s.rows :: id < s.nextId
    requires IsRace(schedule) && Completes(schedule, 1) && Completes(schedule, 2)
    ensures var rows := Run(BothBegun(s, dir, a, b), dir, schedule).rows;
      && (s.nextId in rows && s.nextId + 1 in rows <==> !SameKey(RowOf(a), RowOf(b)))
      && (s.nextId in rows || s.nextId + 1 in rows)
      && (s.nextId in rows ==> rows[s.nextId] == RowOf(a))
      && (s.nextId + 1 in rows ==> rows[s.nextId + 1] == RowOf(b))
  {
    var r := Rivalry(RowOf(a), RowOf(b));
    BothPassTheCheck(s, dir, a, b);
    forall id | id in s.rows ensures !SameKey(s.rows[id], r.one) && !SameKey(s.rows[id], r.two) {
      assert !SameSeat(s.rows[id], r.one) && !SameSeat(s.rows[id], r.two);
    }
    RunIsRace(s, dir, r, schedule);
    RaceOutcome(schedule, Exclusive(r));
    DoneIsThere(s, r, Race(schedule, Exclusive(r)));
  }

  lemma DoneIsThere(s: State, r: Rivalry, p: (Phase, Phase))
    requires Untaken(s, r)
    ensures var rows := RaceState(s, r, p).rows;
      && (s.nextId in rows <==> p.0 == Done) && (s.nextId + 1 in rows <==> p.1 == Done)
      && (s.nextId in rows ==> rows[s.nextId] == r.one) && (s.nextId + 1 in rows ==> rows[s.nextId + 1] == r.two)
  {
  }

  /** So two creates both end up filling one position exactly if that position has no subject. */
  lemma RaceFillsSeatTwiceIff(s: State, dir: Directory, a: Wish, b: Wish, schedule: seq<Action>)
    requires Passes(s, dir, a) && Passes(s, dir, b) && forall id | id in s.rows :: id < s.nextId
    requires IsRace(schedule) && Completes(schedule, 1) && Completes(schedule, 2)
    requires SameSeat(RowOf(a), RowOf(b))
    ensures var rows := Run(BothBegun(s, dir, a, b), dir, schedule).rows;
      s.nextId in rows && s.nextId + 1 in rows <==> a.data.role == SUBJECT_TEACHER && a.data.subject.None?
  {
    RaceIsLostIff(s, dir, a, b, schedule);
  }

  /** Left alone, the three phases of a request amount to Apply. */
  lemma AloneIsApply(s: State, dir: Directory, school: Id, op: Op, t: Id)
    ensures var after := Run(System(s.rows, map[], s.nextId), dir, [Begin(t, school, op), Flush(t), Commit(t)]);
      && after.open == map[]
      && after.rows == (if Apply(s, dir, school, op).Ok? then Apply(s, dir, school, op).value.rows else s.rows)
  {
    var actions := [Begin(t, school, op), Flush(t), Commit(t)];
    var quiet := System(s.rows, map[], s.nextId);
    assert Run(quiet, dir, actions[..0]) == quiet;
    RunOneMore(quiet, dir, actions, 0);
    RunOneMore(quiet, dir, actions, 1);
    RunOneMore(quiet, dir, actions, 2);
    assert actions[..3] == actions;
    var p := Prepare(s.rows, s.nextId, dir, school, op);
    if p.Ok? {
      var begun := Step(quiet, dir, actions[0]);
      assert begun.open == map[t := Prepared(p.value)] && !Blocked(begun, t);
    }
  }

  /** An update that makes an ended subject assignment without a subject ACTIVE again: nothing checks it. */
  predicate Revives(row: Assignment, status: Option<Status>) {
    row.role == SUBJECT_TEACHER && row.subject.None? && row.status == ENDED && status == Some(ACTIVE)
  }

  ghost predicate UpdateSafeOn(s: State, dir: Directory, op: Op) {
    op.Update? && op.id in s.rows && OnePerSeat(s.rows) && Apply(s, dir, s.rows[op.id].school, op).Ok? ==>
      OnePerSeat(Apply(s, dir, s.rows[op.id].school, op).value.rows)
  }

  /**
   Served alone, an update keeps every seat single, whatever else the table
   holds, exactly when it revives no such row.
   */
  lemma UpdateIsSafeIff(dir: Directory, id: Id, row: Assignment, end: Option<int>, status: Option<Status>, nextId: Id)
    ensures (forall s: State | id in s.rows && s.rows[id] == row ::
               UpdateSafeOn(s, dir, Update(id, end, status, row.version)))
       <==> !Revives(row, status)
  {
    var op := Update(id, end, status, row.version);
    if Revives(row, status) {
      var rival := row.(status := ACTIVE);
      var s := State(map[id := row, id + 1 := rival], nextId);
      var after := s.rows[id := Prepare(s.rows, nextId, dir, row.school, op).value.row];
      assert SameSeat(after[id], after[id + 1]);
      assert Apply(s, dir, row.school, op) == Ok(State(after, nextId));
      assert !UpdateSafeOn(s, dir, op);
    } else {
      forall s: State | id in s.rows && s.rows[id] == row ensures UpdateSafeOn(s, dir, op) {
        if OnePerSeat(s.rows) && Apply(s, dir, row.school, op).Ok? { WriteKeepsSeats(s, dir, row.school, op); }
      }
    }
  }

  lemma WriteKeepsSeats(s: State, dir: Directory, school: Id, op: Op)
    requires OnePerSeat(s.rows) && Apply(s, dir, school, op).Ok?
    requires op.Create? ==> forall id | id in s.rows :: id < s.nextId
    requires op.Update? && op.id in s.rows ==> !Revives(s.rows[op.id], op.newStatus)
    ensures OnePerSeat(Apply(s, dir, school, op).value.rows)
  {
    var plan := Prepare(s.rows, s.nextId, dir, school, op).value;
    forall id | id in s.rows && id != plan.id ensures !SameSeat(s.rows[id], plan.row) {
      if IndexKey(plan.row).Some? {
        assert !SameKey(s.rows[id], plan.row);
      } else if SeatOf(plan.row).Some? && plan.basis.Some? {
        assert SeatOf(plan.row) == SeatOf(s.rows[plan.id]) && !SameSeat(s.rows[id], s.rows[plan.id]);
      }
    }
  }

  datatype Request = Request(school: Id, op: Op)

  function Serve(s: State, dir: Directory, req: Request): State {
    var r := Apply(s, dir, req.school, req.op);
    if r.Ok? then r.value else s
  }

  function SerialRun(s: State, dir: Directory, reqs: seq<Request>): State {
    if reqs == [] then s else Serve(SerialRun(s, dir, reqs[..|reqs| - 1]), dir, reqs[|reqs| - 1])
  }

  predicate NoRevival(s: State, op: Op) {
    op.Update? && op.id in s.rows ==> !Revives(s.rows[op.id], op.newStatus)
  }

  /** One request at a time and without such revivals, the check suffices for null subjects too. */
  lemma {:induction false} SerialRunsKeepSeats(dir: Directory, reqs: seq<Request>)
    requires forall i | 0 <= i < |reqs| :: NoRevival(SerialRun(State(map[], 0), dir, reqs[..i]), reqs[i].op)
    ensures var s := SerialRun(State(map[], 0), dir, reqs);
      OnePerSeat(s.rows) && forall id | id in s.rows :: id < s.nextId
  {
    if reqs != [] {
      var last := |reqs| - 1;
      var before := SerialRun(State(map[], 0), dir, reqs[..last]);
      forall i | 0 <= i < last
        ensures NoRevival(SerialRun(State(map[], 0), dir, reqs[..last][..i]), reqs[..last][i].op)
      {
        assert reqs[..last][..i] == reqs[..i];
      }
      SerialRunsKeepSeats(dir, reqs[..last]);
      assert NoRevival(SerialRun(State(map[], 0), dir, reqs[..last]), reqs[last].op);
      if Apply(before, dir, reqs[last].school, reqs[last].op).Ok? {
        WriteKeepsSeats(before, dir, reqs[last].school, reqs[last].op);
      }
    }
  }

  // ------------------------------------------------------------------
  // When each request succeeds and what it leaves
  // ------------------------------------------------------------------

  /** The row is ACTIVE, fills a position that only one may fill, and it is the one the create is for. */
  predicate Fills(row: Assignment, school: Id, d: Data) {
    && row.status == ACTIVE && row.school == school && row.cohort == d.cohort && row.year == d.year
    && row.role == d.role
    && (d.role == CLASS_TEACHER || (d.role == SUBJECT_TEACHER && row.subject == d.subject))
  }

  /**
   A create needs a teacher, cohort and year of the school and a position that
   nobody fills; it adds one ACTIVE assignment with the data sent.
   */
  lemma CreateServed(s: State, dir: Directory, school: Id, d: Data)
    requires forall id | id in s.rows :: id < s.nextId
    ensures var r := Apply(s, dir, school, Create(d));
      && (r.Ok? <==> && d.teacher in dir.teachers && dir.teachers[d.teacher] == school
                     && d.cohort in dir.cohorts && dir.cohorts[d.cohort] == school
                     && d.year in dir.years && dir.years[d.year] == school
                     && forall id | id in s.rows :: !Fills(s.rows[id], school, d))
      && (r.Ok? ==> s.nextId !in s.rows && r.value.nextId == s.nextId + 1
                    && r.value.rows == s.rows[s.nextId := Assignment(school, d.teacher, d.cohort, d.subject, d.year,
                                                                     d.role, d.start, None, ACTIVE, 1)])
  {
    var a := NewAssignment(d, school);
    forall id | id in s.rows ensures SameSeat(s.rows[id], a) <==> Fills(s.rows[id], school, d) {}
    if Prepare(s.rows, s.nextId, dir, school, Create(d)).Ok? {
      assert forall id | id in s.rows :: SameKey(s.rows[id], a) ==> SameSeat(s.rows[id], a);
    }
  }

  /** An end needs the school's assignment in the version sent; it is ENDED today, and no other row changes. */
  lemma EndServed(s: State, dir: Directory, school: Id, id: Id, version: nat, today: int)
    ensures var r := Apply(s, dir, school, End(id, version, today));
      && (r.Ok? <==> id in s.rows && s.rows[id].school == school && s.rows[id].version == version)
      && (r.Ok? ==> r.value == s.(rows := s.rows[id :=
                      s.rows[id].(status := ENDED, end := Some(today), version := version + 1)]))
  {
  }

  /** So is an update, with the end and the status it sends, unless the indexes have another entry for the row. */
  lemma UpdateServed(s: State, dir: Directory, school: Id, id: Id, end: Option<int>, status: Option<Status>,
                     version: nat)
    ensures var r := Apply(s, dir, school, Update(id, end, status, version));
      && (r.Ok? ==> id in s.rows && s.rows[id].school == school && s.rows[id].version == version
                    && r.value == s.(rows := s.rows[id := r.value.rows[id]])
                    && r.value.rows[id] == s.rows[id].(
                         end := if end.Some? then end else s.rows[id].end,
                         status := if status.Some? then status.value else s.rows[id].status, version := version + 1))
      && (r.Err? && id in s.rows && s.rows[id].school == school && s.rows[id].version == version ==>
            r.error == IntegrityError
            && (if status.Some? then status.value else s.rows[id].status) == ACTIVE
            && exists other | other in s.rows && other != id :: SameKey(s.rows[other], s.rows[id].(status := ACTIVE)))
  {
  }

  /** Ending an assignment frees its position: a create for it then succeeds if nobody else fills it. */
  lemma EndFreesPosition(s: State, dir: Directory, school: Id, id: Id, version: nat, today: int, d: Data)
    requires forall other | other in s.rows :: other < s.nextId
    requires Apply(s, dir, school, End(id, version, today)).Ok?
    requires d.teacher in dir.teachers && dir.teachers[d.teacher] == school
    requires d.cohort in dir.cohorts && dir.cohorts[d.cohort] == school
    requires d.year in dir.years && dir.years[d.year] == school
    requires forall other | other in s.rows && other != id :: !Fills(s.rows[other], school, d)
    ensures Apply(Apply(s, dir, school, End(id, version, today)).value, dir, school, Create(d)).Ok?
  {
    EndServed(s, dir, school, id, version, today);
    CreateServed(Apply(s, dir, school, End(id, version, today)).value, dir, school, d);
  }

  // ------------------------------------------------------------------
  // No update is lost
  // ------------------------------------------------------------------

  /** A change builds on the version of a row there is, unchanged once it is flushed; a create has a free id. */
  ghost predicate PlanOk(s: System, txn: Txn) {
    match txn.plan.basis
    case Some(v) =>
      && txn.plan.id in s.rows && txn.plan.row.version == v + 1
      && (txn.Written? ==> s.rows[txn.plan.id].version == v)
    case None => txn.plan.id < s.nextId && txn.plan.id !in s.rows && txn.plan.row.version == 1
  }

  ghost predicate VersionsOk(s: System) {
    && (forall id | id in s.rows :: id < s.nextId)
    && (forall t | t in s.open :: PlanOk(s, s.open[t]))
    && (forall t, u | t in s.open && u in s.open && t != u
                      && s.open[t].plan.basis.None? && s.open[u].plan.basis.None? ::
          s.open[t].plan.id != s.open[u].plan.id)
  }

  lemma BeginKeepsVersions(s: System, dir: Directory, t: Id, school: Id, op: Op)
    requires VersionsOk(s)
    ensures VersionsOk(Step(s, dir, Begin(t, school, op)))
  {
    var after := Step(s, dir, Begin(t, school, op));
    forall u | u in after.open ensures PlanOk(after, after.open[u]) {
      if u in s.open { assert PlanOk(s, s.open[u]); }
    }
  }

  lemma FlushKeepsVersions(s: System, dir: Directory, t: Id)
    requires VersionsOk(s)
    ensures VersionsOk(Step(s, dir, Flush(t)))
  {
    var after := Step(s, dir, Flush(t));
    forall u | u in after.open ensures PlanOk(after, after.open[u]) { assert PlanOk(s, s.open[u]); }
  }

  lemma CommitKeepsVersions(s: System, dir: Directory, t: Id)
    requires VersionsOk(s) && Inv(s)
    ensures VersionsOk(Step(s, dir, Commit(t)))
  {
    if t in s.open && s.open[t].Written? {
      var after := Step(s, dir, Commit(t));
      assert PlanOk(s, s.open[t]);
      forall u | u in after.open ensures PlanOk(after, after.open[u]) {
        assert PlanOk(s, s.open[u]);
        if s.open[u].Written? { assert Apart(s.open[t].plan, s.open[u].plan); }
      }
    }
  }

  lemma {:induction false} RunKeepsVersions(dir: Directory, actions: seq<Action>)
    ensures Inv(Run(Empty, dir, actions)) && VersionsOk(Run(Empty, dir, actions))
  {
    RunKeepsInv(Empty, dir, actions);
    if actions != [] {
      var init, a := actions[..|actions| - 1], actions[|actions| - 1];
      RunKeepsVersions(dir, init);
      var before := Run(Empty, dir, init);
      match a
      case Begin(t, school, op) => BeginKeepsVersions(before, dir, t, school, op);
      case Flush(t) => FlushKeepsVersions(before, dir, t);
      case Commit(t) => CommitKeepsVersions(before, dir, t);
      case Abort(t) => assert forall u | u in before.open && u != t :: PlanOk(before, before.open[u]);
    }
  }

  /**
   In every interleaving a commit over a row is by a request that read just
   that version of it, which goes up by one; any other commit adds a row.
   */
  lemma CommitsBuildOnWhatTheyRead(dir: Directory, actions: seq<Action>, t: Id)
    requires var s := Run(Empty, dir, actions); t in s.open && s.open[t].Written?
    ensures var s := Run(Empty, dir, actions);
      var after := Step(s, dir, Commit(t));
      var plan := s.open[t].plan;
      && t !in after.open && after.rows == s.rows[plan.id := plan.row]
      && plan.basis == (if plan.id in s.rows then Some(s.rows[plan.id].version) else None)
      && plan.row.version == (if plan.id in s.rows then s.rows[plan.id].version + 1 else 1)
  {
    RunKeepsVersions(dir, actions);
    assert PlanOk(Run(Empty, dir, actions), Run(Empty, dir, actions).open[t]);
  }

  /** Whatever happens to the request, an abort leaves the rows, and the other requests, as they are. */
  lemma AbortLeavesNothing(s: System, dir: Directory, t: Id, school: Id, op: Op)
    requires t !in s.open
    ensures var begun := Step(s, dir, Begin(t, school, op));
      var flushed := Step(begun, dir, Flush(t));
      && Step(begun, dir, Abort(t)) == s.(nextId := begun.nextId)
      && Step(flushed, dir, Abort(t)) == s.(nextId := begun.nextId)
  {
    var begun := Step(s, dir, Begin(t, school, op));
    assert begun.open - {t} == s.open;
    assert Step(begun, dir, Flush(t)).open - {t} == s.open;
  }

  /**
   A flush that the indexes hold up because another request is about to give
   up the position goes through once that one has committed: here one request
   ends the holder of a position while another revives an assignment to it.
   */
  lemma FlushWaitsForTheEnd(dir: Directory, held: Assignment, ended: Assignment, today: int)
    requires held.status == ACTIVE && ended.status == ENDED && held.school == ended.school
    requires SameKey(held, ended.(status := ACTIVE))
    ensures var revive := Update(1, None, Some(ACTIVE), ended.version);
      var s := System(map[0 := held, 1 := ended], map[], 2);
      var s1 := Step(Step(s, dir, Begin(1, held.school, End(0, held.version, today))), dir, Flush(1));
      var s2 := Step(s1, dir, Begin(2, held.school, revive));
      var s3 := Step(s2, dir, Flush(2));
      var s4 := Step(Step(Step(s3, dir, Commit(1)), dir, Flush(2)), dir, Commit(2));
      && s3 == s2 && s4.open == map[] && 0 in s4.rows && 1 in s4.rows
      && s4.rows[0].status == ENDED && s4.rows[1].status == ACTIVE
  {
    var p := Plan(0, held.(status := ENDED, end := Some(today), version := held.version + 1), Some(held.version));
    var q := Plan(1, ended.(status := ACTIVE, version := ended.version + 1), Some(ended.version));
    var s := System(map[0 := held, 1 := ended], map[], 2);
    var s1 := Step(Step(s, dir, Begin(1, held.school, End(0, held.version, today))), dir, Flush(1));
    assert s1 == s.(open := map[1 := Written(p)]);
    var s2 := Step(s1, dir, Begin(2, held.school, Update(1, None, Some(ACTIVE), ended.version)));
    assert s2 == s.(open := map[1 := Written(p), 2 := Prepared(q)]);
    assert WaitsFor(s2.rows, q, s2.open[1]);
    assert Step(s2, dir, Commit(1)) == System(map[0 := p.row, 1 := ended], map[2 := Prepared(q)], 2);
    WriteAlone(dir, map[0 := p.row, 1 := ended], 2, q, 2);
  }

  lemma WriteAlone(dir: Directory, rows: map<Id, Assignment>, t: Id, q: Plan, nextId: Id)
    requires FlushError(rows, q).None?
    ensures Step(Step(System(rows, map[t := Prepared(q)], nextId), dir, Flush(t)), dir, Commit(t))
         == System(rows[q.id := q.row], map[], nextId)
  {
    var s := System(rows, map[t := Prepared(q)], nextId);
    assert Step(s, dir, Flush(t)) == s.(open := map[t := Written(q)]);
  }

  /** A flush that comes too late: a change of a row that moved on is stale, a create beaten to its entry a conflict. */
  lemma LateFlushIsAnswered(rows: map<Id, Assignment>, plan: Plan, other: Id)
    ensures plan.basis.Some? && (plan.id !in rows || rows[plan.id].version != plan.basis.value) ==>
              FlushError(rows, plan) == Some(StaleResource)
    ensures plan.basis.None? && other in rows && other != plan.id && SameKey(rows[other], plan.row) ==>
              FlushError(rows, plan) == Some(AssignmentConflict)
    ensures plan.basis.Some? && plan.id in rows && rows[plan.id].version == plan.basis.value
            && other in rows && other != plan.id && SameKey(rows[other], plan.row) ==>
              FlushError(rows, plan) == Some(IntegrityError)
  {
  }

  /**
   A flush does not wait for requests that write other rows and neither take
   nor give up its index entry: it is written, or answered, at once.
   */
  lemma OnlyRivalsHoldUp(s: System, dir: Directory, t: Id)
    requires t in s.open && s.open[t].Prepared?
    requires forall u | u in s.open && u != t && s.open[u].Written? ::
               && s.open[u].plan.id != s.open[t].plan.id && !SameKey(s.open[u].plan.row, s.open[t].plan.row)
               && (s.open[u].plan.id in s.rows ==> !SameKey(s.rows[s.open[u].plan.id], s.open[t].plan.row))
    ensures var after := Step(s, dir, Flush(t)); t !in after.open || after.open[t] == Written(s.open[t].plan)
  {
  }
}
