/**
 Attendance sessions and records: app/modules/attendance/service.py over the
 tables of app/modules/attendance/repository.py.
 */
module Attendance {
  import opened Prelude

  type Id = nat

  datatype SessionStatus = DRAFT | SUBMITTED | AMENDED

  datatype Mark = PRESENT | ABSENT | LATE | EXCUSED | HOLIDAY

  datatype Session = Session(school: Id, cohort: Id, date: int, status: SessionStatus, version: nat,
                             notes: Option<string>)

  datatype Record = Record(student: Id, mark: Mark, arrivedAt: Option<int>, notes: Option<string>, createdBy: Id,
                           updatedBy: Id)

  datatype Enrollment = Enrollment(student: Id, cohort: Id, school: Id, active: bool, start: int, end: Option<int>)

  /** Unique constraint uq_record_session_enrollment makes (session, enrollment) the key of a record. */
  datatype RecordKey = RecordKey(session: Id, enrollment: Id)

  datatype State = State(
    enrollments: map<Id, Enrollment>,
    sessions: map<Id, Session>,
    records: map<RecordKey, Record>,
    submitted: seq<Id>,   // ATTENDANCE_SUBMITTED events enqueued so far, by session
    nextId: Id)

  datatype Item = Item(enrollment: Id, mark: Mark, arrivedAt: Option<int>, notes: Option<string>)

  datatype Ctx = Ctx(school: Id, user: Id)

  // ValueError: binding the empty string that stands for an unknown student.
  datatype Error =
    | NotFound
    | AlreadyExists
    | NotEditable
    | StaleResource
    | SessionSubmitted
    | IntegrityError
    | ValueError

  datatype Op =
    | Create(cohort: Id, date: int, notes: Option<string>)
    | UpdateSession(session: Id, status: Option<SessionStatus>, notes: Option<string>, version: nat)
    | DeleteSession(session: Id, version: nat)
    | Submit(session: Id, version: nat)
    | Amend(session: Id, version: nat)
    | UpdateRecord(session: Id, enrollment: Id, mark: Mark, arrivedAt: Option<int>, notes: Option<string>)
    | BulkUpdate(session: Id, items: seq<Item>)

  predicate Enrolled(e: Enrollment, cohort: Id, school: Id, date: int) {
    e.cohort == cohort && e.school == school && e.active && e.start <= date && (e.end.None? || e.end.value >= date)
  }

  /** _resolve_student_id: enrollments are looked up within the school. */
  function Resolve(enrollments: map<Id, Enrollment>, enrollment: Id, school: Id): Option<Id> {
    if enrollment in enrollments && enrollments[enrollment].school == school
    then Some(enrollments[enrollment].student) else None
  }

  /**
   INSERT ... ON CONFLICT DO UPDATE of one row. Without a student of the school
   the statement fails before it is sent, record or no record; an existing
   record changes its mark, time and notes.
   */
  function Upsert(records: map<RecordKey, Record>, session: Id, item: Item, student: Option<Id>, user: Id)
    : Result<map<RecordKey, Record>, Error>
  {
    var key := RecordKey(session, item.enrollment);
    if student.None? then Err(ValueError)
    else if key in records then
      Ok(records[key :=
           records[key].(mark := item.mark, arrivedAt := item.arrivedAt, notes := item.notes, updatedBy := user)])
    else Ok(records[key := Record(student.value, item.mark, item.arrivedAt, item.notes, user, user)])
  }

  function UpsertAll(records: map<RecordKey, Record>, enrollments: map<Id, Enrollment>, session: Id, items: seq<Item>,
                     ctx: Ctx)
    : Result<map<RecordKey, Record>, Error>
  {
    if items == [] then Ok(records)
    else
      var before := UpsertAll(records, enrollments, session, items[..|items| - 1], ctx);
      var item := items[|items| - 1];
      if before.Err? then before
      else Upsert(before.value, session, item, Resolve(enrollments, item.enrollment, ctx.school), ctx.user)
  }

  function Find(s: State, session: Id, ctx: Ctx): Option<Session> {
    if session in s.sessions && s.sessions[session].school == ctx.school then Some(s.sessions[session]) else None
  }

  function Put(s: State, id: Id, session: Session): State {
    s.(sessions := s.sessions[id := session.(version := session.version + 1)])
  }

  /** The lookup of create_session, and the unique constraint on (cohort, date) behind it. */
  predicate SessionInSchool(sessions: map<Id, Session>, cohort: Id, date: int, school: Id) {
    exists id | id in sessions ::
      sessions[id].cohort == cohort && sessions[id].date == date && sessions[id].school == school
  }

  predicate SessionAnywhere(sessions: map<Id, Session>, cohort: Id, date: int) {
    exists id | id in sessions :: sessions[id].cohort == cohort && sessions[id].date == date
  }

  /** A PRESENT record for each of these enrollments. */
  function FreshRecords(enrollments: map<Id, Enrollment>, session: Id, enrolled: set<Id>,
                        user: Id): map<RecordKey, Record>
    requires enrolled <= enrollments.Keys
  {
    map e | e in enrolled :: RecordKey(session, e) := Record(enrollments[e].student, PRESENT, None, None, user, user)
  }

  function EnrolledOn(enrollments: map<Id, Enrollment>, cohort: Id, school: Id, date: int): set<Id> {
    set e | e in enrollments && Enrolled(enrollments[e], cohort, school, date)
  }

  /** Its lookup loads a session's records; deleting it then blanks their session, which the table refuses. */
  predicate HasRecords(records: map<RecordKey, Record>, session: Id) {
    exists k | k in records :: k.session == session
  }

  /** One request; an error leaves no trace (the request transaction is rolled back). */
  function Apply(s: State, ctx: Ctx, op: Op): Result<State, Error> {
    match op
    case Create(cohort, date, notes) =>
      if SessionInSchool(s.sessions, cohort, date, ctx.school) then Err(AlreadyExists)
      else if SessionAnywhere(s.sessions, cohort, date) then Err(IntegrityError)
      else
        var enrolled := EnrolledOn(s.enrollments, cohort, ctx.school, date);
        Ok(s.(sessions := s.sessions[s.nextId := Session(ctx.school, cohort, date, DRAFT, 1, notes)],
              records := s.records + FreshRecords(s.enrollments, s.nextId, enrolled, ctx.user),
              nextId := s.nextId + 1))
    case UpdateSession(id, status, notes, version) =>
      var found := Find(s, id, ctx);
      if found.None? then Err(NotFound)
      else if found.value.status != DRAFT then Err(NotEditable)
      else if found.value.version != version then Err(StaleResource)
      else Ok(Put(s, id, found.value.(status := if status.Some? then status.value else found.value.status,
                                      notes := if notes.Some? then notes else found.value.notes)))
    case DeleteSession(id, version) =>
      var found := Find(s, id, ctx);
      if found.None? then Err(NotFound)
      else if found.value.status != DRAFT then Err(NotEditable)
      else if found.value.version != version then Err(StaleResource)
      else if HasRecords(s.records, id) then Err(IntegrityError)
      else Ok(s.(sessions := s.sessions - {id}))
    case Submit(id, version) =>
      var found := Find(s, id, ctx);
      if found.None? then Err(NotFound)
      else if found.value.status != DRAFT then Err(NotEditable)
      else if found.value.version != version then Err(StaleResource)
      else Ok(Put(s, id, found.value.(status := SUBMITTED)).(submitted := s.submitted + [id]))
    case Amend(id, version) =>
      var found := Find(s, id, ctx);
      if found.None? then Err(NotFound)
      else if found.value.status == DRAFT then Err(NotEditable)
      else if found.value.version != version then Err(StaleResource)
      else Ok(Put(s, id, found.value.(status := AMENDED)))
    case UpdateRecord(id, enrollment, mark, arrivedAt, notes) =>
      var key := RecordKey(id, enrollment);
      var found := Find(s, id, ctx);
      if key !in s.records || found.None? then Err(NotFound)
      else if found.value.status == SUBMITTED then Err(SessionSubmitted)
      else Ok(s.(records := s.records[key :=
                s.records[key].(mark := mark, arrivedAt := arrivedAt, notes := notes, updatedBy := ctx.user)]))
    case BulkUpdate(id, items) =>
      var found := Find(s, id, ctx);
      if found.None? then Err(NotFound)
      else if found.value.status == SUBMITTED then Err(SessionSubmitted)
      else
        var upserted := UpsertAll(s.records, s.enrollments, id, items, ctx);
        if upserted.Err? then Err(upserted.error) else Ok(s.(records := upserted.value))
  }

  // ------------------------------------------------------------------
  // The service, updating its tables in place
  // ------------------------------------------------------------------

  /** The loop of create_session over the enrollments of the day. */
  method AddRecords(records: map<RecordKey, Record>, enrollments: map<Id, Enrollment>, session: Id, enrolled: set<Id>,
                    user: Id)
      returns (r: map<RecordKey, Record>)
    requires enrolled <= enrollments.Keys
    ensures r == records + FreshRecords(enrollments, session, enrolled, user)
  {
    var rest := enrolled;
    r := records;
    while rest != {}
      invariant rest <= enrolled
      invariant r == records + FreshRecords(enrollments, session, enrolled - rest, user)
      decreases rest
    {
      var e :| e in rest;
      FreshRecordsGrow(records, enrollments, session, enrolled - rest, e, user);
      assert enrolled - (rest - {e}) == enrolled - rest + {e};
      r := r[RecordKey(session, e) := Record(enrollments[e].student, PRESENT, None, None, user, user)];
      rest := rest - {e};
    }
    assert enrolled - rest == enrolled;
  }

  class AttendanceService {
    var s: State

    constructor (s: State)
      ensures this.s == s
    {
      this.s := s;
    }

    method CreateSession(ctx: Ctx, cohort: Id, date: int, notes: Option<string>) returns (r: Result<Id, Error>)
      modifies this
      ensures Answers(old(s), s, r, Apply(old(s), ctx, Create(cohort, date, notes)))
      ensures r.Ok? ==> r.value == old(s).nextId
    {
      if SessionInSchool(s.sessions, cohort, date, ctx.school) { return Err(AlreadyExists); }
      if SessionAnywhere(s.sessions, cohort, date) { return Err(IntegrityError); }
      var id := s.nextId;
      var enrolled := EnrolledOn(s.enrollments, cohort, ctx.school, date);
      var records := AddRecords(s.records, s.enrollments, id, enrolled, ctx.user);
      s := s.(sessions := s.sessions[id := Session(ctx.school, cohort, date, DRAFT, 1, notes)],
              records := records, nextId := id + 1);
      r := Ok(id);
    }

    method EditSession(ctx: Ctx, id: Id, status: Option<SessionStatus>, notes: Option<string>, version: nat)
        returns (r: Result<(), Error>)
      modifies this
      ensures Answers(old(s), s, r, Apply(old(s), ctx, UpdateSession(id, status, notes, version)))
    {
      var found := Find(s, id, ctx);
      if found.None? { return Err(NotFound); }
      if found.value.status != DRAFT { return Err(NotEditable); }
      if found.value.version != version { return Err(StaleResource); }
      var session := found.value;
      if status.Some? {
        session := session.(status := status.value);
      }
      if notes.Some? {
        session := session.(notes := notes);
      }
      s := Put(s, id, session);
      r := Ok(());
    }

    method RemoveSession(ctx: Ctx, id: Id, version: nat) returns (r: Result<(), Error>)
      modifies this
      ensures Answers(old(s), s, r, Apply(old(s), ctx, DeleteSession(id, version)))
    {
      var found := Find(s, id, ctx);
      if found.None? { return Err(NotFound); }
      if found.value.status != DRAFT { return Err(NotEditable); }
      if found.value.version != version { return Err(StaleResource); }
      if HasRecords(s.records, id) { return Err(IntegrityError); }
      s := s.(sessions := s.sessions - {id});
      r := Ok(());
    }

    method SubmitSession(ctx: Ctx, id: Id, version: nat) returns (r: Result<(), Error>)
      modifies this
      ensures Answers(old(s), s, r, Apply(old(s), ctx, Submit(id, version)))
    {
      var found := Find(s, id, ctx);
      if found.None? { return Err(NotFound); }
      if found.value.status != DRAFT { return Err(NotEditable); }
      if found.value.version != version { return Err(StaleResource); }
      s := Put(s, id, found.value.(status := SUBMITTED));
      s := s.(submitted := s.submitted + [id]);
      r := Ok(());
    }

    method AmendSession(ctx: Ctx, id: Id, version: nat) returns (r: Result<(), Error>)
      modifies this
      ensures Answers(old(s), s, r, Apply(old(s), ctx, Amend(id, version)))
    {
      var found := Find(s, id, ctx);
      if found.None? { return Err(NotFound); }
      if found.value.status != SUBMITTED && found.value.status != AMENDED { return Err(NotEditable); }
      if found.value.version != version { return Err(StaleResource); }
      s := Put(s, id, found.value.(status := AMENDED));
      r := Ok(());
    }

    method EditRecord(ctx: Ctx, id: Id, enrollment: Id, mark: Mark, arrivedAt: Option<int>, notes: Option<string>)
        returns (r: Result<(), Error>)
      modifies this
      ensures Answers(old(s), s, r, Apply(old(s), ctx, UpdateRecord(id, enrollment, mark, arrivedAt, notes)))
    {
      var key := RecordKey(id, enrollment);
      if key !in s.records { return Err(NotFound); }
      var found := Find(s, id, ctx);
      if found.None? { return Err(NotFound); }
      if found.value.status == SUBMITTED { return Err(SessionSubmitted); }
      var record := s.records[key].(mark := mark, arrivedAt := arrivedAt);
      record := record.(notes := notes, updatedBy := ctx.user);
      s := s.(records := s.records[key := record]);
      r := Ok(());
    }

    method BulkUpdateRecords(ctx: Ctx, id: Id, items: seq<Item>) returns (r: Result<(), Error>)
      modifies this
      ensures Answers(old(s), s, r, Apply(old(s), ctx, BulkUpdate(id, items)))
    {
      var found := Find(s, id, ctx);
      if found.None? { return Err(NotFound); }
      if found.value.status == SUBMITTED { return Err(SessionSubmitted); }
      var records := s.records;
      for i := 0 to |items|
        invariant UpsertAll(s.records, s.enrollments, id, items[..i], ctx) == Ok(records)
      {
        assert items[..i + 1][..i] == items[..i];
        var student := Resolve(s.enrollments, items[i].enrollment, ctx.school);
        var upserted := Upsert(records, id, items[i], student, ctx.user);
        if upserted.Err? {
          FailureSticks(s.records, s.enrollments, id, items, i + 1, ctx);
          return Err(upserted.error);
        }
        records := upserted.value;
      }
      assert items[..|items|] == items;
      s := s.(records := records);
      r := Ok(());
    }
  }

  lemma FreshRecordsGrow(records: map<RecordKey, Record>, enrollments: map<Id, Enrollment>, session: Id,
                         done: set<Id>, e: Id, user: Id)
    requires done + {e} <= enrollments.Keys
    ensures records + FreshRecords(enrollments, session, done + {e}, user)
         == (records + FreshRecords(enrollments, session, done, user))
            [RecordKey(session, e) := Record(enrollments[e].student, PRESENT, None, None, user, user)]
  {
  }

  lemma {:induction false} FailureSticks(records: map<RecordKey, Record>, enrollments: map<Id, Enrollment>, session: Id,
                                         items: seq<Item>, n: nat, ctx: Ctx)
    requires n <= |items| && UpsertAll(records, enrollments, session, items[..n], ctx) == Err(ValueError)
    ensures UpsertAll(records, enrollments, session, items, ctx) == Err(ValueError)
  {
    if n < |items| {
      assert items[..|items| - 1][..n] == items[..n];
      FailureSticks(records, enrollments, session, items[..|items| - 1], n, ctx);
    } else {
      assert items[..n] == items;
    }
  }

  // ------------------------------------------------------------------
  // Bulk updates: last write wins
  // ------------------------------------------------------------------

  /** One item with the user who sent it. */
  datatype Write = Write(item: Item, user: Id)

  ghost function Writes(items: seq<Item>, user: Id): (ws: seq<Write>)
    ensures |ws| == |items| && forall i | 0 <= i < |items| :: ws[i] == Write(items[i], user)
  {
    seq(|items|, i requires 0 <= i < |items| => Write(items[i], user))
  }

  /** The last and the first write for an enrollment, if there is one. */
  ghost function LastFor(ws: seq<Write>, enrollment: Id): Option<Write> {
    if ws == [] then None
    else if ws[|ws| - 1].item.enrollment == enrollment then Some(ws[|ws| - 1])
    else LastFor(ws[..|ws| - 1], enrollment)
  }

  ghost function FirstFor(ws: seq<Write>, enrollment: Id): Option<Write> {
    if ws == [] then None
    else
      var before := FirstFor(ws[..|ws| - 1], enrollment);
      if before.Some? then before
      else if ws[|ws| - 1].item.enrollment == enrollment then Some(ws[|ws| - 1]) else None
  }

  /**
   What a record holds after these writes to its session: mark, time, notes and
   updater of the last one for its enrollment; student and creator of what was
   there, or of the enrollment and the first one.
   */
  ghost predicate HoldsLastWrite(before: map<RecordKey, Record>, after: map<RecordKey, Record>,
                                 enrollments: map<Id, Enrollment>, school: Id, ws: seq<Write>, key: RecordKey)
  {
    var first, last := FirstFor(ws, key.enrollment), LastFor(ws, key.enrollment);
    if last.None? || first.None? then (key in after <==> key in before) && (key in before ==> after[key] == before[key])
    else
      && key in after
      && after[key].mark == last.value.item.mark && after[key].arrivedAt == last.value.item.arrivedAt
      && after[key].notes == last.value.item.notes && after[key].updatedBy == last.value.user
      && (if key in before
          then after[key].student == before[key].student && after[key].createdBy == before[key].createdBy
          else Resolve(enrollments, key.enrollment, school) == Some(after[key].student)
               && after[key].createdBy == first.value.user)
  }

  /** Writes after writes. */
  lemma {:induction false} WritesAppend(a: seq<Write>, b: seq<Write>, enrollment: Id)
    ensures LastFor(a + b, enrollment)
         == if LastFor(b, enrollment).Some? then LastFor(b, enrollment) else LastFor(a, enrollment)
    ensures FirstFor(a + b, enrollment)
         == if FirstFor(a, enrollment).Some? then FirstFor(a, enrollment) else FirstFor(b, enrollment)
    ensures FirstFor(b, enrollment).Some? <==> LastFor(b, enrollment).Some?
  {
    if b == [] {
      assert a + b == a;
    } else {
      assert (a + b)[..|a + b| - 1] == a + b[..|b| - 1];
      WritesAppend(a, b[..|b| - 1], enrollment);
    }
  }

  lemma LastWritesCompose(x: map<RecordKey, Record>, y: map<RecordKey, Record>, z: map<RecordKey, Record>,
                          enrollments: map<Id, Enrollment>, school: Id, a: seq<Write>, b: seq<Write>, key: RecordKey)
    requires HoldsLastWrite(x, y, enrollments, school, a, key) && HoldsLastWrite(y, z, enrollments, school, b, key)
    ensures HoldsLastWrite(x, z, enrollments, school, a + b, key)
  {
    WritesAppend(a, b, key.enrollment);
    WritesAppend([], a, key.enrollment);
    assert [] + a == a;
  }

  lemma OneWrite(records: map<RecordKey, Record>, enrollments: map<Id, Enrollment>, session: Id, item: Item, ctx: Ctx,
                 key: RecordKey)
    requires Upsert(records, session, item, Resolve(enrollments, item.enrollment, ctx.school), ctx.user).Ok?
    ensures var student := Resolve(enrollments, item.enrollment, ctx.school);
      HoldsLastWrite(records, Upsert(records, session, item, student, ctx.user).value, enrollments, ctx.school,
                     if key.session == session then [Write(item, ctx.user)] else [], key)
  {
    var w := Write(item, ctx.user);
    assert [w][..0] == [];
    assert LastFor([w], key.enrollment) == FirstFor([w], key.enrollment)
        == if item.enrollment == key.enrollment then Some(w) else None;
  }

  /** A bulk update keeps one record per enrollment and equals last-write-wins on the old records. */
  lemma {:induction false} BulkIsLastWriteWins(records: map<RecordKey, Record>, enrollments: map<Id, Enrollment>,
                                               session: Id, items: seq<Item>, ctx: Ctx, key: RecordKey)
    requires UpsertAll(records, enrollments, session, items, ctx).Ok?
    ensures HoldsLastWrite(records, UpsertAll(records, enrollments, session, items, ctx).value, enrollments, ctx.school,
                           if key.session == session then Writes(items, ctx.user) else [], key)
  {
    if items != [] {
      var init, item := items[..|items| - 1], items[|items| - 1];
      var middle := UpsertAll(records, enrollments, session, init, ctx).value;
      BulkIsLastWriteWins(records, enrollments, session, init, ctx, key);
      OneWrite(middle, enrollments, session, item, ctx, key);
      var some := if key.session == session then Writes(init, ctx.user) else [];
      var one := if key.session == session then [Write(item, ctx.user)] else [];
      LastWritesCompose(records, middle, UpsertAll(records, enrollments, session, items, ctx).value,
                        enrollments, ctx.school, some, one, key);
      assert Writes(items, ctx.user) == Writes(init, ctx.user) + [Write(item, ctx.user)];
    }
  }

  /** It fails, and so changes nothing, exactly when some item's enrollment is not one of the school. */
  lemma {:induction false} BulkFailsIff(records: map<RecordKey, Record>, enrollments: map<Id, Enrollment>, session: Id,
                                        items: seq<Item>, ctx: Ctx)
    ensures UpsertAll(records, enrollments, session, items, ctx).Err?
       <==> exists i | 0 <= i < |items| :: Resolve(enrollments, items[i].enrollment, ctx.school).None?
  {
    if items != [] {
      var init, last := items[..|items| - 1], |items| - 1;
      BulkFailsIff(records, enrollments, session, init, ctx);
      if i :| 0 <= i < |init| && Resolve(enrollments, init[i].enrollment, ctx.school).None? {
        assert items[i] == init[i];
      } else {
        assert forall i | 0 <= i < last :: items[i] == init[i];
      }
    }
  }

  /** Two bulk updates of a session by one caller are one bulk update with their items in order. */
  lemma {:induction false} BulkUpdatesCompose(records: map<RecordKey, Record>, enrollments: map<Id, Enrollment>,
                                              session: Id, first: seq<Item>, second: seq<Item>, ctx: Ctx)
    requires UpsertAll(records, enrollments, session, first, ctx).Ok?
    ensures UpsertAll(UpsertAll(records, enrollments, session, first, ctx).value, enrollments, session, second, ctx)
         == UpsertAll(records, enrollments, session, first + second, ctx)
  {
    if second == [] {
      assert first + second == first;
    } else {
      BulkUpdatesCompose(records, enrollments, session, first, second[..|second| - 1], ctx);
      assert (first + second)[..|first + second| - 1] == first + second[..|second| - 1];
    }
  }

  // ------------------------------------------------------------------
  // Whole runs of requests
  // ------------------------------------------------------------------

  datatype Request = Request(ctx: Ctx, op: Op)

  function Serve(s: State, req: Request): State {
    var r := Apply(s, req.ctx, req.op);
    if r.Ok? then r.value else s
  }

  ghost function Run(s: State, reqs: seq<Request>): State {
    if reqs == [] then s else Serve(Run(s, reqs[..|reqs| - 1]), reqs[|reqs| - 1])
  }

  ghost predicate Left(s: State, id: Id) {
    id in s.sessions && s.sessions[id].status != DRAFT
  }

  /** Each session has at most one event, and one that has an event has left DRAFT. */
  ghost predicate Inv(s: State) {
    && (forall id | id in s.sessions :: id < s.nextId)
    && (forall i, j | 0 <= i < j < |s.submitted| :: s.submitted[i] != s.submitted[j])
    && (forall i | 0 <= i < |s.submitted| :: Left(s, s.submitted[i]))
  }

  /** One request: a session that has left DRAFT stays out of it. */
  lemma ServeKeepsLeft(s: State, req: Request, id: Id)
    requires s.nextId !in s.sessions && Left(s, id)
    ensures Left(Serve(s, req), id)
  {
  }

  /** Events appear only when a session goes from DRAFT to SUBMITTED. */
  lemma EventsComeFromSubmits(s: State, req: Request)
    ensures var after := Serve(s, req);
      after.submitted == s.submitted
      || (req.op.Submit? && after.submitted == s.submitted + [req.op.session]
          && req.op.session in s.sessions && s.sessions[req.op.session].status == DRAFT
          && after.sessions[req.op.session].status == SUBMITTED)
  {
  }

  lemma ServeKeepsInv(s: State, req: Request)
    requires Inv(s)
    ensures Inv(Serve(s, req))
  {
    var after := Serve(s, req);
    EventsComeFromSubmits(s, req);
    forall i | 0 <= i < |s.submitted| ensures Left(after, s.submitted[i]) {
      ServeKeepsLeft(s, req, s.submitted[i]);
    }
  }

  /** Records of a session never change while it is SUBMITTED, whatever the request. */
  lemma SubmittedFreezesRecords(s: State, req: Request, key: RecordKey)
    requires Inv(s) && key.session in s.sessions && s.sessions[key.session].status == SUBMITTED
    ensures var after := Serve(s, req);
      (key in after.records <==> key in s.records) && (key in s.records ==> after.records[key] == s.records[key])
  {
    if req.op.BulkUpdate? && Apply(s, req.ctx, req.op).Ok? {
      BulkIsLastWriteWins(s.records, s.enrollments, req.op.session, req.op.items, req.ctx, key);
    }
  }

  lemma {:induction false} RunKeepsInv(s: State, reqs: seq<Request>)
    requires Inv(s)
    ensures Inv(Run(s, reqs))
  {
    if reqs != [] {
      RunKeepsInv(s, reqs[..|reqs| - 1]);
      ServeKeepsInv(Run(s, reqs[..|reqs| - 1]), reqs[|reqs| - 1]);
    }
  }

  /** Once a session has left DRAFT it never returns, over every run. */
  lemma {:induction false} NeverDraftAgain(s: State, reqs: seq<Request>, id: Id)
    requires Inv(s) && Left(s, id)
    ensures Left(Run(s, reqs), id)
  {
    if reqs != [] {
      NeverDraftAgain(s, reqs[..|reqs| - 1], id);
      RunKeepsInv(s, reqs[..|reqs| - 1]);
      ServeKeepsLeft(Run(s, reqs[..|reqs| - 1]), reqs[|reqs| - 1], id);
    }
  }

  /** Over every run from empty tables, no session has two submission events. */
  lemma OneEventPerSession(enrollments: map<Id, Enrollment>, reqs: seq<Request>, i: nat, j: nat)
    requires i < j < |Run(State(enrollments, map[], map[], [], 0), reqs).submitted|
    ensures var s := Run(State(enrollments, map[], map[], [], 0), reqs);
      s.submitted[i] != s.submitted[j] && Left(s, s.submitted[i])
  {
    RunKeepsInv(State(enrollments, map[], map[], [], 0), reqs);
  }

  ghost function RunFromEmpty(enrollments: map<Id, Enrollment>, reqs: seq<Request>): State {
    Run(State(enrollments, map[], map[], [], 0), reqs)
  }

  /** Request i takes the session out of DRAFT. */
  ghost predicate LeavesDraftAt(enrollments: map<Id, Enrollment>, reqs: seq<Request>, i: nat, id: Id)
    requires i < |reqs|
  {
    !Left(RunFromEmpty(enrollments, reqs[..i]), id) && Left(RunFromEmpty(enrollments, reqs[..i + 1]), id)
  }

  /** A session out of DRAFT was taken out of it by one of the requests. */
  lemma {:induction false} LeftByRequest(enrollments: map<Id, Enrollment>, reqs: seq<Request>, id: Id) returns (i: nat)
    requires Left(RunFromEmpty(enrollments, reqs), id)
    ensures i < |reqs| && LeavesDraftAt(enrollments, reqs, i, id)
  {
    var last := |reqs| - 1;
    assert reqs[..last + 1] == reqs;
    if Left(RunFromEmpty(enrollments, reqs[..last]), id) {
      i := LeftByRequest(enrollments, reqs[..last], id);
      assert reqs[..last][..i] == reqs[..i] && reqs[..last][..i + 1] == reqs[..i + 1];
    } else {
      i := last;
    }
  }

  lemma NoEventYet(s: State, id: Id)
    requires Inv(s) && !Left(s, id)
    ensures id !in s.submitted
  {
    forall i | 0 <= i < |s.submitted| ensures s.submitted[i] != id { assert Left(s, s.submitted[i]); }
  }

  /** The request that takes a session out of DRAFT enqueues its event exactly if it is a submit. */
  lemma LeavingEnqueuesIff(s: State, req: Request, id: Id)
    requires Inv(s) && !Left(s, id) && Left(Serve(s, req), id)
    ensures id in Serve(s, req).submitted <==> req.op.Submit?
  {
    NoEventYet(s, id);
    EventsComeFromSubmits(s, req);
    if req.op.Submit? {
      assert Serve(s, req).submitted == s.submitted + [id];
    }
  }

  lemma LaterRequestKeeps(s: State, req: Request, id: Id)
    requires Inv(s) && Left(s, id)
    ensures Left(Serve(s, req), id) && (id in Serve(s, req).submitted <==> id in s.submitted)
  {
    ServeKeepsLeft(s, req, id);
    EventsComeFromSubmits(s, req);
  }

  lemma {:induction false} LaterRequestsKeep(s: State, reqs: seq<Request>, id: Id)
    requires Inv(s) && Left(s, id)
    ensures Left(Run(s, reqs), id) && (id in Run(s, reqs).submitted <==> id in s.submitted)
  {
    if reqs != [] {
      var init := reqs[..|reqs| - 1];
      LaterRequestsKeep(s, init, id);
      RunKeepsInv(s, init);
      LaterRequestKeeps(Run(s, init), reqs[|reqs| - 1], id);
    }
  }

  lemma {:induction false} RunSplits(s: State, reqs: seq<Request>, n: nat)
    requires n <= |reqs|
    ensures Run(s, reqs) == Run(Run(s, reqs[..n]), reqs[n..])
  {
    if n == |reqs| {
      assert reqs[..n] == reqs;
    } else {
      var init := reqs[..|reqs| - 1];
      RunSplits(s, init, n);
      assert init[..n] == reqs[..n] && reqs[n..][..|reqs[n..]| - 1] == init[n..];
    }
  }

  lemma RunOneMore(s: State, reqs: seq<Request>, i: nat)
    requires i < |reqs|
    ensures Run(s, reqs[..i + 1]) == Serve(Run(s, reqs[..i]), reqs[i])
  {
    assert reqs[..i + 1][..i] == reqs[..i];
  }

  /** Over every run from empty tables, a session that left DRAFT has its event if and only if a submit took it out. */
  lemma EventIffSubmitted(enrollments: map<Id, Enrollment>, reqs: seq<Request>, i: nat, id: Id)
    requires i < |reqs| && LeavesDraftAt(enrollments, reqs, i, id)
    ensures Left(RunFromEmpty(enrollments, reqs), id)
    ensures id in RunFromEmpty(enrollments, reqs).submitted <==> reqs[i].op.Submit?
  {
    var empty := State(enrollments, map[], map[], [], 0);
    RunKeepsInv(empty, reqs[..i]);
    RunKeepsInv(empty, reqs[..i + 1]);
    RunOneMore(empty, reqs, i);
    LeavingEnqueuesIff(Run(empty, reqs[..i]), reqs[i], id);
    LaterRequestsKeep(Run(empty, reqs[..i + 1]), reqs[i + 1..], id);
    RunSplits(empty, reqs, i + 1);
  }

  /** The other way out exists: the status in an update makes a session SUBMITTED that never has an event. */
  lemma SubmittedWithoutEvent(enrollments: map<Id, Enrollment>, ctx: Ctx, cohort: Id, date: int, reqs: seq<Request>)
    ensures var silent := [Request(ctx, Create(cohort, date, None)),
                           Request(ctx, UpdateSession(0, Some(SUBMITTED), None, 1))];
      var s := RunFromEmpty(enrollments, silent);
      && 0 in s.sessions && s.sessions[0].status == SUBMITTED
      && 0 !in RunFromEmpty(enrollments, silent + reqs).submitted
  {
    var silent := [Request(ctx, Create(cohort, date, None)), Request(ctx, UpdateSession(0, Some(SUBMITTED), None, 1))];
    var empty := State(enrollments, map[], map[], [], 0);
    assert silent[..0] == [] && Run(empty, silent[..0]) == empty;
    RunOneMore(empty, silent, 0);
    RunOneMore(empty, silent, 1);
    assert silent[..2] == silent;
    var all := silent + reqs;
    assert all[..1] == silent[..1] && all[..2] == silent;
    assert LeavesDraftAt(enrollments, all, 1, 0);
    EventIffSubmitted(enrollments, all, 1, 0);
  }

  // ------------------------------------------------------------------
  // Any sequence of bulk updates
  // ------------------------------------------------------------------

  /** The writes to a session that a run of bulk updates accepted, in order, each with its user. */
  ghost function AcceptedWrites(s: State, reqs: seq<Request>, session: Id): seq<Write> {
    if reqs == [] then []
    else
      var init, req := reqs[..|reqs| - 1], reqs[|reqs| - 1];
      AcceptedWrites(s, init, session)
      + if req.op.BulkUpdate? && req.op.session == session && Apply(Run(s, init), req.ctx, req.op).Ok?
        then Writes(req.op.items, req.ctx.user) else []
  }

  ghost predicate OnlyBulkUpdates(reqs: seq<Request>) {
    forall i | 0 <= i < |reqs| :: reqs[i].op.BulkUpdate?
  }

  lemma BulkServe(s: State, req: Request, key: RecordKey)
    requires req.op.BulkUpdate? && key.session in s.sessions
    ensures var after := Serve(s, req);
      && after == s.(records := after.records)
      && HoldsLastWrite(s.records, after.records, s.enrollments, s.sessions[key.session].school,
                        if req.op.session == key.session && Apply(s, req.ctx, req.op).Ok?
                        then Writes(req.op.items, req.ctx.user) else [], key)
  {
    if Apply(s, req.ctx, req.op).Ok? {
      BulkIsLastWriteWins(s.records, s.enrollments, req.op.session, req.op.items, req.ctx, key);
    }
  }

  /**
   Any sequence of bulk updates, by any users and to any sessions, refused ones
   among them: each record of a session holds the last accepted write for its
   enrollment, on what the run began with.
   */
  lemma {:induction false} BulkUpdatesAreLastWriteWins(s: State, reqs: seq<Request>, key: RecordKey)
    requires OnlyBulkUpdates(reqs) && key.session in s.sessions
    ensures var after := Run(s, reqs);
      && after == s.(records := after.records)
      && HoldsLastWrite(s.records, after.records, s.enrollments, s.sessions[key.session].school,
                        AcceptedWrites(s, reqs, key.session), key)
  {
    if reqs != [] {
      var init, req := reqs[..|reqs| - 1], reqs[|reqs| - 1];
      var middle := Run(s, init);
      BulkUpdatesAreLastWriteWins(s, init, key);
      BulkServe(middle, req, key);
      LastWritesCompose(s.records, middle.records, Serve(middle, req).records, s.enrollments,
                        s.sessions[key.session].school, AcceptedWrites(s, init, key.session),
                        if req.op.session == key.session && Apply(middle, req.ctx, req.op).Ok?
                        then Writes(req.op.items, req.ctx.user) else [], key);
    }
  }

  // ------------------------------------------------------------------
  // A bulk update served alongside other requests
  // ------------------------------------------------------------------

  /**
   A bulk update that made its checks earlier writes: it takes no lock on the
   session and does not touch its version.
   */
  function BulkWrites(s: State, session: Id, items: seq<Item>, ctx: Ctx): Result<State, Error> {
    var upserted := UpsertAll(s.records, s.enrollments, session, items, ctx);
    if upserted.Err? then Err(upserted.error) else Ok(s.(records := upserted.value))
  }

  lemma {:induction false} RunKeepsEnrollments(s: State, reqs: seq<Request>)
    ensures Run(s, reqs).enrollments == s.enrollments
  {
    if reqs != [] {
      RunKeepsEnrollments(s, reqs[..|reqs| - 1]);
      ServeKeepsEnrollments(Run(s, reqs[..|reqs| - 1]), reqs[|reqs| - 1]);
    }
  }

  lemma ServeKeepsEnrollments(s: State, req: Request)
    ensures Serve(s, req).enrollments == s.enrollments
  {
  }

  predicate Holds(r: Record, w: Write) {
    r.mark == w.item.mark && r.arrivedAt == w.item.arrivedAt && r.notes == w.item.notes && r.updatedBy == w.user
  }

  ghost predicate SaysNothingNewFor(records: map<RecordKey, Record>, session: Id, ws: seq<Write>, enrollment: Id) {
    var key, last := RecordKey(session, enrollment), LastFor(ws, enrollment);
    key in records && last.Some? && Holds(records[key], last.value)
  }

  /** The records already say what each enrollment's last item would write. */
  ghost predicate SaysNothingNew(records: map<RecordKey, Record>, session: Id, ws: seq<Write>) {
    forall i | 0 <= i < |ws| ::
      SaysNothingNewFor(records, session, ws, ws[i].item.enrollment)
  }

  lemma {:induction false} LastForIsOne(ws: seq<Write>, enrollment: Id)
    ensures LastFor(ws, enrollment).Some? <==> exists i | 0 <= i < |ws| :: ws[i].item.enrollment == enrollment
    ensures FirstFor(ws, enrollment).Some? <==> LastFor(ws, enrollment).Some?
  {
    if ws != [] {
      var init := ws[..|ws| - 1];
      LastForIsOne(init, enrollment);
      if i :| 0 <= i < |init| && init[i].item.enrollment == enrollment { assert ws[i].item.enrollment == enrollment; }
    }
  }

  lemma WritesNothingIff(records: map<RecordKey, Record>, enrollments: map<Id, Enrollment>, session: Id,
                         items: seq<Item>, ctx: Ctx)
    requires UpsertAll(records, enrollments, session, items, ctx).Ok?
    ensures UpsertAll(records, enrollments, session, items, ctx).value == records
       <==> SaysNothingNew(records, session, Writes(items, ctx.user))
  {
    var after, ws := UpsertAll(records, enrollments, session, items, ctx).value, Writes(items, ctx.user);
    if after == records {
      forall i | 0 <= i < |ws|
        ensures SaysNothingNewFor(records, session, ws, ws[i].item.enrollment)
      {
        BulkIsLastWriteWins(records, enrollments, session, items, ctx, RecordKey(session, ws[i].item.enrollment));
        LastForIsOne(ws, ws[i].item.enrollment);
      }
    }
    if SaysNothingNew(records, session, ws) {
      forall key: RecordKey
        ensures (key in after <==> key in records) && (key in records ==> after[key] == records[key])
      {
        BulkIsLastWriteWins(records, enrollments, session, items, ctx, key);
        LastForIsOne(ws, key.enrollment);
        LastForIsOne([], key.enrollment);
      }
      assert after.Keys == records.Keys;
    }
  }

  /**
   The freeze holds for requests served one at a time. A bulk update whose check
   passed, written when the session has been SUBMITTED meanwhile, still goes
   through, and leaves the records as they are if and only if it says nothing new.
   */
  lemma LateBulkUpdateKeepsIff(s: State, reqs: seq<Request>, session: Id, items: seq<Item>, ctx: Ctx)
    requires Apply(s, ctx, BulkUpdate(session, items)).Ok?
    requires var mid := Run(s, reqs); session in mid.sessions && mid.sessions[session].status == SUBMITTED
    ensures var mid := Run(s, reqs);
      var after := BulkWrites(mid, session, items, ctx);
      && after.Ok? && after.value.sessions == mid.sessions
      && (after.value.records == mid.records <==> SaysNothingNew(mid.records, session, Writes(items, ctx.user)))
  {
    var mid := Run(s, reqs);
    RunKeepsEnrollments(s, reqs);
    BulkFailsIff(s.records, s.enrollments, session, items, ctx);
    BulkFailsIff(mid.records, mid.enrollments, session, items, ctx);
    WritesNothingIff(mid.records, mid.enrollments, session, items, ctx);
  }

  // ------------------------------------------------------------------
  // When each request succeeds and what it leaves
  // ------------------------------------------------------------------

  /** A day's session is created once per cohort: refused with one error or the other by where the first one is. */
  lemma CreateSucceedsIff(s: State, ctx: Ctx, cohort: Id, date: int, notes: Option<string>)
    ensures Apply(s, ctx, Create(cohort, date, notes)).Ok?
       <==> forall id | id in s.sessions && s.sessions[id].cohort == cohort :: s.sessions[id].date != date
    ensures Apply(s, ctx, Create(cohort, date, notes)) == Err(AlreadyExists)
       <==> exists id | id in s.sessions ::
              s.sessions[id].cohort == cohort && s.sessions[id].date == date && s.sessions[id].school == ctx.school
  {
  }

  /** The student is enrolled in the cohort on the day: actively, from the first to the last day included. */
  predicate Attends(e: Enrollment, cohort: Id, school: Id, date: int) {
    && e.school == school && e.cohort == cohort && e.active && !(date < e.start)
    && !(e.end.Some? && e.end.value < date)
  }

  /**
   It adds one DRAFT session and for each student enrolled that day, and nobody
   else, one PRESENT record; the records of other sessions stay as they are.
   */
  lemma CreateLeaves(s: State, ctx: Ctx, cohort: Id, date: int, notes: Option<string>)
    requires Apply(s, ctx, Create(cohort, date, notes)).Ok? && forall k | k in s.records :: k.session != s.nextId
    ensures var after := Apply(s, ctx, Create(cohort, date, notes)).value;
      && after.sessions == s.sessions[s.nextId := Session(ctx.school, cohort, date, DRAFT, 1, notes)]
      && after.nextId == s.nextId + 1 && after.submitted == s.submitted && after.enrollments == s.enrollments
      && (forall k: RecordKey | k.session != s.nextId ::
            (k in after.records <==> k in s.records) && (k in s.records ==> after.records[k] == s.records[k]))
      && (forall e: Id :: RecordKey(s.nextId, e) in after.records
            <==> e in s.enrollments && Attends(s.enrollments[e], cohort, ctx.school, date))
      && (forall e: Id | RecordKey(s.nextId, e) in after.records ::
            after.records[RecordKey(s.nextId, e)]
            == Record(s.enrollments[e].student, PRESENT, None, None, ctx.user, ctx.user))
  {
    var enrolled := EnrolledOn(s.enrollments, cohort, ctx.school, date);
    var added := FreshRecords(s.enrollments, s.nextId, enrolled, ctx.user);
    assert forall e: Id :: RecordKey(s.nextId, e) in added <==> e in enrolled;
  }

  /** The session is the school's, in this version. */
  predicate IsCurrent(s: State, ctx: Ctx, id: Id, version: nat) {
    id in s.sessions && s.sessions[id].school == ctx.school && s.sessions[id].version == version
  }

  /** Drafts can be edited, submitted and deleted, anything else amended, each in the version sent. */
  lemma SessionRequestsSucceedIff(s: State, ctx: Ctx, id: Id, version: nat, status: Option<SessionStatus>,
                                  notes: Option<string>)
    ensures Apply(s, ctx, UpdateSession(id, status, notes, version)).Ok?
       <==> IsCurrent(s, ctx, id, version) && s.sessions[id].status == DRAFT
    ensures Apply(s, ctx, Submit(id, version)).Ok? <==> IsCurrent(s, ctx, id, version) && s.sessions[id].status == DRAFT
    ensures Apply(s, ctx, Amend(id, version)).Ok?
       <==> IsCurrent(s, ctx, id, version) && (s.sessions[id].status == SUBMITTED || s.sessions[id].status == AMENDED)
    ensures Apply(s, ctx, DeleteSession(id, version)).Ok?
       <==> && IsCurrent(s, ctx, id, version) && s.sessions[id].status == DRAFT
            && forall k | k in s.records :: k.session != id
  {
  }

  /** Each changes that session alone, by what it is named after, and counts its version up. */
  lemma SessionRequestsLeave(s: State, ctx: Ctx, id: Id, version: nat, op: Op)
    requires Apply(s, ctx, op).Ok? && (op.UpdateSession? || op.Submit? || op.Amend? || op.DeleteSession?)
    requires op.session == id
    ensures id in s.sessions && Apply(s, ctx, op).value.records == s.records
    ensures var before, after := s.sessions[id], Apply(s, ctx, op).value;
      && (op.DeleteSession? ==> after == s.(sessions := s.sessions - {id}))
      && (!op.DeleteSession? ==>
            && id in after.sessions && after.sessions == s.sessions[id := after.sessions[id]]
            && after.sessions[id].version == before.version + 1
            && after.sessions[id] == before.(status := after.sessions[id].status, notes := after.sessions[id].notes,
                                             version := before.version + 1))
      && (op.Submit? ==> after.sessions[id].status == SUBMITTED && after.submitted == s.submitted + [id])
      && (op.Amend? ==> after.sessions[id].status == AMENDED && after.submitted == s.submitted)
      && (op.Submit? || op.Amend? ==> after.sessions[id].notes == before.notes)
      && (op.UpdateSession? ==>
            && after.submitted == s.submitted
            && after.sessions[id].status == (if op.status.Some? then op.status.value else before.status)
            && after.sessions[id].notes == (if op.notes.Some? then op.notes else before.notes))
  {
  }

  /** A record is edited unless its session is SUBMITTED; mark, time and notes become those sent. */
  lemma EditRecordLeaves(s: State, ctx: Ctx, id: Id, enrollment: Id, mark: Mark, arrivedAt: Option<int>,
                         notes: Option<string>)
    ensures var key := RecordKey(id, enrollment);
      var r := Apply(s, ctx, UpdateRecord(id, enrollment, mark, arrivedAt, notes));
      && (r.Ok? <==> key in s.records && id in s.sessions && s.sessions[id].school == ctx.school
                     && s.sessions[id].status != SUBMITTED)
      && (r.Ok? ==> r.value == s.(records := s.records[key :=
                      Record(s.records[key].student, mark, arrivedAt, notes, s.records[key].createdBy, ctx.user)]))
  {
  }

  /** A bulk update is accepted unless its session is SUBMITTED or an enrollment is not the school's. */
  lemma BulkSucceedsIff(s: State, ctx: Ctx, id: Id, items: seq<Item>)
    ensures Apply(s, ctx, BulkUpdate(id, items)).Ok?
       <==> && id in s.sessions && s.sessions[id].school == ctx.school && s.sessions[id].status != SUBMITTED
            && forall i | 0 <= i < |items| ::
                 items[i].enrollment in s.enrollments && s.enrollments[items[i].enrollment].school == ctx.school
  {
    BulkFailsIff(s.records, s.enrollments, id, items, ctx);
  }

  /** Amending a submitted session makes its records editable again; submitting a draft freezes them. */
  lemma AmendReopens(s: State, ctx: Ctx, id: Id, version: nat, enrollment: Id, mark: Mark)
    requires RecordKey(id, enrollment) in s.records
    ensures Apply(s, ctx, Amend(id, version)).Ok? ==>
      Apply(Apply(s, ctx, Amend(id, version)).value, ctx, UpdateRecord(id, enrollment, mark, None, None)).Ok?
    ensures Apply(s, ctx, Submit(id, version)).Ok? ==>
      Apply(Apply(s, ctx, Submit(id, version)).value, ctx, UpdateRecord(id, enrollment, mark, None, None))
      == Err(SessionSubmitted)
  {
  }

  /** Every record names the student whose enrollment it is for. */
  ghost predicate NamesStudents(s: State) {
    forall k | k in s.records ::
      k.enrollment in s.enrollments && s.records[k].student == s.enrollments[k.enrollment].student
  }

  lemma {:induction false} UpsertsNameStudents(s: State, session: Id, items: seq<Item>, ctx: Ctx)
    requires NamesStudents(s) && UpsertAll(s.records, s.enrollments, session, items, ctx).Ok?
    ensures NamesStudents(s.(records := UpsertAll(s.records, s.enrollments, session, items, ctx).value))
  {
    if items != [] { UpsertsNameStudents(s, session, items[..|items| - 1], ctx); }
  }

  lemma ServeNamesStudents(s: State, req: Request)
    requires NamesStudents(s)
    ensures NamesStudents(Serve(s, req))
  {
    if req.op.BulkUpdate? && Apply(s, req.ctx, req.op).Ok? {
      UpsertsNameStudents(s, req.op.session, req.op.items, req.ctx);
    }
  }

  /** So it is over every run, whether the record was made with its session or by a bulk update. */
  lemma {:induction false} RecordsNameTheirStudents(s: State, reqs: seq<Request>)
    requires NamesStudents(s)
    ensures NamesStudents(Run(s, reqs))
  {
    if reqs != [] {
      RecordsNameTheirStudents(s, reqs[..|reqs| - 1]);
      ServeNamesStudents(Run(s, reqs[..|reqs| - 1]), reqs[|reqs| - 1]);
    }
  }
}
