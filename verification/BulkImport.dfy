/** CSV imports: row validation of app/modules/bulk_import/csv_helpers.py and start_import of its service.py. */
module BulkImport {
  import opened Prelude

  type Id = nat

  datatype Kind = STUDENTS | TEACHERS

  datatype Column =
    | FirstName | LastName | Email | Phone | Status
    | AdmissionNumber | AdmissionDate
    | EmployeeNumber | Designation | JoiningDate
    | Unknown(name: string)

  // A row shorter than the header has null in its last columns; an absent column is not a key.
  type Row = map<Column, Option<string>>

  datatype Field = Cell(column: Column) | WholeRow | File

  datatype RowError = RowError(row: nat, field: Field)

  // ------------------------------------------------------------------
  // Validation
  // ------------------------------------------------------------------

  /** row.get(column) or None: absent, null and empty are alike. */
  function Text(row: Row, column: Column): Option<string> {
    if column in row && row[column].Some? && row[column].value != [] then row[column] else None
  }

  /** row.get(column, "").strip() raises on a null cell. */
  predicate Unstrippable(row: Row, column: Column) {
    column in row && row[column].None?
  }

  predicate Crashes(kind: Kind, row: Row) {
    Unstrippable(row, Status) || (kind == TEACHERS && Unstrippable(row, JoiningDate))
  }

  predicate KnownStatus(kind: Kind, status: string) {
    if kind == STUDENTS
    then status in {"ACTIVE", "WITHDRAWN", "GRADUATED", "TRANSFERRED", "INACTIVE", "DECEASED"}
    else status in {"ACTIVE", "INACTIVE", "ON_LEAVE", "RESIGNED", "TERMINATED"}
  }

  /** date.fromisoformat accepts it; the status is one of the kind's. */
  datatype Checks = Checks(isDate: string -> bool, isStatus: string -> bool)

  function ChecksFor(kind: Kind, isDate: string -> bool): Checks {
    Checks(isDate, status => KnownStatus(kind, status))
  }

  function ErrorIf(bad: bool, n: nat, column: Column): seq<RowError> {
    if bad then [RowError(n, Cell(column))] else []
  }

  predicate BadDate(row: Row, column: Column, checks: Checks) {
    Text(row, column).Some? && !checks.isDate(Text(row, column).value)
  }

  predicate BadStatus(row: Row, checks: Checks) {
    Text(row, Status).Some? && !checks.isStatus(Text(row, Status).value)
  }

  function StudentErrors(row: Row, n: nat, checks: Checks): seq<RowError> {
    ErrorIf(Text(row, FirstName).None?, n, FirstName)
    + ErrorIf(Text(row, AdmissionNumber).None?, n, AdmissionNumber)
    + ErrorIf(Text(row, AdmissionDate).None? || BadDate(row, AdmissionDate, checks), n, AdmissionDate)
    + ErrorIf(BadStatus(row, checks), n, Status)
  }

  function TeacherErrors(row: Row, n: nat, checks: Checks): seq<RowError> {
    ErrorIf(Text(row, FirstName).None?, n, FirstName)
    + ErrorIf(BadDate(row, JoiningDate, checks), n, JoiningDate)
    + ErrorIf(BadStatus(row, checks), n, Status)
  }

  function RowErrors(kind: Kind, row: Row, n: nat, checks: Checks): seq<RowError> {
    if kind == STUDENTS then StudentErrors(row, n, checks) else TeacherErrors(row, n, checks)
  }

  predicate Valid(kind: Kind, row: Row, checks: Checks) {
    && Text(row, FirstName).Some? && !BadStatus(row, checks)
    && if kind == STUDENTS
       then Text(row, AdmissionNumber).Some? && Text(row, AdmissionDate).Some? && !BadDate(row, AdmissionDate, checks)
       else !BadDate(row, JoiningDate, checks)
  }

  /** An exception in a validator ends the whole request. */
  method ValidateStudentRow(row: Row, n: nat, checks: Checks) returns (crashed: bool, errors: seq<RowError>)
    ensures crashed == Crashes(STUDENTS, row)
    ensures !crashed ==> errors == StudentErrors(row, n, checks)
  {
    errors := [];
    if Text(row, FirstName).None? {
      errors := errors + [RowError(n, Cell(FirstName))];
    }
    if Text(row, AdmissionNumber).None? {
      errors := errors + [RowError(n, Cell(AdmissionNumber))];
    }
    if Text(row, AdmissionDate).None? {
      errors := errors + [RowError(n, Cell(AdmissionDate))];
    } else if !checks.isDate(Text(row, AdmissionDate).value) {
      errors := errors + [RowError(n, Cell(AdmissionDate))];
    }
    if Unstrippable(row, Status) {
      return true, errors;
    }
    var status := Text(row, Status);
    if status.Some? && !checks.isStatus(status.value) {
      errors := errors + [RowError(n, Cell(Status))];
    }
    crashed := false;
  }

  method ValidateTeacherRow(row: Row, n: nat, checks: Checks) returns (crashed: bool, errors: seq<RowError>)
    ensures crashed == Crashes(TEACHERS, row)
    ensures !crashed ==> errors == TeacherErrors(row, n, checks)
  {
    errors := [];
    if Text(row, FirstName).None? {
      errors := errors + [RowError(n, Cell(FirstName))];
    }
    if Unstrippable(row, JoiningDate) {
      return true, errors;
    }
    var joiningDate := Text(row, JoiningDate);
    if joiningDate.Some? && !checks.isDate(joiningDate.value) {
      errors := errors + [RowError(n, Cell(JoiningDate))];
    }
    if Unstrippable(row, Status) {
      return true, errors;
    }
    var status := Text(row, Status);
    if status.Some? && !checks.isStatus(status.value) {
      errors := errors + [RowError(n, Cell(Status))];
    }
    crashed := false;
  }

  method ValidateRow(kind: Kind, row: Row, n: nat, checks: Checks) returns (crashed: bool, errors: seq<RowError>)
    ensures crashed == Crashes(kind, row)
    ensures !crashed ==> errors == RowErrors(kind, row, n, checks)
  {
    if kind == STUDENTS {
      crashed, errors := ValidateStudentRow(row, n, checks);
    } else {
      crashed, errors := ValidateTeacherRow(row, n, checks);
    }
  }

  /** The errors of each row; the header is row 1 of the file. */
  function PerRow(kind: Kind, rows: seq<Row>, checks: Checks): (per: seq<seq<RowError>>)
    ensures |per| == |rows| && forall i | 0 <= i < |rows| :: per[i] == RowErrors(kind, rows[i], i + 2, checks)
  {
    seq(|rows|, i requires 0 <= i < |rows| => RowErrors(kind, rows[i], i + 2, checks))
  }

  function Flatten(per: seq<seq<RowError>>, k: nat): seq<RowError>
    requires k <= |per|
  {
    if k == 0 then [] else Flatten(per, k - 1) + per[k - 1]
  }

  /** Errors of the first k rows. */
  function AllErrors(kind: Kind, rows: seq<Row>, checks: Checks, k: nat): seq<RowError>
    requires k <= |rows|
  {
    Flatten(PerRow(kind, rows, checks), k)
  }

  predicate AnyCrash(kind: Kind, rows: seq<Row>) {
    exists i | 0 <= i < |rows| :: Crashes(kind, rows[i])
  }

  lemma CrashSplits(kind: Kind, rows: seq<Row>, i: nat)
    requires i < |rows|
    ensures AnyCrash(kind, rows[..i + 1]) <==> AnyCrash(kind, rows[..i]) || Crashes(kind, rows[i])
    ensures Crashes(kind, rows[i]) ==> AnyCrash(kind, rows)
  {
    if AnyCrash(kind, rows[..i]) {
      var j :| 0 <= j < i && Crashes(kind, rows[..i][j]);
      assert rows[..i + 1][j] == rows[j];
    }
    if Crashes(kind, rows[i]) { assert rows[..i + 1][i] == rows[i]; }
    if AnyCrash(kind, rows[..i + 1]) {
      var j :| 0 <= j <= i && Crashes(kind, rows[..i + 1][j]);
      if j < i { assert rows[..i][j] == rows[j]; }
    }
  }

  method ValidateAll(kind: Kind, rows: seq<Row>, checks: Checks) returns (crashed: bool, errors: seq<RowError>)
    ensures crashed == AnyCrash(kind, rows)
    ensures !crashed ==> errors == AllErrors(kind, rows, checks, |rows|)
  {
    errors := [];
    for i := 0 to |rows|
      invariant errors == AllErrors(kind, rows, checks, i)
      invariant !AnyCrash(kind, rows[..i])
    {
      CrashSplits(kind, rows, i);
      var stop, found := ValidateRow(kind, rows[i], i + 2, checks);
      if stop {
        return true, errors;
      }
      errors := errors + found;
    }
    assert rows[..|rows|] == rows;
    crashed := false;
  }

  // ------------------------------------------------------------------
  // One row under a savepoint
  // ------------------------------------------------------------------

  datatype Person = Person(organization: Id, firstName: string, lastName: Option<string>, email: Option<string>,
                           phone: Option<string>, deleted: bool)

  datatype Record =
    | Student(school: Id, person: Id, number: Option<string>, date: Option<string>, status: string)
    | Teacher(school: Id, person: Id, number: Option<string>, designation: Option<string>, date: Option<string>,
              status: string, deleted: bool)

  datatype State = State(persons: map<Id, Person>, records: map<Id, Record>, nextId: Id)

  datatype Ctx = Ctx(organization: Id, school: Id)

  /** Where anything the model does not follow (a field too long, a lost connection) makes the row fail. */
  datatype Fault = NoFault | AtPerson | AtRecord

  predicate LiveWith(p: Person, organization: Id, email: Option<string>, phone: Option<string>) {
    && p.organization == organization && !p.deleted
    && (email.Some? ==> p.email == email) && (phone.Some? ==> p.phone == phone)
  }

  /** What the two lookups return: a live person with this email, else one with this phone, else nobody. */
  ghost predicate Finds(persons: map<Id, Person>, organization: Id, row: Row, found: Option<Id>) {
    var email, phone := Text(row, Email), Text(row, Phone);
    if email.Some? && exists p | p in persons :: LiveWith(persons[p], organization, email, None)
    then found.Some? && found.value in persons && LiveWith(persons[found.value], organization, email, None)
    else if phone.Some? && exists p | p in persons :: LiveWith(persons[p], organization, None, phone)
    then found.Some? && found.value in persons && LiveWith(persons[found.value], organization, None, phone)
    else found.None?
  }

  function NewPerson(row: Row, organization: Id): Person {
    Person(organization, if Text(row, FirstName).Some? then Text(row, FirstName).value else [], Text(row, LastName),
           Text(row, Email), Text(row, Phone), false)
  }

  function StatusOf(row: Row): string {
    if Text(row, Status).Some? then Text(row, Status).value else "ACTIVE"
  }

  function NewRecord(kind: Kind, row: Row, school: Id, person: Id): Record {
    if kind == STUDENTS
    then Student(school, person, Text(row, AdmissionNumber), Text(row, AdmissionDate), StatusOf(row))
    else
      Teacher(school, person, Text(row, EmployeeNumber), Text(row, Designation), Text(row, JoiningDate),
              StatusOf(row), false)
  }

  /** The unique constraints on students and on teachers. */
  predicate Collides(a: Record, b: Record) {
    match b
    case Student(school, person, number, _, _) =>
      a.Student? && a.school == school && (a.person == person || a.number == number)
    case Teacher(school, person, number, _, _, _, deleted) =>
      a.Teacher? && a.school == school
      && (a.person == person || (number.Some? && a.number == number && !a.deleted && !deleted))
  }

  function ImportRow(s: State, ctx: Ctx, kind: Kind, row: Row, fault: Fault, found: Option<Id>): Option<State> {
    if fault == AtPerson then None
    else
      var (persons, person, next) :=
        if found.Some? then (s.persons, found.value, s.nextId)
        else (s.persons[s.nextId := NewPerson(row, ctx.organization)], s.nextId, s.nextId + 1);
      var record := NewRecord(kind, row, ctx.school, person);
      if fault == AtRecord || exists r | r in s.records :: Collides(s.records[r], record) then None
      else Some(State(persons, s.records[next := record], next + 1))
  }

  // ------------------------------------------------------------------
  // The whole file
  // ------------------------------------------------------------------

  datatype Tally = Tally(s: State, success: nat, failed: nat, errors: seq<RowError>)

  /** What meets each row: a fault, and the answer of the person lookup. */
  datatype World = World(fault: Fault, found: Option<Id>)

  function Outcome(s: State, ctx: Ctx, kind: Kind, row: Row, checks: Checks, w: World): Option<State> {
    if Valid(kind, row, checks) then ImportRow(s, ctx, kind, row, w.fault, w.found) else None
  }

  function CountRow(t: Tally, ctx: Ctx, kind: Kind, row: Row, n: nat, checks: Checks, w: World): Tally {
    var after := Outcome(t.s, ctx, kind, row, checks, w);
    if after.Some? then t.(s := after.value, success := t.success + 1)
    else
      t.(failed := t.failed + 1,
         errors := if Valid(kind, row, checks) then t.errors + [RowError(n, WholeRow)] else t.errors)
  }

  function Process(start: Tally, ctx: Ctx, kind: Kind, rows: seq<Row>, checks: Checks, worlds: seq<World>,
                   k: nat): Tally
    requires k <= |rows| == |worlds|
  {
    if k == 0 then start
    else
      CountRow(Process(start, ctx, kind, rows, checks, worlds, k - 1), ctx, kind, rows[k - 1], k + 1, checks,
               worlds[k - 1])
  }

  datatype JobStatus = COMPLETED | PARTIAL | FAILED

  datatype Job = Job(status: JobStatus, total: nat, processed: nat, success: nat, failed: nat, errors: seq<RowError>)

  datatype Error = InvalidRequest | AttributeError

  const REJECTED := Job(FAILED, 0, 0, 0, 0, [RowError(0, File)])

  function Finish(total: nat, t: Tally): Job {
    Job(if t.failed == 0 then COMPLETED else if t.success > 0 then PARTIAL else FAILED,
        total, t.success + t.failed, t.success, t.failed, t.errors)
  }

  function Begin(s: State, kind: Kind, rows: seq<Row>, checks: Checks): Tally {
    Tally(s, 0, 0, AllErrors(kind, rows, checks, |rows|))
  }

  class ImportService {
    var s: State
    const isDate: string -> bool

    constructor (s: State, isDate: string -> bool)
      ensures this.s == s && this.isDate == isDate
    {
      this.s, this.isDate := s, isDate;
    }

    method FindPerson(organization: Id, row: Row) returns (found: Option<Id>)
      ensures Finds(s.persons, organization, row, found)
    {
      var email, phone := Text(row, Email), Text(row, Phone);
      if email.Some? {
        var matches := set p | p in s.persons && LiveWith(s.persons[p], organization, email, None);
        if p :| p in matches {
          return Some(p);
        }
        assert forall p | p in s.persons :: LiveWith(s.persons[p], organization, email, None) ==> p in matches;
      }
      if phone.Some? {
        var matches := set p | p in s.persons && LiveWith(s.persons[p], organization, None, phone);
        if p :| p in matches {
          return Some(p);
        }
        assert forall p | p in s.persons :: LiveWith(s.persons[p], organization, None, phone) ==> p in matches;
      }
      found := None;
    }

    /** The block under begin_nested: on any failure its savepoint is restored. */
    method InsertRow(ctx: Ctx, kind: Kind, row: Row, fault: Fault) returns (ok: bool, ghost w: World)
      modifies this
      ensures w.fault == fault && (fault != AtPerson ==> Finds(old(s).persons, ctx.organization, row, w.found))
      ensures var after := ImportRow(old(s), ctx, kind, row, w.fault, w.found);
        ok == after.Some? && s == if after.Some? then after.value else old(s)
    {
      w := World(fault, None);
      var savepoint := s;
      if fault == AtPerson {
        return false, w;
      }
      var found := FindPerson(ctx.organization, row);
      w := World(fault, found);
      var person;
      if found.Some? {
        person := found.value;
      } else {
        person := s.nextId;
        s := s.(persons := s.persons[person := NewPerson(row, ctx.organization)], nextId := person + 1);
      }
      var record := NewRecord(kind, row, ctx.school, person);
      if fault == AtRecord || exists r | r in s.records :: Collides(s.records[r], record) {
        s := savepoint;
        return false, w;
      }
      s := s.(records := s.records[s.nextId := record], nextId := s.nextId + 1);
      ok := true;
    }

    method StartImport(organization: Id, school: Option<Id>, kind: Kind, parsed: Option<seq<Row>>, faults: seq<Fault>)
        returns (r: Result<Job, Error>, ghost worlds: seq<World>)
      requires parsed.Some? ==> |faults| == |parsed.value|
      modifies this
      ensures school.None? ==> r == Err(InvalidRequest) && s == old(s)
      ensures school.Some? && (parsed.None? || parsed.value == []) ==> r == Ok(REJECTED) && s == old(s)
      ensures school.Some? && parsed.Some? && parsed.value != [] ==>
        Imported(old(s), s, Ctx(organization, school.value), kind, parsed.value, faults, ChecksFor(kind, isDate),
                 worlds, r)
    {
      worlds := [];
      if school.None? {
        return Err(InvalidRequest), worlds;
      }
      if parsed.None? || parsed.value == [] {
        return Ok(REJECTED), worlds;
      }
      var rows, ctx := parsed.value, Ctx(organization, school.value);
      r, worlds := ImportRows(ctx, kind, rows, faults, ChecksFor(kind, isDate));
    }

    method ImportRows(ctx: Ctx, kind: Kind, rows: seq<Row>, faults: seq<Fault>, checks: Checks)
        returns (r: Result<Job, Error>, ghost worlds: seq<World>)
      requires |faults| == |rows|
      modifies this
      ensures Imported(old(s), s, ctx, kind, rows, faults, checks, worlds, r)
    {
      worlds := [];
      var crashed, errors := ValidateAll(kind, rows, checks);
      if crashed {
        return Err(AttributeError), worlds;
      }
      var success, failed;
      success, failed, errors, worlds := ProcessRows(ctx, kind, rows, faults, checks, errors);
      var status := if failed == 0 then COMPLETED else if success > 0 then PARTIAL else FAILED;
      r := Ok(Job(status, |rows|, success + failed, success, failed, errors));
    }

    method ProcessRow(ctx: Ctx, kind: Kind, row: Row, n: nat, fault: Fault, checks: Checks,
                      success: nat, failed: nat, errors: seq<RowError>)
        returns (success': nat, failed': nat, errors': seq<RowError>, ghost w: World)
      requires !Crashes(kind, row)
      modifies this
      ensures Tally(s, success', failed', errors')
           == CountRow(Tally(old(s), success, failed, errors), ctx, kind, row, n, checks, w)
      ensures w.fault == fault
      ensures Valid(kind, row, checks) && fault != AtPerson ==> Finds(old(s).persons, ctx.organization, row, w.found)
    {
      success', failed', errors', w := success, failed, errors, World(fault, None);
      var _, found := ValidateRow(kind, row, n, checks);
      ValidIffNoErrors(kind, row, n, checks);
      if found != [] {
        failed' := failed + 1;
        return;
      }
      var ok;
      ok, w := InsertRow(ctx, kind, row, fault);
      if ok {
        success' := success + 1;
      } else {
        failed' := failed + 1;
        errors' := errors + [RowError(n, WholeRow)];
      }
    }

    method ProcessRows(ctx: Ctx, kind: Kind, rows: seq<Row>, faults: seq<Fault>, checks: Checks, before: seq<RowError>)
        returns (success: nat, failed: nat, errors: seq<RowError>, ghost worlds: seq<World>)
      requires |faults| == |rows| && !AnyCrash(kind, rows)
      modifies this
      ensures Processed(Tally(old(s), 0, 0, before), Tally(s, success, failed, errors), ctx, kind, rows, faults,
                        checks, worlds)
    {
      success, failed, errors, worlds := 0, 0, before, [];
      ghost var start := Tally(s, 0, 0, before);
      for i := 0 to |rows|
        invariant Processed(start, Tally(s, success, failed, errors), ctx, kind, rows[..i], faults[..i], checks, worlds)
      {
        CrashSplits(kind, rows, i);
        ghost var t, w := Tally(s, success, failed, errors), World(faults[i], None);
        success, failed, errors, w := ProcessRow(ctx, kind, rows[i], i + 2, faults[i], checks, success, failed, errors);
        ProcessNext(start, t, ctx, kind, rows, faults, i, checks, worlds, w);
        worlds := worlds + [w];
      }
      assert rows[..|rows|] == rows && faults[..|faults|] == faults;
    }
  }

  ghost predicate FaultsAre(worlds: seq<World>, faults: seq<Fault>) {
    |worlds| == |faults| && forall i | 0 <= i < |faults| :: worlds[i].fault == faults[i]
  }

  lemma ValidIffNoErrors(kind: Kind, row: Row, n: nat, checks: Checks)
    ensures RowErrors(kind, row, n, checks) == [] <==> Valid(kind, row, checks)
  {
    assert RowErrors(kind, row, n, checks) == [] ==> |RowErrors(kind, row, n, checks)| == 0;
  }

  /** Each lookup was answered from the tables as the row found them. */
  ghost predicate Answered(start: Tally, ctx: Ctx, kind: Kind, rows: seq<Row>, checks: Checks, worlds: seq<World>)
  {
    |rows| == |worlds| && forall i | 0 <= i < |rows| && Valid(kind, rows[i], checks) && worlds[i].fault != AtPerson ::
      Finds(Process(start, ctx, kind, rows, checks, worlds, i).s.persons, ctx.organization, rows[i], worlds[i].found)
  }

  lemma {:induction false} ProcessPrefix(start: Tally, ctx: Ctx, kind: Kind, rows: seq<Row>, checks: Checks,
                                         worlds: seq<World>, row: Row, w: World, k: nat)
    requires k <= |rows| == |worlds|
    ensures Process(start, ctx, kind, rows + [row], checks, worlds + [w], k)
         == Process(start, ctx, kind, rows, checks, worlds, k)
  {
    if k > 0 { ProcessPrefix(start, ctx, kind, rows, checks, worlds, row, w, k - 1); }
  }

  /** All rows have been counted, against these faults and these answers. */
  ghost predicate Processed(start: Tally, after: Tally, ctx: Ctx, kind: Kind, rows: seq<Row>, faults: seq<Fault>,
                            checks: Checks, worlds: seq<World>)
  {
    && |rows| == |worlds| && FaultsAre(worlds, faults)
    && Answered(start, ctx, kind, rows, checks, worlds)
    && after == Process(start, ctx, kind, rows, checks, worlds, |rows|)
  }

  lemma ProcessOneMore(start: Tally, before: Tally, ctx: Ctx, kind: Kind, rows: seq<Row>, faults: seq<Fault>,
                       checks: Checks, worlds: seq<World>, row: Row, w: World)
    requires Processed(start, before, ctx, kind, rows, faults, checks, worlds)
    requires Valid(kind, row, checks) && w.fault != AtPerson ==> Finds(before.s.persons, ctx.organization, row, w.found)
    ensures Processed(start, CountRow(before, ctx, kind, row, |rows| + 2, checks, w), ctx, kind, rows + [row],
                      faults + [w.fault], checks, worlds + [w])
  {
    forall k | 0 <= k <= |rows|
      ensures Process(start, ctx, kind, rows + [row], checks, worlds + [w], k)
           == Process(start, ctx, kind, rows, checks, worlds, k)
    {
      ProcessPrefix(start, ctx, kind, rows, checks, worlds, row, w, k);
    }
  }

  lemma ProcessNext(start: Tally, before: Tally, ctx: Ctx, kind: Kind, rows: seq<Row>, faults: seq<Fault>, i: nat,
                    checks: Checks, worlds: seq<World>, w: World)
    requires i < |rows| == |faults| && w.fault == faults[i]
    requires Processed(start, before, ctx, kind, rows[..i], faults[..i], checks, worlds)
    requires Valid(kind, rows[i], checks) && w.fault != AtPerson ==>
      Finds(before.s.persons, ctx.organization, rows[i], w.found)
    ensures Processed(start, CountRow(before, ctx, kind, rows[i], i + 2, checks, w), ctx, kind, rows[..i + 1],
                      faults[..i + 1], checks, worlds + [w])
  {
    ProcessOneMore(start, before, ctx, kind, rows[..i], faults[..i], checks, worlds, rows[i], w);
    assert rows[..i + 1] == rows[..i] + [rows[i]] && faults[..i + 1] == faults[..i] + [faults[i]];
  }

  /** What an import of at least one row does: stop at a crash, or count every row and commit. */
  ghost predicate Imported(before: State, after: State, ctx: Ctx, kind: Kind, rows: seq<Row>, faults: seq<Fault>,
                           checks: Checks, worlds: seq<World>, r: Result<Job, Error>)
    requires |faults| == |rows|
  {
    if AnyCrash(kind, rows) then r == Err(AttributeError) && after == before
    else
      var start := Begin(before, kind, rows, checks);
      && r.Ok?
      && var t := Tally(after, r.value.success, r.value.failed, r.value.errors);
         r.value == Finish(|rows|, t) && Processed(start, t, ctx, kind, rows, faults, checks, worlds)
  }

  // ------------------------------------------------------------------
  // Counting
  // ------------------------------------------------------------------

  ghost predicate FreshIds(s: State) {
    (forall p | p in s.persons :: p < s.nextId) && (forall r | r in s.records :: r < s.nextId)
  }

  /** Nothing that was there is changed. */
  ghost predicate Extends(a: State, b: State) {
    && a.nextId <= b.nextId
    && (forall p | p in a.persons :: p in b.persons && b.persons[p] == a.persons[p])
    && (forall r | r in a.records :: r in b.records && b.records[r] == a.records[r])
  }

  /** Every new person is the person of a new record. */
  ghost predicate NoOrphans(a: State, b: State) {
    forall p | p in b.persons && p !in a.persons :: exists r :: IsNewRecordOf(a, b, r, p)
  }

  predicate IsNewRecordOf(a: State, b: State, r: Id, p: Id) {
    r in b.records && r !in a.records && b.records[r].person == p
  }

  /** A row that succeeds adds one record, for the person found or one added with it; a row that fails adds nothing. */
  lemma RowAddsOneRecord(s: State, ctx: Ctx, kind: Kind, row: Row, checks: Checks, w: World)
    requires FreshIds(s) && Outcome(s, ctx, kind, row, checks, w).Some?
    ensures var after := Outcome(s, ctx, kind, row, checks, w).value;
      FreshIds(after) && Extends(s, after) && NoOrphans(s, after) && |after.records| == |s.records| + 1
  {
    var after := Outcome(s, ctx, kind, row, checks, w).value;
    var r := after.nextId - 1;
    assert after.records == s.records[r := after.records[r]];
    forall p | p in after.persons && p !in s.persons ensures IsNewRecordOf(s, after, r, p) {}
  }

  lemma NoOrphansChain(a: State, b: State, c: State)
    requires Extends(a, b) && Extends(b, c) && NoOrphans(a, b) && NoOrphans(b, c)
    ensures Extends(a, c) && NoOrphans(a, c)
  {
    forall p | p in c.persons && p !in a.persons ensures exists r :: IsNewRecordOf(a, c, r, p) {
      if p in b.persons {
        var r :| IsNewRecordOf(a, b, r, p);
        assert IsNewRecordOf(a, c, r, p);
      } else {
        var r :| IsNewRecordOf(b, c, r, p);
        assert IsNewRecordOf(a, c, r, p);
      }
    }
  }

  /**
   Conservation: every row is counted once, as many records appear as rows
   succeed, nothing else appears except the persons of those records, and
   nothing that was there changes.
   */
  lemma {:induction false} RowsAreConserved(start: Tally, ctx: Ctx, kind: Kind, rows: seq<Row>, checks: Checks,
                                            worlds: seq<World>, k: nat)
    requires k <= |rows| == |worlds| && FreshIds(start.s)
    ensures var t := Process(start, ctx, kind, rows, checks, worlds, k);
      && t.success + t.failed == start.success + start.failed + k
      && |t.s.records| - |start.s.records| == t.success - start.success >= 0
      && FreshIds(t.s) && Extends(start.s, t.s) && NoOrphans(start.s, t.s)
  {
    if k > 0 {
      var before := Process(start, ctx, kind, rows, checks, worlds, k - 1);
      RowsAreConserved(start, ctx, kind, rows, checks, worlds, k - 1);
      var after := Outcome(before.s, ctx, kind, rows[k - 1], checks, worlds[k - 1]);
      if after.Some? {
        RowAddsOneRecord(before.s, ctx, kind, rows[k - 1], checks, worlds[k - 1]);
        NoOrphansChain(start.s, before.s, after.value);
      }
    }
  }

  /** The final status says exactly which rows succeeded: all, some or none. */
  lemma StatusSaysHowMany(total: nat, t: Tally)
    requires t.success + t.failed == total > 0
    ensures var job := Finish(total, t);
      && (job.status == COMPLETED <==> job.success == total)
      && (job.status == PARTIAL <==> 0 < job.success < total)
      && (job.status == FAILED <==> job.success == 0)
      && job.processed == job.total == job.success + job.failed
  {
  }

  // ------------------------------------------------------------------
  // A failed row leaves no trace
  // ------------------------------------------------------------------

  predicate Fails(start: Tally, ctx: Ctx, kind: Kind, rows: seq<Row>, checks: Checks, worlds: seq<World>, i: nat)
    requires i < |rows| == |worlds|
  {
    Outcome(Process(start, ctx, kind, rows, checks, worlds, i).s, ctx, kind, rows[i], checks, worlds[i]).None?
  }

  /** The rows among the first k that succeed, each with what met it. */
  function Kept(start: Tally, ctx: Ctx, kind: Kind, rows: seq<Row>, checks: Checks, worlds: seq<World>, k: nat)
    : (kept: (seq<Row>, seq<World>))
    requires k <= |rows| == |worlds|
    ensures |kept.0| == |kept.1|
  {
    if k == 0 then ([], [])
    else
      var (ps, ws) := Kept(start, ctx, kind, rows, checks, worlds, k - 1);
      if Fails(start, ctx, kind, rows, checks, worlds, k - 1) then (ps, ws)
      else (ps + [rows[k - 1]], ws + [worlds[k - 1]])
  }

  /** Importing just these rows gives the same tables and the same successes, and no failure. */
  ghost predicate Alone(start: Tally, ctx: Ctx, kind: Kind, rows: seq<Row>, checks: Checks, worlds: seq<World>,
                        t: Tally) {
    && |rows| == |worlds|
    && var alone := Process(start, ctx, kind, rows, checks, worlds, |rows|);
       alone.s == t.s && alone.success == t.success && alone.failed == start.failed
  }

  /** The tables end up as if the file had held only the rows that succeeded. */
  lemma {:induction false} FailedRowsLeaveNoTrace(start: Tally, ctx: Ctx, kind: Kind, rows: seq<Row>, checks: Checks,
                                                  worlds: seq<World>, k: nat)
    requires k <= |rows| == |worlds|
    ensures var kept := Kept(start, ctx, kind, rows, checks, worlds, k);
      Alone(start, ctx, kind, kept.0, checks, kept.1, Process(start, ctx, kind, rows, checks, worlds, k))
  {
    if k > 0 {
      FailedRowsLeaveNoTrace(start, ctx, kind, rows, checks, worlds, k - 1);
      var kept := Kept(start, ctx, kind, rows, checks, worlds, k - 1);
      var t := Process(start, ctx, kind, rows, checks, worlds, k - 1);
      AloneOneMore(start, ctx, kind, kept.0, checks, kept.1, t, rows[k - 1], k + 1, worlds[k - 1]);
    }
  }

  lemma AloneOneMore(start: Tally, ctx: Ctx, kind: Kind, rows: seq<Row>, checks: Checks, worlds: seq<World>, t: Tally,
                     row: Row, n: nat, w: World)
    requires Alone(start, ctx, kind, rows, checks, worlds, t)
    ensures var after := CountRow(t, ctx, kind, row, n, checks, w);
      if Outcome(t.s, ctx, kind, row, checks, w).None? then Alone(start, ctx, kind, rows, checks, worlds, after)
      else Alone(start, ctx, kind, rows + [row], checks, worlds + [w], after)
  {
    if Outcome(t.s, ctx, kind, row, checks, w).Some? {
      SuccessAppends(start, ctx, kind, rows, checks, worlds, row, w);
    }
  }

  lemma SuccessAppends(start: Tally, ctx: Ctx, kind: Kind, rows: seq<Row>, checks: Checks, worlds: seq<World>,
                       row: Row, w: World)
    requires |rows| == |worlds|
    requires Outcome(Process(start, ctx, kind, rows, checks, worlds, |rows|).s, ctx, kind, row, checks, w).Some?
    ensures var before := Process(start, ctx, kind, rows, checks, worlds, |rows|);
      Process(start, ctx, kind, rows + [row], checks, worlds + [w], |rows + [row]|)
      == before.(s := Outcome(before.s, ctx, kind, row, checks, w).value, success := before.success + 1)
  {
    ProcessPrefix(start, ctx, kind, rows, checks, worlds, row, w, |rows|);
  }

  // ------------------------------------------------------------------
  // The error list names the failed rows
  // ------------------------------------------------------------------

  predicate Names(errors: seq<RowError>, n: nat) {
    exists i | 0 <= i < |errors| :: errors[i].row == n
  }

  lemma NamesConcat(a: seq<RowError>, b: seq<RowError>, n: nat)
    ensures Names(a + b, n) <==> Names(a, n) || Names(b, n)
  {
    if Names(a + b, n) {
      var i :| 0 <= i < |a + b| && (a + b)[i].row == n;
      if i >= |a| { assert b[i - |a|].row == n; }
    }
    if Names(a, n) {
      var i :| 0 <= i < |a| && a[i].row == n;
      assert (a + b)[i].row == n;
    }
    if Names(b, n) {
      var i :| 0 <= i < |b| && b[i].row == n;
      assert (a + b)[|a| + i].row == n;
    }
  }

  lemma RowErrorsName(kind: Kind, row: Row, n: nat, checks: Checks)
    ensures forall i | 0 <= i < |RowErrors(kind, row, n, checks)| :: RowErrors(kind, row, n, checks)[i].row == n
  {
  }

  lemma RowIsNamedIff(kind: Kind, row: Row, at: nat, checks: Checks, n: nat)
    ensures Names(RowErrors(kind, row, at, checks), n) <==> n == at && !Valid(kind, row, checks)
  {
    RowErrorsName(kind, row, at, checks);
    ValidIffNoErrors(kind, row, at, checks);
    var errors := RowErrors(kind, row, at, checks);
    if errors != [] { assert errors[0].row == at; }
  }

  /** Row n of the file is one of the first k data rows, and not valid. */
  predicate Invalid(kind: Kind, rows: seq<Row>, checks: Checks, k: nat, n: nat)
    requires k <= |rows|
  {
    2 <= n < k + 2 && !Valid(kind, rows[n - 2], checks)
  }

  lemma {:induction false} FlattenNames(per: seq<seq<RowError>>, k: nat, n: nat)
    requires k <= |per| && forall i | 0 <= i < |per| && Names(per[i], n) :: n == i + 2
    ensures Names(Flatten(per, k), n) <==> 2 <= n < k + 2 && Names(per[n - 2], n)
  {
    if k > 0 {
      FlattenNames(per, k - 1, n);
      NamesConcat(Flatten(per, k - 1), per[k - 1], n);
    }
  }

  lemma PerRowNames(kind: Kind, rows: seq<Row>, checks: Checks, n: nat)
    ensures forall i | 0 <= i < |rows| ::
      Names(PerRow(kind, rows, checks)[i], n) <==> n == i + 2 && !Valid(kind, rows[i], checks)
  {
    forall i | 0 <= i < |rows|
      ensures Names(PerRow(kind, rows, checks)[i], n) <==> n == i + 2 && !Valid(kind, rows[i], checks)
    {
      RowIsNamedIff(kind, rows[i], i + 2, checks, n);
    }
  }

  lemma AllErrorsName(kind: Kind, rows: seq<Row>, checks: Checks, k: nat, n: nat)
    requires k <= |rows|
    ensures Names(AllErrors(kind, rows, checks, k), n) <==> Invalid(kind, rows, checks, k, n)
  {
    PerRowNames(kind, rows, checks, n);
    FlattenNames(PerRow(kind, rows, checks), k, n);
  }

  lemma {:induction false} ProcessNames(start: Tally, ctx: Ctx, kind: Kind, rows: seq<Row>, checks: Checks,
                                        worlds: seq<World>, k: nat, n: nat)
    requires k <= |rows| == |worlds|
    ensures Names(Process(start, ctx, kind, rows, checks, worlds, k).errors, n) <==>
      Names(start.errors, n)
      || (2 <= n < k + 2 && Fails(start, ctx, kind, rows, checks, worlds, n - 2) && Valid(kind, rows[n - 2], checks))
  {
    if k > 0 {
      ProcessNames(start, ctx, kind, rows, checks, worlds, k - 1, n);
      NamesConcat(Process(start, ctx, kind, rows, checks, worlds, k - 1).errors, [RowError(k + 1, WholeRow)], n);
      assert Names([RowError(k + 1, WholeRow)], n) <==> n == k + 1 by {
        assert [RowError(k + 1, WholeRow)][0].row == k + 1;
      }
    }
  }

  /** The rows named in the final error list are exactly the rows that failed. */
  lemma ErrorsNameTheFailedRows(s: State, ctx: Ctx, kind: Kind, rows: seq<Row>, checks: Checks, worlds: seq<World>,
                                n: nat)
    requires |rows| == |worlds|
    ensures var start := Begin(s, kind, rows, checks);
      Names(Process(start, ctx, kind, rows, checks, worlds, |rows|).errors, n)
      <==> 2 <= n < |rows| + 2 && Fails(start, ctx, kind, rows, checks, worlds, n - 2)
  {
    AllErrorsName(kind, rows, checks, |rows|, n);
    ProcessNames(Begin(s, kind, rows, checks), ctx, kind, rows, checks, worlds, |rows|, n);
  }

  // ------------------------------------------------------------------
  // No duplicate persons
  // ------------------------------------------------------------------

  predicate Twins(a: Person, b: Person) {
    && a.organization == b.organization && !a.deleted && !b.deleted
    && ((a.email.Some? && a.email == b.email) || (a.phone.Some? && a.phone == b.phone))
  }

  /** No two live persons of an organization share an email or a phone. */
  ghost predicate NoTwins(persons: map<Id, Person>) {
    forall p, q | p in persons && q in persons && p != q :: !Twins(persons[p], persons[q])
  }

  lemma RowKeepsNoTwins(s: State, ctx: Ctx, kind: Kind, row: Row, checks: Checks, w: World)
    requires NoTwins(s.persons) && Outcome(s, ctx, kind, row, checks, w).Some?
    requires Finds(s.persons, ctx.organization, row, w.found)
    ensures NoTwins(Outcome(s, ctx, kind, row, checks, w).value.persons)
  {
    if w.found.None? {
      var person := NewPerson(row, ctx.organization);
      forall p | p in s.persons ensures !Twins(s.persons[p], person) && !Twins(person, s.persons[p]) {
        assert person.email.Some? ==> !LiveWith(s.persons[p], ctx.organization, person.email, None);
        assert person.phone.Some? ==> !LiveWith(s.persons[p], ctx.organization, None, person.phone);
      }
    }
  }

  /** An import keeps live persons unique by email and by phone. */
  lemma {:induction false} ImportKeepsNoTwins(start: Tally, ctx: Ctx, kind: Kind, rows: seq<Row>, checks: Checks,
                                              worlds: seq<World>, k: nat)
    requires k <= |rows| && Answered(start, ctx, kind, rows, checks, worlds) && NoTwins(start.s.persons)
    ensures NoTwins(Process(start, ctx, kind, rows, checks, worlds, k).s.persons)
  {
    if k > 0 {
      ImportKeepsNoTwins(start, ctx, kind, rows, checks, worlds, k - 1);
      var before := Process(start, ctx, kind, rows, checks, worlds, k - 1);
      if Outcome(before.s, ctx, kind, rows[k - 1], checks, worlds[k - 1]).Some? {
        RowKeepsNoTwins(before.s, ctx, kind, rows[k - 1], checks, worlds[k - 1]);
      }
    }
  }

  // ------------------------------------------------------------------
  // Short rows
  // ------------------------------------------------------------------

  /**
   The counts are only ever recorded if no row is cut short before a column
   its validator strips: one such row, anywhere in the file, ends the request
   with nothing imported.
   */
  lemma ImportRecordedIff(before: State, after: State, ctx: Ctx, kind: Kind, rows: seq<Row>, faults: seq<Fault>,
                          checks: Checks, worlds: seq<World>, r: Result<Job, Error>)
    requires |faults| == |rows| && rows != [] && FreshIds(before)
    requires Imported(before, after, ctx, kind, rows, faults, checks, worlds, r)
    ensures r.Ok? <==> forall i | 0 <= i < |rows| :: !Crashes(kind, rows[i])
    ensures r.Err? ==> after == before
    ensures r.Ok? ==> r.value.processed == r.value.total == |rows| == r.value.success + r.value.failed
    ensures r.Ok? ==> |after.records| - |before.records| == r.value.success && NoOrphans(before, after)
  {
    if r.Ok? {
      RowsAreConserved(Begin(before, kind, rows, checks), ctx, kind, rows, checks, worlds, |rows|);
    }
  }

  // ------------------------------------------------------------------
  // What a row is taken to say, and what becomes of it
  // ------------------------------------------------------------------

  /** The cell of the row, where an absent column, a null and an empty text all say nothing. */
  predicate Says(row: Row, column: Column, value: Option<string>) {
    if column in row && row[column].Some? && |row[column].value| > 0 then value == row[column] else value.None?
  }

  predicate SaysNothing(row: Row, column: Column) {
    column !in row || row[column].None? || row[column] == Some("")
  }

  /** The row says something there that the test refuses. */
  predicate SaysWrong(row: Row, column: Column, test: string -> bool) {
    !SaysNothing(row, column) && !test(row[column].value)
  }

  /** What is wrong with a cell: the columns a row of this kind needs, and what dates and statuses must be. */
  predicate IsWrong(kind: Kind, row: Row, column: Column, isDate: string -> bool) {
    match column
    case FirstName => SaysNothing(row, FirstName)
    case AdmissionNumber => kind == STUDENTS && SaysNothing(row, AdmissionNumber)
    case AdmissionDate =>
      kind == STUDENTS && (SaysNothing(row, AdmissionDate) || SaysWrong(row, AdmissionDate, isDate))
    case JoiningDate => kind == TEACHERS && SaysWrong(row, JoiningDate, isDate)
    case Status =>
      if kind == STUDENTS
      then SaysWrong(row, Status, text => text == "ACTIVE" || text == "WITHDRAWN" || text == "GRADUATED"
                                          || text == "TRANSFERRED" || text == "INACTIVE" || text == "DECEASED")
      else SaysWrong(row, Status, text => text == "ACTIVE" || text == "INACTIVE" || text == "ON_LEAVE"
                                          || text == "RESIGNED" || text == "TERMINATED")
    case _ => false
  }

  lemma ReportedIf(bad: bool, n: nat, column: Column, other: Column)
    ensures RowError(n, Cell(other)) in ErrorIf(bad, n, column) <==> bad && other == column
  {
  }

  lemma StudentCellIsReportedIff(row: Row, n: nat, isDate: string -> bool, column: Column)
    ensures RowError(n, Cell(column)) in StudentErrors(row, n, ChecksFor(STUDENTS, isDate))
       <==> IsWrong(STUDENTS, row, column, isDate)
  {
    var checks := ChecksFor(STUDENTS, isDate);
    ReportedIf(Text(row, FirstName).None?, n, FirstName, column);
    ReportedIf(Text(row, AdmissionNumber).None?, n, AdmissionNumber, column);
    ReportedIf(Text(row, AdmissionDate).None? || BadDate(row, AdmissionDate, checks), n, AdmissionDate, column);
    ReportedIf(BadStatus(row, checks), n, Status, column);
  }

  lemma TeacherCellIsReportedIff(row: Row, n: nat, isDate: string -> bool, column: Column)
    ensures RowError(n, Cell(column)) in TeacherErrors(row, n, ChecksFor(TEACHERS, isDate))
       <==> IsWrong(TEACHERS, row, column, isDate)
  {
    var checks := ChecksFor(TEACHERS, isDate);
    ReportedIf(Text(row, FirstName).None?, n, FirstName, column);
    ReportedIf(BadDate(row, JoiningDate, checks), n, JoiningDate, column);
    ReportedIf(BadStatus(row, checks), n, Status, column);
  }

  /** Exactly the wrong cells of a row are reported, each under its column and with the row's number. */
  lemma CellIsReportedIff(kind: Kind, row: Row, n: nat, isDate: string -> bool, column: Column)
    ensures RowError(n, Cell(column)) in RowErrors(kind, row, n, ChecksFor(kind, isDate))
       <==> IsWrong(kind, row, column, isDate)
  {
    StudentCellIsReportedIff(row, n, isDate, column);
    TeacherCellIsReportedIff(row, n, isDate, column);
  }

  /** A row is imported only if nothing is wrong with it. */
  lemma ValidIffNothingWrong(kind: Kind, row: Row, isDate: string -> bool)
    ensures Valid(kind, row, ChecksFor(kind, isDate)) <==> forall column :: !IsWrong(kind, row, column, isDate)
  {
    if !Valid(kind, row, ChecksFor(kind, isDate)) {
      assert || IsWrong(kind, row, FirstName, isDate) || IsWrong(kind, row, AdmissionNumber, isDate)
             || IsWrong(kind, row, AdmissionDate, isDate) || IsWrong(kind, row, JoiningDate, isDate)
             || IsWrong(kind, row, Status, isDate);
    }
  }

  /**
   A null, as a row too short for its header has it, stops the validators where
   they strip a cell and nowhere else.
   */
  lemma CrashesIff(kind: Kind, row: Row)
    ensures Crashes(kind, row)
       <==> (Status in row && row[Status].None?)
            || (kind == TEACHERS && JoiningDate in row && row[JoiningDate].None?)
  {
  }

  /** A person of the organization who is not deleted. */
  predicate Alive(persons: map<Id, Person>, organization: Id, p: Id) {
    p in persons && persons[p].organization == organization && !persons[p].deleted
  }

  /**
   The lookup names a live person of the organization with the row's email; only
   if there is none, one with its phone; and nobody exactly if neither is there.
   */
  lemma FindsIff(persons: map<Id, Person>, organization: Id, row: Row, email: Option<string>, phone: Option<string>,
                 found: Option<Id>)
    requires Says(row, Email, email) && Says(row, Phone, phone)
    ensures Finds(persons, organization, row, found)
       <==> var byEmail := exists p: Id :: Alive(persons, organization, p) && email.Some? && persons[p].email == email;
            var byPhone := exists p: Id :: Alive(persons, organization, p) && phone.Some? && persons[p].phone == phone;
            if byEmail
            then found.Some? && Alive(persons, organization, found.value) && persons[found.value].email == email
            else if byPhone
            then found.Some? && Alive(persons, organization, found.value) && persons[found.value].phone == phone
            else found.None?
  {
    assert Text(row, Email) == email && Text(row, Phone) == phone;
    assert forall p | Alive(persons, organization, p) && email.Some? && persons[p].email == email ::
        LiveWith(persons[p], organization, email, None);
    assert forall p | Alive(persons, organization, p) && phone.Some? && persons[p].phone == phone ::
        LiveWith(persons[p], organization, None, phone);
    assert forall p | p in persons && LiveWith(persons[p], organization, email, None) ::
        Alive(persons, organization, p);
    assert forall p | p in persons && LiveWith(persons[p], organization, None, phone) ::
        Alive(persons, organization, p);
  }

  /** The record a row asks for, for this person: ACTIVE unless the row says otherwise. */
  predicate IsRecordOf(rec: Record, kind: Kind, row: Row, school: Id, person: Id) {
    && rec.school == school && rec.person == person
    && (if SaysNothing(row, Status) then rec.status == "ACTIVE" else Some(rec.status) == row[Status])
    && match rec
       case Student(_, _, number, date, _) =>
         kind == STUDENTS && Says(row, AdmissionNumber, number) && Says(row, AdmissionDate, date)
       case Teacher(_, _, number, designation, date, _, deleted) =>
         && kind == TEACHERS && !deleted && Says(row, EmployeeNumber, number) && Says(row, Designation, designation)
         && Says(row, JoiningDate, date)
  }

  /** The person a row asks for. */
  predicate IsPersonOf(p: Person, row: Row, organization: Id) {
    && p.organization == organization && !p.deleted
    && (if SaysNothing(row, FirstName) then p.firstName == "" else Some(p.firstName) == row[FirstName])
    && Says(row, LastName, p.lastName) && Says(row, Email, p.email) && Says(row, Phone, p.phone)
  }

  /**
   A row that succeeds adds exactly one record, as the row asks for it. If
   somebody was found it is theirs and no person is added; otherwise it belongs
   to the one person added, who has the row's name, email and phone.
   */
  lemma SuccessfulRowLeaves(s: State, ctx: Ctx, kind: Kind, row: Row, checks: Checks, w: World)
    requires FreshIds(s) && Outcome(s, ctx, kind, row, checks, w).Some?
    ensures var after := Outcome(s, ctx, kind, row, checks, w).value;
      exists r: Id ::
        && r !in s.records && r in after.records && after.records == s.records[r := after.records[r]]
        && var person := after.records[r].person;
           && IsRecordOf(after.records[r], kind, row, ctx.school, person)
           && (if w.found.Some? then person == w.found.value && after.persons == s.persons
               else person !in s.persons && person in after.persons
                    && after.persons == s.persons[person := after.persons[person]]
                    && IsPersonOf(after.persons[person], row, ctx.organization))
  {
    var after := Outcome(s, ctx, kind, row, checks, w).value;
    assert after.nextId - 1 in after.records;
  }

  /** A record of the school that is already this person's or, where the row gives a number, has that number. */
  predicate InTheWay(rec: Record, kind: Kind, row: Row, school: Id, person: Id) {
    && rec.school == school && (rec.Student? <==> kind == STUDENTS)
    && (rec.person == person
        || (if kind == STUDENTS then Says(row, AdmissionNumber, rec.number)
            else !SaysNothing(row, EmployeeNumber) && !rec.deleted && Says(row, EmployeeNumber, rec.number)))
  }

  /** Without an outside fault a row succeeds exactly if nothing is wrong with it and no record is in its way. */
  lemma RowSucceedsIff(s: State, ctx: Ctx, kind: Kind, row: Row, isDate: string -> bool, w: World)
    ensures Outcome(s, ctx, kind, row, ChecksFor(kind, isDate), w).Some?
       <==> && w.fault == NoFault && (forall column :: !IsWrong(kind, row, column, isDate))
            && var person := if w.found.Some? then w.found.value else s.nextId;
               forall r | r in s.records :: !InTheWay(s.records[r], kind, row, ctx.school, person)
  {
    ValidIffNothingWrong(kind, row, isDate);
    if Valid(kind, row, ChecksFor(kind, isDate)) {
      var person := if w.found.Some? then w.found.value else s.nextId;
      forall r | r in s.records
        ensures Collides(s.records[r], NewRecord(kind, row, ctx.school, person))
           <==> InTheWay(s.records[r], kind, row, ctx.school, person)
      {
      }
    }
  }

  ghost predicate EveryRecordHasPerson(s: State) {
    forall r | r in s.records :: s.records[r].person in s.persons
  }

  /** If every record belongs to somebody before an import, every record does after it. */
  lemma {:induction false} RecordsHavePersons(start: Tally, ctx: Ctx, kind: Kind, rows: seq<Row>, checks: Checks,
                                              worlds: seq<World>, k: nat)
    requires k <= |rows| && Answered(start, ctx, kind, rows, checks, worlds)
    requires FreshIds(start.s) && EveryRecordHasPerson(start.s)
    ensures EveryRecordHasPerson(Process(start, ctx, kind, rows, checks, worlds, k).s)
  {
    if k > 0 {
      RecordsHavePersons(start, ctx, kind, rows, checks, worlds, k - 1);
      ProcessKeepsFresh(start, ctx, kind, rows, checks, worlds, k - 1);
      RowKeepsPersons(Process(start, ctx, kind, rows, checks, worlds, k - 1), ctx, kind, rows[k - 1], k + 1, checks,
                      worlds[k - 1]);
    }
  }

  lemma ProcessKeepsFresh(start: Tally, ctx: Ctx, kind: Kind, rows: seq<Row>, checks: Checks, worlds: seq<World>,
                          k: nat)
    requires k <= |rows| == |worlds| && FreshIds(start.s)
    ensures FreshIds(Process(start, ctx, kind, rows, checks, worlds, k).s)
  {
    RowsAreConserved(start, ctx, kind, rows, checks, worlds, k);
  }

  lemma RowKeepsPersons(t: Tally, ctx: Ctx, kind: Kind, row: Row, n: nat, checks: Checks, w: World)
    requires FreshIds(t.s) && EveryRecordHasPerson(t.s)
    requires Valid(kind, row, checks) && w.fault != AtPerson ==> Finds(t.s.persons, ctx.organization, row, w.found)
    ensures EveryRecordHasPerson(CountRow(t, ctx, kind, row, n, checks, w).s)
  {
    if Outcome(t.s, ctx, kind, row, checks, w).Some? {
      SuccessfulRowLeaves(t.s, ctx, kind, row, checks, w);
    }
  }
}
