/** Timetable headers: conflict detection and the DRAFT / PUBLISHED / ARCHIVED life cycle of app/modules/timetables. */
module Timetables {
  import opened Prelude
  import Slots

  type Id = nat

  type Slot = Slots.Slot

  type Who = Slots.Who

  /** The dictionary key of one grouping: who is booked, on which day, in which period. */
  datatype Key = Key(owner: Id, day: Slots.Day, period: Id)

  datatype Conflict = Conflict(who: Who, key: Key, sections: seq<Id>)

  // ------------------------------------------------------------------
  // Conflict detection
  // ------------------------------------------------------------------

  function KeyOf(slot: Slot, who: Who): Key {
    Key(if who == Slots.Teachers then slot.teacher else slot.cohort, slot.day, slot.period)
  }

  /** The slots with this key, in order. */
  function Group(rows: seq<Slot>, who: Who, key: Key): seq<Slot> {
    if rows == [] then []
    else
      var init, last := Group(rows[..|rows| - 1], who, key), rows[|rows| - 1];
      if KeyOf(last, who) == key then init + [last] else init
  }

  /** The keys in the order in which they first occur: a dictionary keeps insertion order. */
  function Order(rows: seq<Slot>, who: Who): seq<Key> {
    if rows == [] then []
    else
      var init, key := Order(rows[..|rows| - 1], who), KeyOf(rows[|rows| - 1], who);
      if key in init then init else init + [key]
  }

  function Sections(group: seq<Slot>): seq<Id> {
    seq(|group|, i requires 0 <= i < |group| => group[i].cohort)
  }

  function Report(rows: seq<Slot>, who: Who, keys: seq<Key>): seq<Conflict> {
    if keys == [] then []
    else
      var init, key := Report(rows, who, keys[..|keys| - 1]), keys[|keys| - 1];
      if |Group(rows, who, key)| > 1 then init + [Conflict(who, key, Sections(Group(rows, who, key)))] else init
  }

  function Conflicts(rows: seq<Slot>): seq<Conflict> {
    Report(rows, Slots.Teachers, Order(rows, Slots.Teachers)) + Report(rows, Slots.Cohorts, Order(rows, Slots.Cohorts))
  }

  /** The setdefault(...).append(...) loop. */
  method GroupSlots(rows: seq<Slot>, who: Who) returns (groups: map<Key, seq<Slot>>, order: seq<Key>)
    ensures order == Order(rows, who)
    ensures forall key | key in order :: key in groups && groups[key] == Group(rows, who, key)
  {
    groups, order := map[], [];
    for i := 0 to |rows|
      invariant order == Order(rows[..i], who)
      invariant forall key :: key in groups <==> key in order
      invariant forall key :: Group(rows[..i], who, key) == if key in groups then groups[key] else []
    {
      assert rows[..i + 1][..i] == rows[..i];
      var key := KeyOf(rows[i], who);
      if key in groups {
        groups := groups[key := groups[key] + [rows[i]]];
      } else {
        groups := groups[key := [rows[i]]];
        order := order + [key];
      }
    }
    assert rows[..|rows|] == rows;
  }

  method ReportGroups(ghost rows: seq<Slot>, who: Who, groups: map<Key, seq<Slot>>, order: seq<Key>)
      returns (found: seq<Conflict>)
    requires forall key | key in order :: key in groups && groups[key] == Group(rows, who, key)
    ensures found == Report(rows, who, order)
  {
    found := [];
    for i := 0 to |order|
      invariant found == Report(rows, who, order[..i])
    {
      assert order[..i + 1][..i] == order[..i];
      var group := groups[order[i]];
      if |group| > 1 {
        var sections := [];
        for j := 0 to |group|
          invariant sections == Sections(group[..j])
        {
          sections := sections + [group[j].cohort];
          assert sections == Sections(group[..j + 1]);
        }
        assert group[..|group|] == group;
        found := found + [Conflict(who, order[i], sections)];
      }
    }
    assert order[..|order|] == order;
  }

  method FindConflicts(rows: seq<Slot>) returns (conflicts: seq<Conflict>)
    ensures conflicts == Conflicts(rows)
  {
    var teacherGroups, teacherOrder := GroupSlots(rows, Slots.Teachers);
    var teachers := ReportGroups(rows, Slots.Teachers, teacherGroups, teacherOrder);
    var cohortGroups, cohortOrder := GroupSlots(rows, Slots.Cohorts);
    var cohorts := ReportGroups(rows, Slots.Cohorts, cohortGroups, cohortOrder);
    conflicts := teachers + cohorts;
  }

  predicate Clash(rows: seq<Slot>, who: Who, key: Key, i: nat, j: nat) {
    i < j < |rows| && KeyOf(rows[i], who) == key == KeyOf(rows[j], who)
  }

  lemma {:induction false} GroupIsEmptyIff(rows: seq<Slot>, who: Who, key: Key)
    ensures Group(rows, who, key) == [] <==> forall i | 0 <= i < |rows| :: KeyOf(rows[i], who) != key
  {
    if rows != [] {
      GroupIsEmptyIff(rows[..|rows| - 1], who, key);
      assert KeyOf(rows[|rows| - 1], who) == key || Group(rows, who, key) == Group(rows[..|rows| - 1], who, key);
    }
  }

  /** A group has a second member exactly when two slots clash on its key. */
  lemma {:induction false} GroupClashesIff(rows: seq<Slot>, who: Who, key: Key)
    ensures |Group(rows, who, key)| > 1 <==> exists i, j :: Clash(rows, who, key, i, j)
  {
    if rows != [] {
      var init, last := rows[..|rows| - 1], |rows| - 1;
      GroupClashesIff(init, who, key);
      GroupIsEmptyIff(init, who, key);
      if i, j :| Clash(init, who, key, i, j) {
        assert Clash(rows, who, key, i, j);
      } else {
        forall i: nat, j: nat | Clash(rows, who, key, i, j) ensures j == last && KeyOf(init[i], who) == key {
          assert j < last ==> Clash(init, who, key, i, j);
        }
        if KeyOf(rows[last], who) == key && Group(init, who, key) != [] {
          var i :| 0 <= i < last && KeyOf(init[i], who) == key;
          assert Clash(rows, who, key, i, last);
        }
      }
    }
  }

  lemma {:induction false} OrderIsExact(rows: seq<Slot>, who: Who)
    ensures forall i, j | 0 <= i < j < |Order(rows, who)| :: Order(rows, who)[i] != Order(rows, who)[j]
    ensures forall i | 0 <= i < |rows| :: KeyOf(rows[i], who) in Order(rows, who)
  {
    if rows != [] {
      OrderIsExact(rows[..|rows| - 1], who);
      assert forall i | 0 <= i < |rows| - 1 :: rows[i] == rows[..|rows| - 1][i];
    }
  }

  /** Exactly one entry, naming every section involved, for each key with a clash. */
  lemma {:induction false} ReportIsExact(rows: seq<Slot>, who: Who, keys: seq<Key>)
    requires forall i, j | 0 <= i < j < |keys| :: keys[i] != keys[j]
    ensures forall c | c in Report(rows, who, keys) ::
      c.who == who && c.key in keys && |Group(rows, who, c.key)| > 1 && c.sections == Sections(Group(rows, who, c.key))
    ensures forall key | key in keys && |Group(rows, who, key)| > 1 ::
      Conflict(who, key, Sections(Group(rows, who, key))) in Report(rows, who, keys)
    ensures forall i, j | 0 <= i < j < |Report(rows, who, keys)| ::
      Report(rows, who, keys)[i].key != Report(rows, who, keys)[j].key
  {
    if keys != [] {
      var init, key := keys[..|keys| - 1], keys[|keys| - 1];
      ReportIsExact(rows, who, init);
      assert keys == init + [key];
      forall i | 0 <= i < |Report(rows, who, init)| ensures Report(rows, who, init)[i].key != key {
        assert Report(rows, who, init)[i] in Report(rows, who, init);
      }
    }
  }

  lemma ReportedIff(rows: seq<Slot>, who: Who, key: Key)
    ensures Conflict(who, key, Sections(Group(rows, who, key))) in Report(rows, who, Order(rows, who))
       <==> |Group(rows, who, key)| > 1
  {
    OrderIsExact(rows, who);
    ReportIsExact(rows, who, Order(rows, who));
    GroupIsEmptyIff(rows, who, key);
    if |Group(rows, who, key)| > 1 {
      var i :| 0 <= i < |rows| && KeyOf(rows[i], who) == key;
      assert KeyOf(rows[i], who) in Order(rows, who);
    }
  }

  lemma ReportedUnderItsGrouping(rows: seq<Slot>, c: Conflict)
    ensures c in Conflicts(rows) <==> c in Report(rows, c.who, Order(rows, c.who))
  {
    var other := if c.who == Slots.Teachers then Slots.Cohorts else Slots.Teachers;
    OrderIsExact(rows, other);
    ReportIsExact(rows, other, Order(rows, other));
    assert c !in Report(rows, other, Order(rows, other));
  }

  /** A key is reported, with every section involved, exactly when two of the slots share it. */
  lemma ConflictReportedIff(rows: seq<Slot>, who: Who, key: Key)
    ensures Conflict(who, key, Sections(Group(rows, who, key))) in Conflicts(rows)
       <==> exists i, j :: Clash(rows, who, key, i, j)
  {
    ReportedIff(rows, who, key);
    ReportedUnderItsGrouping(rows, Conflict(who, key, Sections(Group(rows, who, key))));
    GroupClashesIff(rows, who, key);
  }

  /** The list is empty exactly when no two slots share a (teacher, day, period) or a (cohort, day, period). */
  lemma NoConflictsIff(rows: seq<Slot>)
    ensures Conflicts(rows) == [] <==> forall who, key, i: nat, j: nat :: !Clash(rows, who, key, i, j)
  {
    if Conflicts(rows) == [] {
      forall who, key, i: nat, j: nat ensures !Clash(rows, who, key, i, j) {
        ConflictReportedIff(rows, who, key);
      }
    } else {
      var c := Conflicts(rows)[0];
      OrderIsExact(rows, Slots.Teachers);
      OrderIsExact(rows, Slots.Cohorts);
      ReportIsExact(rows, Slots.Teachers, Order(rows, Slots.Teachers));
      ReportIsExact(rows, Slots.Cohorts, Order(rows, Slots.Cohorts));
      assert || c in Report(rows, Slots.Teachers, Order(rows, Slots.Teachers))
             || c in Report(rows, Slots.Cohorts, Order(rows, Slots.Cohorts));
      GroupClashesIff(rows, c.who, c.key);
    }
  }

  /** One entry per clashing key and grouping. */
  lemma OneConflictPerKey(rows: seq<Slot>, i: nat, j: nat)
    requires i < j < |Conflicts(rows)|
    ensures Conflicts(rows)[i].who != Conflicts(rows)[j].who || Conflicts(rows)[i].key != Conflicts(rows)[j].key
  {
    var teachers := Report(rows, Slots.Teachers, Order(rows, Slots.Teachers));
    var cohorts := Report(rows, Slots.Cohorts, Order(rows, Slots.Cohorts));
    OrderIsExact(rows, Slots.Teachers);
    OrderIsExact(rows, Slots.Cohorts);
    ReportIsExact(rows, Slots.Teachers, Order(rows, Slots.Teachers));
    ReportIsExact(rows, Slots.Cohorts, Order(rows, Slots.Cohorts));
    if j < |teachers| {
    } else if i >= |teachers| {
      assert Conflicts(rows)[i] == cohorts[i - |teachers|];
    } else {
      assert teachers[i] in teachers && cohorts[j - |teachers|] in cohorts;
    }
  }

  /** The ACTIVE slots of a table, each once. */
  ghost predicate Lists(slots: map<Id, Slot>, ids: seq<Id>, rows: seq<Slot>) {
    && |ids| == |rows|
    && (forall i, j | 0 <= i < j < |ids| :: ids[i] != ids[j])
    && (forall i | 0 <= i < |ids| :: ids[i] in slots && slots[ids[i]] == rows[i])
    && (forall id | id in slots && slots[id].status == Slots.ACTIVE :: id in ids)
  }

  /** A clean report means nobody is booked twice on any date. */
  lemma CleanReportIsSound(slots: map<Id, Slot>, ids: seq<Id>, rows: seq<Slot>, who: Who)
    requires Lists(slots, ids, rows) && Conflicts(rows) == []
    ensures Slots.NoDoubleBooking(slots, who)
  {
    NoConflictsIff(rows);
    forall a, b, date: int |
      a in slots && b in slots && a != b && Slots.Holds(slots[a], date) && Slots.Holds(slots[b], date)
      ensures !Slots.Rivals(slots[a], slots[b], who)
    {
      var i :| 0 <= i < |ids| && ids[i] == a;
      var j :| 0 <= j < |ids| && ids[j] == b;
      if i < j {
        assert !Clash(rows, who, KeyOf(rows[i], who), i, j);
      } else {
        assert !Clash(rows, who, KeyOf(rows[i], who), j, i);
      }
    }
  }

  /** Two slots with one key are effective on a common date. */
  predicate Meets(a: Slot, b: Slot) {
    && (a.effectiveTo.None? || a.effectiveFrom <= a.effectiveTo.value)
    && (b.effectiveTo.None? || b.effectiveFrom <= b.effectiveTo.value)
    && Slots.Overlaps(a, b.effectiveFrom, b.effectiveTo)
  }

  lemma MeetsIff(a: Slot, b: Slot)
    requires a.status == b.status == Slots.ACTIVE
    ensures Meets(a, b) <==> exists date: int :: Slots.Holds(a, date) && Slots.Holds(b, date)
  {
    Slots.OverlapIsSharedDate(a, b);
  }

  lemma ClashIsRivalry(rows: seq<Slot>, who: Who, i: nat, j: nat)
    requires i < j < |rows|
    ensures Clash(rows, who, KeyOf(rows[i], who), i, j) <==> Slots.Rivals(rows[i], rows[j], who)
  {
  }

  /** Somebody is booked twice on some date exactly if two slots that clash also meet. */
  lemma DoubleBookedIffClashMeets(slots: map<Id, Slot>, ids: seq<Id>, rows: seq<Slot>, who: Who)
    requires Lists(slots, ids, rows) && forall i | 0 <= i < |rows| :: rows[i].status == Slots.ACTIVE
    ensures !Slots.NoDoubleBooking(slots, who)
       <==> exists key, i: nat, j: nat :: Clash(rows, who, key, i, j) && Meets(rows[i], rows[j])
  {
    if !Slots.NoDoubleBooking(slots, who) {
      var a, b, date: int :|
        a in slots && b in slots && a != b && Slots.Holds(slots[a], date) && Slots.Holds(slots[b], date)
        && Slots.Rivals(slots[a], slots[b], who);
      var i :| 0 <= i < |ids| && ids[i] == a;
      var j :| 0 <= j < |ids| && ids[j] == b;
      MeetsIff(rows[i], rows[j]);
      MeetsIff(rows[j], rows[i]);
      if i < j {
        assert Clash(rows, who, KeyOf(rows[i], who), i, j);
      } else {
        assert Clash(rows, who, KeyOf(rows[j], who), j, i);
      }
    }
    if key, i: nat, j: nat :| Clash(rows, who, key, i, j) && Meets(rows[i], rows[j]) {
      MeetsIff(rows[i], rows[j]);
      ClashIsRivalry(rows, who, i, j);
      assert ids[i] in slots && ids[j] in slots && ids[i] != ids[j];
    }
  }

  /**
   Conflict detection ignores dates. A report that is not empty is false, in
   that nobody is booked twice on any date, exactly when none of the pairs that
   clash is effective on a common date.
   */
  lemma ReportIsFalseIff(slots: map<Id, Slot>, ids: seq<Id>, rows: seq<Slot>)
    requires Lists(slots, ids, rows) && forall i | 0 <= i < |rows| :: rows[i].status == Slots.ACTIVE
    ensures Slots.NoDoubleBooking(slots, Slots.Teachers) && Slots.NoDoubleBooking(slots, Slots.Cohorts)
       <==> forall who, key, i: nat, j: nat | Clash(rows, who, key, i, j) :: !Meets(rows[i], rows[j])
  {
    DoubleBookedIffClashMeets(slots, ids, rows, Slots.Teachers);
    DoubleBookedIffClashMeets(slots, ids, rows, Slots.Cohorts);
  }

  /** For example: two slots of one teacher of which one starts after the other has ended. */
  lemma ReportIgnoresDates(slot: Slot, gap: nat)
    requires slot.status == Slots.ACTIVE && slot.effectiveTo.Some?
    ensures var later := slot.(effectiveFrom := slot.effectiveTo.value + 1 + gap, effectiveTo := None);
      && Slots.NoDoubleBooking(map[0 := slot, 1 := later], Slots.Teachers)
      && Conflicts([slot, later]) != []
  {
    var later := slot.(effectiveFrom := slot.effectiveTo.value + 1 + gap, effectiveTo := None);
    NoConflictsIff([slot, later]);
    assert Clash([slot, later], Slots.Teachers, KeyOf(slot, Slots.Teachers), 0, 1);
  }

  // ------------------------------------------------------------------
  // Life cycle
  // ------------------------------------------------------------------

  datatype Status = DRAFT | PUBLISHED | ARCHIVED

  datatype Timetable = Timetable(school: Id, year: Id, name: string, status: Status, version: nat,
                                 publishedAt: Option<int>, archivedAt: Option<int>)

  datatype State = State(timetables: map<Id, Timetable>, nextId: Id)

  datatype Error = NotFound | NotDraft | AlreadyArchived | StaleResource

  datatype Reply = Done(id: Id) | Blocked(conflicts: seq<Conflict>)

  /**
   Publish carries what its queries return: the ACTIVE slots of the timetable,
   and the row that a query for another published timetable of the school and
   year picks.
   */
  datatype Op =
    | Create(year: Id, name: string)
    | Rename(id: Id, newName: Option<string>, version: nat)
    | Publish(id: Id, version: nat, slots: seq<Slot>, other: Option<Id>)
    | Archive(id: Id, version: nat)

  predicate OtherPublished(ts: map<Id, Timetable>, id: Id, o: Id) {
    && id in ts && o in ts && o != id && ts[o].status == PUBLISHED
    && ts[o].school == ts[id].school && ts[o].year == ts[id].year
  }

  ghost predicate Picks(ts: map<Id, Timetable>, id: Id, other: Option<Id>) {
    match other
    case Some(o) => OtherPublished(ts, id, o)
    case None => forall o | o in ts :: !OtherPublished(ts, id, o)
  }

  function Archived(t: Timetable, now: int): Timetable {
    t.(status := ARCHIVED, archivedAt := Some(now), version := t.version + 1)
  }

  function Published(t: Timetable, now: int): Timetable {
    t.(status := PUBLISHED, publishedAt := Some(now), version := t.version + 1)
  }

  function Apply(s: State, school: Id, op: Op, now: int): Result<(State, Reply), Error> {
    match op
    case Create(year, name) =>
      var row := Timetable(school, year, name, DRAFT, 1, None, None);
      Ok((State(s.timetables[s.nextId := row], s.nextId + 1), Done(s.nextId)))
    case Rename(id, name, version) =>
      if id !in s.timetables || s.timetables[id].school != school then Err(NotFound)
      else if s.timetables[id].status != DRAFT then Err(NotDraft)
      else if s.timetables[id].version != version then Err(StaleResource)
      else
        var t := s.timetables[id];
        var t' := t.(name := Slots.Or(name, t.name), version := t.version + 1);
        Ok((s.(timetables := s.timetables[id := t']), Done(id)))
    case Publish(id, version, slots, other) =>
      if id !in s.timetables || s.timetables[id].school != school then Err(NotFound)
      else if s.timetables[id].status != DRAFT then Err(NotDraft)
      else if s.timetables[id].version != version then Err(StaleResource)
      else if Conflicts(slots) != [] then Ok((s, Blocked(Conflicts(slots))))
      else
        var ts := if other.Some? && other.value in s.timetables
                  then s.timetables[other.value := Archived(s.timetables[other.value], now)] else s.timetables;
        Ok((s.(timetables := ts[id := Published(ts[id], now)]), Done(id)))
    case Archive(id, version) =>
      if id !in s.timetables || s.timetables[id].school != school then Err(NotFound)
      else if s.timetables[id].status == ARCHIVED then Err(AlreadyArchived)
      else if s.timetables[id].version != version then Err(StaleResource)
      else Ok((s.(timetables := s.timetables[id := Archived(s.timetables[id], now)]), Done(id)))
  }

  class TimetableService {
    var s: State

    constructor ()
      ensures s == Empty
    {
      s := Empty;
    }

    method CreateTimetable(school: Id, year: Id, name: string, now: int) returns (r: Result<Reply, Error>)
      modifies this
      ensures Answers(old(s), s, r, StateOf(Apply(old(s), school, Create(year, name), now)))
      ensures r.Ok? ==> r.value == Apply(old(s), school, Create(year, name), now).value.1
    {
      r := Ok(Done(s.nextId));
      s := State(s.timetables[s.nextId := Timetable(school, year, name, DRAFT, 1, None, None)], s.nextId + 1);
    }

    method UpdateTimetable(school: Id, id: Id, name: Option<string>, version: nat, now: int)
        returns (r: Result<Reply, Error>)
      modifies this
      ensures Answers(old(s), s, r, StateOf(Apply(old(s), school, Rename(id, name, version), now)))
      ensures r.Ok? ==> r.value == Apply(old(s), school, Rename(id, name, version), now).value.1
    {
      if id !in s.timetables || s.timetables[id].school != school {
        return Err(NotFound);
      }
      var t := s.timetables[id];
      if t.status != DRAFT {
        return Err(NotDraft);
      }
      if t.version != version {
        return Err(StaleResource);
      }
      if name.Some? { t := t.(name := name.value); }
      s := s.(timetables := s.timetables[id := t.(version := t.version + 1)]);
      r := Ok(Done(id));
    }

    /** get_published_timetable_for_year: the query may pick any matching row. */
    method PublishedForYear(id: Id) returns (other: Option<Id>)
      requires id in s.timetables
      ensures Picks(s.timetables, id, other)
    {
      var rows := set o | o in s.timetables && OtherPublished(s.timetables, id, o);
      if rows == {} {
        assert forall o | o in s.timetables :: OtherPublished(s.timetables, id, o) ==> o in rows;
        return None;
      }
      var o :| o in rows;
      other := Some(o);
    }

    method PublishTimetable(school: Id, id: Id, version: nat, slots: seq<Slot>, now: int)
        returns (r: Result<Reply, Error>, ghost other: Option<Id>)
      modifies this
      ensures id in old(s).timetables ==> Picks(old(s).timetables, id, other)
      ensures Answers(old(s), s, r, StateOf(Apply(old(s), school, Publish(id, version, slots, other), now)))
      ensures r.Ok? ==> r.value == Apply(old(s), school, Publish(id, version, slots, other), now).value.1
    {
      other := None;
      if id !in s.timetables {
        return Err(NotFound), other;
      }
      var existing := PublishedForYear(id);
      other := existing;
      if s.timetables[id].school != school {
        return Err(NotFound), other;
      }
      if s.timetables[id].status != DRAFT {
        return Err(NotDraft), other;
      }
      if s.timetables[id].version != version {
        return Err(StaleResource), other;
      }
      var conflicts := FindConflicts(slots);
      if conflicts != [] {
        return Ok(Blocked(conflicts)), other;
      }
      if existing.Some? {
        var replaced := s.timetables[existing.value].(status := ARCHIVED);
        replaced := replaced.(archivedAt := Some(now), version := replaced.version + 1);
        s := s.(timetables := s.timetables[existing.value := replaced]);
      }
      var t := s.timetables[id].(status := PUBLISHED);
      t := t.(publishedAt := Some(now), version := t.version + 1);
      s := s.(timetables := s.timetables[id := t]);
      r := Ok(Done(id));
    }

    method ArchiveTimetable(school: Id, id: Id, version: nat, now: int) returns (r: Result<Reply, Error>)
      modifies this
      ensures Answers(old(s), s, r, StateOf(Apply(old(s), school, Archive(id, version), now)))
      ensures r.Ok? ==> r.value == Apply(old(s), school, Archive(id, version), now).value.1
    {
      if id !in s.timetables || s.timetables[id].school != school {
        return Err(NotFound);
      }
      var t := s.timetables[id];
      if t.status == ARCHIVED {
        return Err(AlreadyArchived);
      }
      if t.version != version {
        return Err(StaleResource);
      }
      t := t.(status := ARCHIVED);
      s := s.(timetables := s.timetables[id := t.(archivedAt := Some(now), version := t.version + 1)]);
      r := Ok(Done(id));
    }
  }

  // ------------------------------------------------------------------
  // Over every run
  // ------------------------------------------------------------------

  datatype Request = Request(school: Id, op: Op, now: int)

  const Empty := State(map[], 0)

  function Serve(s: State, req: Request): State {
    var r := Apply(s, req.school, req.op, req.now);
    if r.Ok? then r.value.0 else s
  }

  function Run(s: State, reqs: seq<Request>): State {
    if reqs == [] then s else Serve(Run(s, reqs[..|reqs| - 1]), reqs[|reqs| - 1])
  }

  /** What a Publish is told about other published timetables is true. */
  ghost predicate Truthful(s: State, op: Op) {
    op.Publish? && op.id in s.timetables ==> Picks(s.timetables, op.id, op.other)
  }

  ghost predicate TruthfulRun(reqs: seq<Request>) {
    forall i | 0 <= i < |reqs| :: Truthful(Run(Empty, reqs[..i]), reqs[i].op)
  }

  ghost predicate OnePublished(s: State) {
    && (forall id | id in s.timetables :: id < s.nextId)
    && (forall i, j | i in s.timetables && j in s.timetables && s.timetables[i].status == PUBLISHED ::
          !OtherPublished(s.timetables, i, j))
  }

  /** Publishing leaves no other published timetable of the school and year. */
  lemma PublishReplaces(s: State, school: Id, op: Op, now: int, o: Id)
    requires OnePublished(s) && op.Publish? && Truthful(s, op)
    requires Apply(s, school, op, now).Ok? && Conflicts(op.slots) == [] && o in s.timetables
    ensures !OtherPublished(Apply(s, school, op, now).value.0.timetables, op.id, o)
  {
    if OtherPublished(s.timetables, op.id, o) {
      assert op.other.Some?;
      assert !OtherPublished(s.timetables, o, op.other.value);
    }
  }

  lemma PublishKeepsOne(s: State, school: Id, op: Op, now: int)
    requires OnePublished(s) && op.Publish? && Truthful(s, op) && Apply(s, school, op, now).Ok?
    ensures OnePublished(Apply(s, school, op, now).value.0)
  {
    if Conflicts(op.slots) == [] {
      var after := Apply(s, school, op, now).value.0;
      forall i, j | i in after.timetables && j in after.timetables && after.timetables[i].status == PUBLISHED
        ensures !OtherPublished(after.timetables, i, j)
      {
        PublishReplaces(s, school, op, now, i);
        PublishReplaces(s, school, op, now, j);
        if i != op.id { assert !OtherPublished(s.timetables, i, j); }
      }
    }
  }

  lemma ServeKeepsOne(s: State, req: Request)
    requires OnePublished(s) && Truthful(s, req.op)
    ensures OnePublished(Serve(s, req))
  {
    if req.op.Publish? {
      if Apply(s, req.school, req.op, req.now).Ok? { PublishKeepsOne(s, req.school, req.op, req.now); }
    } else {
      var after := Serve(s, req);
      forall i, j | i in after.timetables && j in after.timetables && after.timetables[i].status == PUBLISHED
        ensures !OtherPublished(after.timetables, i, j)
      {
        if i in s.timetables && j in s.timetables { assert !OtherPublished(s.timetables, i, j); }
      }
    }
  }

  /** In every serial run a school has at most one PUBLISHED timetable per year. */
  lemma {:induction false} AtMostOnePublished(reqs: seq<Request>)
    requires TruthfulRun(reqs)
    ensures OnePublished(Run(Empty, reqs))
  {
    if reqs != [] {
      var last := |reqs| - 1;
      forall i | 0 <= i < last ensures Truthful(Run(Empty, reqs[..last][..i]), reqs[..last][i].op) {
        assert reqs[..last][..i] == reqs[..i];
      }
      AtMostOnePublished(reqs[..last]);
      assert Truthful(Run(Empty, reqs[..last]), reqs[last].op);
      ServeKeepsOne(Run(Empty, reqs[..last]), reqs[last]);
    }
  }

  function Rank(status: Status): nat {
    match status
    case DRAFT => 0
    case PUBLISHED => 1
    case ARCHIVED => 2
  }

  lemma ServeMovesForward(s: State, req: Request, id: Id)
    requires id in s.timetables && id < s.nextId
    ensures var after := Serve(s, req);
      && id in after.timetables && id < after.nextId
      && Rank(s.timetables[id].status) <= Rank(after.timetables[id].status)
  {
  }

  /** Status only moves forward: from DRAFT to PUBLISHED to ARCHIVED, never back. */
  lemma {:induction false} StatusMovesForward(s: State, reqs: seq<Request>, id: Id)
    requires id in s.timetables && id < s.nextId
    ensures var after := Run(s, reqs);
      && id in after.timetables && id < after.nextId
      && Rank(s.timetables[id].status) <= Rank(after.timetables[id].status)
  {
    if reqs != [] {
      StatusMovesForward(s, reqs[..|reqs| - 1], id);
      ServeMovesForward(Run(s, reqs[..|reqs| - 1]), reqs[|reqs| - 1], id);
    }
  }

  // ------------------------------------------------------------------
  // Publishes that overlap
  // ------------------------------------------------------------------

  /** What a publish writes once its checks have passed, with the versions it read. */
  datatype Plan = Plan(id: Id, version: nat, other: Option<Id>, otherVersion: nat)

  function PlanOf(ts: map<Id, Timetable>, id: Id, other: Option<Id>): Plan
    requires id in ts && (other.Some? ==> other.value in ts)
  {
    Plan(id, ts[id].version, other, if other.Some? then ts[other.value].version else 0)
  }

  /** The flushes: a row whose version has moved on makes the whole request fail. */
  function WriteBack(ts: map<Id, Timetable>, p: Plan, now: int): Option<map<Id, Timetable>> {
    if p.id !in ts || ts[p.id].version != p.version then None
    else if p.other.Some? && (p.other.value !in ts || ts[p.other.value].version != p.otherVersion) then None
    else
      var ts' := if p.other.Some? then ts[p.other.value := Archived(ts[p.other.value], now)] else ts;
      Some(ts'[p.id := Published(ts'[p.id], now)])
  }

  /** Left alone, a publish writes back exactly what Apply says. */
  lemma AlonePublishIsApply(s: State, school: Id, op: Op, now: int)
    requires op.Publish? && Truthful(s, op) && Apply(s, school, op, now).Ok? && Conflicts(op.slots) == []
    ensures WriteBack(s.timetables, PlanOf(s.timetables, op.id, op.other), now)
         == Some(Apply(s, school, op, now).value.0.timetables)
  {
  }

  /**
   Two drafts of one school and year, published by requests that both made
   their checks before either wrote: two PUBLISHED timetables remain exactly if
   none was published before. Otherwise both archive the same row, and the
   second request fails on its version.
   */
  lemma OverlappingPublishesIff(s: State, a: Id, b: Id, otherA: Option<Id>, otherB: Option<Id>, now: int)
    requires OnePublished(s) && a in s.timetables && b in s.timetables && a != b
    requires s.timetables[a].status == s.timetables[b].status == DRAFT
    requires s.timetables[a].school == s.timetables[b].school && s.timetables[a].year == s.timetables[b].year
    requires Picks(s.timetables, a, otherA) && Picks(s.timetables, b, otherB)
    ensures var first := WriteBack(s.timetables, PlanOf(s.timetables, a, otherA), now);
      && first.Some?
      && var second := WriteBack(first.value, PlanOf(s.timetables, b, otherB), now);
         && (second.Some? <==> otherA.None?)
         && (second.Some? ==> second.value[a].status == PUBLISHED && OtherPublished(second.value, a, b))
  {
    assert forall o | o in s.timetables :: OtherPublished(s.timetables, a, o) <==> OtherPublished(s.timetables, b, o);
    if otherA.Some? {
      assert otherB.Some?;
      assert !OtherPublished(s.timetables, otherA.value, otherB.value);
    }
  }

  // ------------------------------------------------------------------
  // What the publish gate sees
  // ------------------------------------------------------------------

  /** What a query over the slot table may return for one timetable, whatever else it asks of the rows. */
  ghost predicate Selects(slots: map<Id, Slot>, timetable: Id, rows: seq<Slot>) {
    forall i | 0 <= i < |rows| :: exists id :: Selected(slots, timetable, rows[i], id)
  }

  predicate Selected(slots: map<Id, Slot>, timetable: Id, row: Slot, id: Id) {
    id in slots && slots[id] == row && row.timetable == Some(timetable)
  }

  /**
   Slots are never put into a timetable, so the query behind the publish gate
   returns nothing whatever the slots look like: it never blocks a publish.
   */
  lemma PublishGateSeesNothing(dir: Slots.Directory, reqs: seq<Slots.Request>, timetable: Id, rows: seq<Slot>)
    requires Selects(Slots.Run(Slots.Empty, dir, reqs).slots, timetable, rows)
    ensures rows == [] && Conflicts(rows) == []
  {
    if rows != [] {
      var id :| Selected(Slots.Run(Slots.Empty, dir, reqs).slots, timetable, rows[0], id);
      Slots.SlotsHaveNoTimetable(dir, reqs);
    }
  }

  // ------------------------------------------------------------------
  // When each request succeeds and what it leaves
  // ------------------------------------------------------------------

  /** The timetable is the school's, in this version. */
  predicate IsCurrent(s: State, school: Id, id: Id, version: nat) {
    id in s.timetables && s.timetables[id].school == school && s.timetables[id].version == version
  }

  /** Drafts are renamed and published, whatever is not archived is archived, each in the version sent. */
  lemma RequestsSucceedIff(s: State, school: Id, id: Id, version: nat, name: Option<string>, slots: seq<Slot>,
                           other: Option<Id>, year: Id, title: string, now: int)
    ensures Apply(s, school, Create(year, title), now).Ok?
    ensures Apply(s, school, Rename(id, name, version), now).Ok?
       <==> IsCurrent(s, school, id, version) && s.timetables[id].status == DRAFT
    ensures Apply(s, school, Publish(id, version, slots, other), now).Ok?
       <==> IsCurrent(s, school, id, version) && s.timetables[id].status == DRAFT
    ensures Apply(s, school, Archive(id, version), now).Ok?
       <==> IsCurrent(s, school, id, version) && s.timetables[id].status != ARCHIVED
  {
  }

  lemma CreateLeaves(s: State, school: Id, year: Id, name: string, now: int)
    ensures Apply(s, school, Create(year, name), now).value
         == (State(s.timetables[s.nextId := Timetable(school, year, name, DRAFT, 1, None, None)], s.nextId + 1),
             Done(s.nextId))
  {
  }

  /** A rename touches the name, an archive the status and its date; of one row, whose version goes up. */
  lemma RenameAndArchiveLeave(s: State, school: Id, op: Op, now: int)
    requires (op.Rename? || op.Archive?) && Apply(s, school, op, now).Ok?
    ensures op.id in s.timetables
    ensures var (after, reply) := Apply(s, school, op, now).value;
      var t := s.timetables[op.id];
      && reply == Done(op.id) && after == s.(timetables := s.timetables[op.id := after.timetables[op.id]])
      && after.timetables[op.id]
         == if op.Archive? then Timetable(t.school, t.year, t.name, ARCHIVED, t.version + 1, t.publishedAt, Some(now))
            else Timetable(t.school, t.year, if op.newName.Some? then op.newName.value else t.name, t.status,
                           t.version + 1, t.publishedAt, t.archivedAt)
  {
  }

  /** In words of the rows alone: two PUBLISHED timetables of one school and year are one. */
  lemma PublishedIsUnique(reqs: seq<Request>, i: Id, j: Id)
    requires TruthfulRun(reqs)
    requires var ts := Run(Empty, reqs).timetables;
      && i in ts && j in ts && ts[i].status == PUBLISHED == ts[j].status
      && ts[i].school == ts[j].school && ts[i].year == ts[j].year
    ensures i == j
  {
    AtMostOnePublished(reqs);
    OnlyPublished(Run(Empty, reqs), i, j);
  }

  lemma OnlyPublished(s: State, i: Id, j: Id)
    requires OnePublished(s) && i in s.timetables && j in s.timetables
    requires s.timetables[i].status == PUBLISHED == s.timetables[j].status
    requires s.timetables[i].school == s.timetables[j].school && s.timetables[i].year == s.timetables[j].year
    ensures i == j
  {
    assert i == j || OtherPublished(s.timetables, i, j);
  }

  /**
   A publish with conflicts reports them and changes nothing. Otherwise the row
   is PUBLISHED now, the one published before for the school and year is
   ARCHIVED now, and no other row changes.
   */
  lemma PublishLeaves(s: State, school: Id, op: Op, now: int)
    requires op.Publish? && Apply(s, school, op, now).Ok? && Truthful(s, op)
    ensures var (after, reply) := Apply(s, school, op, now).value;
      && (reply.Blocked? <==> Conflicts(op.slots) != [])
      && (reply.Blocked? ==> after == s && reply.conflicts == Conflicts(op.slots))
      && (reply.Done? ==>
            && op.id in s.timetables && after.nextId == s.nextId && after.timetables.Keys == s.timetables.Keys
            && forall id | id in s.timetables ::
                 var t := s.timetables[id];
                 after.timetables[id]
                 == if id == op.id
                    then Timetable(t.school, t.year, t.name, PUBLISHED, t.version + 1, Some(now), t.archivedAt)
                    else if op.other == Some(id)
                    then Timetable(t.school, t.year, t.name, ARCHIVED, t.version + 1, t.publishedAt, Some(now)) else t)
    ensures var after := Apply(s, school, op, now).value.0;
      forall id | id in s.timetables && id != op.id && after.timetables[id] != s.timetables[id] ::
        s.timetables[id].status == PUBLISHED && s.timetables[id].school == school
        && s.timetables[id].year == s.timetables[op.id].year
  {
  }

  predicate SharesKey(slot: Slot, who: Who, key: Key) {
    && slot.day == key.day && slot.period == key.period
    && (if who == Slots.Teachers then slot.teacher else slot.cohort) == key.owner
  }

  /** What a conflict lists: the cohorts of the slots with its key, one for each, in the order of the slots. */
  ghost predicate ListsCohorts(rows: seq<Slot>, who: Who, key: Key, sections: seq<Id>, at: seq<nat>) {
    && |at| == |sections|
    && (forall k | 0 <= k < |at| :: at[k] < |rows| && rows[at[k]].cohort == sections[k])
    && (forall k, m | 0 <= k < m < |at| :: at[k] < at[m])
    && (forall i: nat :: i in at <==> i < |rows| && SharesKey(rows[i], who, key))
  }

  lemma {:induction false} GroupLists(rows: seq<Slot>, who: Who, key: Key) returns (at: seq<nat>)
    ensures ListsCohorts(rows, who, key, Sections(Group(rows, who, key)), at)
  {
    at := [];
    if rows != [] {
      var init, last := rows[..|rows| - 1], |rows| - 1;
      at := GroupLists(init, who, key);
      forall k | 0 <= k < |at| ensures at[k] < last && rows[at[k]].cohort == Sections(Group(init, who, key))[k] {}
      if KeyOf(rows[last], who) == key { at := at + [last]; }
      forall i: nat ensures i in at <==> i < |rows| && KeyOf(rows[i], who) == key {
        if i < last { assert rows[i] == init[i]; }
      }
    }
  }

  /** Every reported conflict lists exactly the slots that share its key, and they are at least two. */
  lemma ConflictListsCohorts(rows: seq<Slot>, c: Conflict) returns (at: seq<nat>)
    requires c in Conflicts(rows)
    ensures ListsCohorts(rows, c.who, c.key, c.sections, at) && |c.sections| > 1
  {
    OrderIsExact(rows, c.who);
    ReportedUnderItsGrouping(rows, c);
    ReportIsExact(rows, c.who, Order(rows, c.who));
    at := GroupLists(rows, c.who, c.key);
  }
}
