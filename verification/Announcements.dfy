/** The announcement state machine of app/modules/announcements/service.py. */
module Announcements {
  import opened Prelude
  import opened Outbox

  datatype AnnouncementStatus = DRAFT | PUBLISHED | EXPIRED | ARCHIVED

  datatype Announcement = Announcement(status: AnnouncementStatus, version: nat, deleted: bool,
                                       publishedAt: Option<int>,
                                       title: string)

  datatype Error = NotFound | StaleResource | NotDraft | AlreadyArchived

  datatype Op =
    | Update(title: Option<string>, version: nat)
    | Publish(publishedAt: Option<int>, version: nat)
    | Archive(version: nat)
    | Delete(version: nat)

  const Draft := Announcement(DRAFT, 1, false, None, "")

  /** The row after a request, and whether the request enqueues a fan-out event. */
  function Apply(a: Announcement, op: Op, now: int): Result<(Announcement, bool), Error> {
    if a.deleted then Err(NotFound)
    else
      var next := a.(version := a.version + 1);
      match op
      case Update(title, version) =>
        if a.version != version then Err(StaleResource)
        else Ok((next.(title := if title.Some? then title.value else a.title), false))
      case Publish(at, version) =>
        if a.version != version then Err(StaleResource)
        else if a.status != DRAFT then Err(NotDraft)
        else Ok((next.(status := PUBLISHED, publishedAt := Some(if at.Some? then at.value else now)), true))
      case Archive(version) =>
        if a.status == ARCHIVED then Err(AlreadyArchived)
        else if a.version != version then Err(StaleResource)
        else Ok((next.(status := ARCHIVED), false))
      case Delete(version) =>
        if a.status != DRAFT then Err(NotDraft)
        else if a.version != version then Err(StaleResource)
        else Ok((next.(deleted := true), false))
  }

  /** The ORM row, updated in place by the service; publishing also enqueues its event. */
  class AnnouncementRow {
    const id: Id
    var row: Announcement

    constructor (id: Id, title: string)
      ensures this.id == id && row == Draft.(title := title)
    {
      this.id, row := id, Draft.(title := title);
    }

    method UpdateRow(title: Option<string>, version: nat) returns (r: Result<(), Error>)
      modifies this
      ensures Answers(old(row), row, r, StateOf(Apply(old(row), Update(title, version), 0)))
    {
      if row.deleted { return Err(NotFound); }
      if row.version != version { return Err(StaleResource); }
      if title.Some? {
        row := row.(title := title.value);
      }
      row := row.(version := row.version + 1);
      r := Ok(());
    }

    method PublishRow(publishedAt: Option<int>, version: nat, now: int, org: Option<Id>, school: Id,
                      outbox: OutboxTable, eventId: Id) returns (r: Result<(), Error>)
      requires eventId !in outbox.events
      modifies this, outbox
      ensures Answers(old(row), row, r, StateOf(Apply(old(row), Publish(publishedAt, version), now)))
      ensures outbox.events == if r.Ok?
        then old(outbox.events)[eventId := NewEvent(AnnouncementPublished, org, Some(school), Some(id), now)]
        else old(outbox.events)
    {
      if row.deleted { return Err(NotFound); }
      if row.version != version { return Err(StaleResource); }
      if row.status != DRAFT { return Err(NotDraft); }
      row := row.(publishedAt := Some(if publishedAt.Some? then publishedAt.value else now));
      row := row.(status := PUBLISHED, version := row.version + 1);
      outbox.Publish(eventId, AnnouncementPublished, org, Some(school), Some(id), now);
      r := Ok(());
    }

    method ArchiveRow(version: nat) returns (r: Result<(), Error>)
      modifies this
      ensures Answers(old(row), row, r, StateOf(Apply(old(row), Archive(version), 0)))
    {
      if row.deleted { return Err(NotFound); }
      if row.status == ARCHIVED { return Err(AlreadyArchived); }
      if row.version != version { return Err(StaleResource); }
      row := row.(status := ARCHIVED, version := row.version + 1);
      r := Ok(());
    }

    method DeleteRow(version: nat) returns (r: Result<(), Error>)
      modifies this
      ensures Answers(old(row), row, r, StateOf(Apply(old(row), Delete(version), 0)))
    {
      if row.deleted { return Err(NotFound); }
      if row.status != DRAFT { return Err(NotDraft); }
      if row.version != version { return Err(StaleResource); }
      row := row.(deleted := true, version := row.version + 1);
      r := Ok(());
    }
  }

  // ------------------------------------------------------------------
  // Whole lives of one announcement
  // ------------------------------------------------------------------

  ghost function Live(a: Announcement, ops: seq<Op>, now: int): (Announcement, nat) {
    if ops == [] then (a, 0)
    else
      var (before, events) := Live(a, ops[..|ops| - 1], now);
      match Apply(before, ops[|ops| - 1], now)
      case Ok(done) => (done.0, events + if done.1 then 1 else 0)
      case Err(_) => (before, events)
  }

  function Rank(s: AnnouncementStatus): nat {
    match s case DRAFT => 0 case PUBLISHED => 1 case EXPIRED => 2 case ARCHIVED => 3
  }

  /**
   Whatever requests arrive, an announcement enqueues at most one event, only
   on its way out of DRAFT, and its status never moves back.
   */
  lemma {:induction false} PublishedOnce(a: Announcement, ops: seq<Op>, now: int)
    ensures var (after, events) := Live(a, ops, now);
      && events <= (if a.status == DRAFT && after.status != DRAFT then 1 else 0)
      && Rank(a.status) <= Rank(after.status) && a.version <= after.version
  {
    if ops != [] { PublishedOnce(a, ops[..|ops| - 1], now); }
  }

  /** Of two publishes carrying one version, or of any two publishes, only one succeeds. */
  lemma SecondPublishFails(a: Announcement, first: Op, ops: seq<Op>, second: Op, now: int)
    requires first.Publish? && second.Publish? && Apply(a, first, now).Ok?
    ensures Apply(Live(Apply(a, first, now).value.0, ops, now).0, second, now).Err?
  {
    PublishedOnce(Apply(a, first, now).value.0, ops, now);
  }

  // ------------------------------------------------------------------
  // When each request succeeds and what it leaves
  // ------------------------------------------------------------------

  /**
   On a live row in the version sent, an update always succeeds, a publish and
   a delete for drafts, an archive once.
   */
  lemma RequestsSucceedIff(a: Announcement, title: Option<string>, at: Option<int>, version: nat, now: int)
    ensures var current := !a.deleted && a.version == version;
      && (Apply(a, Update(title, version), now).Ok? <==> current)
      && (Apply(a, Publish(at, version), now).Ok? <==> current && a.status == DRAFT)
      && (Apply(a, Archive(version), now).Ok? <==> current && a.status != ARCHIVED)
      && (Apply(a, Delete(version), now).Ok? <==> current && a.status == DRAFT)
  {
  }

  /**
   Which of two things that are wrong with a request it reports: a stale
   version before a publish's status, else after it.
   */
  lemma FirstErrorWins(a: Announcement, at: Option<int>, version: nat, now: int)
    requires !a.deleted && a.status == ARCHIVED && a.version != version
    ensures Apply(a, Publish(at, version), now) == Err(StaleResource)
    ensures Apply(a, Archive(version), now) == Err(AlreadyArchived)
    ensures Apply(a, Delete(version), now) == Err(NotDraft)
  {
  }

  /** Each does what it is named after, counts the version up, and only a publish enqueues an event. */
  lemma RequestsLeave(a: Announcement, op: Op, now: int)
    requires Apply(a, op, now).Ok?
    ensures var (after, enqueues) := Apply(a, op, now).value;
      && (enqueues <==> op.Publish?) && after.version == a.version + 1
      && after.status == (if op.Publish? then PUBLISHED else if op.Archive? then ARCHIVED else a.status)
      && after.deleted == op.Delete?
      && after.title == (if op.Update? && op.title.Some? then op.title.value else a.title)
      && after.publishedAt == (if !op.Publish? then a.publishedAt
                               else if op.publishedAt.Some? then op.publishedAt else Some(now))
  {
  }
}
