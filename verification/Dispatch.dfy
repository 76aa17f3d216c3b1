/**
 The dispatcher of app/workers/outbox_dispatcher.py from the outside: which
 events a fetch takes, and the way from the request that enqueues one to the
 notifications.
 */
module Dispatch {
  import opened Prelude
  import opened Outbox
  import opened Delivery
  import opened Passes
  import Announcements
  import Attendance

  // ------------------------------------------------------------------
  // From the request that enqueues to the notifications
  // ------------------------------------------------------------------

  /** A publish that succeeds enqueues one event, due at once, that names its announcement, school and organization. */
  lemma PublishEnqueues(s: System, id: Id, op: Announcements.Op, org: Option<Id>, school: Id, maxAttempts: int)
    requires id in s.announcements && op.Publish?
    requires var a := s.announcements[id]; !a.deleted && a.status == Announcements.DRAFT && a.version == op.version
    ensures var after := Step(s, OnAnnouncement(id, op, org, school), maxAttempts);
      && after.announcements[id].status == Announcements.PUBLISHED
      && after.events == s.events[s.nextId :=
           Event(AnnouncementPublished, org, Some(school), Some(id), s.now, PENDING, 0, None, None, None)]
      && after.nextId == s.nextId + 1 && after.notices == s.notices && after.open == s.open && after.now == s.now
  {
  }

  /** So does a submit that succeeds, for its session. */
  lemma SubmitEnqueues(s: System, id: Id, version: nat, ctx: Attendance.Ctx, org: Option<Id>, maxAttempts: int)
    requires id in s.attendance.sessions
    requires var a := s.attendance.sessions[id];
      a.school == ctx.school && a.status == Attendance.DRAFT && a.version == version
    ensures var submit := Attendance.Request(ctx, Attendance.Submit(id, version));
      var after := Step(s, OnAttendance(submit, org), maxAttempts);
      && after.attendance.sessions[id].status == Attendance.SUBMITTED
      && after.events == s.events[s.nextId :=
           Event(AttendanceSubmitted, org, Some(ctx.school), Some(id), s.now, PENDING, 0, None, None, None)]
      && after.nextId == s.nextId + 1 && after.notices == s.notices && after.open == s.open && after.now == s.now
  {
    var sessions := s.attendance.sessions;
    var after := Attendance.Serve(s.attendance, Attendance.Request(ctx, Attendance.Submit(id, version)));
    assert after.submitted == s.attendance.submitted + [id];
    assert |after.submitted| != |s.attendance.submitted|;
  }

  /** The event may be fetched: no worker holds it, it has not been SENT, and its next attempt is not to come. */
  ghost predicate Fetchable(s: System, id: Id) {
    && id in s.events && (s.events[id].status == PENDING || s.events[id].status == FAILED)
    && !(s.events[id].nextAttemptAt.Some? && s.now < s.events[id].nextAttemptAt.value)
    && forall w | w in s.open :: id !in s.open[w].batch
  }

  /** With one event to fetch a fetch of one takes it. */
  lemma OnlyOneIsFetched(s: System, id: Id, w: Id, maxAttempts: int)
    requires Fetchable(s, id) && w !in s.open && forall other | other in s.events && other != id :: !Fetchable(s, other)
    ensures Step(s, Fetch(w, [id], 1), maxAttempts).open == s.open[w := Txn([id], 0, map[], [], map[])]
    ensures IsDueBatch(s, [id], 1)
  {
    forall other | other in s.events && Due(s.events[other], s.now) && Unlocked(s, other) ensures other == id {
      assert Fetchable(s, other);
    }
    assert Due(s.events[id], s.now) && Unlocked(s, id);
  }

  /** A worker on its own that fetches one such event, whose handler returns, tells its recipients, and nobody else. */
  lemma FetchedIsDelivered(s: System, w: Id, id: Id, recipients: seq<Id>, user: Id, maxAttempts: int)
    requires w !in s.open && id in s.events && IsDueBatch(s, [id], 1) && HasAudience(s.events[id])
    ensures var end := Run(s, SoloRun(w, [id], 1, [Plan(recipients, Returns)]), maxAttempts);
      && end.open == s.open && id in end.events && end.events[id].status == SENT
      && (user in recipients ==> Told(end.notices, s.events[id], user))
      && (user !in recipients && Told(end.notices, s.events[id], user) ==> Told(s.notices, s.events[id], user))
      && end.events == s.events[id := end.events[id]] && s.notices <= end.notices
  {
    var cfg, plan, t := Settings(w, maxAttempts), Plan(recipients, Returns), Tables(s.events, s.notices);
    SoloPassIsRunOnce(s, w, [id], 1, [plan], maxAttempts);
    OneRowPass(t, id, plan, cfg, s.now);
    var added := Process(s.events[id], s.notices, recipients, Returns, cfg, s.now).1;
    var end := Run(s, SoloRun(w, [id], 1, [plan]), maxAttempts);
    assert end.notices == s.notices + added;
    if user in recipients {
      var i :| 0 <= i < |recipients| && recipients[i] == user;
      HandlerTells(s.events[id], s.notices, recipients, Returns, cfg, s.now, i);
    } else if Told(end.notices, s.events[id], user) {
      forall n | n in added ensures n.key.user != user {
        OnlyRecipientsAreTold(s.events[id], s.notices, recipients, Returns, cfg, s.now, n);
      }
    }
  }

  lemma OneRowPass(t: Tables, id: Id, plan: Plan, cfg: Settings, now: int)
    requires id in t.events && HasAudience(t.events[id]) && plan.run.Returns?
    ensures var (e, added) := Process(t.events[id], t.notices, plan.recipients, plan.run, cfg, now);
      && PassFrom(t, [id], [plan], cfg, now, 0) == Some(Tables(t.events[id := e], t.notices + added))
      && e.status == SENT
  {
    var t' := Processed(t, id, plan, cfg, now);
    assert PassFrom(t', [id], [plan], cfg, now, 1) == Some(t');
  }

  /**
   From request to notification: an announcement published in an organization,
   with nothing else to fetch, is SENT by the next pass, and exactly its
   recipients are told.
   */
  lemma PublishedIsDelivered(s: System, id: Id, op: Announcements.Op, org: Id, school: Id, w: Id, recipients: seq<Id>,
                             user: Id, maxAttempts: int)
    requires id in s.announcements && op.Publish? && w !in s.open && s.nextId !in s.events
    requires var a := s.announcements[id]; !a.deleted && a.status == Announcements.DRAFT && a.version == op.version
    requires forall e | e in s.events :: !Fetchable(s, e)
    requires forall w' | w' in s.open :: s.nextId !in s.open[w'].batch
    ensures var published := Step(s, OnAnnouncement(id, op, Some(org), school), maxAttempts);
      var end := Run(published, SoloRun(w, [s.nextId], 1, [Plan(recipients, Returns)]), maxAttempts);
      var key := Key(user, org, ANNOUNCEMENT, Some("announcement"), Some(id));
      && s.nextId in end.events && end.events[s.nextId].status == SENT
      && (user in recipients ==> exists n | n in end.notices :: n.key == key)
      && ((exists n | n in end.notices :: n.key == key) ==>
            user in recipients || exists n | n in s.notices :: n.key == key)
  {
    var published := Step(s, OnAnnouncement(id, op, Some(org), school), maxAttempts);
    PublishEnqueues(s, id, op, Some(org), school, maxAttempts);
    EnqueuedIsAlone(s, published, s.nextId);
    OnlyOneIsFetched(published, s.nextId, w, maxAttempts);
    FetchedIsDelivered(published, w, s.nextId, recipients, user, maxAttempts);
  }

  /** The same for a session submitted. */
  lemma SubmittedIsDelivered(s: System, id: Id, version: nat, ctx: Attendance.Ctx, org: Id, w: Id, recipients: seq<Id>,
                             user: Id, maxAttempts: int)
    requires id in s.attendance.sessions && w !in s.open && s.nextId !in s.events
    requires var a := s.attendance.sessions[id];
      a.school == ctx.school && a.status == Attendance.DRAFT && a.version == version
    requires forall e | e in s.events :: !Fetchable(s, e)
    requires forall w' | w' in s.open :: s.nextId !in s.open[w'].batch
    ensures var submit := Attendance.Request(ctx, Attendance.Submit(id, version));
      var submitted := Step(s, OnAttendance(submit, Some(org)), maxAttempts);
      var end := Run(submitted, SoloRun(w, [s.nextId], 1, [Plan(recipients, Returns)]), maxAttempts);
      var key := Key(user, org, ATTENDANCE, Some("attendance_session"), Some(id));
      && s.nextId in end.events && end.events[s.nextId].status == SENT
      && (user in recipients ==> exists n | n in end.notices :: n.key == key)
      && ((exists n | n in end.notices :: n.key == key) ==>
            user in recipients || exists n | n in s.notices :: n.key == key)
  {
    var submit := Attendance.Request(ctx, Attendance.Submit(id, version));
    var submitted := Step(s, OnAttendance(submit, Some(org)), maxAttempts);
    SubmitEnqueues(s, id, version, ctx, Some(org), maxAttempts);
    EnqueuedIsAlone(s, submitted, s.nextId);
    OnlyOneIsFetched(submitted, s.nextId, w, maxAttempts);
    FetchedIsDelivered(submitted, w, s.nextId, recipients, user, maxAttempts);
  }

  lemma EnqueuedIsAlone(s: System, after: System, id: Id)
    requires id !in s.events && id in after.events && after.events == s.events[id := after.events[id]]
    requires after.events[id].status == PENDING && after.events[id].nextAttemptAt.None?
    requires after.open == s.open && after.now == s.now
    requires forall e | e in s.events :: !Fetchable(s, e)
    requires forall w | w in s.open :: id !in s.open[w].batch
    ensures Fetchable(after, id) && forall e | e in after.events && e != id :: !Fetchable(after, e)
  {
    forall e | e in after.events && e != id ensures !Fetchable(after, e) {
      assert !Fetchable(s, e);
    }
  }

  // ------------------------------------------------------------------
  // Which rows a fetch takes
  // ------------------------------------------------------------------

  ghost predicate OldestFirst(events: map<Id, Event>, batch: seq<Id>) {
    && (forall i | 0 <= i < |batch| :: batch[i] in events)
    && forall i, j | 0 <= i < j < |batch| :: events[batch[i]].createdAt < events[batch[j]].createdAt
  }

  lemma {:induction false} OldestFirstIsUnique(events: map<Id, Event>, a: seq<Id>, b: seq<Id>)
    requires OldestFirst(events, a) && OldestFirst(events, b)
    requires |a| == |b| && forall id :: id in a <==> id in b
    ensures a == b
  {
    if a != [] {
      assert a[0] in b && b[0] in a;
      assert a[0] == b[0];
      forall id ensures id in a[1..] <==> id in b[1..] {
        if id in a[1..] { assert id in b && id != b[0]; }
        if id in b[1..] { assert id in a && id != a[0]; }
      }
      OldestFirstIsUnique(events, a[1..], b[1..]);
    }
  }

  lemma SomeoneElse(a: set<Id>, b: set<Id>, x: Id) returns (y: Id)
    requires |a| <= |b| && x in a && x !in b
    ensures y in b && y !in a
  {
    if b <= a {
      assert b <= a - {x};
      SubsetIsSmaller(b, a - {x});
      assert false;
    }
    y :| y in b && y !in a;
  }

  lemma {:induction false} SubsetIsSmaller(a: set<Id>, b: set<Id>)
    requires a <= b
    ensures |a| <= |b|
    decreases a
  {
    if a != {} {
      var x :| x in a;
      SubsetIsSmaller(a - {x}, b - {x});
    }
  }

  ghost function Members(batch: seq<Id>): set<Id> {
    set id | id in batch
  }

  lemma {:induction false} DistinctCount(batch: seq<Id>)
    requires forall i, j | 0 <= i < j < |batch| :: batch[i] != batch[j]
    ensures |Members(batch)| == |batch|
  {
    if batch == [] {
      assert Members(batch) == {};
    } else {
      var init, last := batch[..|batch| - 1], batch[|batch| - 1];
      DistinctCount(init);
      assert Members(batch) == Members(init) + {last};
      assert last !in init;
    }
  }

  /** No two events that could be fetched were created at the same moment. */
  ghost predicate NoTies(s: System) {
    forall a, b | a in s.events && b in s.events && a != b && Fetchable(s, a) && Fetchable(s, b) ::
      s.events[a].createdAt != s.events[b].createdAt
  }

  /** It has no more rows than asked for, only rows that could be fetched, and all of those if it has fewer. */
  lemma BatchIsComplete(s: System, batch: seq<Id>, limit: nat, id: Id)
    requires IsDueBatch(s, batch, limit)
    ensures |batch| <= limit
    ensures id in batch ==> Fetchable(s, id)
    ensures Fetchable(s, id) && |batch| < limit ==> id in batch
  {
  }

  lemma BatchMembers(s: System, a: seq<Id>, b: seq<Id>, limit: nat, x: Id)
    requires IsDueBatch(s, a, limit) && IsDueBatch(s, b, limit) && NoTies(s) && x in a
    ensures x in b
  {
    BatchIsComplete(s, a, limit, x);
    if x !in b {
      LeftOutIsNewer(s, b, limit, x);
      DistinctCount(a);
      DistinctCount(b);
      var y := SomeoneElse(Members(a), Members(b), x);
      BatchIsComplete(s, b, limit, y);
      LeftOutIsNewer(s, a, limit, y);
      assert false;
    }
  }

  /**
   What a fetch leaves out, although it could be fetched, is not older than
   anything it takes, and it takes its fill.
   */
  lemma LeftOutIsNewer(s: System, batch: seq<Id>, limit: nat, id: Id)
    requires IsDueBatch(s, batch, limit) && Fetchable(s, id) && id !in batch
    ensures |batch| == limit
    ensures forall x | x in batch :: x in s.events && s.events[x].createdAt <= s.events[id].createdAt
  {
    assert Due(s.events[id], s.now) && Unlocked(s, id);
  }

  /**
   The query fixes the batch: events without ties in their creation times are
   taken oldest first, as many as asked for or as there are.
   */
  lemma BatchIsDetermined(s: System, a: seq<Id>, b: seq<Id>, limit: nat)
    requires IsDueBatch(s, a, limit) && IsDueBatch(s, b, limit) && NoTies(s)
    ensures a == b && OldestFirst(s.events, a)
  {
    forall id ensures id in a <==> id in b {
      if id in a { BatchMembers(s, a, b, limit, id); }
      if id in b { BatchMembers(s, b, a, limit, id); }
    }
    BatchIsOrdered(s, a, limit);
    BatchIsOrdered(s, b, limit);
    assert Members(a) == Members(b);
    OldestFirstIsUnique(s.events, a, b);
  }

  lemma BatchIsOrdered(s: System, batch: seq<Id>, limit: nat)
    requires IsDueBatch(s, batch, limit) && NoTies(s)
    ensures OldestFirst(s.events, batch) && |Members(batch)| == |batch|
  {
    forall id | id in batch ensures Fetchable(s, id) {}
    DistinctCount(batch);
  }

  /** The oldest rows of a set, oldest first: as many as asked for or as there are. */
  ghost predicate AreOldest(events: map<Id, Event>, rest: set<Id>, batch: seq<Id>, limit: nat) {
    && |batch| <= limit && rest <= events.Keys
    && (forall i | 0 <= i < |batch| :: batch[i] in rest)
    && (forall i, j | 0 <= i < j < |batch| ::
          batch[i] != batch[j] && events[batch[i]].createdAt <= events[batch[j]].createdAt)
    && (forall id | id in rest && id !in batch ::
          |batch| == limit && forall i | 0 <= i < |batch| :: events[batch[i]].createdAt <= events[id].createdAt)
  }

  lemma {:induction false} OldestOf(events: map<Id, Event>, rest: set<Id>) returns (x: Id)
    requires rest != {} && rest <= events.Keys
    ensures x in rest && forall id | id in rest :: events[x].createdAt <= events[id].createdAt
    decreases rest
  {
    x :| x in rest;
    if rest != {x} {
      var y := OldestOf(events, rest - {x});
      assert forall id | id in rest :: id == x || id in rest - {x};
      if events[y].createdAt < events[x].createdAt { x := y; }
    }
  }

  lemma {:induction false} TakeOldest(events: map<Id, Event>, rest: set<Id>, limit: nat) returns (batch: seq<Id>)
    requires rest <= events.Keys
    ensures AreOldest(events, rest, batch, limit)
    decreases limit
  {
    batch := [];
    if limit > 0 && rest != {} {
      var x := OldestOf(events, rest);
      var others := TakeOldest(events, rest - {x}, limit - 1);
      OldestBefore(events, rest, x, others, limit);
      batch := [x] + others;
    }
  }

  lemma OldestBefore(events: map<Id, Event>, rest: set<Id>, x: Id, others: seq<Id>, limit: nat)
    requires limit > 0 && rest <= events.Keys && x in rest
    requires forall id | id in rest :: events[x].createdAt <= events[id].createdAt
    requires AreOldest(events, rest - {x}, others, limit - 1)
    ensures AreOldest(events, rest, [x] + others, limit)
  {
    var batch := [x] + others;
    assert forall i | 0 < i < |batch| :: batch[i] == others[i - 1] && batch[i] in rest - {x};
    OldestLeavesNewer(events, rest, x, others, limit);
  }

  lemma OldestLeavesNewer(events: map<Id, Event>, rest: set<Id>, x: Id, others: seq<Id>, limit: nat)
    requires limit > 0 && rest <= events.Keys && x in rest
    requires forall id | id in rest :: events[x].createdAt <= events[id].createdAt
    requires AreOldest(events, rest - {x}, others, limit - 1)
    ensures forall id | id in rest && id !in [x] + others ::
      && |others| == limit - 1
      && forall i | 0 <= i < |[x] + others| :: events[([x] + others)[i]].createdAt <= events[id].createdAt
  {
    forall id | id in rest && id !in [x] + others
      ensures |others| == limit - 1
      ensures forall i | 0 <= i < |[x] + others| :: events[([x] + others)[i]].createdAt <= events[id].createdAt
    {
      assert ([x] + others)[0] == x && forall i | 0 <= i < |others| :: others[i] == ([x] + others)[i + 1];
      assert id in rest - {x} && id !in others;
    }
  }

  /** Whatever the table and the locks, ties or not, the query has an answer. */
  lemma BatchExists(s: System, limit: nat) returns (batch: seq<Id>)
    ensures IsDueBatch(s, batch, limit)
  {
    var rest := set id | id in s.events && Due(s.events[id], s.now) && Unlocked(s, id);
    batch := TakeOldest(s.events, rest, limit);
  }

  // ------------------------------------------------------------------
  // The steps around the dispatcher
  // ------------------------------------------------------------------

  /** An event held back until some time can be fetched once the clock gets there, and not before. */
  lemma HeldBackUntil(s: System, id: Id, seconds: nat, maxAttempts: int)
    requires id in s.events && s.events[id].status == FAILED && s.events[id].nextAttemptAt.Some?
    requires forall w | w in s.open :: id !in s.open[w].batch
    ensures Fetchable(Step(s, Tick(seconds), maxAttempts), id) <==> s.events[id].nextAttemptAt.value <= s.now + seconds
  {
  }

  /** A crash gives up what its worker held and wrote: the tables stay, and its rows can be fetched by others. */
  lemma CrashReleases(s: System, w: Id, id: Id, maxAttempts: int)
    requires LocksOk(s.open) && w in s.open && HoldsRows(s.events, s.open[w]) && id in s.open[w].batch
    requires s.events[id].nextAttemptAt.None? || s.events[id].nextAttemptAt.value <= s.now
    ensures var after := Step(s, Crash(w), maxAttempts);
      && after.events == s.events && after.notices == s.notices && w !in after.open
      && (forall other | other in s.open && other != w :: other in after.open && after.open[other] == s.open[other])
      && Fetchable(after, id)
  {
    forall other | other in s.open && other != w ensures id !in s.open[other].batch {}
  }

  /** A new announcement is a draft with its title; published in its first version it enqueues its event. */
  lemma NewAnnouncementCanBePublished(s: System, title: string, at: Option<int>, org: Option<Id>, school: Id,
                                      maxAttempts: int)
    requires forall id | id in s.announcements :: id < s.nextId
    ensures var drafted := Step(s, NewAnnouncement(title), maxAttempts);
      var published := Step(drafted, OnAnnouncement(s.nextId, Announcements.Publish(at, 1), org, school), maxAttempts);
      && s.nextId !in s.announcements && s.nextId in drafted.announcements && s.nextId in published.announcements
      && drafted.announcements[s.nextId].status == Announcements.DRAFT
      && drafted.announcements[s.nextId].title == title && drafted.events == s.events
      && published.announcements[s.nextId].status == Announcements.PUBLISHED
      && drafted.nextId in published.events && published.events[drafted.nextId].entity == Some(s.nextId)
  {
  }

  /** A notification written from elsewhere is there, and the dispatcher does not write it again. */
  lemma OthersNoticeIsNotRepeated(s: System, key: Key, e: Event, recipients: seq<Id>, run: HandlerRun, cfg: Settings,
                                  maxAttempts: int)
    ensures var after := Step(s, OtherNotice(key), maxAttempts);
      && after.notices == s.notices + [Notice(key, false)] && after.events == s.events
      && forall n | n in Process(e, after.notices, recipients, run, cfg, s.now).1 :: n.key != key
  {
    var after := Step(s, OtherNotice(key), maxAttempts);
    assert after.notices[|s.notices|].key == key;
    forall n | n in Process(e, after.notices, recipients, run, cfg, s.now).1 ensures n.key != key {
      OnlyRecipientsAreTold(e, after.notices, recipients, run, cfg, s.now, n);
    }
  }
}
