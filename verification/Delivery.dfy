/**
 The whole outbox pipeline as one state machine: the producers (announcements
 and attendance), any number of dispatcher workers with open transactions, and
 the notification table. Every interleaving of requests, claims, handler runs,
 commits and crashes is a run of it.
 */
module Delivery {
  import opened Prelude
  import opened Outbox
  import Announcements
  import Attendance

  /** A worker's open transaction: the rows it holds locked and what it has written so far. */
  datatype Txn = Txn(batch: seq<Id>, done: nat, writes: map<Id, Event>, notices: seq<Notice>, delivered: map<Id,
                     seq<Key>>)

  /** Committed tables, open transactions, and (for the proof) the messages of each event sent. */
  datatype System = System(
    announcements: map<Id, Announcements.Announcement>, attendance: Attendance.State,
    events: map<Id, Event>, notices: seq<Notice>, delivered: map<Id, seq<Key>>,
    open: map<Id, Txn>, nextId: Id, now: int)

  datatype Action =
    | Tick(seconds: nat)
    | NewAnnouncement(title: string)
    | OnAnnouncement(id: Id, op: Announcements.Op, org: Option<Id>, school: Id)
    | OnAttendance(req: Attendance.Request, org: Option<Id>)
    | OtherEvent(org: Option<Id>, eventSchool: Option<Id>, entity: Option<Id>)
    | OtherNotice(key: Key)
    | Fetch(worker: Id, batch: seq<Id>, limit: nat)
    | Handle(worker: Id, plan: Plan)
    | Commit(worker: Id)
    | Crash(worker: Id)

  ghost predicate Unlocked(s: System, id: Id) {
    forall w | w in s.open :: id !in s.open[w].batch
  }

  /** What SELECT ... ORDER BY created_at LIMIT ... FOR UPDATE SKIP LOCKED may return. */
  ghost predicate IsDueBatch(s: System, batch: seq<Id>, limit: nat) {
    && |batch| <= limit
    && (forall i, j | 0 <= i < j < |batch| :: batch[i] != batch[j])
    && (forall i | 0 <= i < |batch| :: batch[i] in s.events && Due(s.events[batch[i]], s.now) && Unlocked(s, batch[i]))
    && (forall i, j | 0 <= i < j < |batch| :: s.events[batch[i]].createdAt <= s.events[batch[j]].createdAt)
    && (forall id | id in s.events && Due(s.events[id], s.now) && Unlocked(s, id) && id !in batch ::
          |batch| == limit && forall i | 0 <= i < |batch| :: s.events[batch[i]].createdAt <= s.events[id].createdAt)
  }

  function Enqueue(s: System, kind: EventKind, org: Option<Id>, school: Option<Id>, entity: Option<Id>): System {
    s.(events := s.events[s.nextId := NewEvent(kind, org, school, entity, s.now)], nextId := s.nextId + 1)
  }

  /** The pass of a worker moves on by one event. */
  function Advance(events: map<Id, Event>, notices: seq<Notice>, now: int, t: Txn, plan: Plan, cfg: Settings): Txn
    requires t.done < |t.batch| && t.batch[t.done] in events
  {
    var id := t.batch[t.done];
    var (e, added) := Process(events[id], notices + t.notices, plan.recipients, plan.run, cfg, now);
    t.(done := t.done + 1, writes := t.writes[id := e], notices := t.notices + added,
       delivered := if e.status == SENT then t.delivered[id := Messages(events[id], plan.recipients)] else t.delivered)
  }

  predicate CanHandle(s: System, w: Id) {
    w in s.open && s.open[w].done < |s.open[w].batch| && s.open[w].batch[s.open[w].done] in s.events
  }

  /** Handling the worker's next row raises, which ends its transaction. */
  predicate HandleRaises(s: System, w: Id, plan: Plan, maxAttempts: int)
    requires CanHandle(s, w)
  {
    ProcessRaises(s.events[s.open[w].batch[s.open[w].done]], plan.run, Settings(w, maxAttempts))
  }

  predicate CanCommit(s: System, w: Id) {
    w in s.open && s.open[w].done == |s.open[w].batch|
  }

  function CommitTxn(s: System, w: Id): System
    requires w in s.open
  {
    var t := s.open[w];
    s.(events := s.events + t.writes, notices := s.notices + t.notices,
       delivered := s.delivered + t.delivered, open := s.open - {w})
  }

  /** One step; an action that is not enabled changes nothing. */
  ghost function Step(s: System, a: Action, maxAttempts: int): System {
    match a
    case Tick(seconds) => s.(now := s.now + seconds)
    case NewAnnouncement(title) =>
      s.(announcements := s.announcements[s.nextId := Announcements.Draft.(title := title)], nextId := s.nextId + 1)
    case OnAnnouncement(id, op, org, school) =>
      if id !in s.announcements then s
      else
        var r := Announcements.Apply(s.announcements[id], op, s.now);
        if r.Err? then s
        else
          var s' := s.(announcements := s.announcements[id := r.value.0]);
          if r.value.1 then Enqueue(s', AnnouncementPublished, org, Some(school), Some(id)) else s'
    case OnAttendance(req, org) =>
      var s' := s.(attendance := Attendance.Serve(s.attendance, req));
      if s'.attendance.submitted != s.attendance.submitted && req.op.Submit?
      then Enqueue(s', AttendanceSubmitted, org, Some(req.ctx.school), Some(req.op.session)) else s'
    case OtherEvent(org, school, entity) => Enqueue(s, NoHandler, org, school, entity)
    case OtherNotice(key) => s.(notices := s.notices + [Notice(key, false)])
    case Fetch(w, batch, limit) =>
      if w in s.open || !IsDueBatch(s, batch, limit) then s
      else s.(open := s.open[w := Txn(batch, 0, map[], [], map[])])
    case Handle(w, plan) =>
      if !CanHandle(s, w) then s
      else if HandleRaises(s, w, plan, maxAttempts) then s.(open := s.open - {w})
      else s.(open := s.open[w := Advance(s.events, s.notices, s.now, s.open[w], plan, Settings(w, maxAttempts))])
    case Commit(w) => if CanCommit(s, w) then CommitTxn(s, w) else s
    case Crash(w) => s.(open := s.open - {w})
  }

  ghost function Run(s: System, actions: seq<Action>, maxAttempts: int): System {
    if actions == [] then s
    else Step(Run(s, actions[..|actions| - 1], maxAttempts), actions[|actions| - 1], maxAttempts)
  }

  ghost predicate Initial(s: System) {
    && s.announcements == map[] && s.events == map[] && s.notices == [] && s.delivered == map[] && s.open == map[]
    && s.attendance == Attendance.State(s.attendance.enrollments, map[], map[], [], 0)
  }

  // ------------------------------------------------------------------
  // The invariant
  // ------------------------------------------------------------------

  predicate Same(a: Event, b: Event) {
    a.kind == b.kind && a.org == b.org && a.school == b.school && a.entity == b.entity
  }

  /** The announcement or session an event speaks of has left DRAFT. */
  predicate Sourced(e: Event, announcements: map<Id, Announcements.Announcement>, submitted: seq<Id>) {
    match e.kind
    case AnnouncementPublished =>
      e.entity.Some? && e.entity.value in announcements && announcements[e.entity.value].status != Announcements.DRAFT
    case AttendanceSubmitted => e.entity.Some? && e.entity.value in submitted
    case NoHandler => true
  }

  predicate Rivals(a: Event, b: Event) {
    a.kind != NoHandler && a.kind == b.kind && a.entity == b.entity
  }

  ghost predicate SourcesOk(events: map<Id, Event>, announcements: map<Id, Announcements.Announcement>,
                            submitted: seq<Id>) {
    && (forall id | id in events :: Sourced(events[id], announcements, submitted))
    && (forall i, j | i in events && j in events && i != j :: !Rivals(events[i], events[j]))
  }

  ghost predicate TablesOk(s: System) {
    && Attendance.Inv(s.attendance)
    && (forall id | id in s.announcements :: id < s.nextId)
    && (forall id | id in s.events :: id < s.nextId && s.events[id].status != PROCESSING)
    && SourcesOk(s.events, s.announcements, s.attendance.submitted)
  }

  /** The rows a transaction holds are still as it found them. */
  ghost predicate HoldsRows(events: map<Id, Event>, t: Txn) {
    && t.done <= |t.batch|
    && (forall i, j | 0 <= i < j < |t.batch| :: t.batch[i] != t.batch[j])
    && (forall i | 0 <= i < |t.batch| :: t.batch[i] in events && events[t.batch[i]].status in {PENDING, FAILED})
    && (forall i | 0 <= i < |t.batch| :: t.batch[i] in t.writes <==> i < t.done)
    && (forall id | id in t.writes :: id in t.batch && id in events
          && Same(t.writes[id], events[id]) && t.writes[id].status in {SENT, FAILED})
  }

  predicate Produced(events: map<Id, Event>, batch: seq<Id>, key: Key, id: Id) {
    id in batch && id in events && Addressed(events[id]) && key == KeyFor(events[id], key.user)
  }

  /** Everything it wrote to the notification table comes from a row it holds. */
  ghost predicate FromRows(events: map<Id, Event>, t: Txn) {
    forall i | 0 <= i < |t.notices| ::
      t.notices[i].fromDispatcher && exists id :: Produced(events, t.batch, t.notices[i].key, id)
  }

  ghost predicate AllReached(notices: seq<Notice>, keys: seq<Key>) {
    forall i | 0 <= i < |keys| :: Has(notices, keys[i])
  }

  /** The events sent are exactly those with a list of messages, and each message has its notification. */
  ghost predicate SentReached(rows: map<Id, Event>, notices: seq<Notice>, delivered: map<Id, seq<Key>>) {
    && (forall id | id in rows :: id in delivered <==> rows[id].status == SENT)
    && (forall id | id in delivered :: id in rows && AllReached(notices, delivered[id]))
  }

  ghost predicate TxnOk(events: map<Id, Event>, notices: seq<Notice>, t: Txn) {
    && HoldsRows(events, t)
    && FromRows(events, t)
    && OncePerKey(notices + t.notices)
    && SentReached(t.writes, notices + t.notices, t.delivered)
  }

  ghost predicate TxnsOk(events: map<Id, Event>, notices: seq<Notice>, open: map<Id, Txn>) {
    forall w | w in open :: TxnOk(events, notices, open[w])
  }

  ghost predicate LocksOk(open: map<Id, Txn>) {
    forall w1, w2, id | w1 in open && w2 in open && w1 != w2 && id in open[w1].batch :: id !in open[w2].batch
  }

  ghost predicate DeliveryOk(s: System) {
    OncePerKey(s.notices) && SentReached(s.events, s.notices, s.delivered)
  }

  ghost predicate Inv(s: System) {
    TablesOk(s) && DeliveryOk(s) && LocksOk(s.open) && TxnsOk(s.events, s.notices, s.open)
  }

  // ------------------------------------------------------------------
  // Notification tables that grow
  // ------------------------------------------------------------------

  lemma HasMore(a: seq<Notice>, b: seq<Notice>, key: Key)
    requires Has(a, key) && forall n | n in a :: n in b
    ensures Has(b, key)
  {
    var n :| n in a && n.key == key;
    assert n in b;
  }

  lemma ReachedMore(a: seq<Notice>, b: seq<Notice>, keys: seq<Key>)
    requires AllReached(a, keys) && forall n | n in a :: n in b
    ensures AllReached(b, keys)
  {
    forall i | 0 <= i < |keys| ensures Has(b, keys[i]) { HasMore(a, b, keys[i]); }
  }

  lemma SentReachedMore(rows: map<Id, Event>, a: seq<Notice>, b: seq<Notice>, delivered: map<Id, seq<Key>>)
    requires SentReached(rows, a, delivered) && forall n | n in a :: n in b
    ensures SentReached(rows, b, delivered)
  {
    forall id | id in delivered ensures AllReached(b, delivered[id]) { ReachedMore(a, b, delivered[id]); }
  }

  lemma OnceWithForeign(a: seq<Notice>, key: Key, b: seq<Notice>)
    requires OncePerKey(a + b)
    ensures OncePerKey(a + [Notice(key, false)] + b)
  {
    var c := a + [Notice(key, false)] + b;
    forall i, j | 0 <= i < j < |c| && c[i].fromDispatcher && c[j].fromDispatcher ensures c[i].key != c[j].key {
      var i' := if i < |a| then i else i - 1;
      var j' := if j < |a| then j else j - 1;
      assert (a + b)[i'] == c[i] && (a + b)[j'] == c[j];
    }
  }

  lemma JoinOncePerKey(a: seq<Notice>, b: seq<Notice>, c: seq<Notice>)
    requires OncePerKey(a + b) && OncePerKey(a + c)
    requires forall i, j | 0 <= i < |b| && 0 <= j < |c| :: b[i].key != c[j].key
    ensures OncePerKey(a + b + c)
  {
    var d := a + b + c;
    forall i, j | 0 <= i < j < |d| && d[i].fromDispatcher && d[j].fromDispatcher ensures d[i].key != d[j].key {
      if j < |a + b| {
        assert d[i] == (a + b)[i] && d[j] == (a + b)[j];
      } else if i < |a| || i >= |a + b| {
        var i' := if i < |a| then i else i - |b|;
        assert d[i] == (a + c)[i'] && d[j] == (a + c)[j - |b|];
      }
    }
  }

  // ------------------------------------------------------------------
  // Producers
  // ------------------------------------------------------------------

  /** A transaction is untouched by changes to rows it does not hold. */
  lemma TxnFrame(events: map<Id, Event>, after: map<Id, Event>, notices: seq<Notice>, t: Txn)
    requires TxnOk(events, notices, t)
    requires forall i | 0 <= i < |t.batch| :: t.batch[i] in after && after[t.batch[i]] == events[t.batch[i]]
    ensures TxnOk(after, notices, t)
  {
    forall i | 0 <= i < |t.notices| ensures exists id :: Produced(after, t.batch, t.notices[i].key, id) {
      var id :| Produced(events, t.batch, t.notices[i].key, id);
      assert Produced(after, t.batch, t.notices[i].key, id);
    }
  }

  /** A new event row for an entity that had none keeps everything. */
  lemma EnqueueKeepsInv(s: System, kind: EventKind, org: Option<Id>, school: Option<Id>, entity: Option<Id>)
    requires Inv(s) && Sourced(NewEvent(kind, org, school, entity, s.now), s.announcements, s.attendance.submitted)
    requires forall id | id in s.events :: !Rivals(s.events[id], NewEvent(kind, org, school, entity, s.now))
    ensures Inv(Enqueue(s, kind, org, school, entity))
  {
    var s' := Enqueue(s, kind, org, school, entity);
    forall w | w in s.open ensures TxnOk(s'.events, s.notices, s.open[w]) {
      assert TxnOk(s.events, s.notices, s.open[w]);
      TxnFrame(s.events, s'.events, s.notices, s.open[w]);
    }
  }

  lemma OnAnnouncementKeepsInv(s: System, id: Id, op: Announcements.Op, org: Option<Id>, school: Id, maxAttempts: int)
    requires Inv(s)
    ensures Inv(Step(s, OnAnnouncement(id, op, org, school), maxAttempts))
  {
    if id in s.announcements && Announcements.Apply(s.announcements[id], op, s.now).Ok? {
      var (row, publishes) := Announcements.Apply(s.announcements[id], op, s.now).value;
      var s' := s.(announcements := s.announcements[id := row]);
      assert SourcesOk(s'.events, s'.announcements, s'.attendance.submitted) by {
        forall e | e in s.events ensures Sourced(s.events[e], s'.announcements, s'.attendance.submitted) {
          assert Sourced(s.events[e], s.announcements, s.attendance.submitted);
        }
      }
      assert Inv(s');
      if publishes {
        forall e | e in s.events
          ensures !Rivals(s.events[e], NewEvent(AnnouncementPublished, org, Some(school), Some(id), s.now))
        {
          assert Sourced(s.events[e], s.announcements, s.attendance.submitted);
        }
        EnqueueKeepsInv(s', AnnouncementPublished, org, Some(school), Some(id));
      }
    }
  }

  lemma OnAttendanceKeepsInv(s: System, req: Attendance.Request, org: Option<Id>, maxAttempts: int)
    requires Inv(s)
    ensures Inv(Step(s, OnAttendance(req, org), maxAttempts))
  {
    Attendance.ServeKeepsInv(s.attendance, req);
    Attendance.EventsComeFromSubmits(s.attendance, req);
    var s' := s.(attendance := Attendance.Serve(s.attendance, req));
    assert SourcesOk(s'.events, s'.announcements, s'.attendance.submitted) by {
      forall e | e in s.events ensures Sourced(s.events[e], s'.announcements, s'.attendance.submitted) {
        assert Sourced(s.events[e], s.announcements, s.attendance.submitted);
      }
    }
    assert Inv(s');
    if s'.attendance.submitted != s.attendance.submitted {
      var id := req.op.session;
      Attendance.NoEventYet(s.attendance, id);
      forall e | e in s.events
        ensures !Rivals(s.events[e], NewEvent(AttendanceSubmitted, org, Some(req.ctx.school), Some(id), s.now))
      {
        assert Sourced(s.events[e], s.announcements, s.attendance.submitted);
      }
      assert s'.attendance.submitted[|s.attendance.submitted|] == id;
      EnqueueKeepsInv(s', AttendanceSubmitted, org, Some(req.ctx.school), Some(id));
    }
  }

  lemma OtherNoticeKeepsInv(s: System, key: Key)
    requires Inv(s)
    ensures Inv(s.(notices := s.notices + [Notice(key, false)]))
  {
    var s' := s.(notices := s.notices + [Notice(key, false)]);
    assert s.notices + [] == s.notices && s'.notices + [] == s'.notices;
    OnceWithForeign(s.notices, key, []);
    SentReachedMore(s.events, s.notices, s'.notices, s.delivered);
    forall w | w in s.open ensures TxnOk(s.events, s'.notices, s.open[w]) {
      var t := s.open[w];
      assert TxnOk(s.events, s.notices, t);
      OnceWithForeign(s.notices, key, t.notices);
      SentReachedMore(t.writes, s.notices + t.notices, s'.notices + t.notices, t.delivered);
    }
  }

  // ------------------------------------------------------------------
  // Workers
  // ------------------------------------------------------------------

  lemma FetchKeepsInv(s: System, w: Id, batch: seq<Id>, limit: nat)
    requires Inv(s) && w !in s.open && IsDueBatch(s, batch, limit)
    ensures Inv(s.(open := s.open[w := Txn(batch, 0, map[], [], map[])]))
  {
    var t := Txn(batch, 0, map[], [], map[]);
    NewTxnOk(s, batch, limit);
    assert LocksOk(s.open[w := t]) by {
      forall i | 0 <= i < |batch| ensures Unlocked(s, batch[i]) {}
      NewLocksOk(s.open, w, t);
    }
    assert TxnsOk(s.events, s.notices, s.open[w := t]);
  }

  lemma NewTxnOk(s: System, batch: seq<Id>, limit: nat)
    requires OncePerKey(s.notices) && IsDueBatch(s, batch, limit)
    ensures TxnOk(s.events, s.notices, Txn(batch, 0, map[], [], map[]))
  {
    assert s.notices + [] == s.notices;
  }

  lemma NewLocksOk(open: map<Id, Txn>, w: Id, t: Txn)
    requires LocksOk(open) && w !in open
    requires forall i, w' | 0 <= i < |t.batch| && w' in open :: t.batch[i] !in open[w'].batch
    ensures LocksOk(open[w := t])
  {
  }

  lemma ProcessAdds(events: map<Id, Event>, notices: seq<Notice>, now: int, t: Txn, plan: Plan, cfg: Settings)
    returns (added: seq<Notice>)
    requires t.done < |t.batch| && t.batch[t.done] in events && OncePerKey(notices + t.notices)
    ensures var t' := Advance(events, notices, now, t, plan, cfg);
      && t'.notices == t.notices + added && OncePerKey(notices + t'.notices)
      && forall i | 0 <= i < |added| ::
           added[i].fromDispatcher && Produced(events, t.batch, added[i].key, t.batch[t.done])
  {
    var before, visible := events[t.batch[t.done]], notices + t.notices;
    var messages := Messages(before, plan.recipients);
    var sent := if before.kind == NoHandler then []
                else if plan.run.Returns? then messages else TakeKeys(messages, plan.run.sends);
    added := Deliver(visible, sent);
    DeliverIsExact(visible, sent);
    assert visible + added == notices + (t.notices + added);
    forall i | 0 <= i < |added|
      ensures added[i].fromDispatcher && Produced(events, t.batch, added[i].key, t.batch[t.done])
    {
      assert added[i] in added;
      assert added[i].key in messages;
    }
  }

  lemma AdvanceKeepsRows(events: map<Id, Event>, notices: seq<Notice>, now: int, t: Txn, plan: Plan, cfg: Settings)
    requires TxnOk(events, notices, t) && t.done < |t.batch|
    ensures HoldsRows(events, Advance(events, notices, now, t, plan, cfg))
  {
    var id := t.batch[t.done];
    var e := Process(events[id], notices + t.notices, plan.recipients, plan.run, cfg, now).0;
    ProcessKeepsRow(events[id], notices + t.notices, plan, cfg, now);
    HandledRow(events, t, e, Advance(events, notices, now, t, plan, cfg));
  }

  lemma ProcessKeepsRow(e: Event, visible: seq<Notice>, plan: Plan, cfg: Settings, now: int)
    ensures var after := Process(e, visible, plan.recipients, plan.run, cfg, now).0;
      Same(after, e) && after.status in {SENT, FAILED}
  {
  }

  lemma HandledRow(events: map<Id, Event>, t: Txn, e: Event, t': Txn)
    requires HoldsRows(events, t) && t.done < |t.batch|
    requires Same(e, events[t.batch[t.done]]) && e.status in {SENT, FAILED}
    requires t'.batch == t.batch && t'.done == t.done + 1 && t'.writes == t.writes[t.batch[t.done] := e]
    ensures HoldsRows(events, t')
  {
  }

  lemma AdvanceKeepsNotices(events: map<Id, Event>, notices: seq<Notice>, now: int, t: Txn, plan: Plan, cfg: Settings)
    requires TxnOk(events, notices, t) && t.done < |t.batch|
    ensures var t' := Advance(events, notices, now, t, plan, cfg);
      FromRows(events, t') && OncePerKey(notices + t'.notices)
  {
    var t' := Advance(events, notices, now, t, plan, cfg);
    var added := ProcessAdds(events, notices, now, t, plan, cfg);
    forall i | 0 <= i < |t'.notices|
      ensures t'.notices[i].fromDispatcher && exists id :: Produced(events, t'.batch, t'.notices[i].key, id)
    {
      if i < |t.notices| {
        assert t'.notices[i] == t.notices[i];
      } else {
        assert t'.notices[i] == added[i - |t.notices|];
        assert Produced(events, t'.batch, t'.notices[i].key, t.batch[t.done]);
      }
    }
  }

  lemma AdvanceReaches(events: map<Id, Event>, notices: seq<Notice>, now: int, t: Txn, plan: Plan, cfg: Settings)
    requires TxnOk(events, notices, t) && t.done < |t.batch|
    ensures var t' := Advance(events, notices, now, t, plan, cfg);
      SentReached(t'.writes, notices + t'.notices, t'.delivered)
  {
    var t' := Advance(events, notices, now, t, plan, cfg);
    var id := t.batch[t.done];
    var visible, messages := notices + t.notices, Messages(events[id], plan.recipients);
    var added := Process(events[id], visible, plan.recipients, plan.run, cfg, now).1;
    assert visible + added == notices + t'.notices;
    SentReachedMore(t.writes, visible, notices + t'.notices, t.delivered);
    if t'.writes[id].status == SENT {
      DeliverIsExact(visible, messages);
      assert AllReached(notices + t'.notices, messages);
    }
  }

  lemma HandleKeepsInv(s: System, w: Id, plan: Plan, maxAttempts: int)
    requires Inv(s)
    ensures Inv(Step(s, Handle(w, plan), maxAttempts))
  {
    if CanHandle(s, w) && !HandleRaises(s, w, plan, maxAttempts) {
      var t, cfg := s.open[w], Settings(w, maxAttempts);
      assert TxnOk(s.events, s.notices, t);
      AdvanceKeepsRows(s.events, s.notices, s.now, t, plan, cfg);
      AdvanceKeepsNotices(s.events, s.notices, s.now, t, plan, cfg);
      AdvanceReaches(s.events, s.notices, s.now, t, plan, cfg);
      ReplaceTxn(s.events, s.notices, s.open, w, Advance(s.events, s.notices, s.now, t, plan, cfg));
    }
  }

  lemma ReplaceTxn(events: map<Id, Event>, notices: seq<Notice>, open: map<Id, Txn>, w: Id, t: Txn)
    requires LocksOk(open) && TxnsOk(events, notices, open)
    requires w in open && t.batch == open[w].batch && TxnOk(events, notices, t)
    ensures LocksOk(open[w := t]) && TxnsOk(events, notices, open[w := t])
  {
  }

  /** Two workers never write notifications with one key: they would hold the same event. */
  lemma WorkersWriteApart(s: System, w1: Id, w2: Id, i: nat, j: nat)
    requires Inv(s) && w1 in s.open && w2 in s.open && w1 != w2
    requires i < |s.open[w1].notices| && j < |s.open[w2].notices|
    ensures s.open[w1].notices[i].key != s.open[w2].notices[j].key
  {
    var t1, t2 := s.open[w1], s.open[w2];
    assert TxnOk(s.events, s.notices, t1) && TxnOk(s.events, s.notices, t2);
    var e1 :| Produced(s.events, t1.batch, t1.notices[i].key, e1);
    var e2 :| Produced(s.events, t2.batch, t2.notices[j].key, e2);
    assert !Rivals(s.events[e1], s.events[e2]);
    RivalsIfSameKey(s.events[e1], s.events[e2], t1.notices[i].key.user);
  }

  lemma RivalsIfSameKey(a: Event, b: Event, user: Id)
    requires Addressed(a) && Addressed(b) && !Rivals(a, b)
    ensures forall other :: KeyFor(a, user) != KeyFor(b, other)
  {
  }

  lemma RowsAreHeld(s: System, w: Id)
    requires Inv(s) && w in s.open
    ensures HoldsRows(s.events, s.open[w])
  {
    assert TxnOk(s.events, s.notices, s.open[w]);
  }

  /** What a commit leaves for a transaction that is still open. */
  lemma CommitKeepsOther(s: System, w: Id, other: Id)
    requires Inv(s) && CanCommit(s, w) && other in s.open && other != w
    ensures TxnOk(CommitTxn(s, w).events, CommitTxn(s, w).notices, s.open[other])
  {
    var s' := CommitTxn(s, w);
    var t, o := s.open[w], s.open[other];
    assert TxnOk(s.events, s.notices, t) && TxnOk(s.events, s.notices, o);
    TxnFrame(s.events, s'.events, s.notices, o);
    forall i, j | 0 <= i < |t.notices| && 0 <= j < |o.notices| ensures t.notices[i].key != o.notices[j].key {
      WorkersWriteApart(s, w, other, i, j);
    }
    JoinOncePerKey(s.notices, t.notices, o.notices);
    SentReachedMore(o.writes, s.notices + o.notices, s'.notices + o.notices, o.delivered);
  }

  lemma CommitKeepsTables(s: System, w: Id)
    requires Inv(s) && CanCommit(s, w)
    ensures TablesOk(CommitTxn(s, w))
  {
    var s' := CommitTxn(s, w);
    var t := s.open[w];
    RowsAreHeld(s, w);
    WritesKeepSources(s.events, t);
    SameKeepsSources(s.events, s'.events, s.announcements, s.attendance.submitted);
  }

  lemma WritesKeepSources(events: map<Id, Event>, t: Txn)
    requires HoldsRows(events, t) && forall id | id in events :: events[id].status != PROCESSING
    ensures var after := events + t.writes;
      && after.Keys == events.Keys
      && forall id | id in events :: Same(after[id], events[id]) && after[id].status != PROCESSING
  {
  }

  lemma SameKeepsSources(events: map<Id, Event>, after: map<Id, Event>,
                         announcements: map<Id, Announcements.Announcement>, submitted: seq<Id>)
    requires SourcesOk(events, announcements, submitted)
    requires after.Keys == events.Keys && forall id | id in events :: Same(after[id], events[id])
    ensures SourcesOk(after, announcements, submitted)
  {
    forall id | id in after ensures Sourced(after[id], announcements, submitted) {
      assert Sourced(events[id], announcements, submitted);
    }
    forall i, j | i in after && j in after && i != j ensures !Rivals(after[i], after[j]) {
      assert !Rivals(events[i], events[j]);
    }
  }

  lemma CommitKeepsDelivery(s: System, w: Id)
    requires Inv(s) && CanCommit(s, w)
    ensures DeliveryOk(CommitTxn(s, w))
  {
    var s' := CommitTxn(s, w);
    var t := s.open[w];
    assert TxnOk(s.events, s.notices, t);
    SentReachedMore(s.events, s.notices, s'.notices, s.delivered);
    forall id | id in t.batch ensures id !in s.delivered {}
  }

  lemma StepKeepsInv(s: System, a: Action, maxAttempts: int)
    requires Inv(s)
    ensures Inv(Step(s, a, maxAttempts))
  {
    match a
    case Tick(_) =>
    case NewAnnouncement(_) => NewAnnouncementKeepsInv(s, a, maxAttempts);
    case OnAnnouncement(id, op, org, school) => OnAnnouncementKeepsInv(s, id, op, org, school, maxAttempts);
    case OnAttendance(req, org) => OnAttendanceKeepsInv(s, req, org, maxAttempts);
    case OtherEvent(org, school, entity) => EnqueueKeepsInv(s, NoHandler, org, school, entity);
    case OtherNotice(key) => OtherNoticeKeepsInv(s, key);
    case Fetch(w, batch, limit) =>
      if w !in s.open && IsDueBatch(s, batch, limit) { FetchKeepsInv(s, w, batch, limit); }
    case Handle(w, plan) => HandleKeepsInv(s, w, plan, maxAttempts);
    case Commit(w) => if CanCommit(s, w) { CommitKeepsInv(s, w); }
    case Crash(w) =>
  }

  lemma NewAnnouncementKeepsInv(s: System, a: Action, maxAttempts: int)
    requires Inv(s) && a.NewAnnouncement?
    ensures Inv(Step(s, a, maxAttempts))
  {
    var s' := Step(s, a, maxAttempts);
    assert SourcesOk(s'.events, s'.announcements, s'.attendance.submitted) by {
      forall e | e in s.events ensures Sourced(s.events[e], s'.announcements, s'.attendance.submitted) {
        assert Sourced(s.events[e], s.announcements, s.attendance.submitted);
      }
    }
  }

  lemma CommitKeepsInv(s: System, w: Id)
    requires Inv(s) && CanCommit(s, w)
    ensures Inv(CommitTxn(s, w))
  {
    CommitKeepsTables(s, w);
    CommitKeepsDelivery(s, w);
    forall other | other in s.open && other != w
      ensures TxnOk(CommitTxn(s, w).events, CommitTxn(s, w).notices, s.open[other])
    {
      CommitKeepsOther(s, w, other);
    }
  }

  lemma {:induction false} RunKeepsInv(s: System, actions: seq<Action>, maxAttempts: int)
    requires Inv(s)
    ensures Inv(Run(s, actions, maxAttempts))
  {
    if actions != [] {
      RunKeepsInv(s, actions[..|actions| - 1], maxAttempts);
      StepKeepsInv(Run(s, actions[..|actions| - 1], maxAttempts), actions[|actions| - 1], maxAttempts);
    }
  }

  // ------------------------------------------------------------------
  // What holds in every run
  // ------------------------------------------------------------------

  /** How many notifications with this key the dispatcher wrote. */
  function DispatcherCount(notices: seq<Notice>, key: Key): nat {
    if notices == [] then 0
    else
      DispatcherCount(notices[..|notices| - 1], key)
      + if notices[|notices| - 1] == Notice(key, true) then 1 else 0
  }

  lemma {:induction false} CountIsZero(notices: seq<Notice>, key: Key)
    requires forall i | 0 <= i < |notices| :: notices[i] != Notice(key, true)
    ensures DispatcherCount(notices, key) == 0
  {
    if notices != [] { CountIsZero(notices[..|notices| - 1], key); }
  }

  lemma {:induction false} CountIsAtMostOne(notices: seq<Notice>, key: Key)
    requires OncePerKey(notices)
    ensures DispatcherCount(notices, key) <= 1
    ensures DispatcherCount(notices, key) == 1 <==> Notice(key, true) in notices
  {
    if notices != [] {
      var init, last := notices[..|notices| - 1], notices[|notices| - 1];
      assert notices == init + [last];
      CountIsAtMostOne(init, key);
      if last == Notice(key, true) {
        CountIsZero(init, key);
      }
    }
  }

  /**
   Exactly-once effect. In every interleaving of requests, workers, crashes,
   handler failures and retries, the dispatcher writes a notification at most
   once; and every message computed in the pass that committed an event as SENT
   is there, written once unless the user already had one from elsewhere.
   */
  lemma ExactlyOnce(s: System, actions: seq<Action>, maxAttempts: int, key: Key)
    requires Initial(s)
    ensures var after := Run(s, actions, maxAttempts);
      && DispatcherCount(after.notices, key) <= 1
      && (forall id | id in after.events :: after.events[id].status == SENT <==> id in after.delivered)
      && (forall id | id in after.delivered && key in after.delivered[id] ::
            DispatcherCount(after.notices, key) == 1 || Notice(key, false) in after.notices)
  {
    RunKeepsInv(s, actions, maxAttempts);
    var after := Run(s, actions, maxAttempts);
    CountIsAtMostOne(after.notices, key);
    forall id | id in after.delivered && key in after.delivered[id]
      ensures Notice(key, true) in after.notices || Notice(key, false) in after.notices
    {
      assert AllReached(after.notices, after.delivered[id]);
      var n :| n in after.notices && n.key == key;
      assert n == Notice(key, n.fromDispatcher);
    }
  }

  /** No row is in two open transactions, and no committed row is PROCESSING. */
  lemma WorkersAreSafe(s: System, actions: seq<Action>, maxAttempts: int, w1: Id, w2: Id, id: Id)
    requires Initial(s)
    ensures var after := Run(s, actions, maxAttempts);
      && (w1 in after.open && w2 in after.open && id in after.open[w1].batch && id in after.open[w2].batch ==> w1 == w2)
      && (id in after.events ==> after.events[id].status != PROCESSING)
      && (w1 in after.open && id in after.open[w1].batch ==>
            id in after.events && after.events[id].status in {PENDING, FAILED})
  {
    RunKeepsInv(s, actions, maxAttempts);
    var after := Run(s, actions, maxAttempts);
    if w1 in after.open { assert TxnOk(after.events, after.notices, after.open[w1]); }
  }

  lemma SentSurvivesStep(s: System, a: Action, maxAttempts: int, id: Id)
    requires Inv(s) && id in s.events && s.events[id].status == SENT
    ensures var after := Step(s, a, maxAttempts); id in after.events && after.events[id] == s.events[id]
  {
    if a.Commit? {
      if CanCommit(s, a.worker) {
        RowsAreHeld(s, a.worker);
        SentIsNotHeld(s.events, s.open[a.worker], id);
      }
    } else {
      OnlyCommitsRewrite(s, a, maxAttempts, id);
    }
  }

  lemma OnlyCommitsRewrite(s: System, a: Action, maxAttempts: int, id: Id)
    requires !a.Commit? && id in s.events && id != s.nextId
    ensures var after := Step(s, a, maxAttempts); id in after.events && after.events[id] == s.events[id]
  {
  }

  lemma SentIsNotHeld(events: map<Id, Event>, t: Txn, id: Id)
    requires HoldsRows(events, t) && id in events && events[id].status == SENT
    ensures id !in t.batch && id !in t.writes
  {
  }

  /** SENT is final: no continuation changes the row, and no worker can hold it again. */
  lemma {:induction false} SentIsTerminal(s: System, actions: seq<Action>, maxAttempts: int, id: Id)
    requires Inv(s) && id in s.events && s.events[id].status == SENT
    ensures var after := Run(s, actions, maxAttempts);
      && id in after.events && after.events[id] == s.events[id]
      && forall w | w in after.open :: id !in after.open[w].batch
  {
    RunKeepsInv(s, actions, maxAttempts);
    var after := Run(s, actions, maxAttempts);
    if actions != [] {
      var init := actions[..|actions| - 1];
      SentIsTerminal(s, init, maxAttempts, id);
      RunKeepsInv(s, init, maxAttempts);
      SentSurvivesStep(Run(s, init, maxAttempts), actions[|actions| - 1], maxAttempts, id);
    }
    forall w | w in after.open ensures id !in after.open[w].batch {
      assert TxnOk(after.events, after.notices, after.open[w]);
      SentIsNotHeld(after.events, after.open[w], id);
    }
  }
}
