/**
 The transactional outbox: the enqueue of app/modules/platform_/outbox/service.py,
 the de-duplicating in-app channel of app/workers/channels.py, the fan-out of
 app/workers/handlers.py and the dispatcher of app/workers/outbox_dispatcher.py.
 */
module Outbox {
  import opened Prelude

  type Id = nat

  datatype Status = PENDING | PROCESSING | SENT | FAILED

  // NoHandler stands for every event name that is not in the handler table.
  datatype EventKind = AnnouncementPublished | AttendanceSubmitted | NoHandler

  datatype Event = Event(
    kind: EventKind, org: Option<Id>, school: Option<Id>, entity: Option<Id>, createdAt: int,
    status: Status, attempts: nat, nextAttemptAt: Option<int>, processedAt: Option<int>, lockedBy: Option<Id>)

  datatype NoticeType = ANNOUNCEMENT | ATTENDANCE | ENROLLMENT | SYSTEM

  /** What the channel compares before it writes a notification. */
  datatype Key = Key(user: Id, org: Id, noticeType: NoticeType, entityType: Option<string>, entity: Option<Id>)

  datatype Notice = Notice(key: Key, fromDispatcher: bool)

  // ------------------------------------------------------------------
  // Enqueue
  // ------------------------------------------------------------------

  function NewEvent(kind: EventKind, org: Option<Id>, school: Option<Id>, entity: Option<Id>, now: int): Event {
    Event(kind, org, school, entity, now, PENDING, 0, None, None, None)
  }

  class OutboxTable {
    var events: map<Id, Event>

    constructor ()
      ensures events == map[]
    {
      events := map[];
    }

    method Publish(id: Id, kind: EventKind, org: Option<Id>, school: Option<Id>, entity: Option<Id>, now: int)
      requires id !in events
      modifies this
      ensures events == old(events)[id := NewEvent(kind, org, school, entity, now)]
    {
      events := events[id := NewEvent(kind, org, school, entity, now)];
    }
  }

  // ------------------------------------------------------------------
  // Channel and handlers
  // ------------------------------------------------------------------

  predicate Has(notices: seq<Notice>, key: Key) {
    exists n | n in notices :: n.key == key
  }

  function KeyFor(e: Event, user: Id): Key
    requires e.kind != NoHandler && e.org.Some?
  {
    if e.kind == AnnouncementPublished then Key(user, e.org.value, ANNOUNCEMENT, Some("announcement"), e.entity)
    else Key(user, e.org.value, ATTENDANCE, Some("attendance_session"), e.entity)
  }

  /** The handlers return at once when the envelope lacks a tenant (or the session). */
  predicate Addressed(e: Event) {
    e.kind != NoHandler && e.org.Some? && e.school.Some? && (e.kind == AttendanceSubmitted ==> e.entity.Some?)
  }

  function Messages(e: Event, recipients: seq<Id>): seq<Key> {
    if Addressed(e) then seq(|recipients|, i requires 0 <= i < |recipients| => KeyFor(e, recipients[i])) else []
  }

  /** The rows the channel adds when these messages are sent in order. */
  function Deliver(visible: seq<Notice>, keys: seq<Key>): seq<Notice> {
    if keys == [] then []
    else
      var added, key := Deliver(visible, keys[..|keys| - 1]), keys[|keys| - 1];
      if Has(visible + added, key) then added else added + [Notice(key, true)]
  }

  function TakeKeys(keys: seq<Key>, n: nat): seq<Key> {
    if n < |keys| then keys[..n] else keys
  }

  // ------------------------------------------------------------------
  // Dispatcher
  // ------------------------------------------------------------------

  const BACKOFF_BASE_SECONDS := 30
  const BACKOFF_CAP_SECONDS := 3600

  /** The last attempt whose power of two still fits a float; beyond it the multiplication raises. */
  const LAST_BACKOFF := 1024

  function Pow2(n: nat): nat {
    if n == 0 then 1 else 2 * Pow2(n - 1)
  }

  /** The delay, where it can be computed: up to LAST_BACKOFF attempts. */
  function BackoffDelay(attempts: int): int {
    var delay := BACKOFF_BASE_SECONDS * Pow2(if attempts < 1 then 0 else attempts - 1);
    if delay < BACKOFF_CAP_SECONDS then delay else BACKOFF_CAP_SECONDS
  }

  predicate Due(e: Event, now: int) {
    (e.status == PENDING || e.status == FAILED) && (e.nextAttemptAt.None? || e.nextAttemptAt.value <= now)
  }

  /** How one run of a handler ends: it returns, or raises after some sends. */
  datatype HandlerRun = Returns | Raises(sends: nat)

  datatype Settings = Settings(worker: Id, maxAttempts: int)

  function Sent(e: Event, now: int): Event {
    e.(status := SENT, processedAt := Some(now), lockedBy := None)
  }

  function Failed(e: Event, maxAttempts: int, now: int): Event {
    var attempts := e.attempts + 1;
    e.(status := FAILED, attempts := attempts, lockedBy := None,
       nextAttemptAt := if attempts >= maxAttempts then None else Some(now + BackoffDelay(attempts)))
  }

  function Unhandled(e: Event, worker: Id, now: int): Event {
    e.(status := FAILED, attempts := e.attempts + 1, lockedBy := Some(worker),
       nextAttemptAt := Some(now + BackoffDelay(e.attempts + 1)))
  }

  /** The processing needs a backoff that cannot be computed, outside the handler's try block: it raises. */
  predicate ProcessRaises(e: Event, run: HandlerRun, cfg: Settings) {
    e.attempts + 1 > LAST_BACKOFF && (e.kind == NoHandler || (run.Raises? && e.attempts + 1 < cfg.maxAttempts))
  }

  /** The event row and the new notifications that one processing leaves when it does not raise. */
  function Process(e: Event, visible: seq<Notice>, recipients: seq<Id>, run: HandlerRun, cfg: Settings, now: int)
    : (Event, seq<Notice>)
  {
    if e.kind == NoHandler then (Unhandled(e, cfg.worker, now), [])
    else match run
      case Returns => (Sent(e, now), Deliver(visible, Messages(e, recipients)))
      case Raises(n) => (Failed(e, cfg.maxAttempts, now), Deliver(visible, TakeKeys(Messages(e, recipients), n)))
  }

  /** The world's part in processing one event. */
  datatype Plan = Plan(recipients: seq<Id>, run: HandlerRun)

  datatype Stats = Stats(processed: int, sent: int, failed: int)

  datatype Tables = Tables(events: map<Id, Event>, notices: seq<Notice>)

  /** The tables of the transaction after one processing that did not raise. */
  function Processed(t: Tables, id: Id, plan: Plan, cfg: Settings, now: int): Tables
    requires id in t.events
  {
    var (e, added) := Process(t.events[id], t.notices, plan.recipients, plan.run, cfg, now);
    Tables(t.events[id := e], t.notices + added)
  }

  /** The batch from its i-th event on, processed in order within one transaction; None if one of them raises. */
  ghost function PassFrom(t: Tables, batch: seq<Id>, plans: seq<Plan>, cfg: Settings, now: int, i: nat): Option<Tables>
    requires i <= |batch| == |plans| && forall k | 0 <= k < |batch| :: batch[k] in t.events
    decreases |batch| - i
  {
    if i == |batch| then Some(t)
    else if ProcessRaises(t.events[batch[i]], plans[i].run, cfg) then None
    else PassFrom(Processed(t, batch[i], plans[i], cfg, now), batch, plans, cfg, now, i + 1)
  }

  /** A worker's transaction: the rows it sees and writes. */
  class WorkerSession {
    var events: map<Id, Event>
    var notices: seq<Notice>
    const cfg: Settings

    constructor (events: map<Id, Event>, notices: seq<Notice>, cfg: Settings)
      ensures this.events == events && this.notices == notices && this.cfg == cfg
    {
      this.events, this.notices, this.cfg := events, notices, cfg;
    }

    /** InAppChannel.send: write the row unless one with this key exists. */
    method Send(key: Key)
      modifies this`notices
      ensures notices == old(notices) + Deliver(old(notices), [key])
    {
      assert Deliver(notices, [key][..0]) == [] && notices + [] == notices;
      if Has(notices, key) {
        return;
      }
      notices := notices + [Notice(key, true)];
    }

    /** The loop of both handlers; an exception may end it after some sends. */
    method FanOut(keys: seq<Key>, run: HandlerRun) returns (raised: bool)
      modifies this`notices
      ensures raised == run.Raises?
      ensures notices == old(notices) + Deliver(old(notices), if run.Raises? then TakeKeys(keys, run.sends) else keys)
    {
      var sent := 0;
      while sent < |keys|
        invariant sent <= |keys| && (run.Raises? ==> sent <= run.sends)
        invariant notices == old(notices) + Deliver(old(notices), keys[..sent])
      {
        if run.Raises? && run.sends == sent {
          return true;
        }
        var before := notices;
        Send(keys[sent]);
        SendOne(old(notices), keys[..sent], keys[sent]);
        assert keys[..sent + 1] == keys[..sent] + [keys[sent]];
        sent := sent + 1;
      }
      assert keys[..|keys|] == keys;
      raised := run.Raises?;
    }

    /** When it raises, whatever was written so far is left to the rollback. */
    method ProcessEvent(id: Id, plan: Plan, now: int) returns (raised: bool)
      requires id in events
      modifies this
      ensures raised <==> ProcessRaises(old(events)[id], plan.run, cfg)
      ensures !raised ==> Tables(events, notices) == Processed(Tables(old(events), old(notices)), id, plan, cfg, now)
    {
      var e := events[id].(status := PROCESSING, lockedBy := Some(cfg.worker));
      if e.kind == NoHandler {
        e := e.(status := FAILED, attempts := e.attempts + 1);
        if e.attempts > LAST_BACKOFF {
          return true;
        }
        e := e.(nextAttemptAt := Some(now + BackoffDelay(e.attempts)));
        assert notices + [] == notices;
      } else {
        var failed := FanOut(Messages(e, plan.recipients), plan.run);
        assert Messages(e, plan.recipients) == Messages(events[id], plan.recipients);
        if !failed {
          e := e.(status := SENT, processedAt := Some(now), lockedBy := None);
        } else {
          e := e.(attempts := e.attempts + 1, lockedBy := None);
          if e.attempts >= cfg.maxAttempts {
            e := e.(status := FAILED, nextAttemptAt := None);
          } else if e.attempts > LAST_BACKOFF {
            return true;
          } else {
            e := e.(status := FAILED, nextAttemptAt := Some(now + BackoffDelay(e.attempts)));
          }
        }
      }
      events := events[id := e];
      raised := false;
    }

    /** The loop of one pass; the first exception leaves it. */
    method ProcessBatch(batch: seq<Id>, plans: seq<Plan>, now: int) returns (raised: bool, count: Stats)
      requires |batch| == |plans| && forall k | 0 <= k < |batch| :: batch[k] in events
      modifies this
      ensures PassFrom(Tables(old(events), old(notices)), batch, plans, cfg, now, 0)
           == if raised then None else Some(Tables(events, notices))
      ensures !raised ==> count == Tally(old(events), batch, plans, |batch|)
    {
      var initial := Tables(events, notices);
      count := Stats(0, 0, 0);
      for i := 0 to |batch|
        invariant SameKinds(initial.events, events)
        invariant PassFrom(initial, batch, plans, cfg, now, 0)
               == PassFrom(Tables(events, notices), batch, plans, cfg, now, i)
        invariant count == Tally(initial.events, batch, plans, i)
      {
        OneTurn(initial.events, Tables(events, notices), batch, plans, cfg, now, i);
        raised := ProcessEvent(batch[i], plans[i], now);
        if raised {
          return;
        }
        count := CountOne(count, events[batch[i]].status == SENT);
      }
      raised := false;
    }

    /** One pass in one transaction: an exception rolls all of it back. */
    method RunOnce(batch: seq<Id>, plans: seq<Plan>, now: int) returns (stats: Option<Stats>)
      requires |batch| == |plans| && forall k | 0 <= k < |batch| :: batch[k] in events
      modifies this
      ensures match PassFrom(Tables(old(events), old(notices)), batch, plans, cfg, now, 0)
        case None => stats == None && events == old(events) && notices == old(notices)
        case Some(after) =>
          Tables(events, notices) == after && stats == Some(Tally(old(events), batch, plans, |batch|))
    {
      var committedEvents, committedNotices := events, notices;
      var raised, count := ProcessBatch(batch, plans, now);
      if raised {
        events, notices := committedEvents, committedNotices;
        return None;
      }
      stats := Some(count);
    }
  }

  ghost predicate SameKinds(a: map<Id, Event>, b: map<Id, Event>) {
    a.Keys == b.Keys && forall id | id in a :: b[id].kind == a[id].kind
  }

  predicate Succeeds(e: Event, plan: Plan) {
    e.kind != NoHandler && plan.run == Returns
  }

  function CountOne(count: Stats, sent: bool): Stats {
    if sent then count.(processed := count.processed + 1, sent := count.sent + 1)
    else count.(processed := count.processed + 1, failed := count.failed + 1)
  }

  /** The first n events of a pass, those sent whose handler returns. */
  ghost function Tally(events: map<Id, Event>, batch: seq<Id>, plans: seq<Plan>, n: nat): Stats
    requires n <= |batch| == |plans| && forall k | 0 <= k < |batch| :: batch[k] in events
  {
    if n == 0 then Stats(0, 0, 0)
    else CountOne(Tally(events, batch, plans, n - 1), Succeeds(events[batch[n - 1]], plans[n - 1]))
  }

  lemma {:induction false} TallyAddsUp(events: map<Id, Event>, batch: seq<Id>, plans: seq<Plan>, n: nat)
    requires n <= |batch| == |plans| && forall k | 0 <= k < |batch| :: batch[k] in events
    ensures var count := Tally(events, batch, plans, n); count.processed == n == count.sent + count.failed
  {
    if n > 0 { TallyAddsUp(events, batch, plans, n - 1); }
  }

  lemma SentIffReturned(e: Event, visible: seq<Notice>, plan: Plan, cfg: Settings, now: int)
    ensures var after := Process(e, visible, plan.recipients, plan.run, cfg, now).0;
      after.kind == e.kind && (after.status == SENT <==> Succeeds(e, plan))
  {
  }

  /** One turn of the loop: the pass ends, or goes on from the new tables, and the event is counted by its status. */
  lemma OneTurn(initial: map<Id, Event>, t: Tables, batch: seq<Id>, plans: seq<Plan>, cfg: Settings, now: int, i: nat)
    requires SameKinds(initial, t.events) && i < |batch| == |plans|
    requires forall k | 0 <= k < |batch| :: batch[k] in t.events
    ensures var t' := Processed(t, batch[i], plans[i], cfg, now);
      && SameKinds(initial, t'.events)
      && PassFrom(t, batch, plans, cfg, now, i)
           == (if ProcessRaises(t.events[batch[i]], plans[i].run, cfg) then None
               else PassFrom(t', batch, plans, cfg, now, i + 1))
      && Tally(initial, batch, plans, i + 1)
           == CountOne(Tally(initial, batch, plans, i), t'.events[batch[i]].status == SENT)
  {
    SentIffReturned(t.events[batch[i]], t.notices, plans[i], cfg, now);
  }

  lemma SendOne(visible: seq<Notice>, keys: seq<Key>, key: Key)
    ensures visible + Deliver(visible, keys) + Deliver(visible + Deliver(visible, keys), [key])
         == visible + Deliver(visible, keys + [key])
  {
    var mid := visible + Deliver(visible, keys);
    assert Deliver(mid, [key][..0]) == [] && mid + [] == mid;
    assert (keys + [key])[..|keys|] == keys;
  }

  // ------------------------------------------------------------------
  // What a delivery and a failure guarantee
  // ------------------------------------------------------------------

  /** Among notifications written by the dispatcher, no two share a key. */
  ghost predicate OncePerKey(notices: seq<Notice>) {
    forall i, j | 0 <= i < j < |notices| && notices[i].fromDispatcher && notices[j].fromDispatcher ::
      notices[i].key != notices[j].key
  }

  /** Sending reaches every key, repeats none, and adds only keys that were asked for. */
  lemma {:induction false} DeliverIsExact(visible: seq<Notice>, keys: seq<Key>)
    ensures forall k | k in keys :: Has(visible + Deliver(visible, keys), k)
    ensures OncePerKey(visible) ==> OncePerKey(visible + Deliver(visible, keys))
    ensures forall n | n in Deliver(visible, keys) :: n.fromDispatcher && n.key in keys && !Has(visible, n.key)
  {
    if keys != [] {
      var init, key := keys[..|keys| - 1], keys[|keys| - 1];
      DeliverIsExact(visible, init);
      var before, after := visible + Deliver(visible, init), visible + Deliver(visible, keys);
      assert keys == init + [key];
      if Has(before, key) {
        assert after == before;
      } else {
        assert after == before + [Notice(key, true)];
        assert Has(after, key) by { assert Notice(key, true) in after; }
        forall k | k in init ensures Has(after, k) {
          var n :| n in before && n.key == k;
          assert n in after;
        }
        forall i | 0 <= i < |before| ensures before[i].key != key { assert before[i] in before; }
        forall n | n in visible ensures n.key != key { assert n in before; }
      }
    }
  }

  /** Sending the same messages again adds nothing: a retried handler is idempotent. */
  lemma {:induction false} DeliverTwice(visible: seq<Notice>, keys: seq<Key>)
    requires forall k | k in keys :: Has(visible, k)
    ensures Deliver(visible, keys) == []
  {
    if keys != [] {
      DeliverTwice(visible, keys[..|keys| - 1]);
      assert visible + [] == visible;
    }
  }

  lemma {:induction false} PowGrows(m: nat, n: nat)
    requires m <= n
    ensures 1 <= Pow2(m) <= Pow2(n)
  {
    if m < n { PowGrows(m, n - 1); } else if m > 0 { PowGrows(m - 1, m - 1); }
  }

  /**
   Backoff starts at 30 seconds, never shrinks, doubles until the cap and stays
   there as long as it can be computed.
   */
  lemma BackoffShape(a: int, b: int)
    requires a <= b <= LAST_BACKOFF
    ensures BACKOFF_BASE_SECONDS <= BackoffDelay(a) <= BackoffDelay(b) <= BACKOFF_CAP_SECONDS
    ensures a <= 1 ==> BackoffDelay(a) == 30
    ensures 1 <= a <= 6 ==> BackoffDelay(a + 1) == 2 * BackoffDelay(a)
    ensures a >= 8 ==> BackoffDelay(a) == BACKOFF_CAP_SECONDS
  {
    PowGrows(0, if a < 1 then 0 else a - 1);
    PowGrows(if a < 1 then 0 else a - 1, if b < 1 then 0 else b - 1);
    if a >= 8 {
      PowGrows(7, a - 1);
      assert Pow2(7) == 128;
    }
    assert Pow2(1) == 2 && Pow2(2) == 4 && Pow2(3) == 8 && Pow2(4) == 16 && Pow2(5) == 32 && Pow2(6) == 64;
  }

  /**
   After a handler failure the event waits out its backoff exactly when it was
   still short of its last attempt. At the limit its next attempt is cleared,
   which the fetch takes for "due now": a dead letter is selected again at once.
   */
  lemma HeldBackIff(e: Event, visible: seq<Notice>, recipients: seq<Id>, sends: nat, cfg: Settings, now: int)
    requires e.kind != NoHandler && !ProcessRaises(e, Raises(sends), cfg)
    ensures var failed := Process(e, visible, recipients, Raises(sends), cfg, now).0;
      (forall later | later < now + BackoffDelay(e.attempts + 1) :: !Due(failed, later))
      <==> e.attempts + 1 < cfg.maxAttempts
  {
    var failed := Process(e, visible, recipients, Raises(sends), cfg, now).0;
    if e.attempts + 1 >= cfg.maxAttempts {
      PowGrows(0, e.attempts);
      assert Due(failed, now) && BackoffDelay(e.attempts + 1) > 0;
    }
  }

  ghost function Retried(e: Event, cfg: Settings, now: int, n: nat): Event {
    if n == 0 then e else Process(Retried(e, cfg, now, n - 1), [], [], Raises(0), cfg, now).0
  }

  /** So attempts are not bounded: a handler that keeps failing is retried without end past the limit. */
  lemma {:induction false} AttemptsAreUnbounded(e: Event, cfg: Settings, now: int, n: nat)
    requires e.kind != NoHandler && e.status == FAILED && e.attempts >= cfg.maxAttempts && e.nextAttemptAt.None?
    ensures var r := Retried(e, cfg, now, n);
      Due(r, now) && r.attempts == e.attempts + n && r.kind == e.kind && r.status == FAILED
  {
    if n > 0 { AttemptsAreUnbounded(e, cfg, now, n - 1); }
  }

  /**
   Without a handler an event is not given up after a number of attempts: it
   gets a later one and keeps its lock mark, as long as a backoff can be
   computed. Once it cannot, processing the event raises whatever the pass does.
   */
  lemma UnhandledGetsLaterAttemptIff(e: Event, visible: seq<Notice>, recipients: seq<Id>, run: HandlerRun,
                                     cfg: Settings, now: int)
    requires e.kind == NoHandler
    ensures ProcessRaises(e, run, cfg) <==> e.attempts + 1 > LAST_BACKOFF
    ensures var (after, added) := Process(e, visible, recipients, run, cfg, now);
      !ProcessRaises(e, run, cfg) ==>
        && added == [] && after.status == FAILED && after.lockedBy == Some(cfg.worker)
        && !Due(after, now) && Due(after, now + BackoffDelay(after.attempts))
        && now + BACKOFF_BASE_SECONDS <= after.nextAttemptAt.value <= now + BACKOFF_CAP_SECONDS
  {
    if e.attempts + 1 <= LAST_BACKOFF { BackoffShape(e.attempts + 1, e.attempts + 1); }
  }

  /** The row after n passes, one per hour, over an event without a handler. */
  ghost function Unheard(e: Event, cfg: Settings, now: int, n: nat): Event {
    if n == 0 then e else Unhandled(Unheard(e, cfg, now, n - 1), cfg.worker, now + BACKOFF_CAP_SECONDS * (n - 1))
  }

  /** Every such event gets there: it is due again each hour until its 1024th attempt, and then the pass raises. */
  lemma {:induction false} UnheardRaisesIff(e: Event, cfg: Settings, now: int, run: HandlerRun, n: nat)
    requires e.kind == NoHandler && Due(e, now) && e.attempts + n <= LAST_BACKOFF
    ensures var r := Unheard(e, cfg, now, n);
      && r.kind == NoHandler && r.attempts == e.attempts + n && Due(r, now + BACKOFF_CAP_SECONDS * n)
      && (ProcessRaises(r, run, cfg) <==> n == LAST_BACKOFF - e.attempts)
  {
    if n > 0 {
      UnheardRaisesIff(e, cfg, now, run, n - 1);
      BackoffShape(e.attempts + n, e.attempts + n);
    }
  }

  /**
   A pass over rows, one of which is such an event, ends in an exception
   wherever it stands and whatever the others do.
   */
  lemma {:induction false} UnheardEndsPass(t: Tables, batch: seq<Id>, plans: seq<Plan>, cfg: Settings, now: int,
                                           i: nat, at: nat)
    requires i <= at < |batch| == |plans| && forall k | 0 <= k < |batch| :: batch[k] in t.events
    requires t.events[batch[at]].kind == NoHandler && t.events[batch[at]].attempts >= LAST_BACKOFF
    ensures PassFrom(t, batch, plans, cfg, now, i).None?
    decreases at - i
  {
    if i < at && !ProcessRaises(t.events[batch[i]], plans[i].run, cfg) {
      SentIffReturned(t.events[batch[i]], t.notices, plans[i], cfg, now);
      UnheardEndsPass(Processed(t, batch[i], plans[i], cfg, now), batch, plans, cfg, now, i + 1, at);
    }
  }

  /**
   Of the ways a processing can fail without raising, it cleans up after itself
   exactly if the event has a handler: then the lock mark is released, and at
   the limit the next attempt is cleared.
   */
  lemma FailureCleansUpIff(e: Event, visible: seq<Notice>, recipients: seq<Id>, run: HandlerRun, cfg: Settings,
                           now: int)
    requires !ProcessRaises(e, run, cfg) && Process(e, visible, recipients, run, cfg, now).0.status == FAILED
    ensures var after := Process(e, visible, recipients, run, cfg, now).0;
      && (after.lockedBy.None? <==> e.kind != NoHandler)
      && (after.nextAttemptAt.None? <==> e.kind != NoHandler && after.attempts >= cfg.maxAttempts)
      && ((after.lockedBy.None? && (after.attempts >= cfg.maxAttempts ==> after.nextAttemptAt.None?))
          <==> e.kind != NoHandler)
  {
  }

  // ------------------------------------------------------------------
  // Who is told, and what one processing leaves
  // ------------------------------------------------------------------

  /** The event names an organization and a school, and a session if it is about attendance. */
  predicate HasAudience(e: Event) {
    && e.org.Some? && e.school.Some?
    && (e.kind == AnnouncementPublished || (e.kind == AttendanceSubmitted && e.entity.Some?))
  }

  /** A user has a notification about this event: for announcements of one type, for attendance of another. */
  ghost predicate Told(notices: seq<Notice>, e: Event, user: Id)
    requires e.org.Some?
  {
    exists n | n in notices ::
      n.key == if e.kind == AnnouncementPublished
               then Key(user, e.org.value, ANNOUNCEMENT, Some("announcement"), e.entity)
               else Key(user, e.org.value, ATTENDANCE, Some("attendance_session"), e.entity)
  }

  lemma MessagesAre(e: Event, recipients: seq<Id>, i: nat)
    requires i < |recipients|
    ensures HasAudience(e) ==> |Messages(e, recipients)| == |recipients|
    ensures HasAudience(e) && e.kind == AnnouncementPublished ==>
              Messages(e, recipients)[i]
              == Key(recipients[i], e.org.value, ANNOUNCEMENT, Some("announcement"), e.entity)
    ensures HasAudience(e) && e.kind == AttendanceSubmitted ==>
              Messages(e, recipients)[i]
              == Key(recipients[i], e.org.value, ATTENDANCE, Some("attendance_session"), e.entity)
    ensures !HasAudience(e) ==> Messages(e, recipients) == []
  {
  }

  /** A handler that returns has told every recipient, one that raises after n sends the first n of them. */
  lemma HandlerTells(e: Event, visible: seq<Notice>, recipients: seq<Id>, run: HandlerRun, cfg: Settings, now: int,
                     i: nat)
    requires HasAudience(e) && i < |recipients| && (run.Raises? ==> i < run.sends)
    ensures Told(visible + Process(e, visible, recipients, run, cfg, now).1, e, recipients[i])
  {
    var keys := if run.Raises? then TakeKeys(Messages(e, recipients), run.sends) else Messages(e, recipients);
    MessagesAre(e, recipients, i);
    DeliverIsExact(visible, keys);
    assert keys[i] in keys;
  }

  /** Nobody else is told, and without an audience nobody is. */
  lemma OnlyRecipientsAreTold(e: Event, visible: seq<Notice>, recipients: seq<Id>, run: HandlerRun, cfg: Settings,
                              now: int, n: Notice)
    requires n in Process(e, visible, recipients, run, cfg, now).1
    ensures HasAudience(e) && n.fromDispatcher && n.key.user in recipients && n.key.org == e.org.value
    ensures n.key.entity == e.entity && !exists old' | old' in visible :: old'.key == n.key
    ensures run.Raises? && run.sends < |recipients| ==> n.key.user in recipients[..run.sends]
  {
    if e.kind != NoHandler {
      var messages := Messages(e, recipients);
      var keys := if run.Raises? then TakeKeys(messages, run.sends) else messages;
      DeliverIsExact(visible, keys);
      var i :| 0 <= i < |messages| && messages[i] == n.key;
      if i < |recipients| { MessagesAre(e, recipients, i); }
      if run.Raises? && run.sends < |recipients| {
        var k :| 0 <= k < |keys| && keys[k] == n.key;
        MessagesAre(e, recipients, k);
        assert recipients[..run.sends][k] == n.key.user;
      }
    }
  }

  /** What the row says after a processing that does not raise, whichever of the four ways it goes. */
  lemma ProcessLeaves(e: Event, visible: seq<Notice>, recipients: seq<Id>, run: HandlerRun, cfg: Settings, now: int)
    requires !ProcessRaises(e, run, cfg)
    ensures var after := Process(e, visible, recipients, run, cfg, now).0;
      && after.(status := e.status, attempts := e.attempts, nextAttemptAt := e.nextAttemptAt,
                processedAt := e.processedAt, lockedBy := e.lockedBy) == e
      && (after.status == SENT <==> e.kind != NoHandler && run.Returns?)
      && (after.status == SENT ==>
            after.processedAt == Some(now) && after.lockedBy.None? && after.attempts == e.attempts
            && after.nextAttemptAt == e.nextAttemptAt)
      && (after.status != SENT ==>
            && after.status == FAILED && after.attempts == e.attempts + 1 && after.processedAt == e.processedAt
            && after.nextAttemptAt == (if e.kind != NoHandler && e.attempts + 1 >= cfg.maxAttempts then None
                                       else Some(now + BackoffDelay(e.attempts + 1)))
            && after.lockedBy == (if e.kind == NoHandler then Some(cfg.worker) else None))
  {
  }

  /** An event that was just enqueued can be fetched at once; one that is SENT or being processed never can. */
  lemma DueIsExact(kind: EventKind, org: Option<Id>, school: Option<Id>, entity: Option<Id>, now: int, later: int,
                   e: Event)
    ensures var new' := NewEvent(kind, org, school, entity, now);
      && new'.status == PENDING && new'.attempts == 0 && new'.lockedBy.None? && Due(new', later)
    ensures Due(e, later)
       <==> e.status != SENT && e.status != PROCESSING && !(e.nextAttemptAt.Some? && later < e.nextAttemptAt.value)
  {
  }

  /** A pass over one row raises exactly if the row has had 1024 attempts and needs a delay for one more. */
  lemma OneRowRaisesIff(t: Tables, id: Id, plan: Plan, cfg: Settings, now: int)
    requires id in t.events
    ensures PassFrom(t, [id], [plan], cfg, now, 0).None?
       <==> && t.events[id].attempts >= 1024
            && (t.events[id].kind == NoHandler
                || (plan.run.Raises? && t.events[id].attempts + 1 < cfg.maxAttempts))
  {
    if !ProcessRaises(t.events[id], plan.run, cfg) {
      assert PassFrom(Processed(t, id, plan, cfg, now), [id], [plan], cfg, now, 1).Some?;
    }
  }

  /** As long as no row has had 1024 attempts a pass over distinct rows commits, whatever the handlers do. */
  lemma {:induction false} PassCommits(t: Tables, batch: seq<Id>, plans: seq<Plan>, cfg: Settings, now: int, i: nat)
    requires i <= |batch| == |plans| && forall k | 0 <= k < |batch| :: batch[k] in t.events
    requires forall k, m | 0 <= k < m < |batch| :: batch[k] != batch[m]
    requires forall k | i <= k < |batch| :: t.events[batch[k]].attempts < 1024
    ensures PassFrom(t, batch, plans, cfg, now, i).Some?
    decreases |batch| - i
  {
    if i < |batch| {
      var t' := Processed(t, batch[i], plans[i], cfg, now);
      assert forall k | i < k < |batch| :: t'.events[batch[k]] == t.events[batch[k]];
      PassCommits(t', batch, plans, cfg, now, i + 1);
    }
  }
}
