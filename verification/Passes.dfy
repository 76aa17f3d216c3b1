/**
 What one pass of a worker comes to: a handler that returned reaches its
 recipients, a worker on its own runs exactly run_once, and an event without a
 handler in the end stops every pass it is in.
 */
module Passes {
  import opened Prelude
  import opened Outbox
  import opened Delivery

  // ------------------------------------------------------------------
  // From a handler that returned to its recipients
  // ------------------------------------------------------------------

  /** What a transaction owes for one event: it goes out as SENT, with these messages. */
  predicate Owes(t: Txn, id: Id, keys: seq<Key>) {
    id in t.writes && t.writes[id].status == SENT && id in t.delivered && t.delivered[id] == keys
  }

  lemma ReturnIsOwed(s: System, w: Id, plan: Plan, maxAttempts: int)
    requires CanHandle(s, w) && plan.run.Returns?
    requires s.events[s.open[w].batch[s.open[w].done]].kind != NoHandler
    ensures var id := s.open[w].batch[s.open[w].done];
      var after := Step(s, Handle(w, plan), maxAttempts);
      w in after.open && Owes(after.open[w], id, Messages(s.events[id], plan.recipients))
  {
  }

  /** The worker's own step keeps what its transaction owes, unless it ends the transaction. */
  lemma OwnStepOwes(s: System, w: Id, plan: Plan, maxAttempts: int, id: Id, keys: seq<Key>)
    requires Holding(s, w, id, keys) && HoldsRows(s.events, s.open[w])
    ensures var after := Step(s, Handle(w, plan), maxAttempts); w in after.open ==> Holding(after, w, id, keys)
  {
    RaiseEndsTxn(s, w, plan, maxAttempts);
    if CanHandle(s, w) ==> !HandleRaises(s, w, plan, maxAttempts) {
      HandleStillOwes(s, w, plan, maxAttempts, id, keys);
    }
  }

  lemma RaiseEndsTxn(s: System, w: Id, plan: Plan, maxAttempts: int)
    requires w in s.open
    ensures w in Step(s, Handle(w, plan), maxAttempts).open
       <==> (CanHandle(s, w) ==> !HandleRaises(s, w, plan, maxAttempts))
  {
  }

  lemma HandleStillOwes(s: System, w: Id, plan: Plan, maxAttempts: int, id: Id, keys: seq<Key>)
    requires w in s.open && HoldsRows(s.events, s.open[w]) && Owes(s.open[w], id, keys)
    requires CanHandle(s, w) ==> !HandleRaises(s, w, plan, maxAttempts)
    ensures var after := Step(s, Handle(w, plan), maxAttempts); w in after.open && Owes(after.open[w], id, keys)
  {
    if CanHandle(s, w) {
      AdvanceStillOwes(s.events, s.notices, s.now, s.open[w], plan, Settings(w, maxAttempts), id, keys);
    }
  }

  lemma AdvanceStillOwes(events: map<Id, Event>, notices: seq<Notice>, now: int, t: Txn, plan: Plan, cfg: Settings,
                         id: Id, keys: seq<Key>)
    requires HoldsRows(events, t) && t.done < |t.batch| && Owes(t, id, keys)
    ensures Owes(Advance(events, notices, now, t, plan, cfg), id, keys)
  {
    assert t.batch[t.done] !in t.writes;
  }

  lemma OthersLeaveOpen(s: System, a: Action, maxAttempts: int, w: Id)
    requires w in s.open && w in Step(s, a, maxAttempts).open && !(a.Handle? && a.worker == w)
    ensures Step(s, a, maxAttempts).open[w] == s.open[w]
  {
  }

  predicate Holding(s: System, w: Id, id: Id, keys: seq<Key>) {
    w in s.open && Owes(s.open[w], id, keys)
  }

  /** The transaction of worker w is open at every point of the run. */
  ghost predicate StaysOpen(s: System, actions: seq<Action>, maxAttempts: int, w: Id) {
    forall k | 0 <= k <= |actions| :: w in Run(s, actions[..k], maxAttempts).open
  }

  lemma {:induction false} OwedThroughRun(s: System, actions: seq<Action>, maxAttempts: int, w: Id, id: Id,
                                          keys: seq<Key>)
    requires Inv(s) && Holding(s, w, id, keys) && StaysOpen(s, actions, maxAttempts, w)
    ensures Holding(Run(s, actions, maxAttempts), w, id, keys)
  {
    if actions != [] {
      var init, last := actions[..|actions| - 1], actions[|actions| - 1];
      StaysOpenInit(s, actions, maxAttempts, w);
      OwedThroughRun(s, init, maxAttempts, w, id, keys);
      RunKeepsInv(s, init, maxAttempts);
      if last.Handle? && last.worker == w {
        RowsAreHeld(Run(s, init, maxAttempts), w);
        OwnStepOwes(Run(s, init, maxAttempts), w, last.plan, maxAttempts, id, keys);
      } else {
        OthersLeaveOpen(Run(s, init, maxAttempts), last, maxAttempts, w);
      }
    }
  }

  lemma StaysOpenInit(s: System, actions: seq<Action>, maxAttempts: int, w: Id)
    requires actions != [] && StaysOpen(s, actions, maxAttempts, w)
    ensures StaysOpen(s, actions[..|actions| - 1], maxAttempts, w) && w in Run(s, actions, maxAttempts).open
  {
    var init := actions[..|actions| - 1];
    forall k | 0 <= k <= |init| ensures w in Run(s, init[..k], maxAttempts).open {
      assert init[..k] == actions[..k];
    }
    assert actions[..|actions|] == actions;
  }

  lemma DeliveredThroughStep(s: System, a: Action, maxAttempts: int, id: Id)
    requires Inv(s) && id in s.delivered
    ensures var after := Step(s, a, maxAttempts); id in after.delivered && after.delivered[id] == s.delivered[id]
  {
    if a.Commit? {
      if CanCommit(s, a.worker) {
        DeliveredIsSent(s, id);
        CommitKeepsDelivered(s, a.worker, id);
      }
    } else {
      OthersKeepDelivered(s, a, maxAttempts);
    }
  }

  lemma CommitKeepsDelivered(s: System, w: Id, id: Id)
    requires Inv(s) && w in s.open && id in s.delivered && id in s.events && s.events[id].status == SENT
    ensures CommitTxn(s, w).delivered[id] == s.delivered[id]
  {
    assert TxnOk(s.events, s.notices, s.open[w]);
    SentIsNotHeld(s.events, s.open[w], id);
  }

  lemma OthersKeepDelivered(s: System, a: Action, maxAttempts: int)
    requires !a.Commit?
    ensures Step(s, a, maxAttempts).delivered == s.delivered
  {
  }

  lemma {:induction false} DeliveredThroughRun(s: System, actions: seq<Action>, maxAttempts: int, id: Id)
    requires Inv(s) && id in s.delivered
    ensures var after := Run(s, actions, maxAttempts); id in after.delivered && after.delivered[id] == s.delivered[id]
  {
    if actions != [] {
      var init := actions[..|actions| - 1];
      DeliveredThroughRun(s, init, maxAttempts, id);
      RunKeepsInv(s, init, maxAttempts);
      DeliveredThroughStep(Run(s, init, maxAttempts), actions[|actions| - 1], maxAttempts, id);
    }
  }

  /** Where a run stands that starts by handling one event and goes on with other steps. */
  ghost function AfterHandling(s: System, w: Id, plan: Plan, during: seq<Action>, maxAttempts: int): System {
    Run(Step(s, Handle(w, plan), maxAttempts), during, maxAttempts)
  }

  lemma OwedAfterHandling(s: System, w: Id, plan: Plan, during: seq<Action>, maxAttempts: int)
    requires Inv(s) && CanHandle(s, w) && plan.run.Returns?
    requires s.events[s.open[w].batch[s.open[w].done]].kind != NoHandler
    ensures var id := s.open[w].batch[s.open[w].done];
      var after := AfterHandling(s, w, plan, during, maxAttempts);
      && Inv(after)
      && (StaysOpen(Step(s, Handle(w, plan), maxAttempts), during, maxAttempts, w) ==>
            w in after.open && Owes(after.open[w], id, Messages(s.events[id], plan.recipients)))
  {
    var id := s.open[w].batch[s.open[w].done];
    var handled := Step(s, Handle(w, plan), maxAttempts);
    StepKeepsInv(s, Handle(w, plan), maxAttempts);
    ReturnIsOwed(s, w, plan, maxAttempts);
    if StaysOpen(handled, during, maxAttempts, w) {
      OwedThroughRun(handled, during, maxAttempts, w, id, Messages(s.events[id], plan.recipients));
    }
    RunKeepsInv(handled, during, maxAttempts);
  }

  /** The event is SENT and the user has the notification it is about. */
  ghost predicate SentAndTold(s: System, id: Id, e: Event, user: Id)
    requires e.org.Some?
  {
    && id in s.events && s.events[id].status == SENT
    && (e.kind == AnnouncementPublished ==>
          exists n | n in s.notices ::
            n.key == Key(user, e.org.value, ANNOUNCEMENT, Some("announcement"), e.entity))
    && (e.kind == AttendanceSubmitted ==>
          exists n | n in s.notices ::
            n.key == Key(user, e.org.value, ATTENDANCE, Some("attendance_session"), e.entity))
  }

  /**
   A handler that returns, in a transaction that later commits, has notified
   every recipient it was given, if its event names an organization, a school
   and, for attendance, a session: whatever happens in between and afterwards,
   the event is SENT and each of them has the notification.
   */
  lemma RecipientsAreNotified(s: System, w: Id, plan: Plan, during: seq<Action>, later: seq<Action>, maxAttempts: int,
                              user: Id)
    requires Inv(s) && CanHandle(s, w) && plan.run.Returns? && user in plan.recipients
    requires var e := s.events[s.open[w].batch[s.open[w].done]];
      && e.org.Some? && e.school.Some?
      && (e.kind == AnnouncementPublished || (e.kind == AttendanceSubmitted && e.entity.Some?))
    ensures var id := s.open[w].batch[s.open[w].done];
      var handled := AfterHandling(s, w, plan, during, maxAttempts);
      StaysOpen(Step(s, Handle(w, plan), maxAttempts), during, maxAttempts, w) && CanCommit(handled, w) ==>
        SentAndTold(Run(CommitTxn(handled, w), later, maxAttempts), id, s.events[id], user)
  {
    var id := s.open[w].batch[s.open[w].done];
    var handled := AfterHandling(s, w, plan, during, maxAttempts);
    OwedAfterHandling(s, w, plan, during, maxAttempts);
    if StaysOpen(Step(s, Handle(w, plan), maxAttempts), during, maxAttempts, w) && CanCommit(handled, w) {
      PaidInTheEnd(handled, w, id, Messages(s.events[id], plan.recipients), later, maxAttempts);
      ReachedIsTold(Run(CommitTxn(handled, w), later, maxAttempts).notices, s.events[id], plan.recipients, user);
    }
  }

  lemma ReachedIsTold(notices: seq<Notice>, e: Event, recipients: seq<Id>, user: Id)
    requires HasAudience(e) && user in recipients && AllReached(notices, Messages(e, recipients))
    ensures Told(notices, e, user)
  {
    var i :| 0 <= i < |recipients| && recipients[i] == user;
    MessagesAre(e, recipients, i);
    assert Has(notices, Messages(e, recipients)[i]);
  }

  lemma PaidInTheEnd(s: System, w: Id, id: Id, keys: seq<Key>, later: seq<Action>, maxAttempts: int)
    requires Inv(s) && CanCommit(s, w) && Owes(s.open[w], id, keys)
    ensures var end := Run(CommitTxn(s, w), later, maxAttempts);
      id in end.events && end.events[id].status == SENT && AllReached(end.notices, keys)
  {
    CommitPays(s, w, id, keys);
    CommitKeepsInv(s, w);
    DeliveredThroughRun(CommitTxn(s, w), later, maxAttempts, id);
    RunKeepsInv(CommitTxn(s, w), later, maxAttempts);
    DeliveredIsSent(Run(CommitTxn(s, w), later, maxAttempts), id);
  }

  lemma CommitPays(s: System, w: Id, id: Id, keys: seq<Key>)
    requires CanCommit(s, w) && Owes(s.open[w], id, keys)
    ensures id in CommitTxn(s, w).delivered && CommitTxn(s, w).delivered[id] == keys
  {
  }

  lemma DeliveredIsSent(s: System, id: Id)
    requires Inv(s) && id in s.delivered
    ensures id in s.events && s.events[id].status == SENT && AllReached(s.notices, s.delivered[id])
  {
    assert DeliveryOk(s);
  }

  // ------------------------------------------------------------------
  // A worker on its own runs exactly RunOnce
  // ------------------------------------------------------------------

  /** The transaction of a worker after handling the first n rows of its batch, undisturbed. */
  ghost function Pass(s: System, batch: seq<Id>, plans: seq<Plan>, cfg: Settings, n: nat): Txn
    requires n <= |batch| == |plans| && forall i | 0 <= i < |batch| :: batch[i] in s.events
    ensures Pass(s, batch, plans, cfg, n).batch == batch && Pass(s, batch, plans, cfg, n).done == n
  {
    if n == 0 then Txn(batch, 0, map[], [], map[])
    else Advance(s.events, s.notices, s.now, Pass(s, batch, plans, cfg, n - 1), plans[n - 1], cfg)
  }

  /** The tables as a worker sees them from inside its transaction. */
  function Seen(s: System, t: Txn): Tables {
    Tables(s.events + t.writes, s.notices + t.notices)
  }

  /** None of the first n rows raises. */
  ghost predicate NoneRaises(s: System, batch: seq<Id>, plans: seq<Plan>, cfg: Settings, n: nat)
    requires n <= |batch| == |plans| && forall i | 0 <= i < |batch| :: batch[i] in s.events
  {
    forall i | 0 <= i < n :: !ProcessRaises(s.events[batch[i]], plans[i].run, cfg)
  }

  lemma AdvanceIsProcessed(s: System, t: Txn, plan: Plan, cfg: Settings)
    requires t.done < |t.batch| && t.batch[t.done] in s.events && t.batch[t.done] !in t.writes
    ensures var t' := Advance(s.events, s.notices, s.now, t, plan, cfg);
      var id := t.batch[t.done];
      && Seen(s, t).events[id] == s.events[id] && t'.writes.Keys == t.writes.Keys + {id}
      && Seen(s, t') == Processed(Seen(s, t), id, plan, cfg, s.now)
  {
    var t', id := Advance(s.events, s.notices, s.now, t, plan, cfg), t.batch[t.done];
    var (e, added) := Process(s.events[id], s.notices + t.notices, plan.recipients, plan.run, cfg, s.now);
    assert s.events + t.writes[id := e] == (s.events + t.writes)[id := e];
    assert s.notices + (t.notices + added) == s.notices + t.notices + added;
  }

  /** The pass from the start is the pass from where the transaction has got to. */
  lemma {:induction false} PassGoesOn(s: System, batch: seq<Id>, plans: seq<Plan>, cfg: Settings, n: nat)
    requires n <= |batch| == |plans| && forall i | 0 <= i < |batch| :: batch[i] in s.events
    requires forall i, j | 0 <= i < j < |batch| :: batch[i] != batch[j]
    requires NoneRaises(s, batch, plans, cfg, n)
    ensures var t := Pass(s, batch, plans, cfg, n);
      && (forall i | n <= i < |batch| :: batch[i] !in t.writes)
      && PassFrom(Tables(s.events, s.notices), batch, plans, cfg, s.now, 0)
           == PassFrom(Seen(s, t), batch, plans, cfg, s.now, n)
  {
    if n == 0 {
      assert s.events + map[] == s.events && s.notices + [] == s.notices;
    } else {
      PassGoesOn(s, batch, plans, cfg, n - 1);
      AdvanceIsProcessed(s, Pass(s, batch, plans, cfg, n - 1), plans[n - 1], cfg);
    }
  }

  lemma {:induction false} PassEnds(s: System, batch: seq<Id>, plans: seq<Plan>, cfg: Settings, n: nat)
    requires n <= |batch| == |plans| && forall i | 0 <= i < |batch| :: batch[i] in s.events
    requires forall i, j | 0 <= i < j < |batch| :: batch[i] != batch[j]
    requires !NoneRaises(s, batch, plans, cfg, n)
    ensures PassFrom(Tables(s.events, s.notices), batch, plans, cfg, s.now, 0) == None
  {
    if !NoneRaises(s, batch, plans, cfg, n - 1) {
      PassEnds(s, batch, plans, cfg, n - 1);
    } else {
      PassGoesOn(s, batch, plans, cfg, n - 1);
    }
  }

  /** A worker handles the rows of its batch one after the other. */
  ghost function Handles(w: Id, plans: seq<Plan>, n: nat): seq<Action>
    requires n <= |plans|
  {
    if n == 0 then [] else Handles(w, plans, n - 1) + [Handle(w, plans[n - 1])]
  }

  lemma HandleOneMore(s: System, w: Id, plans: seq<Plan>, maxAttempts: int, n: nat)
    requires 0 < n <= |plans|
    ensures Run(s, Handles(w, plans, n), maxAttempts)
         == Step(Run(s, Handles(w, plans, n - 1), maxAttempts), Handle(w, plans[n - 1]), maxAttempts)
  {
    var actions := Handles(w, plans, n);
    assert actions[..|actions| - 1] == Handles(w, plans, n - 1);
  }

  lemma HandleAlone(s: System, w: Id, t: Txn, plan: Plan, maxAttempts: int)
    requires w !in s.open && t.done < |t.batch| && t.batch[t.done] in s.events
    ensures var cfg := Settings(w, maxAttempts);
      Step(s.(open := s.open[w := t]), Handle(w, plan), maxAttempts)
      == if ProcessRaises(s.events[t.batch[t.done]], plan.run, cfg) then s
         else s.(open := s.open[w := Advance(s.events, s.notices, s.now, t, plan, cfg)])
  {
    var t' := Advance(s.events, s.notices, s.now, t, plan, Settings(w, maxAttempts));
    assert s.open[w := t][w := t'] == s.open[w := t'];
    assert s.open[w := t] - {w} == s.open;
  }

  /** Up to the first exception it has made the pass; after it the transaction is gone and the rest does nothing. */
  lemma {:induction false} HandlesArePass(s: System, w: Id, batch: seq<Id>, plans: seq<Plan>, maxAttempts: int, n: nat)
    requires w !in s.open && n <= |plans| == |batch| && forall i | 0 <= i < |batch| :: batch[i] in s.events
    ensures var fetched := s.(open := s.open[w := Txn(batch, 0, map[], [], map[])]);
      var cfg := Settings(w, maxAttempts);
      Run(fetched, Handles(w, plans, n), maxAttempts)
      == if NoneRaises(s, batch, plans, cfg, n) then s.(open := s.open[w := Pass(s, batch, plans, cfg, n)]) else s
  {
    if n > 0 {
      HandlesArePass(s, w, batch, plans, maxAttempts, n - 1);
      HandleOneMore(s.(open := s.open[w := Txn(batch, 0, map[], [], map[])]), w, plans, maxAttempts, n);
      OneMoreRaises(s, batch, plans, Settings(w, maxAttempts), n);
      if NoneRaises(s, batch, plans, Settings(w, maxAttempts), n - 1) {
        HandleAlone(s, w, Pass(s, batch, plans, Settings(w, maxAttempts), n - 1), plans[n - 1], maxAttempts);
      } else {
        HandleUnheld(s, w, plans[n - 1], maxAttempts);
      }
    }
  }

  lemma OneMoreRaises(s: System, batch: seq<Id>, plans: seq<Plan>, cfg: Settings, n: nat)
    requires 0 < n <= |batch| == |plans| && forall i | 0 <= i < |batch| :: batch[i] in s.events
    ensures NoneRaises(s, batch, plans, cfg, n)
       <==> NoneRaises(s, batch, plans, cfg, n - 1) && !ProcessRaises(s.events[batch[n - 1]], plans[n - 1].run, cfg)
  {
  }

  lemma HandleUnheld(s: System, w: Id, plan: Plan, maxAttempts: int)
    requires w !in s.open
    ensures Step(s, Handle(w, plan), maxAttempts) == s
  {
  }

  lemma {:induction false} RunFirst(s: System, a: Action, rest: seq<Action>, maxAttempts: int)
    ensures Run(s, [a] + rest, maxAttempts) == Run(Step(s, a, maxAttempts), rest, maxAttempts)
  {
    if rest == [] {
      assert ([a] + rest)[..0] == [];
      assert Run(s, [], maxAttempts) == s;
    } else {
      var init, last := rest[..|rest| - 1], rest[|rest| - 1];
      RunFirst(s, a, init, maxAttempts);
      RunLast(s, [a] + init, last, maxAttempts);
      RunLast(Step(s, a, maxAttempts), init, last, maxAttempts);
      assert [a] + rest == [a] + init + [last] && rest == init + [last];
    }
  }

  lemma RunLast(s: System, actions: seq<Action>, a: Action, maxAttempts: int)
    ensures Run(s, actions + [a], maxAttempts) == Step(Run(s, actions, maxAttempts), a, maxAttempts)
  {
    assert (actions + [a])[..|actions|] == actions;
  }

  /** Fetch, handle each row, commit. */
  ghost function SoloRun(w: Id, batch: seq<Id>, limit: nat, plans: seq<Plan>): seq<Action> {
    [Fetch(w, batch, limit)] + (Handles(w, plans, |plans|) + [Commit(w)])
  }

  lemma SoloRunIsHandles(s: System, w: Id, batch: seq<Id>, limit: nat, plans: seq<Plan>, maxAttempts: int)
    ensures Run(s, SoloRun(w, batch, limit, plans), maxAttempts)
         == Step(Run(Step(s, Fetch(w, batch, limit), maxAttempts), Handles(w, plans, |plans|), maxAttempts),
                 Commit(w), maxAttempts)
  {
    RunFirst(s, Fetch(w, batch, limit), Handles(w, plans, |plans|) + [Commit(w)], maxAttempts);
    RunLast(Step(s, Fetch(w, batch, limit), maxAttempts), Handles(w, plans, |plans|), Commit(w), maxAttempts);
  }

  lemma FetchAlone(s: System, w: Id, batch: seq<Id>, limit: nat, maxAttempts: int)
    requires w !in s.open && IsDueBatch(s, batch, limit)
    ensures Step(s, Fetch(w, batch, limit), maxAttempts) == s.(open := s.open[w := Txn(batch, 0, map[], [], map[])])
    ensures forall i | 0 <= i < |batch| :: batch[i] in s.events
    ensures forall i, j | 0 <= i < j < |batch| :: batch[i] != batch[j]
  {
  }

  /** With nobody else active the tables become what run_once leaves: what they were, if one row raises. */
  lemma SoloPassIsRunOnce(s: System, w: Id, batch: seq<Id>, limit: nat, plans: seq<Plan>, maxAttempts: int)
    requires w !in s.open && IsDueBatch(s, batch, limit) && |plans| == |batch|
    ensures var after := Run(s, SoloRun(w, batch, limit, plans), maxAttempts);
      var pass := PassFrom(Tables(s.events, s.notices), batch, plans, Settings(w, maxAttempts), s.now, 0);
      && after.open == s.open
      && Tables(after.events, after.notices) == if pass.Some? then pass.value else Tables(s.events, s.notices)
  {
    FetchAlone(s, w, batch, limit, maxAttempts);
    SoloRunIsHandles(s, w, batch, limit, plans, maxAttempts);
    HandledPass(s, w, batch, plans, maxAttempts);
  }

  lemma HandledPass(s: System, w: Id, batch: seq<Id>, plans: seq<Plan>, maxAttempts: int)
    requires w !in s.open && |plans| == |batch| && forall i | 0 <= i < |batch| :: batch[i] in s.events
    requires forall i, j | 0 <= i < j < |batch| :: batch[i] != batch[j]
    ensures var fetched := s.(open := s.open[w := Txn(batch, 0, map[], [], map[])]);
      var after := Step(Run(fetched, Handles(w, plans, |plans|), maxAttempts), Commit(w), maxAttempts);
      var pass := PassFrom(Tables(s.events, s.notices), batch, plans, Settings(w, maxAttempts), s.now, 0);
      && after.open == s.open
      && Tables(after.events, after.notices) == if pass.Some? then pass.value else Tables(s.events, s.notices)
  {
    var cfg := Settings(w, maxAttempts);
    HandlesArePass(s, w, batch, plans, maxAttempts, |plans|);
    if NoneRaises(s, batch, plans, cfg, |batch|) {
      PassGoesOn(s, batch, plans, cfg, |batch|);
      CommitAlone(s, w, Pass(s, batch, plans, cfg, |batch|), maxAttempts);
    } else {
      PassEnds(s, batch, plans, cfg, |batch|);
    }
  }

  lemma CommitAlone(s: System, w: Id, t: Txn, maxAttempts: int)
    requires w !in s.open && t.done == |t.batch|
    ensures var after := Step(s.(open := s.open[w := t]), Commit(w), maxAttempts);
      after.events == s.events + t.writes && after.notices == s.notices + t.notices && after.open == s.open
  {
    assert s.open[w := t] - {w} == s.open;
  }

  // ------------------------------------------------------------------
  // Events without a handler
  // ------------------------------------------------------------------

  ghost predicate RowsUnheardOk(events: map<Id, Event>) {
    forall id | id in events && events[id].kind == NoHandler :: events[id].attempts <= LAST_BACKOFF
  }

  /** What a transaction writes for an event without a handler: one attempt more, of those whose backoff exists. */
  ghost predicate WritesUnheardOk(events: map<Id, Event>, writes: map<Id, Event>) {
    forall id | id in writes && id in events && events[id].kind == NoHandler ::
      writes[id].attempts == events[id].attempts + 1 <= LAST_BACKOFF
  }

  ghost predicate UnheardOk(s: System) {
    RowsUnheardOk(s.events) && forall w | w in s.open :: WritesUnheardOk(s.events, s.open[w].writes)
  }

  lemma AdvanceKeepsUnheard(events: map<Id, Event>, notices: seq<Notice>, now: int, t: Txn, plan: Plan, cfg: Settings)
    requires t.done < |t.batch| && t.batch[t.done] in events && WritesUnheardOk(events, t.writes)
    requires !ProcessRaises(events[t.batch[t.done]], plan.run, cfg)
    ensures WritesUnheardOk(events, Advance(events, notices, now, t, plan, cfg).writes)
  {
  }

  lemma StepKeepsUnheard(s: System, a: Action, maxAttempts: int)
    requires Inv(s) && UnheardOk(s)
    ensures UnheardOk(Step(s, a, maxAttempts))
  {
    if a.Handle? {
      HandleKeepsUnheard(s, a.worker, a.plan, maxAttempts);
    } else if a.Commit? {
      if CanCommit(s, a.worker) { CommitKeepsUnheard(s, a.worker); }
    } else {
      OthersKeepUnheard(s, a, maxAttempts);
    }
  }

  lemma HandleKeepsUnheard(s: System, w: Id, plan: Plan, maxAttempts: int)
    requires UnheardOk(s)
    ensures UnheardOk(Step(s, Handle(w, plan), maxAttempts))
  {
    if CanHandle(s, w) && !HandleRaises(s, w, plan, maxAttempts) {
      AdvanceKeepsUnheard(s.events, s.notices, s.now, s.open[w], plan, Settings(w, maxAttempts));
    }
  }

  lemma CommitKeepsUnheard(s: System, w: Id)
    requires Inv(s) && UnheardOk(s) && CanCommit(s, w)
    ensures UnheardOk(CommitTxn(s, w))
  {
    RowsAreHeld(s, w);
    WritesKeepRows(s.events, s.open[w]);
    forall other | other in s.open && other != w
      ensures WritesUnheardOk(s.events + s.open[w].writes, s.open[other].writes)
    {
      RowsAreHeld(s, other);
      ApartKeepsUnheard(s.events, s.open[w].writes, s.open[other].writes);
    }
  }

  lemma WritesKeepRows(events: map<Id, Event>, t: Txn)
    requires HoldsRows(events, t) && RowsUnheardOk(events) && WritesUnheardOk(events, t.writes)
    ensures RowsUnheardOk(events + t.writes)
  {
  }

  lemma ApartKeepsUnheard(events: map<Id, Event>, mine: map<Id, Event>, theirs: map<Id, Event>)
    requires WritesUnheardOk(events, theirs) && forall id | id in theirs :: id !in mine
    ensures WritesUnheardOk(events + mine, theirs)
  {
  }

  /** Everything else leaves the rows of open transactions alone and adds only new events. */
  lemma OthersKeepUnheard(s: System, a: Action, maxAttempts: int)
    requires Inv(s) && UnheardOk(s) && !a.Handle? && !a.Commit?
    ensures UnheardOk(Step(s, a, maxAttempts))
  {
    var after := Step(s, a, maxAttempts);
    OthersAddRows(s, a, maxAttempts);
    forall w | w in after.open ensures WritesUnheardOk(after.events, after.open[w].writes) {
      OthersKeepWrites(s, a, maxAttempts, w);
      if w in s.open {
        RowsAreHeld(s, w);
        MoreRowsKeepUnheard(s.events, after.events, s.open[w]);
      }
    }
  }

  lemma OthersAddRows(s: System, a: Action, maxAttempts: int)
    requires RowsUnheardOk(s.events) && !a.Handle? && !a.Commit? && s.nextId !in s.events
    ensures var after := Step(s, a, maxAttempts);
      && RowsUnheardOk(after.events)
      && forall id | id in s.events :: id in after.events && after.events[id] == s.events[id]
  {
    OthersAddOneRow(s, a, maxAttempts);
    var after := Step(s, a, maxAttempts).events;
    if after != s.events { NewRowKeepsUnheard(s.events, s.nextId, after[s.nextId]); }
  }

  lemma NewRowKeepsUnheard(events: map<Id, Event>, id: Id, e: Event)
    requires RowsUnheardOk(events) && e.attempts == 0
    ensures RowsUnheardOk(events[id := e])
  {
  }

  lemma OthersAddOneRow(s: System, a: Action, maxAttempts: int)
    requires !a.Handle? && !a.Commit?
    ensures var after := Step(s, a, maxAttempts).events;
      || after == s.events
      || (s.nextId in after && after[s.nextId].attempts == 0 && after == s.events[s.nextId := after[s.nextId]])
  {
  }

  lemma OthersKeepWrites(s: System, a: Action, maxAttempts: int, w: Id)
    requires !a.Handle? && !a.Commit? && w in Step(s, a, maxAttempts).open
    ensures Step(s, a, maxAttempts).open[w].writes == if w in s.open then s.open[w].writes else map[]
  {
  }

  lemma MoreRowsKeepUnheard(events: map<Id, Event>, after: map<Id, Event>, t: Txn)
    requires HoldsRows(events, t) && WritesUnheardOk(events, t.writes)
    requires forall id | id in events :: id in after && after[id] == events[id]
    ensures WritesUnheardOk(after, t.writes)
  {
  }

  lemma {:induction false} RunKeepsUnheard(s: System, actions: seq<Action>, maxAttempts: int)
    requires Inv(s) && UnheardOk(s)
    ensures UnheardOk(Run(s, actions, maxAttempts))
  {
    if actions != [] {
      var init := actions[..|actions| - 1];
      RunKeepsUnheard(s, init, maxAttempts);
      RunKeepsInv(s, init, maxAttempts);
      StepKeepsUnheard(Run(s, init, maxAttempts), actions[|actions| - 1], maxAttempts);
    }
  }

  ghost predicate Stuck(s: System, id: Id) {
    id in s.events && s.events[id].kind == NoHandler && s.events[id].attempts >= LAST_BACKOFF
  }

  lemma StuckIsUnwritten(s: System, id: Id)
    requires Inv(s) && UnheardOk(s) && Stuck(s, id)
    ensures forall w | w in s.open :: id !in s.open[w].writes && (id in s.open[w].batch ==> !CanCommit(s, w))
  {
    forall w | w in s.open ensures id !in s.open[w].writes && (id in s.open[w].batch ==> !CanCommit(s, w)) {
      RowsAreHeld(s, w);
    }
  }

  lemma StuckThroughStep(s: System, a: Action, maxAttempts: int, id: Id)
    requires Inv(s) && UnheardOk(s) && Stuck(s, id)
    ensures var after := Step(s, a, maxAttempts); id in after.events && after.events[id] == s.events[id]
  {
    StuckIsUnwritten(s, id);
    if !a.Commit? { OnlyCommitsRewrite(s, a, maxAttempts, id); }
  }

  /** In no run does an event without a handler get beyond its 1024th attempt. */
  lemma {:induction false} UnheardAttemptsAreBounded(s: System, actions: seq<Action>, maxAttempts: int, id: Id)
    requires Initial(s)
    ensures var events := Run(s, actions, maxAttempts).events;
      id in events && events[id].kind == NoHandler ==> events[id].attempts <= LAST_BACKOFF
  {
    RunKeepsInv(s, actions, maxAttempts);
    RunKeepsUnheard(s, actions, maxAttempts);
  }

  /**
   Once there its row never changes again, and no transaction that holds it
   commits: whatever else was in the batch is rolled back with it.
   */
  lemma {:induction false} UnheardIsStuck(s: System, actions: seq<Action>, later: seq<Action>, maxAttempts: int,
                                          id: Id, w: Id)
    requires Initial(s) && Stuck(Run(s, actions, maxAttempts), id)
    ensures var reached := Run(s, actions, maxAttempts);
      var after := Run(reached, later, maxAttempts);
      && id in after.events && after.events[id] == reached.events[id]
      && (w in after.open && id in after.open[w].batch ==> !CanCommit(after, w))
  {
    RunKeepsInv(s, actions, maxAttempts);
    RunKeepsUnheard(s, actions, maxAttempts);
    StuckThroughRun(Run(s, actions, maxAttempts), later, maxAttempts, id);
  }

  lemma {:induction false} StuckThroughRun(s: System, later: seq<Action>, maxAttempts: int, id: Id)
    requires Inv(s) && UnheardOk(s) && Stuck(s, id)
    ensures var after := Run(s, later, maxAttempts);
      && id in after.events && after.events[id] == s.events[id]
      && forall w | w in after.open && id in after.open[w].batch :: !CanCommit(after, w)
  {
    RunKeepsInv(s, later, maxAttempts);
    RunKeepsUnheard(s, later, maxAttempts);
    if later != [] {
      var init := later[..|later| - 1];
      StuckThroughRun(s, init, maxAttempts, id);
      RunKeepsInv(s, init, maxAttempts);
      RunKeepsUnheard(s, init, maxAttempts);
      StuckThroughStep(Run(s, init, maxAttempts), later[|later| - 1], maxAttempts, id);
    }
    StuckIsUnwritten(Run(s, later, maxAttempts), id);
  }

  /**
   If it is older than whatever else is due, every fetch that may take a row
   takes it: nothing is delivered any more.
   */
  lemma StuckStopsDispatch(s: System, id: Id, batch: seq<Id>, limit: nat)
    requires Stuck(s, id) && Due(s.events[id], s.now) && Unlocked(s, id) && limit > 0
    requires forall other | other in s.events && other != id && Due(s.events[other], s.now) ::
               s.events[id].createdAt < s.events[other].createdAt
    requires IsDueBatch(s, batch, limit)
    ensures id in batch
  {
    if |batch| > 0 {
      assert batch[0] in s.events && Due(s.events[batch[0]], s.now);
      assert batch[0] == id || s.events[id].createdAt < s.events[batch[0]].createdAt;
    }
  }
}
