/**
 The webhook handler (`index.ts`): a ledger of event ids that is written before an event is
 applied and undone when the application fails, under concurrent duplicate deliveries.
 */
module StripeWebhook {
  import opened Wrappers
  import opened StripeSync

  // ----- deliveries as a state machine -----

  datatype Answer = OkAnswer | Dup | LogError | ApplyError

  /** Where a delivery of an event stands: each phase ends with one database request. */
  datatype Phase = Received | Applying(cursor: Cursor) | Undoing | Answered(answer: Answer)

  datatype Delivery = Delivery(event: string, phase: Phase)

  /**
   The event ledger, the billing tables, all deliveries, and two history variables: how often
   `applyEvent` ran to completion for each event, and the events whose undo failed.
   */
  datatype Sys = Sys(ledger: set<string>, tables: Tables, deliveries: map<nat, Delivery>,
                     completions: map<string, nat>, stuck: set<string>)

  /** `Insert`, `Call` and `Undo` each send one request, which may fail without effect. */
  datatype Action =
    | Deliver(d: nat, event: string)
    | Insert(d: nat, fault: bool)
    | Call(d: nat, fault: bool)
    | Undo(d: nat, fault: bool)

  type Contents = string -> Event

  ghost predicate Enabled(s: Sys, a: Action) {
    match a
    case Deliver(d, _) => d !in s.deliveries
    case Insert(d, _) => d in s.deliveries && s.deliveries[d].phase == Received
    case Call(d, _) =>
      d in s.deliveries && s.deliveries[d].phase.Applying? && s.deliveries[d].phase.cursor != Finished
      && UniqueCustomers(s.tables)
    case Undo(d, _) => d in s.deliveries && s.deliveries[d].phase == Undoing
  }

  function CompletionsOf(s: Sys, event: string): nat {
    if event in s.completions then s.completions[event] else 0
  }

  function WithPhase(s: Sys, d: nat, phase: Phase): Sys
    requires d in s.deliveries
  {
    s.(deliveries := s.deliveries[d := s.deliveries[d].(phase := phase)])
  }

  ghost function Step(s: Sys, a: Action, contents: Contents): Sys
    requires Enabled(s, a)
  {
    match a
    case Deliver(d, event) => s.(deliveries := s.deliveries[d := Delivery(event, Received)])
    case Insert(d, fault) =>
      var event := s.deliveries[d].event;
      if event in s.ledger && !fault then WithPhase(s, d, Answered(Dup))
      else if fault then WithPhase(s, d, Answered(LogError))
      else WithPhase(s, d, Applying(AtStart)).(ledger := s.ledger + {event})
    case Call(d, fault) =>
      var event := s.deliveries[d].event;
      var next := Advance(s.tables, contents(event), s.deliveries[d].phase.cursor);
      if fault || next.Err? then WithPhase(s, d, Undoing)
      else if next.value.1 == Finished then
        WithPhase(s, d, Answered(OkAnswer)).(tables := next.value.0,
                                             completions := s.completions[event := CompletionsOf(s, event) + 1])
      else WithPhase(s, d, Applying(next.value.1)).(tables := next.value.0)
    case Undo(d, fault) =>
      var event := s.deliveries[d].event;
      if fault then WithPhase(s, d, Answered(ApplyError)).(stuck := s.stuck + {event})
      else WithPhase(s, d, Answered(ApplyError)).(ledger := s.ledger - {event})
  }

  ghost predicate Legal(s: Sys, actions: seq<Action>, contents: Contents)
    decreases |actions|
  {
    actions == [] || (Enabled(s, actions[0]) && Legal(Step(s, actions[0], contents), actions[1..], contents))
  }

  ghost function Outcome(s: Sys, actions: seq<Action>, contents: Contents): Sys
    requires Legal(s, actions, contents)
    decreases |actions|
  {
    if actions == [] then s else Outcome(Step(s, actions[0], contents), actions[1..], contents)
  }

  function Start(tables: Tables): Sys {
    Sys({}, tables, map[], map[], {})
  }

  // ----- the invariant -----

  /** The delivery is between its ledger insert and its answer. */
  predicate InFlight(s: Sys, d: nat) {
    d in s.deliveries && (s.deliveries[d].phase.Applying? || s.deliveries[d].phase == Undoing)
  }

  ghost predicate Idle(s: Sys, event: string) {
    forall d :: InFlight(s, d) ==> s.deliveries[d].event != event
  }

  /** Delivery `d` is one of `event`, in flight. */
  predicate Working(s: Sys, d: nat, event: string) {
    InFlight(s, d) && s.deliveries[d].event == event
  }

  /** One event's deliveries, ledger row and history fit together. */
  ghost predicate EventInv(s: Sys, event: string) {
    && (forall d, d' :: Working(s, d, event) && Working(s, d', event) ==> d == d')
    && (forall d :: Working(s, d, event) ==> event in s.ledger)
    && (event in s.ledger && Idle(s, event) ==> CompletionsOf(s, event) == 1 || event in s.stuck)
    && (CompletionsOf(s, event) > 0 ==>
          CompletionsOf(s, event) == 1 && event in s.ledger && Idle(s, event) && event !in s.stuck)
    && (event in s.stuck ==> event in s.ledger && Idle(s, event))
    && (forall d :: d in s.deliveries && s.deliveries[d] == Delivery(event, Answered(OkAnswer)) ==>
          CompletionsOf(s, event) == 1)
  }

  ghost predicate Inv(s: Sys) {
    && UniqueCustomers(s.tables)
    && (forall d :: d in s.deliveries && s.deliveries[d].phase.Applying? ==> s.deliveries[d].phase.cursor != Finished)
    && (forall event :: EventInv(s, event))
  }

  lemma StartEstablishesInv(tables: Tables)
    requires UniqueCustomers(tables)
    ensures Inv(Start(tables))
  {
    forall event ensures EventInv(Start(tables), event) {
    }
  }

  /** `s'` differs from `s` only in the delivery `d` and in its event's row and history. */
  ghost predicate Framed(s: Sys, s': Sys, d: nat) {
    && d in s'.deliveries
    && (forall d' :: d' != d ==> (d' in s'.deliveries <==> d' in s.deliveries))
    && (forall d' :: d' != d && d' in s.deliveries ==> s'.deliveries[d'] == s.deliveries[d'])
    && (d in s.deliveries ==> s'.deliveries[d].event == s.deliveries[d].event)
    && (forall event :: event != s'.deliveries[d].event ==>
          (event in s'.ledger <==> event in s.ledger) && (event in s'.stuck <==> event in s.stuck)
          && CompletionsOf(s', event) == CompletionsOf(s, event))
  }

  lemma StepIsFramed(s: Sys, a: Action, contents: Contents)
    requires Enabled(s, a)
    ensures Framed(s, Step(s, a, contents), a.d)
  {
  }

  lemma OtherEventsKept(s: Sys, s': Sys, d: nat, event: string)
    requires Framed(s, s', d) && event != s'.deliveries[d].event && EventInv(s, event)
    ensures EventInv(s', event) && (Idle(s', event) <==> Idle(s, event))
  {
    forall d' ensures Working(s', d', event) <==> Working(s, d', event) {
    }
    assert Idle(s', event) <==> Idle(s, event) by {
      IdleIffNoneWorking(s, event);
      IdleIffNoneWorking(s', event);
    }
  }

  lemma IdleIffNoneWorking(s: Sys, event: string)
    ensures Idle(s, event) <==> forall d :: !Working(s, d, event)
  {
    if forall d :: !Working(s, d, event) {
      forall d | InFlight(s, d) ensures s.deliveries[d].event != event {
        assert !Working(s, d, event);
      }
    }
  }

  /** The stepping delivery's own event, when the step neither starts nor ends its flight. */
  lemma OwnEventKeptInPlace(s: Sys, s': Sys, d: nat, event: string)
    requires Framed(s, s', d) && s'.deliveries[d].event == event && EventInv(s, event)
    requires InFlight(s', d) <==> InFlight(s, d)
    requires s'.deliveries[d].phase != Answered(OkAnswer)
    requires (event in s'.ledger <==> event in s.ledger) && (event in s'.stuck <==> event in s.stuck)
    requires CompletionsOf(s', event) == CompletionsOf(s, event)
    ensures EventInv(s', event)
  {
    forall d' ensures Working(s', d', event) <==> Working(s, d', event) {
    }
    IdleIffNoneWorking(s, event);
    IdleIffNoneWorking(s', event);
  }

  /** The row was free: the delivery is now the only one in flight. */
  lemma OwnEventStarts(s: Sys, s': Sys, d: nat, event: string)
    requires Framed(s, s', d) && s'.deliveries[d].event == event && EventInv(s, event)
    requires event !in s.ledger && event in s'.ledger && InFlight(s', d)
    requires (event in s'.stuck <==> event in s.stuck) && CompletionsOf(s', event) == CompletionsOf(s, event)
    ensures EventInv(s', event)
  {
    assert Working(s', d, event);
    forall d' | d' != d ensures !Working(s', d', event) {
      assert Working(s', d', event) ==> Working(s, d', event);
    }
  }

  /** The only delivery in flight ends: completed, undone, or with its undo failed. */
  lemma OwnEventEnds(s: Sys, s': Sys, d: nat, event: string)
    requires Framed(s, s', d) && s'.deliveries[d].event == event && EventInv(s, event)
    requires Working(s, d, event) && !InFlight(s', d)
    requires
      || (event in s'.ledger && CompletionsOf(s', event) == CompletionsOf(s, event) + 1
          && (event in s'.stuck <==> event in s.stuck))
      || (s'.deliveries[d].phase != Answered(OkAnswer) && CompletionsOf(s', event) == CompletionsOf(s, event)
          && (event in s'.ledger <==> event in s'.stuck))
    ensures EventInv(s', event) && Idle(s', event)
  {
    forall d' ensures !Working(s', d', event) {
      if d' != d { assert Working(s', d', event) ==> Working(s, d', event); }
    }
    IdleIffNoneWorking(s, event);
    IdleIffNoneWorking(s', event);
  }

  lemma OwnEventKept(s: Sys, a: Action, contents: Contents)
    requires EventInv(s, EventOf(s, a)) && Enabled(s, a)
    requires forall d :: d in s.deliveries && s.deliveries[d].phase.Applying? ==>
               s.deliveries[d].phase.cursor != Finished
    ensures EventInv(Step(s, a, contents), EventOf(s, a))
  {
    var s' := Step(s, a, contents);
    var event := EventOf(s, a);
    StepIsFramed(s, a, contents);
    if a.Insert? && !a.fault && event !in s.ledger {
      OwnEventStarts(s, s', a.d, event);
    } else if a.Undo? || (a.Call? && s'.deliveries[a.d].phase.Answered?) {
      assert Working(s, a.d, event);
      IdleIffNoneWorking(s, event);
      OwnEventEnds(s, s', a.d, event);
    } else {
      OwnEventKeptInPlace(s, s', a.d, event);
    }
  }

  /** The event a step is about. */
  function EventOf(s: Sys, a: Action): string {
    if a.Deliver? then a.event else if a.d in s.deliveries then s.deliveries[a.d].event else ""
  }

  lemma StepKeepsInv(s: Sys, a: Action, contents: Contents)
    requires Inv(s) && Enabled(s, a)
    ensures Inv(Step(s, a, contents))
  {
    var s' := Step(s, a, contents);
    StepIsFramed(s, a, contents);
    TablesStayConsistent(s, a, contents);
    forall event ensures EventInv(s', event) {
      assert EventInv(s, event);
      if event == EventOf(s, a) {
        OwnEventKept(s, a, contents);
      } else {
        OtherEventsKept(s, s', a.d, event);
      }
    }
  }

  lemma TablesStayConsistent(s: Sys, a: Action, contents: Contents)
    requires Enabled(s, a) && UniqueCustomers(s.tables)
    requires forall d :: d in s.deliveries && s.deliveries[d].phase.Applying? ==>
               s.deliveries[d].phase.cursor != Finished
    ensures var s' := Step(s, a, contents);
            && UniqueCustomers(s'.tables)
            && forall d :: d in s'.deliveries && s'.deliveries[d].phase.Applying? ==>
               s'.deliveries[d].phase.cursor != Finished
  {
    if a.Call? && Advance(s.tables, contents(s.deliveries[a.d].event), s.deliveries[a.d].phase.cursor).Ok? {
      AdvanceKeepsCustomersUnique(s.tables, contents(s.deliveries[a.d].event), s.deliveries[a.d].phase.cursor);
    }
  }

  lemma {:induction false} LegalKeepsInv(s: Sys, actions: seq<Action>, contents: Contents)
    requires Inv(s) && Legal(s, actions, contents)
    ensures Inv(Outcome(s, actions, contents))
    decreases |actions|
  {
    if actions != [] {
      StepKeepsInv(s, actions[0], contents);
      LegalKeepsInv(Step(s, actions[0], contents), actions[1..], contents);
    }
  }

  // ----- guarantees -----

  /**
   Under any number of concurrent duplicate deliveries, from any consistent tables: no two
   deliveries apply the same event at once; `applyEvent` completes at most once per event; a
   ledger row with no delivery in flight means it did complete, exactly unless an undo failed;
   and whoever was answered "ok" is one of the completed.
   */
  lemma LedgerGuarantees(tables: Tables, actions: seq<Action>, contents: Contents, event: string)
    requires UniqueCustomers(tables) && Legal(Start(tables), actions, contents)
    ensures var s := Outcome(Start(tables), actions, contents);
            && (forall d, d' :: Working(s, d, event) && Working(s, d', event) ==> d == d')
            && CompletionsOf(s, event) <= 1
            && (event in s.ledger && Idle(s, event) ==> (CompletionsOf(s, event) == 1 <==> event !in s.stuck))
            && (forall d :: d in s.deliveries && s.deliveries[d] == Delivery(event, Answered(OkAnswer)) ==>
                  CompletionsOf(s, event) == 1)
  {
    StartEstablishesInv(tables);
    LegalKeepsInv(Start(tables), actions, contents);
    assert EventInv(Outcome(Start(tables), actions, contents), event);
  }

  /** A failed application whose undo succeeds frees the row: the next delivery applies the event from scratch. */
  lemma FailedEventIsRetried(s: Sys, d: nat, contents: Contents)
    requires Inv(s) && Enabled(s, Undo(d, false))
    ensures var s' := Step(s, Undo(d, false), contents);
            var event := s.deliveries[d].event;
            && event !in s'.ledger && Idle(s', event) && CompletionsOf(s', event) == 0
            && forall d' :: d' !in s'.deliveries ==>
                 Enabled(s', Deliver(d', event))
                 && Enabled(Step(s', Deliver(d', event), contents), Insert(d', false))
                 && Step(Step(s', Deliver(d', event), contents), Insert(d', false), contents).deliveries[d'].phase
                    == Applying(AtStart)
  {
    var s' := Step(s, Undo(d, false), contents);
    var event := s.deliveries[d].event;
    StepKeepsInv(s, Undo(d, false), contents);
    assert EventInv(s, event) && EventInv(s', event) && Working(s, d, event);
    IdleIffNoneWorking(s, event);
    IdleIffNoneWorking(s', event);
  }

  /** The documented double failure, exactly: once an undo has failed, the event is never applied again. */
  lemma {:induction false} FailedUndoLosesTheEvent(s: Sys, actions: seq<Action>, contents: Contents, event: string)
    requires Inv(s) && Legal(s, actions, contents) && event in s.stuck
    ensures var e := Outcome(s, actions, contents);
            event in e.stuck && event in e.ledger && CompletionsOf(e, event) == 0
    decreases |actions|
  {
    assert EventInv(s, event);
    if actions != [] {
      var a := actions[0];
      StepKeepsInv(s, a, contents);
      StepIsFramed(s, a, contents);
      assert EventInv(s, event);
      FailedUndoLosesTheEvent(Step(s, a, contents), actions[1..], contents, event);
    }
  }

  // ----- duplicates of one event leave the tables as one clean application does -----

  /** All deliveries so far are of one event. */
  ghost predicate Only(s: Sys, event: string) {
    forall d :: d in s.deliveries ==> s.deliveries[d].event == event
  }

  ghost predicate TablesInv(s: Sys, start: Tables, event: string, e: Event)
    requires UniqueCustomers(start)
  {
    && Only(s, event)
    && Underway(start, s.tables, e)
    && (forall d :: d in s.deliveries && s.deliveries[d].phase.Applying? ==>
          OnCourse(start, s.tables, e, s.deliveries[d].phase.cursor))
    && (CompletionsOf(s, event) > 0 ==> Complete(start, e, AtStart) == Ok(s.tables))
  }

  lemma StepKeepsTablesInv(s: Sys, a: Action, contents: Contents, start: Tables, event: string)
    requires Inv(s) && Enabled(s, a) && UniqueCustomers(start)
    requires TablesInv(s, start, event, contents(event)) && (a.Deliver? ==> a.event == event)
    ensures TablesInv(Step(s, a, contents), start, event, contents(event))
  {
    hide Advance, Complete, Underway;
    var s' := Step(s, a, contents);
    var e := contents(event);
    if a.Call? {
      var c := s.deliveries[a.d].phase.cursor;
      AdvanceStaysUnderway(start, s.tables, e, c);
      assert EventInv(s, event) && Working(s, a.d, event);
      forall d | d in s'.deliveries && d != a.d ensures !s'.deliveries[d].phase.Applying? {
        assert !Working(s, d, event);
      }
    }
  }

  lemma {:induction false} RunKeepsTablesInv(s: Sys, actions: seq<Action>, contents: Contents, start: Tables,
                                             event: string)
    requires Inv(s) && Legal(s, actions, contents) && UniqueCustomers(start)
    requires TablesInv(s, start, event, contents(event))
    requires forall a :: a in actions && a.Deliver? ==> a.event == event
    ensures Inv(Outcome(s, actions, contents)) &&
              TablesInv(Outcome(s, actions, contents), start, event, contents(event))
    decreases |actions|
  {
    if actions != [] {
      StepKeepsInv(s, actions[0], contents);
      StepKeepsTablesInv(s, actions[0], contents, start, event);
      RunKeepsTablesInv(Step(s, actions[0], contents), actions[1..], contents, start, event);
    }
  }

  /**
   Any interleaving of any number of duplicate deliveries of one event, each failing and being
   undone at any database call: whenever the event's row stands with no delivery in flight
   and no undo has failed, the tables are exactly those of one clean application.
   */
  lemma DuplicatesApplyOnce(start: Tables, actions: seq<Action>, contents: Contents, event: string)
    requires UniqueCustomers(start) && Legal(Start(start), actions, contents)
    requires forall a :: a in actions && a.Deliver? ==> a.event == event
    ensures var s := Outcome(Start(start), actions, contents);
            event in s.ledger && Idle(s, event) && event !in s.stuck ==>
              Complete(start, contents(event), AtStart) == Ok(s.tables)
  {
    StartEstablishesInv(start);
    RunKeepsTablesInv(Start(start), actions, contents, start, event);
    assert EventInv(Outcome(Start(start), actions, contents), event);
  }

  // ----- the handler itself -----

  datatype Response = SecretMissing500 | BadSignature400 | Dup200 | LogError500 | ApplyError500 | Ok200

  class Webhook {
    var ledger: set<string>
    const database: Database

    constructor (database: Database)
      ensures this.database == database && ledger == {}
    {
      this.database := database;
      ledger := {};
    }

    /**
     One delivery, undisturbed. `verified` is the event the signature check yields, if any. Each
     answer is given exactly in its case: a fresh event is answered "ok" if and only if no call
     it comes to fails and the database refuses no write. Only "ok" adds the row and applies the
     event, in full; every other answer but the one after a failed undo leaves the ledger as it
     was, and only an application error touches the tables, by part of an application that a
     retry makes good.
     */
    method Handle(configured: bool, verified: Option<(string, Event)>, insertFault: bool,
                  callFault: nat -> bool, undoFault: bool)
      returns (r: Response)
      requires UniqueCustomers(database.tables)
      modifies this, database
      ensures UniqueCustomers(database.tables)
      ensures !configured <==> r == SecretMissing500
      ensures configured && verified.None? <==> r == BadSignature400
      ensures r == Dup200 <==> configured && verified.Some? && !insertFault && verified.value.0 in old(ledger)
      ensures r == LogError500 <==> configured && verified.Some? && insertFault
      ensures r == Ok200 <==>
              configured && verified.Some? && !insertFault && verified.value.0 !in old(ledger)
              && Complete(old(database.tables), verified.value.1, AtStart).Ok?
              && CallsGoThrough(old(database.tables), verified.value.1, callFault)
      ensures r == ApplyError500 <==>
              configured && verified.Some? && !insertFault && verified.value.0 !in old(ledger)
              && (Complete(old(database.tables), verified.value.1, AtStart).Err?
                  || exists i: nat :: MakesCall(old(database.tables), verified.value.1, i) && callFault(i))
      ensures r == Ok200 ==>
                ledger == old(ledger) + {verified.value.0} && verified.value.0 !in old(ledger)
                && Complete(old(database.tables), verified.value.1, AtStart) == Ok(database.tables)
      ensures r == ApplyError500 ==>
                && ledger == (if undoFault then old(ledger) + {verified.value.0} else old(ledger))
                && Complete(database.tables, verified.value.1, AtStart) ==
                   Complete(old(database.tables), verified.value.1, AtStart)
      ensures r != Ok200 && r != ApplyError500 ==> ledger == old(ledger) && database.tables == old(database.tables)
    {
      if !configured { return SecretMissing500; }
      if verified.None? { return BadSignature400; }
      var (id, event) := verified.value;
      if insertFault { return LogError500; }
      if id in ledger { return Dup200; }
      ledger := ledger + {id};
      ghost var before := database.tables;
      var applied := database.ApplyEvent(event, callFault);
      if !applied {
        ghost var n :| After(before, event, n).Ok? && After(before, event, n).value.0 == database.tables;
        RetryEqualsCleanApplication(before, event, n);
        if !undoFault {
          ledger := ledger - {id};
        }
        return ApplyError500;
      }
      r := Ok200;
    }
  }
}
