/** The saga orchestrator: forward steps one per tick, then compensation in reverse, and the
    in-memory saga store it loads from and saves to. */
module Saga {
  import opened Wrappers

  datatype StepState = Ready | InFlight | Succeeded | Broken | Compensated | Skipped

  datatype SagaState = Running | Compensating | Completed | Failed | Cancelled | Paused

  datatype StepDef = StepDef(name: string, actionUri: string, compensateUri: Option<string>)

  datatype Step = Step(def: StepDef, state: StepState, lastError: Option<string>, startedAt: Option<int>,
                       completedAt: Option<int>)

  datatype Saga = Saga(
    id: string,
    tenant: string,
    state: SagaState,
    defName: string,
    steps: seq<Step>,
    cursor: nat,
    createdAt: int,
    updatedAt: int,
    timeoutAt: Option<int>)

  /** What a participant answers: done, refused, or an error. */
  datatype Answer = Yes | No | Error(message: string)

  /** A call to the participant, with the step it is for and the answer it got. */
  datatype Call = Execute(step: nat, uri: string, answer: Answer) | Undo(step: nat, uri: string, answer: Answer)

  type Calls = seq<Call>

  /** The answer to the n-th call of the saga's run.  A run is determined by these answers, so
      an arbitrary function covers every participant, however it chooses. */
  type Participant = nat -> Answer

  const EXECUTE_REFUSED := "step returned failure"
  const UNDO_REFUSED := "compensate returned failure"

  // ----- the orchestrator as functions -----

  /** The saga runs, none of its steps has been tried, and the first is next. */
  ghost predicate FreshRun(saga: Saga, defs: seq<StepDef>) {
    && saga.state == Running && saga.cursor == 0 && |saga.steps| == |defs|
    && forall i | 0 <= i < |defs| :: saga.steps[i] == Step(defs[i], Ready, None, None, None)
  }

  /** The saga has just been started for this definition. */
  ghost predicate IsStarted(saga: Saga, id: string, tenant: string, defName: string, defs: seq<StepDef>,
                            timeoutAt: Option<int>, now: int)
  {
    && FreshRun(saga, defs) && saga.id == id && saga.tenant == tenant && saga.defName == defName
    && saga.timeoutAt == timeoutAt && saga.createdAt == now && saga.updatedAt == now
  }

  function WithStep(saga: Saga, i: nat, step: Step): Saga
    requires i < |saga.steps|
  {
    saga.(steps := saga.steps[i := step])
  }

  /** Past a finished step; past the last one the saga is complete. */
  function Advanced(saga: Saga): Saga {
    var next := saga.(cursor := saga.cursor + 1);
    if next.cursor >= |next.steps| then next.(state := Completed) else next
  }

  function AfterExecute(saga: Saga, answer: Answer, now: int): Saga
    requires saga.cursor < |saga.steps|
  {
    var i := saga.cursor;
    var step := saga.steps[i].(state := InFlight, startedAt := Some(saga.steps[i].startedAt.GetOr(now)));
    match answer
    case Yes => Advanced(WithStep(saga, i, step.(state := Succeeded, completedAt := Some(now))))
    case No =>
      WithStep(saga, i, step.(state := Broken, lastError := Some(EXECUTE_REFUSED)))
        .(state := Compensating, cursor := i + 1)
    case Error(message) =>
      WithStep(saga, i, step.(state := Broken, lastError := Some(message)))
        .(state := Compensating, cursor := i + 1)
  }

  function TickRunning(saga: Saga, p: Participant, calls: Calls, now: int): (Saga, Calls) {
    if saga.cursor >= |saga.steps| then (saga.(state := Completed), calls)
    else if saga.steps[saga.cursor].state == Succeeded then (Advanced(saga), calls)
    else
      var answer := p(|calls|);
      (AfterExecute(saga, answer, now), calls + [Execute(saga.cursor, saga.steps[saga.cursor].def.actionUri, answer)])
  }

  function TickCompensating(saga: Saga, p: Participant, calls: Calls, now: int): (Saga, Calls)
    requires saga.cursor <= |saga.steps|
    decreases saga.cursor
  {
    if saga.cursor == 0 then (saga.(state := Cancelled), calls)
    else
      var i := saga.cursor - 1;
      var step := saga.steps[i];
      if step.state == Compensated || step.state == Skipped then
        TickCompensating(saga.(cursor := i), p, calls, now)
      else if step.def.compensateUri.None? then
        var skipped := WithStep(saga, i, step.(state := Skipped)).(cursor := i);
        TickCompensating(if i == 0 then skipped.(state := Failed) else skipped, p, calls, now)
      else
        var answer := p(|calls|);
        var calls' := calls + [Undo(i, step.def.compensateUri.value, answer)];
        match answer
        case Yes =>
          var undone := WithStep(saga, i, step.(state := Compensated, completedAt := Some(now)));
          TickCompensating(undone.(cursor := i), p, calls', now)
        case No => (WithStep(saga, i, step.(lastError := Some(UNDO_REFUSED))).(state := Failed), calls')
        case Error(message) => (WithStep(saga, i, step.(lastError := Some(message))).(state := Failed), calls')
  }

  /** The cursor never passes the steps. */
  predicate InRange(saga: Saga) {
    saga.cursor <= |saga.steps|
  }

  function Ticked(saga: Saga, p: Participant, calls: Calls, now: int): (Saga, Calls)
    requires InRange(saga)
  {
    var (t, calls') :=
      match saga.state
      case Running => TickRunning(saga, p, calls, now)
      case Compensating => TickCompensating(saga, p, calls, now)
      case _ => (saga, calls);
    (t.(updatedAt := now), calls')
  }

  lemma {:induction false} CompensatingStaysInRange(saga: Saga, p: Participant, calls: Calls, now: int)
    requires InRange(saga)
    ensures InRange(TickCompensating(saga, p, calls, now).0)
    decreases saga.cursor
  {
    if saga.cursor > 0 {
      var i := saga.cursor - 1;
      var step := saga.steps[i];
      if step.state == Compensated || step.state == Skipped {
        CompensatingStaysInRange(saga.(cursor := i), p, calls, now);
      } else if step.def.compensateUri.None? {
        var skipped := WithStep(saga, i, step.(state := Skipped)).(cursor := i);
        CompensatingStaysInRange(if i == 0 then skipped.(state := Failed) else skipped, p, calls, now);
      } else if p(|calls|) == Yes {
        var undone := WithStep(saga, i, step.(state := Compensated, completedAt := Some(now)));
        CompensatingStaysInRange(undone.(cursor := i), p, calls + [Undo(i, step.def.compensateUri.value, Yes)], now);
      }
    }
  }

  lemma TickStaysInRange(saga: Saga, p: Participant, calls: Calls, now: int)
    requires InRange(saga)
    ensures InRange(Ticked(saga, p, calls, now).0)
  {
    CompensatingStaysInRange(saga, p, calls, now);
  }

  /** A started saga after `n` ticks, and the calls made so far. */
  function AfterTicks(start: Saga, p: Participant, clock: nat -> int, n: nat): (r: (Saga, Calls))
    requires InRange(start)
    ensures InRange(r.0)
  {
    if n == 0 then (start, [])
    else
      var (saga, calls) := AfterTicks(start, p, clock, n - 1);
      TickStaysInRange(saga, p, calls, clock(n - 1));
      Ticked(saga, p, calls, clock(n - 1))
  }

  // ----- any saga, resumed or not -----

  /** The call is one that the saga, as it stands, has still to make; the answer is the participant's. */
  predicate StillToMake(saga: Saga, call: Call, answer: Answer) {
    match call
    case Execute(i, uri, a) =>
      && saga.state == Running && i == saga.cursor < |saga.steps| && saga.steps[i].state != Succeeded
      && uri == saga.steps[i].def.actionUri && a == answer
    case Undo(i, uri, a) =>
      && saga.state == Compensating && i < saga.cursor && i < |saga.steps|
      && saga.steps[i].state != Compensated && saga.steps[i].state != Skipped
      && saga.steps[i].def.compensateUri == Some(uri) && a == answer
  }

  ghost predicate CallsStillToMake(saga: Saga, p: Participant, calls: Calls, made: Calls) {
    && |calls| <= |made| && made[..|calls|] == calls
    && forall j | |calls| <= j < |made| :: StillToMake(saga, made[j], p(j))
  }

  /** The rest of a compensation, from `next`, whose steps below the cursor are still those of `saga`. */
  lemma {:induction false} CompensationCalls(saga: Saga, next: Saga, p: Participant, calls: Calls, now: int)
    requires saga.state == Compensating && InRange(saga) && InRange(next)
    requires next.cursor <= saga.cursor && |next.steps| == |saga.steps|
    requires forall i | 0 <= i < next.cursor :: next.steps[i] == saga.steps[i]
    ensures CallsStillToMake(saga, p, calls, TickCompensating(next, p, calls, now).1)
    decreases next.cursor
  {
    if next.cursor > 0 {
      var i := next.cursor - 1;
      var step := next.steps[i];
      if step.state == Compensated || step.state == Skipped {
        CompensationCalls(saga, next.(cursor := i), p, calls, now);
      } else if step.def.compensateUri.None? {
        var skipped := WithStep(next, i, step.(state := Skipped)).(cursor := i);
        CompensationCalls(saga, if i == 0 then skipped.(state := Failed) else skipped, p, calls, now);
      } else {
        var call := Undo(i, step.def.compensateUri.value, p(|calls|));
        assert StillToMake(saga, call, p(|calls|));
        if p(|calls|) == Yes {
          var undone := WithStep(next, i, step.(state := Compensated, completedAt := Some(now))).(cursor := i);
          CompensationCalls(saga, undone, p, calls + [call], now);
          MoreCalls(saga, p, calls, call, TickCompensating(undone, p, calls + [call], now).1);
        }
      }
    }
  }

  lemma MoreCalls(saga: Saga, p: Participant, calls: Calls, call: Call, made: Calls)
    requires StillToMake(saga, call, p(|calls|)) && CallsStillToMake(saga, p, calls + [call], made)
    ensures CallsStillToMake(saga, p, calls, made)
  {
    assert made[..|calls| + 1][..|calls|] == made[..|calls|] && (calls + [call])[..|calls|] == calls;
    assert made[|calls|] == made[..|calls| + 1][|calls|];
  }

  /** One tick of any saga, also one resumed half-way: no step that succeeded is executed again, none that
      is compensated or skipped is compensated again, and none without a compensation; a step found
      succeeded is passed without a call. */
  lemma NothingTwice(saga: Saga, p: Participant, calls: Calls, now: int)
    requires InRange(saga)
    ensures CallsStillToMake(saga, p, calls, Ticked(saga, p, calls, now).1)
    ensures saga.state == Running && saga.cursor < |saga.steps| && saga.steps[saga.cursor].state == Succeeded ==>
              var (t, made) := Ticked(saga, p, calls, now);
              && made == calls && t.steps == saga.steps && t.cursor == saga.cursor + 1
              && t.state == if t.cursor == |t.steps| then Completed else Running
  {
    if saga.state == Compensating {
      CompensationCalls(saga, saga, p, calls, now);
    }
  }

  // ----- the store and the orchestrator -----

  datatype SagaError = AlreadyExists | InstanceMissing

  class InMemorySagaStore {
    var items: map<string, Saga>

    constructor ()
      ensures items == map[]
    {
      items := map[];
    }

    method Insert(saga: Saga) returns (r: Result<(), SagaError>)
      modifies this
      ensures if saga.id in old(items) then r == Err(AlreadyExists) && items == old(items)
              else r == Ok(()) && items == old(items)[saga.id := saga]
    {
      if saga.id in items {
        return Err(AlreadyExists);
      }
      items := items[saga.id := saga];
      r := Ok(());
    }

    method Load(id: string) returns (r: Option<Saga>)
      ensures r == if id in items then Some(items[id]) else None
    {
      r := if id in items then Some(items[id]) else None;
    }

    method Save(saga: Saga) returns (r: Result<(), SagaError>)
      modifies this
      ensures if saga.id in old(items) then r == Ok(()) && items == old(items)[saga.id := saga]
              else r == Err(InstanceMissing) && items == old(items)
    {
      if saga.id !in items {
        return Err(InstanceMissing);
      }
      items := items[saga.id := saga];
      r := Ok(());
    }
  }

  class SagaOrchestrator {
    const store: InMemorySagaStore

    constructor (store: InMemorySagaStore)
      ensures this.store == store
    {
      this.store := store;
    }

    method Start(id: string, tenant: string, defName: string, defs: seq<StepDef>, timeoutAt: Option<int>, now: int)
      returns (r: Result<string, SagaError>)
      modifies store
      ensures if id in old(store.items) then r == Err(AlreadyExists) && store.items == old(store.items)
              else
                && r == Ok(id) && id in store.items && store.items == old(store.items)[id := store.items[id]]
                && IsStarted(store.items[id], id, tenant, defName, defs, timeoutAt, now) && InRange(store.items[id])
    {
      var steps: seq<Step> := [];
      for i := 0 to |defs|
        invariant |steps| == i && forall j | 0 <= j < i :: steps[j] == Step(defs[j], Ready, None, None, None)
      {
        steps := steps + [Step(defs[i], Ready, None, None, None)];
      }
      var saga := Saga(id, tenant, Running, defName, steps, 0, now, now, timeoutAt);
      var inserted := store.Insert(saga);
      r := if inserted.Ok? then Ok(id) else Err(inserted.error);
    }

    /** One tick of one saga: that saga moves on by one tick, and no other saga changes. */
    method Tick(id: string, p: Participant, calls: Calls, now: int) returns (r: Result<(), SagaError>, made: Calls)
      requires id in store.items ==> store.items[id].id == id && InRange(store.items[id])
      modifies store
      ensures r == Ok(())
      ensures if id !in old(store.items) then store.items == old(store.items) && made == calls
              else (store.items, made) == (old(store.items)[id := Ticked(old(store.items)[id], p, calls, now).0],
                                           Ticked(old(store.items)[id], p, calls, now).1)
    {
      made := calls;
      var loaded := store.Load(id);
      if loaded.None? {
        return Ok(()), made;
      }
      var saga := loaded.value;
      match saga.state {
        case Running => saga, made := TickRunningStep(saga, p, made, now);
        case Compensating => saga, made := TickCompensatingLoop(saga, p, made, now);
        case _ =>
      }
      saga := saga.(updatedAt := now);
      TickKeepsRequest(loaded.value, p, calls, now);
      r := store.Save(saga);
    }

    method TickRunningStep(saga: Saga, p: Participant, calls: Calls, now: int) returns (t: Saga, made: Calls)
      ensures (t, made) == TickRunning(saga, p, calls, now)
    {
      t, made := saga, calls;
      if t.cursor >= |t.steps| {
        t := t.(state := Completed);
        return;
      }
      var i := t.cursor;
      if t.steps[i].state == Succeeded {
        t := t.(cursor := t.cursor + 1);
        if t.cursor >= |t.steps| {
          t := t.(state := Completed);
        }
        return;
      }
      var step := t.steps[i].(state := InFlight);
      if step.startedAt.None? {
        step := step.(startedAt := Some(now));
      }
      var answer := p(|made|);
      made := made + [Execute(i, step.def.actionUri, answer)];
      match answer {
        case Yes =>
          step := step.(state := Succeeded, completedAt := Some(now));
          t := t.(steps := t.steps[i := step], cursor := t.cursor + 1);
          if t.cursor >= |t.steps| {
            t := t.(state := Completed);
          }
        case No =>
          step := step.(state := Broken, lastError := Some(EXECUTE_REFUSED));
          t := t.(steps := t.steps[i := step], state := Compensating, cursor := i + 1);
        case Error(message) =>
          step := step.(state := Broken, lastError := Some(message));
          t := t.(steps := t.steps[i := step], state := Compensating, cursor := i + 1);
      }
    }

    method TickCompensatingLoop(saga: Saga, p: Participant, calls: Calls, now: int) returns (t: Saga, made: Calls)
      requires InRange(saga)
      ensures (t, made) == TickCompensating(saga, p, calls, now)
    {
      t, made := saga, calls;
      while true
        invariant InRange(t)
        invariant TickCompensating(saga, p, calls, now) == TickCompensating(t, p, made, now)
        decreases t.cursor
      {
        if t.cursor == 0 {
          t := t.(state := Cancelled);
          return;
        }
        var i := t.cursor - 1;
        var step := t.steps[i];
        if step.state == Compensated || step.state == Skipped {
          t := t.(cursor := i);
          continue;
        }
        if step.def.compensateUri.None? {
          t := t.(steps := t.steps[i := step.(state := Skipped)], cursor := i);
          if t.cursor == 0 {
            t := t.(state := Failed);
          }
          continue;
        }
        var answer := p(|made|);
        made := made + [Undo(i, step.def.compensateUri.value, answer)];
        match answer {
          case Yes =>
            t := t.(steps := t.steps[i := step.(state := Compensated, completedAt := Some(now))], cursor := i);
          case No =>
            t := t.(steps := t.steps[i := step.(lastError := Some(UNDO_REFUSED))], state := Failed);
            return;
          case Error(message) =>
            t := t.(steps := t.steps[i := step.(lastError := Some(message))], state := Failed);
            return;
        }
      }
    }
  }

  /** What no tick changes. */
  predicate SameRequest(a: Saga, b: Saga) {
    a.id == b.id && a.tenant == b.tenant && a.defName == b.defName && a.createdAt == b.createdAt
    && a.timeoutAt == b.timeoutAt
  }

  lemma {:induction false} CompensatingKeepsRequest(saga: Saga, p: Participant, calls: Calls, now: int)
    requires InRange(saga)
    ensures SameRequest(saga, TickCompensating(saga, p, calls, now).0)
    decreases saga.cursor
  {
    if saga.cursor > 0 {
      var i := saga.cursor - 1;
      var step := saga.steps[i];
      if step.state == Compensated || step.state == Skipped {
        CompensatingKeepsRequest(saga.(cursor := i), p, calls, now);
      } else if step.def.compensateUri.None? {
        var skipped := WithStep(saga, i, step.(state := Skipped)).(cursor := i);
        CompensatingKeepsRequest(if i == 0 then skipped.(state := Failed) else skipped, p, calls, now);
      } else if p(|calls|) == Yes {
        CompensatingKeepsRequest(WithStep(saga, i, step.(state := Compensated, completedAt := Some(now))).(cursor := i),
                                 p, calls + [Undo(i, step.def.compensateUri.value, Yes)], now);
      }
    }
  }

  lemma TickKeepsRequest(saga: Saga, p: Participant, calls: Calls, now: int)
    requires InRange(saga)
    ensures SameRequest(saga, Ticked(saga, p, calls, now).0)
  {
    if saga.state == Compensating {
      CompensatingKeepsRequest(saga, p, calls, now);
    }
  }
}
