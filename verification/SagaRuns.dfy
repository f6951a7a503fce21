/** What a whole saga run does, told without the orchestrator: which calls are made in which
    order, how it ends, and when. */
module SagaRuns {
  import opened Wrappers
  import opened Saga

  // ----- the run, from the definition and the answers alone -----

  /** The first step that does not succeed, or the number of steps. */
  function FirstFailure(p: Participant, i: nat, n: nat): (k: nat)
    requires i <= n
    ensures i <= k <= n
    decreases n - i
  {
    if i == n || p(i) != Yes then i else FirstFailure(p, i + 1, n)
  }

  /** Steps 0..k executed once each, in order. */
  function Executions(defs: seq<StepDef>, p: Participant, k: nat): Calls
    requires k <= |defs|
  {
    if k == 0 then [] else Executions(defs, p, k - 1) + [Execute(k - 1, defs[k - 1].actionUri, p(k - 1))]
  }

  predicate Undoable(defs: seq<StepDef>, order: seq<nat>) {
    forall i | 0 <= i < |order| :: order[i] < |defs| && defs[order[i]].compensateUri.Some?
  }

  /** The steps below `c` that can be compensated, in descending order. */
  function UndoOrder(defs: seq<StepDef>, c: nat): seq<nat>
    requires c <= |defs|
    ensures Undoable(defs, UndoOrder(defs, c))
  {
    if c == 0 then [] else (if defs[c - 1].compensateUri.Some? then [c - 1] else []) + UndoOrder(defs, c - 1)
  }

  /** Compensations in the given order, cut after the first that is not answered Yes. */
  function Undone(defs: seq<StepDef>, p: Participant, order: seq<nat>, base: nat): Calls
    requires Undoable(defs, order)
  {
    if order == [] then []
    else
      [Undo(order[0], defs[order[0]].compensateUri.value, p(base))]
      + if p(base) == Yes then Undone(defs, p, order[1..], base + 1) else []
  }

  /** All of `n` answers from the `base`-th on are Yes. */
  predicate AllYes(p: Participant, base: nat, n: nat)
    decreases n
  {
    n == 0 || (p(base) == Yes && AllYes(p, base + 1, n - 1))
  }

  predicate SameDefs(saga: Saga, defs: seq<StepDef>) {
    |saga.steps| == |defs| && forall i | 0 <= i < |defs| :: saga.steps[i].def == defs[i]
  }

  // ----- descending order, stated on its own -----

  /** Strictly descending, from below `c`. */
  predicate DescendingFrom(order: seq<nat>, c: nat) {
    order == [] || (order[0] < c && DescendingFrom(order[1..], order[0]))
  }

  /** The compensation order goes from the highest step down ... */
  lemma {:induction false} UndoOrderIsDescending(defs: seq<StepDef>, c: nat)
    requires c <= |defs|
    ensures DescendingFrom(UndoOrder(defs, c), c)
  {
    if c > 0 {
      UndoOrderIsDescending(defs, c - 1);
      var order := UndoOrder(defs, c);
      if defs[c - 1].compensateUri.Some? {
        assert order[1..] == UndoOrder(defs, c - 1);
      } else {
        assert order == UndoOrder(defs, c - 1);
      }
    }
  }

  /** ... and lists exactly the steps below `c` that have a compensation. */
  lemma {:induction false} UndoOrderLists(defs: seq<StepDef>, c: nat, x: nat)
    requires c <= |defs|
    ensures x in UndoOrder(defs, c) <==> x < c && defs[x].compensateUri.Some?
  {
    if c > 0 {
      UndoOrderLists(defs, c - 1, x);
    }
  }

  // ----- forward -----

  /** The saga while it runs: steps below the cursor succeeded, each in its own tick, and the rest are
      untouched. */
  ghost predicate RunningAt(saga: Saga, defs: seq<StepDef>, clock: nat -> int, k: nat) {
    && SameDefs(saga, defs) && k <= |defs|
    && saga.cursor == k
    && (forall i | 0 <= i < k :: saga.steps[i] == Step(defs[i], Succeeded, None, Some(clock(i)), Some(clock(i))))
    && (forall i | k <= i < |defs| :: saga.steps[i] == Step(defs[i], Ready, None, None, None))
  }

  lemma OneForwardTick(saga: Saga, defs: seq<StepDef>, p: Participant, calls: Calls, clock: nat -> int, k: nat)
    requires RunningAt(saga, defs, clock, k) && saga.state == Running && k < |defs|
    requires |calls| == k && p(k) == Yes
    ensures var (t, made) := Ticked(saga, p, calls, clock(k));
            && RunningAt(t, defs, clock, k + 1)
            && made == calls + [Execute(k, defs[k].actionUri, Yes)]
            && t.state == if k + 1 == |defs| then Completed else Running
  {
  }

  /** Each tick of a running saga executes exactly the next step. */
  lemma {:induction false} ForwardTicks(start: Saga, defs: seq<StepDef>, p: Participant, clock: nat -> int, n: nat)
    requires FreshRun(start, defs)
    requires n <= FirstFailure(p, 0, |defs|)
    ensures var (saga, calls) := AfterTicks(start, p, clock, n);
            && RunningAt(saga, defs, clock, n) && calls == Executions(defs, p, n) && |calls| == n
            && saga.state == if n == |defs| && n > 0 then Completed else Running
  {
    if n > 0 {
      ForwardTicks(start, defs, p, clock, n - 1);
      FirstFailureMeans(p, 0, |defs|);
      var (saga, calls) := AfterTicks(start, p, clock, n - 1);
      OneForwardTick(saga, defs, p, calls, clock, n - 1);
    }
  }

  lemma {:induction false} FirstFailureMeans(p: Participant, i: nat, n: nat)
    requires i <= n
    ensures var k := FirstFailure(p, i, n);
            (forall j | i <= j < k :: p(j) == Yes) && (k < n ==> p(k) != Yes)
    decreases n - i
  {
    if i < n && p(i) == Yes {
      FirstFailureMeans(p, i + 1, n);
    }
  }

  // ----- backward -----

  /** What compensation leaves: above the step where it stopped every step below the old cursor
      is compensated if it can be and skipped if not; the rest keep their states. */
  ghost predicate Unwound(before: Saga, after: Saga, c: nat, stop: nat) {
    && stop <= c <= |before.steps| && |after.steps| == |before.steps|
    && (forall i | 0 <= i < |before.steps| :: after.steps[i].def == before.steps[i].def)
    && (forall i | stop <= i < c ::
          after.steps[i].state == if before.steps[i].def.compensateUri.Some? then Compensated else Skipped)
    && (forall i | 0 <= i < stop :: after.steps[i].state == before.steps[i].state)
    && (forall i | c <= i < |before.steps| :: after.steps[i] == before.steps[i])
  }

  /** The last call was the compensation of the step below the cursor, and was not answered Yes; the step
      says why. */
  predicate CutAt(made: Calls, t: Saga) {
    && made != [] && 0 < t.cursor <= |t.steps|
    && var last, step := made[|made| - 1], t.steps[t.cursor - 1];
       && last.Undo? && last.step + 1 == t.cursor && last.answer != Yes
       && step.lastError == Some(if last.answer.No? then "compensate returned failure" else last.answer.message)
  }

  /** What one compensating tick does, told from the definitions and the answers: it makes
      exactly the compensations below the cursor, in descending order, cut at the first that is
      not answered Yes; it ends Cancelled if none was cut and Failed otherwise, with the cursor
      just above the step at which it was cut. */
  ghost predicate Compensates(saga: Saga, defs: seq<StepDef>, p: Participant, calls: Calls, t: Saga, made: Calls) {
    && CallsBelow(saga.cursor, defs, p, calls, t, made)
    && t.cursor <= saga.cursor && Unwound(saga, t, saga.cursor, t.cursor)
  }

  /** The calls and the end of a compensation from below step `c`. */
  ghost predicate CallsBelow(c: nat, defs: seq<StepDef>, p: Participant, calls: Calls, t: Saga, made: Calls) {
    && c <= |defs|
    && made == calls + Undone(defs, p, UndoOrder(defs, c), |calls|)
    && t.state == (if AllYes(p, |calls|, |UndoOrder(defs, c)|) then Cancelled else Failed)
    && (t.state == Cancelled ==> t.cursor == 0)
    && (t.state == Failed ==> CutAt(made, t))
  }

  lemma SkippedCalls(c: nat, defs: seq<StepDef>, p: Participant, calls: Calls, t: Saga, made: Calls)
    requires c < |defs| && defs[c].compensateUri.None? && CallsBelow(c, defs, p, calls, t, made)
    ensures CallsBelow(c + 1, defs, p, calls, t, made)
  {
    assert UndoOrder(defs, c + 1) == UndoOrder(defs, c);
  }

  lemma UndoneCalls(c: nat, defs: seq<StepDef>, p: Participant, calls: Calls, t: Saga, made: Calls)
    requires c < |defs| && defs[c].compensateUri.Some? && p(|calls|) == Yes
    requires CallsBelow(c, defs, p, calls + [Undo(c, defs[c].compensateUri.value, Yes)], t, made)
    ensures CallsBelow(c + 1, defs, p, calls, t, made)
  {
    var order, call := UndoOrder(defs, c + 1), Undo(c, defs[c].compensateUri.value, Yes);
    assert order[0] == c && order[1..] == UndoOrder(defs, c);
    var rest := Undone(defs, p, order[1..], |calls| + 1);
    assert Undone(defs, p, order, |calls|) == [call] + rest;
    assert calls + [call] + rest == calls + ([call] + rest);
  }

  ghost predicate NotYetUndone(saga: Saga) {
    saga.cursor <= |saga.steps|
    && forall i | 0 <= i < saga.cursor :: saga.steps[i].state != Compensated && saga.steps[i].state != Skipped
  }

  /** One more step is done with, above those already unwound. */
  lemma UnwoundOneMore(saga: Saga, next: Saga, t: Saga, c: nat, state: StepState)
    requires c < |saga.steps| && t.cursor <= c && Unwound(next, t, c, t.cursor)
    requires |next.steps| == |saga.steps| && next.steps[c].def == saga.steps[c].def && next.steps[c].state == state
    requires forall i | 0 <= i < |saga.steps| && i != c :: next.steps[i] == saga.steps[i]
    requires state == if saga.steps[c].def.compensateUri.Some? then Compensated else Skipped
    ensures Unwound(saga, t, c + 1, t.cursor)
  {
  }

  lemma SkippedThenCompensates(saga: Saga, next: Saga, defs: seq<StepDef>, p: Participant, calls: Calls, t: Saga,
                               made: Calls)
    requires SameDefs(saga, defs) && 0 < saga.cursor <= |defs| && next.cursor == saga.cursor - 1
    requires saga.steps[next.cursor].def.compensateUri.None?
    requires next.steps == saga.steps[next.cursor := saga.steps[next.cursor].(state := Skipped)]
    requires Compensates(next, defs, p, calls, t, made)
    ensures Compensates(saga, defs, p, calls, t, made)
  {
    SkippedCalls(next.cursor, defs, p, calls, t, made);
    UnwoundOneMore(saga, next, t, next.cursor, Skipped);
  }

  lemma UndoneThenCompensates(saga: Saga, next: Saga, defs: seq<StepDef>, p: Participant, calls: Calls, now: int,
                              t: Saga, made: Calls)
    requires SameDefs(saga, defs) && 0 < saga.cursor <= |defs| && next.cursor == saga.cursor - 1
    requires saga.steps[next.cursor].def.compensateUri.Some? && p(|calls|) == Yes
    requires var undone := saga.steps[next.cursor].(state := Compensated, completedAt := Some(now));
             next.steps == saga.steps[next.cursor := undone]
    requires Compensates(next, defs, p, calls + [Undo(next.cursor, defs[next.cursor].compensateUri.value, Yes)], t,
                         made)
    ensures Compensates(saga, defs, p, calls, t, made)
  {
    UndoneCalls(next.cursor, defs, p, calls, t, made);
    UnwoundOneMore(saga, next, t, next.cursor, Compensated);
  }

  lemma CutCompensates(saga: Saga, t: Saga, defs: seq<StepDef>, p: Participant, calls: Calls, error: string)
    requires SameDefs(saga, defs) && 0 < saga.cursor <= |defs|
    requires var i := saga.cursor - 1;
             && saga.steps[i].def.compensateUri.Some? && p(|calls|) != Yes
             && error == (if p(|calls|).No? then "compensate returned failure" else p(|calls|).message)
             && t == WithStep(saga, i, saga.steps[i].(lastError := Some(error))).(state := Failed)
    ensures var i := saga.cursor - 1;
            Compensates(saga, defs, p, calls, t, calls + [Undo(i, defs[i].compensateUri.value, p(|calls|))])
  {
    var order := UndoOrder(defs, saga.cursor);
    assert order[0] == saga.cursor - 1;
    assert Undone(defs, p, order, |calls|) == [Undo(order[0], defs[order[0]].compensateUri.value, p(|calls|))];
  }

  lemma NextNotYetUndone(saga: Saga, next: Saga, defs: seq<StepDef>)
    requires SameDefs(saga, defs) && NotYetUndone(saga) && 0 < saga.cursor && next.cursor == saga.cursor - 1
    requires |next.steps| == |saga.steps| && next.steps[next.cursor].def == saga.steps[next.cursor].def
    requires forall i | 0 <= i < |saga.steps| && i != next.cursor :: next.steps[i] == saga.steps[i]
    ensures SameDefs(next, defs) && NotYetUndone(next)
  {
  }

  lemma SkipUnfolds(saga: Saga, next: Saga, p: Participant, calls: Calls, now: int)
    requires 0 < saga.cursor <= |saga.steps|
    requires var i := saga.cursor - 1;
             && saga.steps[i].state != Compensated && saga.steps[i].state != Skipped
             && saga.steps[i].def.compensateUri.None?
             && var skipped := WithStep(saga, i, saga.steps[i].(state := Skipped)).(cursor := i);
                next == if i == 0 then skipped.(state := Failed) else skipped
    ensures InRange(next) && TickCompensating(saga, p, calls, now) == TickCompensating(next, p, calls, now)
  {
  }

  lemma SkipUnwinds(saga: Saga, defs: seq<StepDef>, p: Participant, calls: Calls, now: int)
    returns (t: Saga, made: Calls)
    requires SameDefs(saga, defs) && NotYetUndone(saga) && saga.cursor > 0
    requires saga.steps[saga.cursor - 1].def.compensateUri.None?
    ensures (t, made) == TickCompensating(saga, p, calls, now) && Compensates(saga, defs, p, calls, t, made)
    decreases saga.cursor, 0
  {
    var i := saga.cursor - 1;
    var skipped := WithStep(saga, i, saga.steps[i].(state := Skipped)).(cursor := i);
    var next := if i == 0 then skipped.(state := Failed) else skipped;
    NextNotYetUndone(saga, next, defs);
    SkipUnfolds(saga, next, p, calls, now);
    t, made := CompensationUnwinds(next, defs, p, calls, now);
    SkippedThenCompensates(saga, next, defs, p, calls, t, made);
  }

  lemma UndoUnwinds(saga: Saga, defs: seq<StepDef>, p: Participant, calls: Calls, now: int)
    returns (t: Saga, made: Calls)
    requires SameDefs(saga, defs) && NotYetUndone(saga) && saga.cursor > 0
    requires saga.steps[saga.cursor - 1].def.compensateUri.Some? && p(|calls|) == Yes
    ensures (t, made) == TickCompensating(saga, p, calls, now) && Compensates(saga, defs, p, calls, t, made)
    decreases saga.cursor, 0
  {
    var i := saga.cursor - 1;
    var next := WithStep(saga, i, saga.steps[i].(state := Compensated, completedAt := Some(now))).(cursor := i);
    NextNotYetUndone(saga, next, defs);
    t, made := CompensationUnwinds(next, defs, p, calls + [Undo(i, defs[i].compensateUri.value, Yes)], now);
    UndoneThenCompensates(saga, next, defs, p, calls, now, t, made);
  }

  /** One compensating tick, whatever the cursor. */
  lemma {:induction false} CompensationUnwinds(saga: Saga, defs: seq<StepDef>, p: Participant, calls: Calls, now: int)
    returns (t: Saga, made: Calls)
    requires SameDefs(saga, defs) && NotYetUndone(saga)
    ensures (t, made) == TickCompensating(saga, p, calls, now) && Compensates(saga, defs, p, calls, t, made)
    decreases saga.cursor, 1
  {
    if saga.cursor == 0 {
      t, made := saga.(state := Cancelled), calls;
      assert UndoOrder(defs, 0) == [] && calls + [] == calls;
    } else if saga.steps[saga.cursor - 1].def.compensateUri.None? {
      t, made := SkipUnwinds(saga, defs, p, calls, now);
    } else if p(|calls|) == Yes {
      t, made := UndoUnwinds(saga, defs, p, calls, now);
    } else {
      var i, error := saga.cursor - 1, if p(|calls|).No? then UNDO_REFUSED else p(|calls|).message;
      t := WithStep(saga, i, saga.steps[i].(lastError := Some(error))).(state := Failed);
      made := calls + [Undo(i, defs[i].compensateUri.value, p(|calls|))];
      CutCompensates(saga, t, defs, p, calls, error);
    }
  }

  // ----- the whole run -----

  predicate Terminal(state: SagaState) {
    state == Completed || state == Failed || state == Cancelled || state == Paused
  }

  /** A saga in a terminal state only gets a new update time. */
  lemma {:induction false} TerminalStays(start: Saga, p: Participant, clock: nat -> int, m: nat, n: nat)
    requires InRange(start) && m <= n
    requires Terminal(AfterTicks(start, p, clock, m).0.state)
    ensures var (s, made) := AfterTicks(start, p, clock, m);
            var (t, made') := AfterTicks(start, p, clock, n);
            made' == made && t == s.(updatedAt := t.updatedAt)
  {
    if m < n {
      TerminalStays(start, p, clock, m, n - 1);
    }
  }

  /** Step `k` has just failed; nothing is compensated yet. */
  ghost predicate JustFailed(saga: Saga, calls: Calls, defs: seq<StepDef>, p: Participant, clock: nat -> int, k: nat)
  {
    && SameDefs(saga, defs) && k < |defs| && saga.state == Compensating && saga.cursor == k + 1
    && calls == Executions(defs, p, k + 1) && |calls| == k + 1
    && (forall i | 0 <= i < k :: saga.steps[i] == Step(defs[i], Succeeded, None, Some(clock(i)), Some(clock(i))))
    && p(k) != Yes
    && saga.steps[k] == Step(defs[k], Broken, Some(if p(k).No? then "step returned failure" else p(k).message),
                             Some(clock(k)), None)
    && (forall i | k < i < |defs| :: saga.steps[i] == Step(defs[i], Ready, None, None, None))
  }

  lemma OneFailingTick(saga: Saga, defs: seq<StepDef>, p: Participant, calls: Calls, clock: nat -> int, k: nat)
    returns (t: Saga, made: Calls)
    requires RunningAt(saga, defs, clock, k) && saga.state == Running && k < |defs|
    requires calls == Executions(defs, p, k) && |calls| == k && p(k) != Yes
    ensures (t, made) == Ticked(saga, p, calls, clock(k)) && JustFailed(t, made, defs, p, clock, k)
  {
    var ticked := Ticked(saga, p, calls, clock(k));
    t, made := ticked.0, ticked.1;
  }

  /** The tick after which step `k` has failed. */
  lemma FailingTick(start: Saga, defs: seq<StepDef>, p: Participant, clock: nat -> int, k: nat)
    returns (t: Saga, made: Calls)
    requires FreshRun(start, defs) && k == FirstFailure(p, 0, |defs|) && k < |defs|
    ensures (t, made) == AfterTicks(start, p, clock, k + 1) && JustFailed(t, made, defs, p, clock, k)
  {
    ForwardTicks(start, defs, p, clock, k);
    FirstFailureMeans(p, 0, |defs|);
    var (saga, calls) := AfterTicks(start, p, clock, k);
    t, made := OneFailingTick(saga, defs, p, calls, clock, k);
  }

  /** A started saga of `n` steps all of whose executions are answered Yes: it executes every
      step once in order, and is Completed after max(n, 1) ticks. */
  lemma SuccessfulRun(start: Saga, defs: seq<StepDef>, p: Participant, clock: nat -> int, n: nat)
    requires FreshRun(start, defs) && FirstFailure(p, 0, |defs|) == |defs|
    requires n >= |defs| && n >= 1
    ensures var (saga, calls) := AfterTicks(start, p, clock, n);
            && saga.state == Completed && calls == Executions(defs, p, |defs|)
            && |saga.steps| == |defs|
            && forall i | 0 <= i < |defs| ::
                 saga.steps[i] == Step(defs[i], Succeeded, None, Some(clock(i)), Some(clock(i)))
  {
    ForwardTicks(start, defs, p, clock, |defs|);
    if |defs| == 0 {
      assert AfterTicks(start, p, clock, 1).0.state == Completed;
      TerminalStays(start, p, clock, 1, n);
    } else {
      TerminalStays(start, p, clock, |defs|, n);
    }
  }

  /** How a saga stands after step `k` failed and compensation came down to the cursor: from there
      to `k` every step is compensated, or skipped for having no compensation; below it the steps
      are as they were before; above `k` they were never touched. */
  ghost predicate UnwoundFrom(saga: Saga, defs: seq<StepDef>, k: nat) {
    && SameDefs(saga, defs) && k < |defs| && saga.cursor <= k + 1
    && (forall i | saga.cursor <= i <= k ::
          saga.steps[i].state == if defs[i].compensateUri.Some? then Compensated else Skipped)
    && (forall i | 0 <= i < saga.cursor :: saga.steps[i].state == if i == k then Broken else Succeeded)
    && (forall i | k < i < |defs| :: saga.steps[i].state == Ready)
  }

  /** How a run ends whose step `k` failed: executions 0..k, then the compensations below in
      descending order, cut at the first not answered Yes; Cancelled if none was cut, and Failed
      otherwise, with the cursor just above the cut. */
  ghost predicate EndsUnwound(saga: Saga, calls: Calls, defs: seq<StepDef>, p: Participant, k: nat) {
    && k < |defs| && UnwoundFrom(saga, defs, k)
    && calls == Executions(defs, p, k + 1) + Undone(defs, p, UndoOrder(defs, k + 1), k + 1)
    && saga.state == (if AllYes(p, k + 1, |UndoOrder(defs, k + 1)|) then Cancelled else Failed)
    && (saga.state == Cancelled ==> saga.cursor == 0)
    && (saga.state == Failed ==> CutAt(calls, saga))
  }

  /** A started saga whose `k`-th execution is the first not answered Yes: it executes steps
      0..k once each in order; then it compensates exactly the steps among them that have a
      compensation, in descending order, cut at the first compensation not answered Yes; and
      from tick k+2 on it is Cancelled if none was cut, with every executed step compensated or
      skipped, and Failed otherwise, with exactly the steps above the cut compensated or
      skipped. */
  lemma FailedRun(start: Saga, defs: seq<StepDef>, p: Participant, clock: nat -> int, n: nat)
    returns (saga: Saga, calls: Calls)
    requires FreshRun(start, defs) && FirstFailure(p, 0, |defs|) < |defs|
    requires n >= FirstFailure(p, 0, |defs|) + 2
    ensures (saga, calls) == AfterTicks(start, p, clock, n)
    ensures EndsUnwound(saga, calls, defs, p, FirstFailure(p, 0, |defs|))
  {
    var k := FirstFailure(p, 0, |defs|);
    var failed, made := FailingTick(start, defs, p, clock, k);
    saga, calls := TicksAfterFailure(start, defs, p, clock, k, failed, made, n);
  }

  lemma {:induction false} TicksAfterFailure(start: Saga, defs: seq<StepDef>, p: Participant, clock: nat -> int,
                                             k: nat, failed: Saga, made: Calls, n: nat)
    returns (saga: Saga, calls: Calls)
    requires InRange(start) && n >= k + 2
    requires (failed, made) == AfterTicks(start, p, clock, k + 1) && JustFailed(failed, made, defs, p, clock, k)
    ensures (saga, calls) == AfterTicks(start, p, clock, n) && EndsUnwound(saga, calls, defs, p, k)
    decreases n
  {
    if n == k + 2 {
      saga, calls := TickAfterFailed(start, defs, p, clock, k, failed, made, n);
    } else {
      var before, earlier := TicksAfterFailure(start, defs, p, clock, k, failed, made, n - 1);
      saga, calls := TickAfterEnded(start, defs, p, clock, k, before, earlier, n);
    }
  }

  lemma TickAfterFailed(start: Saga, defs: seq<StepDef>, p: Participant, clock: nat -> int, k: nat, failed: Saga,
                        made: Calls, n: nat)
    returns (saga: Saga, calls: Calls)
    requires InRange(start) && n > 0
    requires (failed, made) == AfterTicks(start, p, clock, n - 1) && JustFailed(failed, made, defs, p, clock, k)
    ensures (saga, calls) == AfterTicks(start, p, clock, n) && EndsUnwound(saga, calls, defs, p, k)
  {
    saga, calls := CompensatingTick(failed, made, defs, p, clock, clock(n - 1), k);
  }

  lemma TickAfterEnded(start: Saga, defs: seq<StepDef>, p: Participant, clock: nat -> int, k: nat, ended: Saga,
                       made: Calls, n: nat)
    returns (saga: Saga, calls: Calls)
    requires InRange(start) && n > 0
    requires (ended, made) == AfterTicks(start, p, clock, n - 1) && EndsUnwound(ended, made, defs, p, k)
    ensures (saga, calls) == AfterTicks(start, p, clock, n) && EndsUnwound(saga, calls, defs, p, k)
  {
    saga, calls := EndedTick(ended, made, defs, p, clock(n - 1), k);
  }

  lemma EndedTick(saga: Saga, calls: Calls, defs: seq<StepDef>, p: Participant, now: int, k: nat)
    returns (t: Saga, made: Calls)
    requires EndsUnwound(saga, calls, defs, p, k) && InRange(saga)
    ensures (t, made) == Ticked(saga, p, calls, now) && EndsUnwound(t, made, defs, p, k)
  {
    t, made := saga.(updatedAt := now), calls;
  }

  lemma CompensatingTick(saga: Saga, calls: Calls, defs: seq<StepDef>, p: Participant, clock: nat -> int, now: int,
                         k: nat)
    returns (t: Saga, made: Calls)
    requires JustFailed(saga, calls, defs, p, clock, k)
    ensures (t, made) == Ticked(saga, p, calls, now) && EndsUnwound(t, made, defs, p, k)
  {
    var end;
    end, made := CompensationUnwinds(saga, defs, p, calls, now);
    CompensatedEnds(saga, calls, defs, p, clock, k, end, made);
    t := end.(updatedAt := now);
    Restamped(end, made, defs, p, k, now);
  }

  lemma CompensatedEnds(saga: Saga, calls: Calls, defs: seq<StepDef>, p: Participant, clock: nat -> int, k: nat,
                        t: Saga, made: Calls)
    requires JustFailed(saga, calls, defs, p, clock, k) && Compensates(saga, defs, p, calls, t, made)
    ensures EndsUnwound(t, made, defs, p, k)
  {
    UnwoundEnds(saga, t, defs, k);
  }

  lemma Restamped(t: Saga, made: Calls, defs: seq<StepDef>, p: Participant, k: nat, now: int)
    requires EndsUnwound(t, made, defs, p, k)
    ensures EndsUnwound(t.(updatedAt := now), made, defs, p, k)
  {
  }

  lemma UnwoundEnds(saga: Saga, t: Saga, defs: seq<StepDef>, k: nat)
    requires SameDefs(saga, defs) && k < |defs| && saga.cursor == k + 1
    requires Unwound(saga, t, k + 1, t.cursor)
    requires forall i | 0 <= i < k :: saga.steps[i].state == Succeeded
    requires saga.steps[k].state == Broken && forall i | k < i < |defs| :: saga.steps[i].state == Ready
    ensures UnwoundFrom(t, defs, k)
  {
  }

  /** Every started saga is in a terminal state after at most n+1 ticks. */
  lemma EveryRunTerminates(start: Saga, defs: seq<StepDef>, p: Participant, clock: nat -> int, n: nat)
    requires FreshRun(start, defs)
    requires n >= |defs| + 1
    ensures Terminal(AfterTicks(start, p, clock, n).0.state)
  {
    if FirstFailure(p, 0, |defs|) == |defs| {
      SuccessfulRun(start, defs, p, clock, n);
    } else {
      var _, _ := FailedRun(start, defs, p, clock, n);
    }
  }

  // ----- from start to end -----

  lemma {:induction false} TicksKeepRequest(start: Saga, p: Participant, clock: nat -> int, n: nat)
    requires InRange(start)
    ensures SameRequest(start, AfterTicks(start, p, clock, n).0)
    ensures n > 0 ==> AfterTicks(start, p, clock, n).0.updatedAt == clock(n - 1)
  {
    if n > 0 {
      TicksKeepRequest(start, p, clock, n - 1);
      var (saga, calls) := AfterTicks(start, p, clock, n - 1);
      TickKeepsRequest(saga, p, calls, clock(n - 1));
    }
  }

  /** The whole run of a saga that was started for a definition, after enough ticks: it is still that saga;
      if no execution fails, every step was executed once, in order, and it is Completed; and if the k-th
      is the first that fails, steps 0..k were executed and then unwound. */
  lemma StartedRun(start: Saga, id: string, tenant: string, defName: string, defs: seq<StepDef>, timeoutAt: Option<int>,
                   t0: int, p: Participant, clock: nat -> int, n: nat)
    requires IsStarted(start, id, tenant, defName, defs, timeoutAt, t0) && n >= |defs| + 1
    ensures var (saga, calls) := AfterTicks(start, p, clock, n);
            && saga.id == id && saga.tenant == tenant && saga.defName == defName && saga.timeoutAt == timeoutAt
            && saga.createdAt == t0 && saga.updatedAt == clock(n - 1)
    ensures var (saga, calls) := AfterTicks(start, p, clock, n);
            var k := FirstFailure(p, 0, |defs|);
            if k == |defs| then
              && saga.state == Completed && calls == Executions(defs, p, |defs|) && |saga.steps| == |defs|
              && forall i | 0 <= i < |defs| ::
                   saga.steps[i] == Step(defs[i], Succeeded, None, Some(clock(i)), Some(clock(i)))
            else EndsUnwound(saga, calls, defs, p, k)
  {
    TicksKeepRequest(start, p, clock, n);
    if FirstFailure(p, 0, |defs|) == |defs| {
      SuccessfulRun(start, defs, p, clock, n);
    } else {
      var _, _ := FailedRun(start, defs, p, clock, n);
    }
  }
}
