/** The fixed-window budget guard: how many dispatches it admits over any stretch of time. */
module BudgetGuard {
  import opened Wrappers

  datatype BudgetConfig = BudgetConfig(maxInflight: Option<nat>, maxDispatch: Option<nat>, windowSeconds: Option<nat>)

  datatype TenantBudget = TenantBudget(inflight: nat, windowStart: int, windowCount: nat)

  const FRESH := TenantBudget(0, 0, 0)

  /** `as i64` on an unsigned 64-bit value. */
  function AsI64(n: nat): int {
    if n < 0x8000_0000_0000_0000 then n else n - 0x1_0000_0000_0000_0000
  }

  function WindowMs(seconds: nat): (ms: int)
    requires seconds < 0x1_0000_0000_0000_0000
    ensures ms >= 1000
    ensures 1 <= seconds < 0x8000_0000_0000_0000 ==> ms == seconds * 1000
    ensures seconds == 0 || seconds >= 0x8000_0000_0000_0000 ==> ms == 1000
  {
    (if AsI64(seconds) < 1 then 1 else AsI64(seconds)) * 1000
  }

  predicate ValidConfig(cfg: BudgetConfig) {
    cfg.windowSeconds.Some? ==> cfg.windowSeconds.value < 0x1_0000_0000_0000_0000
  }

  predicate Windowed(cfg: BudgetConfig) {
    cfg.maxDispatch.Some? && cfg.windowSeconds.Some?
  }

  /** The window in force at `now`: the current one, or a fresh one that starts now. */
  function Rolled(b: TenantBudget, window: int, now: int): TenantBudget {
    if now - b.windowStart >= window then b.(windowStart := now, windowCount := 0) else b
  }

  /** One dispatch attempt: the budget it leaves, and whether it is admitted. */
  function Attempted(cfg: BudgetConfig, b: TenantBudget, now: int): (TenantBudget, bool)
    requires ValidConfig(cfg)
  {
    if cfg.maxInflight.Some? && b.inflight >= cfg.maxInflight.value then (b, false)
    else if Windowed(cfg) then
      var r := Rolled(b, WindowMs(cfg.windowSeconds.value), now);
      if r.windowCount >= cfg.maxDispatch.value then (r, false)
      else (r.(windowCount := r.windowCount + 1, inflight := r.inflight + 1), true)
    else (b.(inflight := b.inflight + 1), true)
  }

  function Finished(b: TenantBudget): TenantBudget {
    if b.inflight > 0 then b.(inflight := b.inflight - 1) else b
  }

  // ----- runs -----

  datatype Call = Attempt(tenant: string, now: int) | Finish(tenant: string)

  type Calls = seq<Call>

  function BudgetAfter(cfg: BudgetConfig, calls: Calls, tenant: string): TenantBudget
    requires ValidConfig(cfg)
  {
    if calls == [] then FRESH
    else
      var b := BudgetAfter(cfg, calls[..|calls| - 1], tenant);
      match calls[|calls| - 1]
      case Attempt(t, now) => if t == tenant then Attempted(cfg, b, now).0 else b
      case Finish(t) => if t == tenant then Finished(b) else b
  }

  /** The last call is an attempt of the tenant, and it is admitted. */
  predicate LastAdmitted(cfg: BudgetConfig, calls: Calls, tenant: string)
    requires ValidConfig(cfg) && calls != []
  {
    var last := calls[|calls| - 1];
    last.Attempt? && last.tenant == tenant && Attempted(cfg, BudgetAfter(cfg, calls[..|calls| - 1], tenant), last.now).1
  }

  /** Dispatches of the tenant admitted at times in `[from, to)`. */
  function Admitted(cfg: BudgetConfig, calls: Calls, tenant: string, from: int, to: int): nat
    requires ValidConfig(cfg)
  {
    if calls == [] then 0
    else
      Admitted(cfg, calls[..|calls| - 1], tenant, from, to)
      + if LastAdmitted(cfg, calls, tenant) && from <= calls[|calls| - 1].now < to then 1 else 0
  }

  function AdmittedEver(cfg: BudgetConfig, calls: Calls, tenant: string): nat
    requires ValidConfig(cfg)
  {
    if calls == [] then 0
    else AdmittedEver(cfg, calls[..|calls| - 1], tenant) + if LastAdmitted(cfg, calls, tenant) then 1 else 0
  }

  function FinishedEver(calls: Calls, tenant: string): nat {
    if calls == [] then 0
    else FinishedEver(calls[..|calls| - 1], tenant) + if calls[|calls| - 1] == Finish(tenant) then 1 else 0
  }

  /** No attempt so far was made after `t`. */
  predicate NoneAfter(calls: Calls, t: int) {
    calls == [] || (NoneAfter(calls[..|calls| - 1], t) && (calls[|calls| - 1].Attempt? ==> calls[|calls| - 1].now <= t))
  }

  /** The clock never goes back. */
  predicate Monotone(calls: Calls) {
    calls == []
    || (Monotone(calls[..|calls| - 1])
        && (calls[|calls| - 1].Attempt? ==> NoneAfter(calls[..|calls| - 1], calls[|calls| - 1].now)))
  }

  // ----- dispatches per window -----

  lemma {:induction false} NoneAdmittedAfter(cfg: BudgetConfig, calls: Calls, tenant: string, t: int, from: int,
                                             to: int)
    requires ValidConfig(cfg) && NoneAfter(calls, t) && t < from
    ensures Admitted(cfg, calls, tenant, from, to) == 0
  {
    if calls != [] {
      NoneAdmittedAfter(cfg, calls[..|calls| - 1], tenant, t, from, to);
    }
  }

  /** Nothing was admitted at or past the end of the current window. */
  lemma {:induction false} NoneAdmittedPastWindow(cfg: BudgetConfig, calls: Calls, tenant: string, from: int, to: int)
    requires ValidConfig(cfg) && Windowed(cfg) && Monotone(calls)
    requires from >= BudgetAfter(cfg, calls, tenant).windowStart + WindowMs(cfg.windowSeconds.value)
    ensures Admitted(cfg, calls, tenant, from, to) == 0
  {
    if calls != [] {
      var init, last := calls[..|calls| - 1], calls[|calls| - 1];
      var b := BudgetAfter(cfg, init, tenant);
      if last.Attempt? && last.tenant == tenant && BudgetAfter(cfg, calls, tenant).windowStart != b.windowStart {
        NoneAdmittedAfter(cfg, init, tenant, last.now, from, to);
      } else {
        NoneAdmittedPastWindow(cfg, init, tenant, from, to);
      }
    }
  }

  /** The current window holds at most the counted dispatches, and the counter stays within
      the limit. */
  lemma {:induction false} WindowHoldsCount(cfg: BudgetConfig, calls: Calls, tenant: string, from: int, to: int)
    requires ValidConfig(cfg) && Windowed(cfg) && Monotone(calls)
    requires from >= BudgetAfter(cfg, calls, tenant).windowStart
    ensures Admitted(cfg, calls, tenant, from, to) <= BudgetAfter(cfg, calls, tenant).windowCount
    ensures BudgetAfter(cfg, calls, tenant).windowCount <= cfg.maxDispatch.value
  {
    if calls != [] {
      var init, last := calls[..|calls| - 1], calls[|calls| - 1];
      var b := BudgetAfter(cfg, init, tenant);
      if last.Attempt? && last.tenant == tenant && BudgetAfter(cfg, calls, tenant).windowStart != b.windowStart {
        NoneAdmittedPastWindow(cfg, init, tenant, from, to);
      } else {
        WindowHoldsCount(cfg, init, tenant, from, to);
      }
      CountWithinLimit(cfg, init, tenant);
    }
  }

  lemma {:induction false} CountWithinLimit(cfg: BudgetConfig, calls: Calls, tenant: string)
    requires ValidConfig(cfg) && Windowed(cfg)
    ensures BudgetAfter(cfg, calls, tenant).windowCount <= cfg.maxDispatch.value
  {
    if calls != [] {
      CountWithinLimit(cfg, calls[..|calls| - 1], tenant);
    }
  }

  /** An interval that reaches into the current window holds at most the dispatches of that
      window and of the one before it. */
  lemma {:induction false} TwoWindowsHold(cfg: BudgetConfig, calls: Calls, tenant: string, from: int, to: int)
    requires ValidConfig(cfg) && Windowed(cfg) && Monotone(calls)
    requires from + WindowMs(cfg.windowSeconds.value) > BudgetAfter(cfg, calls, tenant).windowStart
    ensures Admitted(cfg, calls, tenant, from, to) <= cfg.maxDispatch.value
            + BudgetAfter(cfg, calls, tenant).windowCount
  {
    if calls != [] {
      var init, last := calls[..|calls| - 1], calls[|calls| - 1];
      var b := BudgetAfter(cfg, init, tenant);
      if last.Attempt? && last.tenant == tenant && BudgetAfter(cfg, calls, tenant).windowStart != b.windowStart {
        WindowHoldsCount(cfg, init, tenant, from, to);
      } else {
        TwoWindowsHold(cfg, init, tenant, from, to);
      }
    }
  }

  /** For every sequence of calls under a clock that never goes back, and every interval of one
      window's length: at most twice the limit is admitted for the tenant. */
  lemma {:induction false} AtMostTwiceLimitPerWindowLength(cfg: BudgetConfig, calls: Calls, tenant: string, from: int)
    requires ValidConfig(cfg) && Windowed(cfg) && Monotone(calls)
    ensures Admitted(cfg, calls, tenant, from, from + WindowMs(cfg.windowSeconds.value)) <= 2 * cfg.maxDispatch.value
  {
    if calls != [] {
      var init, last := calls[..|calls| - 1], calls[|calls| - 1];
      var window := WindowMs(cfg.windowSeconds.value);
      if LastAdmitted(cfg, calls, tenant) && from <= last.now < from + window {
        CountWithinLimit(cfg, calls, tenant);
        if BudgetAfter(cfg, calls, tenant).windowStart > last.now {
          FirstWindowHoldsAll(cfg, calls, tenant, last.now, from, from + window);
        } else {
          TwoWindowsHold(cfg, calls, tenant, from, from + window);
        }
      } else {
        AtMostTwiceLimitPerWindowLength(cfg, init, tenant, from);
      }
    }
  }

  /** Before the clock reaches 0 the first window is in force, and holds every dispatch. */
  lemma {:induction false} FirstWindowHoldsAll(cfg: BudgetConfig, calls: Calls, tenant: string, t: int, from: int,
                                               to: int)
    requires ValidConfig(cfg) && Windowed(cfg) && NoneAfter(calls, t)
    requires BudgetAfter(cfg, calls, tenant).windowStart > t
    ensures Admitted(cfg, calls, tenant, from, to) <= BudgetAfter(cfg, calls, tenant).windowCount
  {
    if calls != [] {
      FirstWindowHoldsAll(cfg, calls[..|calls| - 1], tenant, t, from, to);
    }
  }

  // ----- in-flight dispatches -----

  /** At most the configured number is ever in flight. */
  lemma {:induction false} InflightWithinMax(cfg: BudgetConfig, calls: Calls, tenant: string)
    requires ValidConfig(cfg) && cfg.maxInflight.Some?
    ensures BudgetAfter(cfg, calls, tenant).inflight <= cfg.maxInflight.value
  {
    if calls != [] {
      InflightWithinMax(cfg, calls[..|calls| - 1], tenant);
    }
  }

  /** Every result was reported for a dispatch still in flight. */
  predicate ResultsMatched(cfg: BudgetConfig, calls: Calls, tenant: string)
    requires ValidConfig(cfg)
  {
    calls == []
    || (ResultsMatched(cfg, calls[..|calls| - 1], tenant)
        && (calls[|calls| - 1] == Finish(tenant) ==> BudgetAfter(cfg, calls[..|calls| - 1], tenant).inflight > 0))
  }

  /** The counter never falls short of the dispatches without a result, and is exactly their
      number when and only when every result is reported for a dispatch in flight. */
  lemma {:induction false} InflightCountsOpenDispatches(cfg: BudgetConfig, calls: Calls, tenant: string)
    requires ValidConfig(cfg)
    ensures BudgetAfter(cfg, calls, tenant).inflight >= AdmittedEver(cfg, calls, tenant) - FinishedEver(calls, tenant)
    ensures ResultsMatched(cfg, calls, tenant)
            <==> BudgetAfter(cfg, calls, tenant).inflight
                 == AdmittedEver(cfg, calls, tenant) - FinishedEver(calls, tenant)
  {
    if calls != [] {
      InflightCountsOpenDispatches(cfg, calls[..|calls| - 1], tenant);
    }
  }

  // ----- exactly which attempts are admitted -----

  /** The tenant's dispatches in flight: admitted and without a result.  A result that comes with none in
      flight counts for nothing. */
  function OpenDispatches(cfg: BudgetConfig, calls: Calls, tenant: string): nat
    requires ValidConfig(cfg)
  {
    if calls == [] then 0
    else
      var open := OpenDispatches(cfg, calls[..|calls| - 1], tenant);
      if LastAdmitted(cfg, calls, tenant) then open + 1
      else if calls[|calls| - 1] == Finish(tenant) && open > 0 then open - 1
      else open
  }

  predicate RoomInFlight(cfg: BudgetConfig, calls: Calls, tenant: string)
    requires ValidConfig(cfg)
  {
    cfg.maxInflight.Some? ==> OpenDispatches(cfg, calls, tenant) < cfg.maxInflight.value
  }

  /** When the tenant's current window began, and how many calls came before: a window begins with the
      first attempt that finds room in flight and the window before run out; the first at time 0. */
  function WindowBegan(cfg: BudgetConfig, calls: Calls, tenant: string): (began: (int, nat))
    requires ValidConfig(cfg) && Windowed(cfg)
    ensures began.1 <= |calls|
  {
    if calls == [] then (0, 0)
    else
      var init, last := calls[..|calls| - 1], calls[|calls| - 1];
      var began := WindowBegan(cfg, init, tenant);
      if last.Attempt? && last.tenant == tenant && RoomInFlight(cfg, init, tenant)
         && last.now >= began.0 + WindowMs(cfg.windowSeconds.value)
      then (last.now, |init|)
      else began
  }

  /** Fewer than the limit were admitted since the current window began; none were if it has run out. */
  predicate RoomInWindow(cfg: BudgetConfig, calls: Calls, tenant: string, now: int)
    requires ValidConfig(cfg) && Windowed(cfg)
  {
    var (start, before) := WindowBegan(cfg, calls, tenant);
    if now >= start + WindowMs(cfg.windowSeconds.value) then 0 < cfg.maxDispatch.value
    else AdmittedEver(cfg, calls, tenant) - AdmittedEver(cfg, calls[..before], tenant) < cfg.maxDispatch.value
  }

  lemma {:induction false} BudgetIsHistory(cfg: BudgetConfig, calls: Calls, tenant: string)
    requires ValidConfig(cfg)
    ensures BudgetAfter(cfg, calls, tenant).inflight == OpenDispatches(cfg, calls, tenant)
    ensures Windowed(cfg) ==>
              var (start, before) := WindowBegan(cfg, calls, tenant);
              && BudgetAfter(cfg, calls, tenant).windowStart == start
              && BudgetAfter(cfg, calls, tenant).windowCount
                 == AdmittedEver(cfg, calls, tenant) - AdmittedEver(cfg, calls[..before], tenant)
  {
    if calls != [] {
      var init := calls[..|calls| - 1];
      BudgetIsHistory(cfg, init, tenant);
      if Windowed(cfg) {
        var before := WindowBegan(cfg, init, tenant).1;
        assert init[..before] == calls[..before];
      }
    }
  }

  /** For every run, whatever the clock: an attempt is admitted exactly when fewer dispatches are in flight
      than configured and fewer were admitted in the current window than its limit.  In flight are those
      admitted less those with a result, as long as every result is for a dispatch in flight. */
  lemma AdmittedExactly(cfg: BudgetConfig, calls: Calls, tenant: string, now: int)
    requires ValidConfig(cfg)
    ensures LastAdmitted(cfg, calls + [Attempt(tenant, now)], tenant) <==>
            RoomInFlight(cfg, calls, tenant) && (Windowed(cfg) ==> RoomInWindow(cfg, calls, tenant, now))
    ensures ResultsMatched(cfg, calls, tenant) ==>
              OpenDispatches(cfg, calls, tenant) == AdmittedEver(cfg, calls, tenant) - FinishedEver(calls, tenant)
  {
    assert (calls + [Attempt(tenant, now)])[..|calls|] == calls;
    BudgetIsHistory(cfg, calls, tenant);
    InflightCountsOpenDispatches(cfg, calls, tenant);
  }

  // ----- twice the limit is reached -----

  lemma OneMoreAdmitted(cfg: BudgetConfig, calls: Calls, tenant: string, now: int, from: int, to: int)
    requires ValidConfig(cfg) && Windowed(cfg) && cfg.maxInflight.None? && from <= now < to
    requires Monotone(calls) && NoneAfter(calls, now)
    requires var rolled := Rolled(BudgetAfter(cfg, calls, tenant), WindowMs(cfg.windowSeconds.value), now);
             rolled.windowCount < cfg.maxDispatch.value
    ensures var t := calls + [Attempt(tenant, now)];
            var rolled := Rolled(BudgetAfter(cfg, calls, tenant), WindowMs(cfg.windowSeconds.value), now);
            && Monotone(t) && NoneAfter(t, now)
            && Admitted(cfg, t, tenant, from, to) == Admitted(cfg, calls, tenant, from, to) + 1
            && BudgetAfter(cfg, t, tenant).windowStart == rolled.windowStart
            && BudgetAfter(cfg, t, tenant).windowCount == rolled.windowCount + 1
  {
    var t := calls + [Attempt(tenant, now)];
    assert t[..|t| - 1] == calls;
  }

  /** `n` attempts at one instant, on a budget whose window has room for them. */
  lemma {:induction false} Burst(cfg: BudgetConfig, calls: Calls, tenant: string, now: int, n: nat, from: int, to: int)
    returns (t: Calls)
    requires ValidConfig(cfg) && Windowed(cfg) && cfg.maxInflight.None?
    requires 0 < n <= cfg.maxDispatch.value && from <= now < to
    requires Monotone(calls) && NoneAfter(calls, now)
    requires Rolled(BudgetAfter(cfg, calls, tenant), WindowMs(cfg.windowSeconds.value), now).windowCount == 0
    ensures Monotone(t) && NoneAfter(t, now)
    ensures Admitted(cfg, t, tenant, from, to) == Admitted(cfg, calls, tenant, from, to) + n
    ensures BudgetAfter(cfg, t, tenant).windowStart
            == Rolled(BudgetAfter(cfg, calls, tenant), WindowMs(cfg.windowSeconds.value), now).windowStart
    ensures BudgetAfter(cfg, t, tenant).windowCount == n
  {
    var before := calls;
    if n > 1 {
      before := Burst(cfg, calls, tenant, now, n - 1, from, to);
    }
    OneMoreAdmitted(cfg, before, tenant, now, from, to);
    t := before + [Attempt(tenant, now)];
  }

  /** The bound cannot be improved: for every limit and window there is a run that admits twice
      the limit within one window's length, at the end of one window and the start of the next. */
  lemma TwiceLimitIsReached(cfg: BudgetConfig, tenant: string) returns (calls: Calls)
    requires ValidConfig(cfg) && Windowed(cfg) && cfg.maxInflight.None?
    ensures Monotone(calls)
    ensures var window := WindowMs(cfg.windowSeconds.value);
            Admitted(cfg, calls, tenant, window - 1, window - 1 + window) == 2 * cfg.maxDispatch.value
  {
    var window, limit := WindowMs(cfg.windowSeconds.value), cfg.maxDispatch.value;
    calls := [];
    if limit > 0 {
      calls := Burst(cfg, [], tenant, window - 1, limit, window - 1, window - 1 + window);
      NoneAfterLater(calls, window - 1, window);
      calls := Burst(cfg, calls, tenant, window, limit, window - 1, window - 1 + window);
    }
  }

  lemma {:induction false} NoneAfterLater(calls: Calls, t: int, u: int)
    requires NoneAfter(calls, t) && t <= u
    ensures NoneAfter(calls, u)
  {
    if calls != [] {
      NoneAfterLater(calls[..|calls| - 1], t, u);
    }
  }

  // ----- the guard -----

  class SimpleBudgetGuard {
    const cfg: BudgetConfig
    var state: map<string, TenantBudget>
    ghost var calls: Calls

    /** The stored budgets are those of the calls made so far. */
    ghost predicate Valid()
      reads this
    {
      ValidConfig(cfg) && forall t :: (if t in state then state[t] else FRESH) == BudgetAfter(cfg, calls, t)
    }

    constructor (cfg: BudgetConfig)
      requires ValidConfig(cfg)
      ensures Valid() && this.cfg == cfg && calls == []
    {
      this.cfg := cfg;
      state := map[];
      calls := [];
    }

    ghost method Record(call: Call)
      requires ValidConfig(cfg)
      modifies this`calls
      ensures calls == old(calls) + [call] && calls[..|calls| - 1] == old(calls)
    {
      calls := calls + [call];
    }

    /** Admits exactly the attempts the limits allow, and counts them. */
    method OnDispatchAttempt(tenant: string, now: int) returns (admitted: bool)
      requires Valid()
      modifies this
      ensures Valid() && calls == old(calls) + [Attempt(tenant, now)]
      ensures admitted == LastAdmitted(cfg, calls, tenant)
      ensures admitted <==> RoomInFlight(cfg, old(calls), tenant)
                            && (Windowed(cfg) ==> RoomInWindow(cfg, old(calls), tenant, now))
    {
      AdmittedExactly(cfg, calls, tenant, now);
      var budget := if tenant in state then state[tenant] else FRESH;
      Record(Attempt(tenant, now));
      if cfg.maxInflight.Some? && budget.inflight >= cfg.maxInflight.value {
        state := state[tenant := budget];
        return false;
      }
      if cfg.maxDispatch.Some? && cfg.windowSeconds.Some? {
        var window := WindowMs(cfg.windowSeconds.value);
        if now - budget.windowStart >= window {
          budget := budget.(windowStart := now, windowCount := 0);
        }
        if budget.windowCount >= cfg.maxDispatch.value {
          state := state[tenant := budget];
          return false;
        }
        budget := budget.(windowCount := budget.windowCount + 1);
      }
      budget := budget.(inflight := budget.inflight + 1);
      state := state[tenant := budget];
      admitted := true;
    }

    method OnDispatchResult(tenant: string)
      requires Valid()
      modifies this
      ensures Valid() && calls == old(calls) + [Finish(tenant)]
    {
      var budget := if tenant in state then state[tenant] else FRESH;
      Record(Finish(tenant));
      if budget.inflight > 0 {
        budget := budget.(inflight := budget.inflight - 1);
      }
      state := state[tenant := budget];
    }
  }
}
