/** How often a message is sent: the attempt counter, the dead-letter threshold and a bound on
    all settled sends of a run. */
module OutboxAttempts {
  import opened Wrappers
  import opened OutboxModel
  import opened OutboxProtocol

  /** The attempt counter in the copy of the message that `w` got with its last grant. */
  function Seen(log: Log, k: Key, w: string): nat {
    if log == [] then 0
    else
      var e := Last(log);
      if e.Grant? && e.key == k && e.worker == w && k in After(Init(log)) then After(Init(log))[k].attempts
      else Seen(Init(log), k, w)
  }

  /** The dispatcher's choice on a failed send, from the copy it was leased: dead-letter at the
      last permitted attempt, back off before it. */
  predicate KeepsPolicy(log: Log, e: Event, maxAttempts: nat) {
    match e
    case Nack(k, actor, _, _) => Seen(log, k, actor) + 1 < maxAttempts
    case Kill(k, actor, _) => Seen(log, k, actor) + 1 >= maxAttempts
    case _ => true
  }

  predicate FollowsPolicy(log: Log, maxAttempts: nat) {
    log == [] || (FollowsPolicy(Init(log), maxAttempts) && KeepsPolicy(Init(log), Last(log), maxAttempts))
  }

  /** A limit of 0 acts like a limit of 1: the first failure is already too many. */
  function Limit(maxAttempts: nat): nat {
    if maxAttempts == 0 then 1 else maxAttempts
  }

  predicate Starts(e: Event, k: Key) {
    e.key == k && (e.Enqueue? || e.Revive?)
  }

  /** Failed sends of `k` reported since it was last enqueued or revived. */
  function Failures(log: Log, k: Key): nat {
    if log == [] then 0
    else
      var e := Last(log);
      if Starts(e, k) then 0
      else Failures(Init(log), k) + if e.key == k && (e.Nack? || e.Kill?) then 1 else 0
  }

  function SettlesOf(log: Log, k: Key): nat {
    if log == [] then 0
    else SettlesOf(Init(log), k) + if Last(log).key == k && Last(log).Settles() then 1 else 0
  }

  function StartsOf(log: Log, k: Key): nat {
    if log == [] then 0 else StartsOf(Init(log), k) + if Starts(Last(log), k) then 1 else 0
  }

  function Settles(log: Log): nat {
    if log == [] then 0 else Settles(Init(log)) + if Last(log).Settles() then 1 else 0
  }

  function StartCount(log: Log): nat {
    if log == [] then 0
    else StartCount(Init(log)) + if Last(log).Enqueue? || Last(log).Revive? then 1 else 0
  }

  /** The copy held by the recorded worker is current. */
  lemma {:induction false} HolderHasCurrentCopy(log: Log, k: Key, w: string)
    requires Legal(log) && Disciplined(log)
    requires k in After(log) && After(log)[k].worker == Some(w)
    ensures Seen(log, k, w) == After(log)[k].attempts
  {
    var init, e := Init(log), Last(log);
    if e.key != k || e.Heartbeat? || e.Send? {
      HolderHasCurrentCopy(init, k, w);
    }
  }

  /** In every disciplined run of policy-following dispatchers: the counter is the number of
      failures since the last start, it stays below the limit until the message is dead, and
      the message is dead exactly from the failure that reaches the limit. */
  lemma {:induction false} DeadExactlyAtLimit(log: Log, k: Key, maxAttempts: nat)
    requires Legal(log) && Disciplined(log) && FollowsPolicy(log, maxAttempts) && maxAttempts <= MAX_U32
    requires k in After(log)
    ensures var m := After(log)[k];
            && m.attempts == Failures(log, k) <= Limit(maxAttempts)
            && (m.status == Dead <==> Failures(log, k) == Limit(maxAttempts))
  {
    var init, e := Init(log), Last(log);
    LeaseFieldsAlwaysAgree(init);
    if e.key != k || !e.Enqueue? {
      DeadExactlyAtLimit(init, k, maxAttempts);
      if e.key == k && e.Settles() {
        HolderHasCurrentCopy(init, k, e.actor);
      }
    }
  }

  /** Sends a message may still use before it must be enqueued or revived again. */
  function Credit(s: Messages, k: Key, maxAttempts: nat): nat {
    if k in s && s[k].status in {Pending, Leased} && s[k].attempts < Limit(maxAttempts)
    then Limit(maxAttempts) - s[k].attempts
    else 0
  }

  /** `limit` sends for each of `n` starts. */
  function Allowance(limit: nat, n: nat): nat {
    if n == 0 then 0 else limit + Allowance(limit, n - 1)
  }

  lemma {:induction false} CreditCoversSettles(log: Log, k: Key, maxAttempts: nat)
    requires Legal(log) && Disciplined(log) && FollowsPolicy(log, maxAttempts) && maxAttempts <= MAX_U32
    ensures SettlesOf(log, k) + Credit(After(log), k, maxAttempts) <= Allowance(Limit(maxAttempts), StartsOf(log, k))
  {
    if log != [] {
      var init, e := Init(log), Last(log);
      CreditCoversSettles(init, k, maxAttempts);
      if e.key == k {
        if k in After(init) {
          LeaseFieldsAlwaysAgree(init);
          DeadExactlyAtLimit(init, k, maxAttempts);
        }
        assert StartsOf(log, k) == StartsOf(init, k) + if Starts(e, k) then 1 else 0;
      }
    }
  }

  // ----- summing over all messages -----

  function Without(log: Log, k: Key): Log {
    if log == [] then []
    else Without(Init(log), k) + if Last(log).key == k then [] else [Last(log)]
  }

  lemma {:induction false} AllowanceAdds(limit: nat, a: nat, b: nat)
    ensures Allowance(limit, a + b) == Allowance(limit, a) + Allowance(limit, b)
  {
    if a > 0 {
      AllowanceAdds(limit, a - 1, b);
    }
  }

  lemma {:induction false} AllowanceIsProduct(limit: nat, n: nat)
    ensures Allowance(limit, n) == limit * n
  {
    if n > 0 {
      AllowanceIsProduct(limit, n - 1);
    }
  }

  lemma {:induction false} TotalsSplit(log: Log, k: Key)
    ensures Settles(log) == SettlesOf(log, k) + Settles(Without(log, k))
    ensures StartCount(log) == StartsOf(log, k) + StartCount(Without(log, k))
    ensures |Without(log, k)| <= |log|
  {
    if log != [] {
      TotalsSplit(Init(log), k);
      if Last(log).key != k {
        Snoc(Without(Init(log), k), Last(log));
      } else {
        assert Without(log, k) == Without(Init(log), k);
      }
    }
  }

  lemma {:induction false} OthersUntouched(log: Log, k: Key, other: Key)
    ensures SettlesOf(Without(log, k), other) == if other == k then 0 else SettlesOf(log, other)
    ensures StartsOf(Without(log, k), other) == if other == k then 0 else StartsOf(log, other)
  {
    if log != [] {
      OthersUntouched(Init(log), k, other);
      if Last(log).key != k {
        Snoc(Without(Init(log), k), Last(log));
      } else {
        assert Without(log, k) == Without(Init(log), k);
      }
    }
  }

  predicate Bounded(log: Log, k: Key, limit: nat) {
    SettlesOf(log, k) <= Allowance(limit, StartsOf(log, k))
  }

  lemma {:induction false} SumOverKeys(log: Log, limit: nat)
    requires forall k :: Bounded(log, k, limit)
    ensures Settles(log) <= Allowance(limit, StartCount(log))
    decreases |log|
  {
    if log != [] {
      var k := Last(log).key;
      var rest := Without(log, k);
      assert rest == Without(Init(log), k);
      TotalsSplit(Init(log), k);
      TotalsSplit(log, k);
      forall other
        ensures Bounded(rest, other, limit)
      {
        OthersUntouched(log, k, other);
        assert Bounded(log, other, limit);
      }
      SumOverKeys(rest, limit);
      assert Bounded(log, k, limit);
      AllowanceAdds(limit, StartsOf(log, k), StartCount(rest));
    }
  }

  /** Over any such run, the settled sends of one message are at most the limit times the
      number of times it was enqueued or revived, and so for all messages together. */
  lemma SettledSendsBounded(log: Log, maxAttempts: nat)
    requires Legal(log) && Disciplined(log) && FollowsPolicy(log, maxAttempts) && maxAttempts <= MAX_U32
    ensures forall k :: SettlesOf(log, k) <= Limit(maxAttempts) * StartsOf(log, k)
    ensures Settles(log) <= Limit(maxAttempts) * StartCount(log)
  {
    forall k
      ensures Bounded(log, k, Limit(maxAttempts))
    {
      CreditCoversSettles(log, k, maxAttempts);
    }
    SumOverKeys(log, Limit(maxAttempts));
    AllowanceIsProduct(Limit(maxAttempts), StartCount(log));
    forall k
      ensures SettlesOf(log, k) <= Limit(maxAttempts) * StartsOf(log, k)
    {
      assert Bounded(log, k, Limit(maxAttempts));
      AllowanceIsProduct(Limit(maxAttempts), StartsOf(log, k));
    }
  }
}
