/** All sends of a run, also those whose sender crashed, lost its lease or never got to settle:
    delivery is at least once, and this is how often at most. */
module OutboxSends {
  import opened Wrappers
  import opened OutboxModel
  import opened OutboxProtocol
  import opened OutboxAttempts

  /** A message and the worker that sends or settles it. */
  type Sender = (Key, string)

  predicate SendBy(e: Event, x: Sender) {
    e.Send? && e.key == x.0 && e.actor == x.1
  }

  predicate SettleBy(e: Event, x: Sender) {
    e.Settles() && e.key == x.0 && e.actor == x.1
  }

  function Sends(log: Log): nat {
    if log == [] then 0 else Sends(Init(log)) + if Last(log).Send? then 1 else 0
  }

  /** Sends whose sender does not settle the message before it sends it again.  Read from the
      end: `later` are the senders of whom a settlement has been passed and no send since. */
  function UnsettledSends(log: Log, later: set<Sender>): nat {
    if log == [] then 0
    else
      var e := Last(log);
      if e.Settles() then UnsettledSends(Init(log), later + {(e.key, e.actor)})
      else if e.Send? && (e.key, e.actor) in later then UnsettledSends(Init(log), later - {(e.key, e.actor)})
      else UnsettledSends(Init(log), later) + if e.Send? then 1 else 0
  }

  // ----- what an unsettled send is -----

  /** The sender does not send again between events `i` and `j`. */
  predicate NoResend(log: Log, x: Sender, i: nat, j: nat)
    requires j <= |log|
  {
    forall m | i < m < j :: !SendBy(log[m], x)
  }

  /** Event `i` is followed by a settlement of its own sender before that sender sends again; or
      one of `later` would be the next. */
  ghost predicate FollowedUp(log: Log, x: Sender, i: nat, later: set<Sender>) {
    (exists j :: i < j < |log| && SettleBy(log[j], x) && NoResend(log, x, i, j))
    || (x in later && NoResend(log, x, i, |log|))
  }

  ghost predicate AllFollowedUp(log: Log, later: set<Sender>) {
    forall i | 0 <= i < |log| && log[i].Send? :: FollowedUp(log, (log[i].key, log[i].actor), i, later)
  }

  function LaterBefore(e: Event, later: set<Sender>): set<Sender> {
    if e.Settles() then later + {(e.key, e.actor)}
    else if e.Send? then later - {(e.key, e.actor)}
    else later
  }

  lemma FollowedUpBefore(log: Log, x: Sender, i: nat, later: set<Sender>)
    requires i < |log| - 1
    ensures FollowedUp(log, x, i, later) <==> FollowedUp(Init(log), x, i, LaterBefore(Last(log), later))
  {
    var init, e := Init(log), Last(log);
    forall j | i < j <= |init|
      ensures NoResend(log, x, i, j) <==> NoResend(init, x, i, j)
    {
    }
    assert NoResend(log, x, i, |log|) <==> NoResend(init, x, i, |init|) && !SendBy(e, x);
    if j :| i < j < |log| && SettleBy(log[j], x) && NoResend(log, x, i, j) {
      assert j < |init| ==> SettleBy(init[j], x);
    }
    if j :| i < j < |init| && SettleBy(init[j], x) && NoResend(init, x, i, j) {
      assert SettleBy(log[j], x);
    }
    if SettleBy(e, x) {
      assert SettleBy(log[|init|], x);
    }
  }

  /** None is counted exactly when every send is settled by its sender before it sends again. */
  lemma {:induction false} NoneUnsettledMeans(log: Log, later: set<Sender>)
    ensures UnsettledSends(log, later) == 0 <==> AllFollowedUp(log, later)
  {
    if log != [] {
      var init, e := Init(log), Last(log);
      var n := |init|;
      var x := if e.Send? || e.Settles() then (e.key, e.actor) else (e.key, "");
      forall i | 0 <= i < n && log[i].Send?
        ensures FollowedUp(log, (log[i].key, log[i].actor), i, later)
                <==> FollowedUp(init, (init[i].key, init[i].actor), i, LaterBefore(e, later))
      {
        FollowedUpBefore(log, (log[i].key, log[i].actor), i, later);
      }
      NoneUnsettledMeans(init, LaterBefore(e, later));
      assert e.Send? && x !in later ==> later - {x} == later;
      if e.Send? {
        assert NoResend(log, x, n, |log|);
        assert FollowedUp(log, x, n, later) <==> x in later;
      }
      AllFollowedUpSplits(log, later);
    }
  }

  lemma AllFollowedUpSplits(log: Log, later: set<Sender>)
    requires log != []
    ensures AllFollowedUp(log, later) <==>
            (forall i | 0 <= i < |log| - 1 && log[i].Send? :: FollowedUp(log, (log[i].key, log[i].actor), i, later))
            && (Last(log).Send? ==> FollowedUp(log, (Last(log).key, Last(log).actor), |log| - 1, later))
  {
  }

  // ----- the bound -----

  /** Every send is settled or counted. */
  lemma {:induction false} SendsAreSettledOrNot(log: Log, later: set<Sender>)
    ensures Sends(log) <= Settles(log) + UnsettledSends(log, later) + |later|
  {
    if log != [] {
      var e := Last(log);
      if e.Settles() {
        SendsAreSettledOrNot(Init(log), later + {(e.key, e.actor)});
      } else if e.Send? && (e.key, e.actor) in later {
        SendsAreSettledOrNot(Init(log), later - {(e.key, e.actor)});
      } else {
        SendsAreSettledOrNot(Init(log), later);
      }
    }
  }

  /** The events of one message. */
  function Only(log: Log, k: Key): Log {
    if log == [] then [] else Only(Init(log), k) + if Last(log).key == k then [Last(log)] else []
  }

  function SendsOf(log: Log, k: Key): nat {
    Sends(Only(log, k))
  }

  function UnsettledSendsOf(log: Log, k: Key): nat {
    UnsettledSends(Only(log, k), {})
  }

  lemma {:induction false} SettlesOnly(log: Log, k: Key)
    ensures Settles(Only(log, k)) == SettlesOf(log, k)
  {
    if log != [] {
      SettlesOnly(Init(log), k);
      if Last(log).key == k {
        Snoc(Only(Init(log), k), Last(log));
      } else {
        assert Only(log, k) == Only(Init(log), k);
      }
    }
  }

  /** In every disciplined run of policy-following dispatchers: a message is sent at most the
      limit times as often as it was enqueued or revived, and once more for every send that its
      sender left unsettled; and so for all messages together. */
  lemma SendsBounded(log: Log, maxAttempts: nat)
    requires Legal(log) && Disciplined(log) && FollowsPolicy(log, maxAttempts) && maxAttempts <= MAX_U32
    ensures forall k :: SendsOf(log, k) <= Limit(maxAttempts) * StartsOf(log, k) + UnsettledSendsOf(log, k)
    ensures Sends(log) <= Limit(maxAttempts) * StartCount(log) + UnsettledSends(log, {})
  {
    SettledSendsBounded(log, maxAttempts);
    SendsAreSettledOrNot(log, {});
    forall k
      ensures SendsOf(log, k) <= Limit(maxAttempts) * StartsOf(log, k) + UnsettledSendsOf(log, k)
    {
      SettlesOnly(log, k);
      SendsAreSettledOrNot(Only(log, k), {});
    }
  }

  /** So when every sender settles before it sends again, the limit bounds all sends. */
  lemma SettledRunsSendWithinLimit(log: Log, maxAttempts: nat)
    requires Legal(log) && Disciplined(log) && FollowsPolicy(log, maxAttempts) && maxAttempts <= MAX_U32
    requires AllFollowedUp(log, {})
    ensures Sends(log) <= Limit(maxAttempts) * StartCount(log)
  {
    NoneUnsettledMeans(log, {});
    SendsBounded(log, maxAttempts);
  }

  // ----- without settlements there is no bound -----

  /** Worker "w" leases the message, sends it and is not heard of again until the lease is over;
      and so `n` times. */
  function CrashLoop(m: Message, n: nat): Log {
    if n == 0 then [Enqueue(KeyOf(m), m)]
    else CrashLoop(m, n - 1) + [Grant(KeyOf(m), "w", n, n + 1)] + [Send(KeyOf(m), "w")]
  }

  lemma SnocGrantSend(log: Log, k: Key, w: string, now: int, until: int)
    requires Legal(log) && Disciplined(log) && FollowsPolicy(log, 1) && Present(log, now)
    requires k in After(log) && Eligible(After(log)[k], k.0, now, w)
    ensures var t := log + [Grant(k, w, now, until)] + [Send(k, w)];
            && Legal(t) && Disciplined(t) && FollowsPolicy(t, 1) && Present(t, now)
            && After(t) == After(log)[k := Granted(After(log)[k], w, until)]
            && Sends(t) == Sends(log) + 1 && UnsettledSends(t, {}) == UnsettledSends(log, {}) + 1
            && StartCount(t) == StartCount(log) && Settles(t) == Settles(log)
  {
    var granted := log + [Grant(k, w, now, until)];
    Snoc(log, Grant(k, w, now, until));
    Snoc(granted, Send(k, w));
    assert FollowsPolicy(granted, 1) && Present(granted, now);
    assert Sends(granted) == Sends(log) && UnsettledSends(granted, {}) == UnsettledSends(log, {});
    assert StartCount(granted) == StartCount(log) && Settles(granted) == Settles(log);
  }

  lemma {:induction false} PresentLater(log: Log, t: int, u: int)
    requires Present(log, t) && t <= u
    ensures Present(log, u)
  {
    if log != [] {
      PresentLater(Init(log), t, u);
    }
  }

  /** A run of one start that followed every rule, sent `n` times and settled nothing. */
  ghost predicate SentUnsettled(log: Log, n: nat) {
    && Legal(log) && Disciplined(log) && FollowsPolicy(log, 1) && Present(log, n)
    && Sends(log) == n && UnsettledSends(log, {}) == n && StartCount(log) == 1 && Settles(log) == 0
  }

  function InCrashLoop(m: Message, n: nat): Message {
    if n == 0 then m else Granted(m, "w", n + 1)
  }

  lemma CrashLoopStarts(m: Message)
    requires Fresh(m)
    ensures SentUnsettled(CrashLoop(m, 0), 0) && After(CrashLoop(m, 0)) == map[KeyOf(m) := m]
  {
    var start := [Enqueue(KeyOf(m), m)];
    Snoc([], Enqueue(KeyOf(m), m));
    assert [] + start == start == CrashLoop(m, 0);
    assert FollowsPolicy(start, 1) && Present(start, 0);
    assert Sends(start) == 0 && UnsettledSends(start, {}) == 0 && StartCount(start) == 1 && Settles(start) == 0;
  }

  /** One enqueued message with a limit of one attempt is sent any number of times, by leases
      that each were over when the next was given, if no send is ever settled. */
  lemma {:induction false} UnsettledSendsAreUnbounded(m: Message, n: nat)
    requires Fresh(m)
    ensures SentUnsettled(CrashLoop(m, n), n)
    ensures After(CrashLoop(m, n)) == map[KeyOf(m) := InCrashLoop(m, n)]
  {
    if n == 0 {
      CrashLoopStarts(m);
    } else {
      UnsettledSendsAreUnbounded(m, n - 1);
      CrashOnceMore(CrashLoop(m, n - 1), m, n);
    }
  }

  lemma CrashOnceMore(log: Log, m: Message, n: nat)
    requires Fresh(m) && n > 0 && SentUnsettled(log, n - 1)
    requires After(log) == map[KeyOf(m) := InCrashLoop(m, n - 1)]
    ensures var t := log + [Grant(KeyOf(m), "w", n, n + 1)] + [Send(KeyOf(m), "w")];
            SentUnsettled(t, n) && After(t) == map[KeyOf(m) := InCrashLoop(m, n)]
  {
    PresentLater(log, n - 1, n);
    SnocGrantSend(log, KeyOf(m), "w", n, n + 1);
    assert Granted(InCrashLoop(m, n - 1), "w", n + 1) == InCrashLoop(m, n);
  }
}
