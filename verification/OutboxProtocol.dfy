/** The lease protocol both outbox stores follow, message by message: every run is a log of
    atomic events, and the stored messages are what the log leaves behind. */
module OutboxProtocol {
  import opened Wrappers
  import opened OutboxModel

  datatype Event =
    | Enqueue(key: Key, message: Message)
    | Grant(key: Key, worker: string, now: int, until: int)
    | Ack(key: Key, actor: string)
    | Nack(key: Key, actor: string, notBefore: int, error: Option<string>)
    | Kill(key: Key, actor: string, error: Option<string>)
    | Heartbeat(key: Key, worker: string, until: int)
    | Revive(key: Key, at: int)
    /** The message goes out to the transport; no store is involved. */
    | Send(key: Key, actor: string)
  {
    predicate Settles() {
      Ack? || Nack? || Kill?
    }
  }

  predicate ActsAs(e: Event, w: string) {
    match e
    case Grant(_, worker, _, _) => worker == w
    case Heartbeat(_, worker, _) => worker == w
    case Ack(_, actor) => actor == w
    case Nack(_, actor, _, _) => actor == w
    case Kill(_, actor, _) => actor == w
    case Send(_, actor) => actor == w
    case _ => false
  }

  type Log = seq<Event>

  /** The stored messages after one more event. */
  function Apply(s: Messages, e: Event): Messages {
    if e.Enqueue? then s[e.key := e.message]
    else if e.key !in s then s
    else match e
      case Enqueue(_, _) => s
      case Grant(k, worker, _, until) => s[k := Granted(s[k], worker, until)]
      case Ack(k, _) => s[k := Acked(s[k])]
      case Nack(k, _, notBefore, error) => s[k := Nacked(s[k], notBefore, error)]
      case Kill(k, _, error) => s[k := Killed(s[k], error)]
      case Heartbeat(k, _, until) => s[k := Extended(s[k], until)]
      case Revive(k, at) => s[k := Revived(s[k], at)]
      case Send(_, _) => s
  }

  /** What a store accepts: it checks the key, the lease on a grant and the owner on a
      heartbeat, and nothing about who settles. */
  predicate Accepted(s: Messages, e: Event) {
    match e
    case Enqueue(k, m) => k !in s && KeyOf(m) == k && m.status == Pending && m.attempts == 0 && m.worker.None?
        && m.leaseUntil.None?
    case Grant(k, worker, now, _) => k in s && Eligible(s[k], k.0, now, worker)
    case Heartbeat(k, worker, _) => k in s && s[k].worker == Some(worker)
    case _ => e.key in s
  }

  /** The discipline the stores leave to their callers: a worker sends and settles only a message
      it still holds, and only dead messages are revived. */
  predicate LeaseRespecting(s: Messages, e: Event) {
    match e
    case Ack(k, actor) => k in s && s[k].worker == Some(actor)
    case Nack(k, actor, _, _) => k in s && s[k].worker == Some(actor)
    case Kill(k, actor, _) => k in s && s[k].worker == Some(actor)
    case Send(k, actor) => k in s && s[k].worker == Some(actor)
    case Revive(k, _) => k in s && s[k].status == Dead
    case _ => true
  }

  function Init(log: Log): Log
    requires log != []
  {
    log[..|log| - 1]
  }

  function Last(log: Log): Event
    requires log != []
  {
    log[|log| - 1]
  }

  function After(log: Log): Messages {
    if log == [] then map[] else Apply(After(Init(log)), Last(log))
  }

  /** Every event was accepted by the store when it happened. */
  predicate Legal(log: Log) {
    log == [] || (Legal(Init(log)) && Accepted(After(Init(log)), Last(log)))
  }

  predicate Disciplined(log: Log) {
    log == [] || (Disciplined(Init(log)) && LeaseRespecting(After(Init(log)), Last(log)))
  }

  ghost predicate Extends(before: Log, after: Log) {
    |before| <= |after| && after[..|before|] == before
  }

  lemma Snoc(log: Log, e: Event)
    ensures Init(log + [e]) == log && Last(log + [e]) == e
    ensures After(log + [e]) == Apply(After(log), e)
    ensures Legal(log + [e]) <==> Legal(log) && Accepted(After(log), e)
    ensures Disciplined(log + [e]) <==> Disciplined(log) && LeaseRespecting(After(log), e)
  {
  }

  // ----- what every event keeps -----

  ghost predicate WellKept(s: Messages) {
    forall k | k in s :: KeyOf(s[k]) == k && LeaseFieldsAgree(s[k])
  }

  /** In every run, a message is Leased exactly when a worker is recorded, and exactly when an
      end of lease is; and it stays filed under its tenant and id. */
  lemma {:induction false} LeaseFieldsAlwaysAgree(log: Log)
    requires Legal(log)
    ensures WellKept(After(log))
  {
    if log != [] {
      LeaseFieldsAlwaysAgree(Init(log));
    }
  }

  // ----- exclusive leases -----

  /** No grant so far was made after `t`: under a non-decreasing clock this holds of every
      present instant `t`. */
  predicate Present(log: Log, t: int) {
    log == [] || (Present(Init(log), t) && (Last(log).Grant? ==> Last(log).now <= t))
  }

  /** Until when worker `w` may believe it holds message `k`, from its own grants and
      heartbeats only.  A belief ends when `w` settles the message; with `anyone`, also when
      anybody settles or revives it. */
  function Claim(log: Log, k: Key, w: string, anyone: bool): Option<int> {
    if log == [] then None
    else
      var before := Claim(Init(log), k, w, anyone);
      var e := Last(log);
      if e.key != k then before
      else match e
        case Grant(_, worker, _, until) => if worker == w then Some(until) else before
        case Heartbeat(_, worker, until) => if worker == w then Some(until) else before
        case Ack(_, actor) => if anyone || actor == w then None else before
        case Nack(_, actor, _, _) => if anyone || actor == w then None else before
        case Kill(_, actor, _) => if anyone || actor == w then None else before
        case Revive(_, _) => if anyone then None else before
        case Enqueue(_, _) => before
        case Send(_, _) => before
  }

  /** A claim that has not run out is the lease the store records. */
  lemma {:induction false} LiveClaimIsRecorded(log: Log, k: Key, w: string, t: int, anyone: bool)
    requires Legal(log) && (anyone || Disciplined(log))
    requires Present(log, t)
    requires Claim(log, k, w, anyone).Some? && Claim(log, k, w, anyone).value > t
    ensures k in After(log)
    ensures After(log)[k].worker == Some(w)
    ensures After(log)[k].leaseUntil == Some(Claim(log, k, w, anyone).value)
  {
    var e := Last(log);
    var ended := e.key == k && ((e.Grant? && e.worker == w) || (e.Heartbeat? && e.worker == w));
    LeaseFieldsAlwaysAgree(Init(log));
    if !ended {
      LiveClaimIsRecorded(Init(log), k, w, t, anyone);
    }
  }

  /** Mutual exclusion over whole runs: if workers settle only what they still hold, then at no
      instant do two workers both believe, from what the store told each of them, that they
      hold an unexpired lease on one message. */
  lemma AtMostOneLiveLease(log: Log, k: Key, w1: string, w2: string, t: int)
    requires Legal(log) && Disciplined(log) && Present(log, t)
    requires Claim(log, k, w1, false).Some? && Claim(log, k, w1, false).value > t
    requires Claim(log, k, w2, false).Some? && Claim(log, k, w2, false).value > t
    ensures w1 == w2
  {
    LiveClaimIsRecorded(log, k, w1, t, false);
    LiveClaimIsRecorded(log, k, w2, t, false);
  }

  /** What a worker can see for itself: at some instant not before any grant so far, its own
      grants and heartbeats say that it holds the message. */
  ghost predicate HoldsByOwnAccount(log: Log, k: Key, w: string) {
    exists t :: Present(log, t) && Claim(log, k, w, false).Some? && Claim(log, k, w, false).value > t
  }

  /** Every worker sends and settles only while its own lease, as it knows it, has not run out;
      and only dead messages are revived. */
  ghost predicate Timely(log: Log) {
    log == []
    || (Timely(Init(log))
        && match Last(log)
           case Ack(k, actor) => HoldsByOwnAccount(Init(log), k, actor)
           case Nack(k, actor, _, _) => HoldsByOwnAccount(Init(log), k, actor)
           case Kill(k, actor, _) => HoldsByOwnAccount(Init(log), k, actor)
           case Send(k, actor) => HoldsByOwnAccount(Init(log), k, actor)
           case Revive(k, _) => k in After(Init(log)) && After(Init(log))[k].status == Dead
           case _ => true)
  }

  /** So the discipline needs no look at the store: minding one's own lease is enough, however
      the workers' events interleave. */
  lemma {:induction false} TimelyIsDisciplined(log: Log)
    requires Legal(log) && Timely(log)
    ensures Disciplined(log)
  {
    if log != [] {
      var init, e := Init(log), Last(log);
      TimelyIsDisciplined(init);
      if e.Settles() || e.Send? {
        var t :| Present(init, t) && Claim(init, e.key, e.actor, false).Some?
            && Claim(init, e.key, e.actor, false).value > t;
        LiveClaimIsRecorded(init, e.key, e.actor, t, false);
      }
    }
  }

  /** A lease is still live, and yet the store would grant the message to another worker. */
  predicate OpenToSecondLease(log: Log, k: Key, holder: string, next: string, t: int) {
    && Claim(log, k, holder, false).Some? && Claim(log, k, holder, false).value > t
    && k in After(log) && Eligible(After(log)[k], k.0, t, next)
  }

  /** Exactly which events open the way to a second lease, in every disciplined run and for every live
      lease: a failure that another worker reports, and a revival, that make the message due by then.
      Another's acknowledgement or dead-lettering breaks the discipline too, but not this. */
  lemma OpensSecondLeaseExactly(log: Log, e: Event, holder: string, next: string, t: int)
    requires Legal(log + [e]) && Disciplined(log) && Present(log + [e], t)
    requires Claim(log, e.key, holder, false).Some? && Claim(log, e.key, holder, false).value > t && next != holder
    ensures OpenToSecondLease(log + [e], e.key, holder, next, t) <==>
            (e.Nack? && e.actor != holder && e.notBefore <= t) || (e.Revive? && e.at <= t)
  {
    Snoc(log, e);
    LiveClaimIsRecorded(log, e.key, holder, t, false);
    LeaseFieldsAlwaysAgree(log);
  }

  /** So once a worker that does not hold the message reports a failure that is due at once, the store
      grants it again at once, and two workers hold live leases. */
  lemma ForeignNackBreaksExclusion(log: Log, k: Key, holder: string, stale: string, next: string, t: int,
                                   notBefore: int, until: int)
    requires Legal(log) && Disciplined(log) && Present(log, t)
    requires Claim(log, k, holder, false).Some? && Claim(log, k, holder, false).value > t
    requires stale != holder && next != holder && notBefore <= t < until
    ensures var log' := log + [Nack(k, stale, notBefore, None)] + [Grant(k, next, t, until)];
            && Legal(log') && Present(log', t) && !Disciplined(log')
            && Claim(log', k, holder, false).Some? && Claim(log', k, holder, false).value > t
            && Claim(log', k, next, false) == Some(until)
  {
    LiveClaimIsRecorded(log, k, holder, t, false);
    LeaseFieldsAlwaysAgree(log);
    var nack, grant := Nack(k, stale, notBefore, None), Grant(k, next, t, until);
    Snoc(log, nack);
    Snoc(log + [nack], grant);
  }

  /** With no discipline at all: a message that nobody settled or revived since `w` got it goes
      to another worker only at or past the last end of lease `w` was given. */
  lemma HandoverOnlyAfterExpiry(log: Log, k: Key, w: string, other: string, now: int, until: int)
    requires Legal(log + [Grant(k, other, now, until)]) && Present(log, now)
    requires other != w && Claim(log, k, w, true).Some?
    ensures Claim(log, k, w, true).value <= now
  {
    Snoc(log, Grant(k, other, now, until));
    if Claim(log, k, w, true).value > now {
      LiveClaimIsRecorded(log, k, w, now, true);
    }
  }

  /** The log from event `i` on touches `k` only by grants to others and by heartbeats. */
  predicate Unsettled(log: Log, k: Key, i: nat) {
    forall j | i <= j < |log| :: log[j].key == k ==> !log[j].Settles() && !log[j].Revive?
  }

  /** Nor does `w` get a new end of lease for `k` after event `i`. */
  predicate Unrenewed(log: Log, k: Key, w: string, i: nat) {
    forall j | i < j < |log| :: log[j].key == k ==> !log[j].Heartbeat? && !(log[j].Grant? && log[j].worker == w)
  }

  lemma {:induction false} ClaimPersists(log: Log, k: Key, w: string, i: nat)
    requires i < |log| && log[i].Grant? && log[i].key == k && log[i].worker == w
    requires Unsettled(log, k, i)
    ensures Claim(log, k, w, true).Some?
    ensures Unrenewed(log, k, w, i) ==> Claim(log, k, w, true) == Some(log[i].until)
    decreases |log|
  {
    if i < |log| - 1 {
      ClaimPersists(Init(log), k, w, i);
    }
  }

  /** The same, read off two grants in the log: between a grant to `w` and a later grant to
      another worker, with no settlement, revival or heartbeat in between, the lease ran out. */
  lemma LeaseRunsOutBetweenGrants(log: Log, i: nat, j: nat)
    requires Legal(log) && i < j < |log|
    requires log[i].Grant? && log[j].Grant? && log[i].key == log[j].key && log[i].worker != log[j].worker
    requires Unsettled(log[..j], log[i].key, i) && Unrenewed(log[..j], log[i].key, log[i].worker, i)
    requires Present(log[..j], log[j].now)
    ensures log[i].until <= log[j].now
  {
    var before, handover := log[..j], log[j];
    LegalPrefix(log, j + 1);
    assert log[..j + 1] == before + [Grant(handover.key, handover.worker, handover.now, handover.until)];
    ClaimPersists(before, log[i].key, log[i].worker, i);
    HandoverOnlyAfterExpiry(before, log[i].key, log[i].worker, handover.worker, handover.now, handover.until);
  }

  lemma {:induction false} LegalPrefix(log: Log, n: nat)
    requires n <= |log|
    ensures Legal(log) ==> Legal(log[..n])
    ensures Disciplined(log) ==> Disciplined(log[..n])
    decreases |log|
  {
    if n < |log| {
      LegalPrefix(Init(log), n);
      assert Init(log)[..n] == log[..n];
    } else {
      assert log[..n] == log;
    }
  }

  // ----- settled is final -----

  /** Once Done, a message never changes again; once Dead, it changes only when it is revived. */
  lemma {:induction false} SettledIsFinal(log: Log, n: nat, k: Key)
    requires Legal(log) && Disciplined(log) && n <= |log|
    requires k in After(log[..n])
    requires After(log[..n])[k].status == Done
             || (After(log[..n])[k].status == Dead && forall j | n <= j < |log| :: log[j].key == k ==> !log[j].Revive?)
    ensures k in After(log) && After(log)[k] == After(log[..n])[k]
    decreases |log|
  {
    if n == |log| {
      assert log[..n] == log;
    } else {
      var init := Init(log);
      assert init[..n] == log[..n];
      assert forall j | n <= j < |init| :: init[j] == log[j];
      SettledIsFinal(init, n, k);
      LeaseFieldsAlwaysAgree(init);
    }
  }

  /** A completed message has no worker, no lease and no error left. */
  lemma {:induction false} DoneIsCleared(log: Log, k: Key)
    requires Legal(log) && k in After(log) && After(log)[k].status == Done
    ensures After(log)[k] == Acked(After(log)[k])
  {
    var init, e := Init(log), Last(log);
    LeaseFieldsAlwaysAgree(init);
    if k in After(init) && After(init)[k].status == Done {
      DoneIsCleared(init, k);
    }
  }

  lemma PrefixSnoc(log: Log, n: nat)
    requires n < |log|
    ensures log[..n + 1] == log[..n] + [log[n]]
  {
  }

  lemma EventAt(log: Log, n: nat)
    requires Legal(log) && n < |log|
    ensures Legal(log[..n]) && Accepted(After(log[..n]), log[n])
    ensures After(log[..n + 1]) == Apply(After(log[..n]), log[n])
  {
    PrefixSnoc(log, n);
    LegalPrefix(log, n + 1);
    Snoc(log[..n], log[n]);
  }

  /** What opens a completed message again, and what a dead one. */
  predicate Reopens(e: Event) {
    e.Nack? || e.Kill? || e.Revive?
  }

  predicate Resurrects(e: Event) {
    e.Ack? || e.Nack? || e.Revive?
  }

  /** Without any discipline: a completed message stays as it is exactly when nobody reports a
      failure of it, dead-letters it or revives it any more.  Further acknowledgements, grants
      and heartbeats cannot change it. */
  lemma {:induction false} DoneStaysExactly(log: Log, n: nat, k: Key)
    requires Legal(log) && n <= |log|
    requires k in After(log[..n]) && After(log[..n])[k].status == Done
    ensures (forall m | n <= m <= |log| :: k in After(log[..m]) && After(log[..m])[k] == After(log[..n])[k])
            <==> (forall j | n <= j < |log| :: log[j].key == k ==> !Reopens(log[j]))
    decreases |log| - n
  {
    if n < |log| {
      EventAt(log, n);
      DoneIsCleared(log[..n], k);
      if log[n].key == k && Reopens(log[n]) {
        assert After(log[..n + 1])[k].status != Done;
      } else {
        DoneStaysExactly(log, n + 1, k);
      }
    }
  }

  /** A message stays dead exactly until it is acknowledged, reported as failed or revived;
      being dead-lettered again leaves it dead. */
  lemma {:induction false} DeadStaysExactly(log: Log, n: nat, k: Key)
    requires Legal(log) && n <= |log|
    requires k in After(log[..n]) && After(log[..n])[k].status == Dead
    ensures (forall m | n <= m <= |log| :: k in After(log[..m]) && After(log[..m])[k].status == Dead)
            <==> (forall j | n <= j < |log| :: log[j].key == k ==> !Resurrects(log[j]))
    decreases |log| - n
  {
    if n < |log| {
      EventAt(log, n);
      LeaseFieldsAlwaysAgree(log[..n]);
      if log[n].key == k && Resurrects(log[n]) {
        assert After(log[..n + 1])[k].status != Dead;
      } else {
        DeadStaysExactly(log, n + 1, k);
      }
    }
  }

  /** Without the discipline it fails: worker 1's lease runs out, worker 2 leases the message
      and completes it, and then worker 1 reports its failure.  The store accepts every event,
      and the completed message is pending again. */
  lemma LateNackRevivesDoneMessage(m: Message)
    requires Fresh(m)
    ensures var k := KeyOf(m);
            var log := [Enqueue(k, m), Grant(k, "w1", 0, 10), Grant(k, "w2", 10, 20), Ack(k, "w2"),
                        Nack(k, "w1", 30, None)];
            && Legal(log) && !Disciplined(log)
            && k in After(log[..4]) && After(log[..4])[k].status == Done
            && k in After(log) && After(log)[k].status == Pending
  {
    var k := KeyOf(m);
    var l1 := [Enqueue(k, m)];
    var l2 := [Enqueue(k, m), Grant(k, "w1", 0, 10)];
    var l3 := [Enqueue(k, m), Grant(k, "w1", 0, 10), Grant(k, "w2", 10, 20)];
    var l4 := [Enqueue(k, m), Grant(k, "w1", 0, 10), Grant(k, "w2", 10, 20), Ack(k, "w2")];
    Snoc([], Enqueue(k, m));
    assert l1 == [] + [Enqueue(k, m)];
    Snoc(l1, Grant(k, "w1", 0, 10));
    assert l2 == l1 + [Grant(k, "w1", 0, 10)];
    Snoc(l2, Grant(k, "w2", 10, 20));
    assert l3 == l2 + [Grant(k, "w2", 10, 20)];
    Snoc(l3, Ack(k, "w2"));
    assert l4 == l3 + [Ack(k, "w2")];
    Snoc(l4, Nack(k, "w1", 30, None));
    var log := [Enqueue(k, m), Grant(k, "w1", 0, 10), Grant(k, "w2", 10, 20), Ack(k, "w2"), Nack(k, "w1", 30, None)];
    assert log == l4 + [Nack(k, "w1", 30, None)];
    assert log[..4] == l4;
  }
}
