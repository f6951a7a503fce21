/** What a dispatcher tick does, seen from its worker, while others do what they like: it leases a batch, and
    then for each message sends it and reports what the transport answered, until the budget guard stops
    it.  All its steps are told here as events of the one run. */
module Ticks {
  import opened Wrappers
  import opened OutboxModel
  import opened OutboxProtocol
  import opened OutboxAttempts
  import opened OutboxStore
  import opened DeadLetters
  import opened Replays
  import opened DeadStore
  import opened TickReports

  /** What worker `w` did. */
  function EventsOf(log: Log, w: string): Log {
    if log == [] then [] else EventsOf(Init(log), w) + if ActsAs(Last(log), w) then [Last(log)] else []
  }

  // ----- runs in order -----

  /** The event keeps the lease discipline, does not overlap with a replay, and follows the policy. */
  predicate InRules(s: System, log: Log, e: SystemEvent, maxAttempts: nat) {
    Allowed(s, e) && NoOverlap(s, e) && (e.Stored? ==> KeepsPolicy(log, e.event, maxAttempts))
  }

  predicate InOrder(run: SystemLog, maxAttempts: nat) {
    run == []
    || (var before := run[..|run| - 1];
        InOrder(before, maxAttempts) && InRules(SystemAfter(before), Project(before), run[|run| - 1], maxAttempts))
  }

  lemma {:induction false} InOrderMeans(run: SystemLog, maxAttempts: nat)
    ensures InOrder(run, maxAttempts) <==> SystemLegal(run) && Serial(run) && FollowsPolicy(Project(run), maxAttempts)
  {
    if run != [] {
      var before, e := run[..|run| - 1], run[|run| - 1];
      var log, projected := Project(before), Projected(SystemAfter(before).messages, e);
      InOrderMeans(before, maxAttempts);
      if projected == [] {
        assert log + projected == log;
      } else {
        assert projected == [projected[0]];
        Snoc(log, projected[0]);
      }
    }
  }

  /** The run has come on from `start`. */
  ghost predicate Since(start: SystemLog, run: SystemLog) {
    |start| <= |run| && run[..|start|] == start
  }

  /** Since `start`, everything but what worker `w` did was in the rules. */
  predicate OthersInRules(start: SystemLog, run: SystemLog, w: string, maxAttempts: nat) {
    |run| <= |start|
    || (var before, e := run[..|run| - 1], run[|run| - 1];
        && OthersInRules(start, before, w, maxAttempts)
        && (DoneBy(e, w) || InRules(SystemAfter(before), Project(before), e, maxAttempts)))
  }

  // ----- a tick under way -----

  /** What does not change during a tick: the run it started from, its leased messages, the worker, and
      the end of the leases. */
  datatype Context = Context(start: SystemLog, leased: seq<Message>, cfg: Config, until: int)

  /** For the messages from position `n` on, the worker's copy is the one of its last grant, and
      by its own account its lease ends at `until`. */
  ghost predicate Holding(log: Log, leased: seq<Message>, n: nat, w: string, until: int) {
    forall j | n <= j < |leased| ::
      var k := KeyOf(leased[j]);
      k in After(log) && Seen(log, k, w) == leased[j].attempts && Claim(log, k, w, false) == Some(until)
  }

  /** The worker has the letters `open` yet to push, and none else that it had not at `start`. */
  ghost predicate Pushing(start: SystemLog, run: SystemLog, w: string, open: set<DeadLetter>) {
    && (forall x | x in SystemAfter(run).pushing && x.0 == w :: x in SystemAfter(start).pushing || x.1 in open)
    && (forall letter | letter in open :: (w, letter) in SystemAfter(run).pushing)
  }

  /** Of the outbox's log the worker's own events since `before` are `own`, and it holds the messages
      from position `n` on. */
  ghost predicate OwnSoFar(before: Log, log: Log, leased: seq<Message>, n: nat, own: Log, w: string, until: int) {
    && EventsOf(log, w) == EventsOf(before, w) + own
    && Holding(log, leased, n, w, until)
  }

  /** Since `start`, everything worker `w` did was in the rules, if until then all was in order and nobody
      had leased anything at or past `until`. */
  predicate OwnInRules(start: SystemLog, run: SystemLog, w: string, maxAttempts: nat, until: int) {
    |run| <= |start|
    || (var before, e := run[..|run| - 1], run[|run| - 1];
        && OwnInRules(start, before, w, maxAttempts, until)
        && (DoneBy(e, w) && InOrder(before, maxAttempts) && Present(Project(before), until - 1) ==>
              InRules(SystemAfter(before), Project(before), e, maxAttempts)))
  }

  /** So if others kept the rules too, and the tick was over in time, all stays in order. */
  lemma {:induction false} OrderIsKept(start: SystemLog, run: SystemLog, w: string, maxAttempts: nat, until: int)
    requires Since(start, run) && InOrder(start, maxAttempts) && OthersInRules(start, run, w, maxAttempts)
    requires OwnInRules(start, run, w, maxAttempts, until) && Present(Project(run), until - 1)
    ensures InOrder(run, maxAttempts)
  {
    if |run| == |start| {
      assert run == start;
    } else {
      OneMoreInRules(start, run, w, maxAttempts, until);
      OrderIsKept(start, run[..|run| - 1], w, maxAttempts, until);
    }
  }

  lemma OneMoreInRules(start: SystemLog, run: SystemLog, w: string, maxAttempts: nat, until: int)
    requires |start| < |run| && Since(start, run) && OthersInRules(start, run, w, maxAttempts)
    requires OwnInRules(start, run, w, maxAttempts, until) && Present(Project(run), until - 1)
    ensures var before := run[..|run| - 1];
            && Since(start, before) && OthersInRules(start, before, w, maxAttempts)
            && OwnInRules(start, before, w, maxAttempts, until) && Present(Project(before), until - 1)
            && (InOrder(before, maxAttempts) ==> InOrder(run, maxAttempts))
  {
    var before, e := run[..|run| - 1], run[|run| - 1];
    assert run == before + [e];
    PresentBeforeAll(before, e, until - 1);
  }

  /** The tick's own events so far are `own`; it holds the leased messages from position `n` on and has
      the letters `open` to push; and what it did was in the rules. */
  ghost predicate Ongoing(c: Context, run: SystemLog, n: nat, own: Log, open: set<DeadLetter>) {
    && OwnSoFar(Project(c.start), Project(run), c.leased, n, own, c.cfg.workerId, c.until)
    && Pushing(c.start, run, c.cfg.workerId, open)
    && Since(c.start, run) && OwnInRules(c.start, run, c.cfg.workerId, c.cfg.maxAttempts, c.until)
  }

  ghost predicate DistinctKeys(leased: seq<Message>) {
    forall i, j | 0 <= i < j < |leased| :: KeyOf(leased[i]) != KeyOf(leased[j])
  }

  /** Distinct messages of one tenant. */
  ghost predicate OneTenant(leased: seq<Message>, tenant: string) {
    DistinctKeys(leased) && forall i | 0 <= i < |leased| :: leased[i].tenant == tenant
  }

  lemma PresentBefore(log: Log, e: Event, t: int)
    ensures Present(log + [e], t) ==> Present(log, t)
  {
    Snoc(log, e);
  }

  lemma PresentBeforeAll(run: SystemLog, e: SystemEvent, t: int)
    ensures Present(Project(run + [e]), t) ==> Present(Project(run), t)
  {
    var projected := Projected(SystemAfter(run).messages, e);
    SystemSnoc(run, e);
    if projected == [] {
      assert Project(run) + projected == Project(run);
    } else {
      assert projected == [projected[0]];
      PresentBefore(Project(run), projected[0], t);
    }
  }

  /** One more event, that is another's, or in the rules if all was in order and the tick in time. */
  lemma OrderSnoc(start: SystemLog, run: SystemLog, e: SystemEvent, cfg: Config, until: int)
    requires Since(start, run) && OwnInRules(start, run, cfg.workerId, cfg.maxAttempts, until)
    requires DoneBy(e, cfg.workerId) && InOrder(run, cfg.maxAttempts) && Present(Project(run), until - 1) ==>
               InRules(SystemAfter(run), Project(run), e, cfg.maxAttempts)
    ensures Since(start, run + [e]) && OwnInRules(start, run + [e], cfg.workerId, cfg.maxAttempts, until)
  {
    assert (run + [e])[..|run|] == run;
  }

  // ----- others act -----

  lemma ForeignEventKeepsHolding(log: Log, e: Event, leased: seq<Message>, n: nat, w: string, until: int)
    requires Holding(log, leased, n, w, until) && !ActsAs(e, w)
    ensures Holding(log + [e], leased, n, w, until)
    ensures EventsOf(log + [e], w) == EventsOf(log, w)
  {
    Snoc(log, e);
  }

  lemma OtherKeepsOwn(before: Log, log: Log, projected: Log, leased: seq<Message>, n: nat, own: Log, w: string,
                      until: int)
    requires OwnSoFar(before, log, leased, n, own, w, until)
    requires |projected| <= 1 && forall e | e in projected :: !ActsAs(e, w)
    ensures OwnSoFar(before, log + projected, leased, n, own, w, until)
  {
    if projected == [] {
      assert log + projected == log;
    } else {
      assert projected == [projected[0]];
      ForeignEventKeepsHolding(log, projected[0], leased, n, w, until);
    }
  }

  lemma OtherKeepsPushing(start: SystemLog, run: SystemLog, w: string, open: set<DeadLetter>, e: SystemEvent)
    requires Pushing(start, run, w, open) && !DoneBy(e, w)
    ensures Pushing(start, run + [e], w, open)
  {
    SystemSnoc(run, e);
  }

  /** Others cannot disturb a tick, whatever they do. */
  lemma OtherEvent(c: Context, run: SystemLog, n: nat, own: Log, open: set<DeadLetter>, e: SystemEvent)
    requires Ongoing(c, run, n, own, open) && !DoneBy(e, c.cfg.workerId)
    ensures Ongoing(c, run + [e], n, own, open)
  {
    SystemSnoc(run, e);
    OtherKeepsOwn(Project(c.start), Project(run), Projected(SystemAfter(run).messages, e), c.leased, n, own,
                  c.cfg.workerId, c.until);
    OtherKeepsPushing(c.start, run, c.cfg.workerId, open, e);
    OrderSnoc(c.start, run, e, c.cfg, c.until);
  }

  lemma LastApart(run: SystemLog, acted: SystemLog)
    requires acted != []
    ensures run + acted == run + acted[..|acted| - 1] + [acted[|acted| - 1]]
  {
  }

  lemma {:induction false} OtherEvents(c: Context, run: SystemLog, n: nat, own: Log, open: set<DeadLetter>,
                                       acted: SystemLog)
    requires Ongoing(c, run, n, own, open) && NoneBy(acted, Some(c.cfg.workerId))
    ensures Ongoing(c, run + acted, n, own, open)
  {
    if acted == [] {
      assert run + acted == run;
    } else {
      var init, e := acted[..|acted| - 1], acted[|acted| - 1];
      LastApart(run, acted);
      OtherEvents(c, run, n, own, open, init);
      OtherEvent(c, run + init, n, own, open, e);
    }
  }

  // ----- the worker acts -----

  /** A worker that holds a message by its own account, at an instant before the end of its lease,
      holds it in the store. */
  lemma InTimeIsRespecting(run: SystemLog, e: Event, w: string, until: int)
    requires SystemLegal(run) && Serial(run) && Present(Project(run), until - 1)
    requires (e.Settles() || e.Send?) && e.actor == w && Claim(Project(run), e.key, w, false) == Some(until)
    ensures Allowed(SystemAfter(run), Stored(e, 0))
  {
    RunsAreLegal(run);
    SerialReplaysKeepDiscipline(run);
    LiveClaimIsRecorded(Project(run), e.key, w, until - 1, false);
  }

  lemma OwnEventRecorded(before: Log, log: Log, own: Log, e: Event, w: string)
    requires EventsOf(log, w) == EventsOf(before, w) + own && ActsAs(e, w)
    ensures EventsOf(log + [e], w) == EventsOf(before, w) + (own + [e])
  {
    Snoc(log, e);
  }

  lemma OwnEventKeepsOwn(before: Log, log: Log, leased: seq<Message>, n: nat, own: Log, w: string, until: int, e: Event)
    requires OwnSoFar(before, log, leased, n, own, w, until) && n < |leased| && DistinctKeys(leased)
    requires (e.Settles() || e.Send?) && e.key == KeyOf(leased[n]) && e.actor == w
    ensures OwnSoFar(before, log + [e], leased, if e.Send? then n else n + 1, own + [e], w, until)
  {
    Snoc(log, e);
    OwnEventRecorded(before, log, own, e, w);
  }

  /** The letter a settlement leaves to push, if it kills. */
  function ToPush(messages: Messages, e: Event, clock: int): set<DeadLetter> {
    if Kills(messages, Stored(e, clock)) then {LetterOfKill(messages, Stored(e, clock))} else {}
  }

  lemma OwnEventPushes(start: SystemLog, run: SystemLog, e: Event, clock: int, w: string)
    requires Pushing(start, run, w, {}) && ActsAs(e, w)
    ensures Pushing(start, run + [Stored(e, clock)], w, ToPush(SystemAfter(run).messages, e, clock))
  {
    SystemSnoc(run, Stored(e, clock));
  }

  /** The worker sends or settles the `n`-th leased message, by its copy. */
  predicate ByCopy(c: Context, n: nat, e: Event) {
    && n < |c.leased| && e.key == KeyOf(c.leased[n])
    && (e.Settles() || e.Send?) && e.actor == c.cfg.workerId
    && (e.Nack? ==> c.leased[n].attempts + 1 < c.cfg.maxAttempts)
    && (e.Kill? ==> c.leased[n].attempts + 1 >= c.cfg.maxAttempts)
  }

  lemma OwnEventIsOwn(c: Context, run: SystemLog, n: nat, own: Log, e: Event, clock: int, n': nat)
    requires OwnSoFar(Project(c.start), Project(run), c.leased, n, own, c.cfg.workerId, c.until)
    requires DistinctKeys(c.leased) && ByCopy(c, n, e) && n' == if e.Send? then n else n + 1
    ensures OwnSoFar(Project(c.start), Project(run + [Stored(e, clock)]), c.leased, n',
                     own + [e], c.cfg.workerId, c.until)
  {
    SystemSnoc(run, Stored(e, clock));
    OwnEventKeepsOwn(Project(c.start), Project(run), c.leased, n, own, c.cfg.workerId, c.until, e);
  }

  lemma OwnEventKeepsOrder(c: Context, run: SystemLog, n: nat, e: Event, clock: int)
    requires Holding(Project(run), c.leased, n, c.cfg.workerId, c.until) && ByCopy(c, n, e)
    requires Since(c.start, run) && OwnInRules(c.start, run, c.cfg.workerId, c.cfg.maxAttempts, c.until)
    ensures Since(c.start, run + [Stored(e, clock)])
    ensures OwnInRules(c.start, run + [Stored(e, clock)], c.cfg.workerId, c.cfg.maxAttempts, c.until)
  {
    OwnEventInRules(run, e, clock, c.leased, n, c.cfg, c.until);
    OrderSnoc(c.start, run, Stored(e, clock), c.cfg, c.until);
  }

  /** It does so in order, and has the letter to push if it kills. */
  lemma OwnEvent(c: Context, run: SystemLog, n: nat, own: Log, e: Event, clock: int, n': nat)
    requires Ongoing(c, run, n, own, {}) && DistinctKeys(c.leased) && ByCopy(c, n, e)
    requires n' == if e.Send? then n else n + 1
    ensures Ongoing(c, run + [Stored(e, clock)], n', own + [e], ToPush(SystemAfter(run).messages, e, clock))
  {
    OwnEventIsOwn(c, run, n, own, e, clock, n');
    OwnEventPushes(c.start, run, e, clock, c.cfg.workerId);
    OwnEventKeepsOrder(c, run, n, e, clock);
  }

  lemma OwnEventInRules(run: SystemLog, e: Event, clock: int, leased: seq<Message>, n: nat, cfg: Config, until: int)
    requires Holding(Project(run), leased, n, cfg.workerId, until) && n < |leased| && e.key == KeyOf(leased[n])
    requires (e.Settles() || e.Send?) && e.actor == cfg.workerId
    requires e.Nack? ==> leased[n].attempts + 1 < cfg.maxAttempts
    requires e.Kill? ==> leased[n].attempts + 1 >= cfg.maxAttempts
    ensures InOrder(run, cfg.maxAttempts) && Present(Project(run), until - 1) ==>
              InRules(SystemAfter(run), Project(run), Stored(e, clock), cfg.maxAttempts)
  {
    if InOrder(run, cfg.maxAttempts) && Present(Project(run), until - 1) {
      InOrderMeans(run, cfg.maxAttempts);
      InTimeIsRespecting(run, e, cfg.workerId, until);
    }
  }

  lemma PushedOwn(start: SystemLog, run: SystemLog, w: string, letter: DeadLetter)
    requires Pushing(start, run, w, {letter})
    ensures Pushing(start, run + [Pushed(w, letter)], w, {})
  {
    SystemSnoc(run, Pushed(w, letter));
  }

  /** The worker pushes the letter of its kill. */
  lemma OwnPush(c: Context, run: SystemLog, n: nat, own: Log, letter: DeadLetter)
    requires Ongoing(c, run, n, own, {letter})
    ensures Ongoing(c, run + [Pushed(c.cfg.workerId, letter)], n, own, {})
  {
    var e := Pushed(c.cfg.workerId, letter);
    SystemSnoc(run, e);
    assert Project(run) + [] == Project(run);
    PushedOwn(c.start, run, c.cfg.workerId, letter);
    OrderSnoc(c.start, run, e, c.cfg, c.until);
  }

  // ----- the batch is leased -----

  lemma NothingOwned(c: Context)
    requires c.leased == []
    ensures Project(c.start) + [] == Project(c.start) && Ongoing(c, c.start, 0, [], {})
  {
    assert EventsOf(Project(c.start), c.cfg.workerId) + [] == EventsOf(Project(c.start), c.cfg.workerId);
  }

  lemma LastProper(s: Messages, leased: seq<Message>, tenant: string, now: int, worker: string, until: int)
    requires leased != [] && ProperLeases(s, leased, tenant, now, worker, until)
    ensures var init, m := leased[..|leased| - 1], leased[|leased| - 1];
            && ProperLeases(s, init, tenant, now, worker, until) && leased == init + [m]
            && KeyOf(m) in AfterGrants(s, init) && Eligible(AfterGrants(s, init)[KeyOf(m)], tenant, now, worker)
            && KeyOf(m).0 == tenant && m == Granted(AfterGrants(s, init)[KeyOf(m)], worker, until)
            && (forall i | 0 <= i < |init| :: KeyOf(init[i]) != KeyOf(m))
            && AfterGrants(s, leased) == AfterGrants(s, init)[KeyOf(m) := m]
            && GrantsOf(leased, worker, now, until)
                  == GrantsOf(init, worker, now, until) + [Grant(KeyOf(m), worker, now, until)]
  {
    var init, m := leased[..|leased| - 1], leased[|leased| - 1];
    UntouchedByGrants(s, init, KeyOf(m));
  }

  /** Leasing a batch, in one atomic step, starts a tick. */
  lemma {:induction false} GrantsStart(c: Context, messages: Messages, entries: Entries, tenant: string, now: int)
    returns (run: SystemLog)
    requires Linked(messages, entries, Project(c.start), c.start)
    requires ProperLeases(messages, c.leased, tenant, now, c.cfg.workerId, c.until)
    ensures var grants := GrantsOf(c.leased, c.cfg.workerId, now, c.until);
            && Linked(AfterGrants(messages, c.leased), entries, Project(c.start) + grants, run)
            && Ongoing(c, run, 0, grants, {})
    decreases |c.leased|
  {
    if c.leased == [] {
      run := c.start;
      NothingOwned(c);
    } else {
      var init, m := c.leased[..|c.leased| - 1], c.leased[|c.leased| - 1];
      LastProper(messages, c.leased, tenant, now, c.cfg.workerId, c.until);
      var before := GrantsStart(c.(leased := init), messages, entries, tenant, now);
      run := GrantsGoOn(c, before, messages, AfterGrants(messages, init), entries, init, m, tenant, now,
                        GrantsOf(init, c.cfg.workerId, now, c.until));
    }
  }

  lemma GrantsGoOn(c: Context, before: SystemLog, found: Messages, messages: Messages, entries: Entries,
                   init: seq<Message>, m: Message, tenant: string, now: int, grants: Log)
    returns (run: SystemLog)
    requires c.leased == init + [m] && messages == AfterGrants(found, init)
    requires grants == GrantsOf(init, c.cfg.workerId, now, c.until)
    requires Linked(messages, entries, Project(c.start) + grants, before)
             && Ongoing(c.(leased := init), before, 0, grants, {})
    requires KeyOf(m) in messages && Eligible(messages[KeyOf(m)], tenant, now, c.cfg.workerId)
    requires KeyOf(m).0 == tenant && m == Granted(messages[KeyOf(m)], c.cfg.workerId, c.until)
    requires forall i | 0 <= i < |init| :: KeyOf(init[i]) != KeyOf(m)
    ensures var all := GrantsOf(c.leased, c.cfg.workerId, now, c.until);
            && Linked(AfterGrants(found, c.leased), entries, Project(c.start) + all, run)
            && Ongoing(c, run, 0, all, {})
  {
    var grant := Grant(KeyOf(m), c.cfg.workerId, now, c.until);
    assert c.leased[..|c.leased| - 1] == init;
    assert GrantsOf(c.leased, c.cfg.workerId, now, c.until) == grants + [grant];
    assert Project(c.start) + (grants + [grant]) == Project(c.start) + grants + [grant];
    run := OneMoreGrant(c, before, messages, entries, init, m, tenant, now, grants);
  }

  lemma GrantKeepsHolding(log: Log, init: seq<Message>, m: Message, w: string, now: int, until: int)
    requires Holding(log, init, 0, w, until)
    requires KeyOf(m) in After(log) && m.attempts == After(log)[KeyOf(m)].attempts
    requires forall i | 0 <= i < |init| :: KeyOf(init[i]) != KeyOf(m)
    ensures Holding(log + [Grant(KeyOf(m), w, now, until)], init + [m], 0, w, until)
  {
    var grant := Grant(KeyOf(m), w, now, until);
    Snoc(log, grant);
    forall j | 0 <= j < |init + [m]|
      ensures var k := KeyOf((init + [m])[j]);
              && k in After(log + [grant]) && Seen(log + [grant], k, w) == (init + [m])[j].attempts
              && Claim(log + [grant], k, w, false) == Some(until)
    {
      if j < |init| {
        assert (init + [m])[j] == init[j];
      }
    }
  }

  lemma GrantKeepsOwn(before: Log, log: Log, init: seq<Message>, m: Message, own: Log, w: string, now: int, until: int)
    requires OwnSoFar(before, log, init, 0, own, w, until)
    requires KeyOf(m) in After(log) && m.attempts == After(log)[KeyOf(m)].attempts
    requires forall i | 0 <= i < |init| :: KeyOf(init[i]) != KeyOf(m)
    ensures var grant := Grant(KeyOf(m), w, now, until);
            OwnSoFar(before, log + [grant], init + [m], 0, own + [grant], w, until)
  {
    GrantKeepsHolding(log, init, m, w, now, until);
    OwnEventRecorded(before, log, own, Grant(KeyOf(m), w, now, until), w);
  }

  lemma OneMoreGrant(c: Context, before: SystemLog, messages: Messages, entries: Entries,
                     init: seq<Message>, m: Message, tenant: string, now: int, own: Log)
    returns (run: SystemLog)
    requires Linked(messages, entries, Project(before), before) && Ongoing(c.(leased := init), before, 0, own, {})
    requires c.leased == init + [m]
    requires KeyOf(m) in messages && Eligible(messages[KeyOf(m)], tenant, now, c.cfg.workerId)
    requires KeyOf(m).0 == tenant && m == Granted(messages[KeyOf(m)], c.cfg.workerId, c.until)
    requires forall i | 0 <= i < |init| :: KeyOf(init[i]) != KeyOf(m)
    ensures var grant := Grant(KeyOf(m), c.cfg.workerId, now, c.until);
            && Linked(messages[KeyOf(m) := m], entries, Project(before) + [grant], run)
            && Ongoing(c, run, 0, own + [grant], {})
  {
    var w, log := c.cfg.workerId, Project(before);
    var grant := Grant(KeyOf(m), w, now, c.until);
    run := before + [Stored(grant, 0)];
    LinkedSnoc(messages, entries, log, before, Stored(grant, 0));
    SystemSnoc(before, Stored(grant, 0));
    GrantKeepsOwn(Project(c.start), log, init, m, own, w, now, c.until);
    OwnEventPushes(c.start, before, grant, 0, w);
    OrderSnoc(c.start, before, Stored(grant, 0), c.cfg, c.until);
  }

  // ----- the tick is over -----

  /** A finished tick: its own events are `own`, it has left no letter of its own unpushed, and what it did
      was in the rules. */
  ghost predicate Ticked(start: SystemLog, run: SystemLog, own: Log, cfg: Config, until: int) {
    && Since(start, run)
    && EventsOf(Project(run), cfg.workerId) == EventsOf(Project(start), cfg.workerId) + own
    && Pushing(start, run, cfg.workerId, {})
    && OwnInRules(start, run, cfg.workerId, cfg.maxAttempts, until)
  }

  /** If others kept the rules, and nobody leased anything at or past the end of the tick's leases while it
      ran, an orderly run goes on in order. */
  lemma TickKeepsOrder(start: SystemLog, run: SystemLog, own: Log, cfg: Config, until: int)
    requires Ticked(start, run, own, cfg, until) && InOrder(start, cfg.maxAttempts)
    requires OthersInRules(start, run, cfg.workerId, cfg.maxAttempts) && Present(Project(run), until - 1)
    ensures InOrder(run, cfg.maxAttempts)
  {
    OrderIsKept(start, run, cfg.workerId, cfg.maxAttempts, until);
  }
}
