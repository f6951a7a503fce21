/** What runs of dispatcher ticks come to: who leaves a send unsettled, and how many sends there
    are when nobody does. */
module DispatcherRuns {
  import opened OutboxModel
  import opened OutboxProtocol
  import opened OutboxAttempts
  import opened OutboxSends
  import opened OutboxStore
  import opened DeadLetters
  import opened Replays
  import opened DeadStore
  import opened TickReports
  import opened Ticks

  lemma {:induction false} GrantsSendNothing(before: Log, leased: seq<Message>, worker: string, now: int, until: int)
    ensures UnsettledSends(before + GrantsOf(leased, worker, now, until), {}) == UnsettledSends(before, {})
  {
    if leased == [] {
      assert before + GrantsOf(leased, worker, now, until) == before;
    } else {
      var init, m := leased[..|leased| - 1], leased[|leased| - 1];
      GrantsSendNothing(before, init, worker, now, until);
      var grant := Grant(KeyOf(m), worker, now, until);
      assert before + GrantsOf(leased, worker, now, until) == before + GrantsOf(init, worker, now, until) + [grant];
      Snoc(before + GrantsOf(init, worker, now, until), grant);
    }
  }

  /** A tick settles whatever it sends. */
  lemma {:induction false} TickSettlesItsSends(before: Log, leased: seq<Message>, answers: nat -> Answer, cfg: Config,
                                               now: int, n: nat)
    requires n <= |leased|
    ensures UnsettledSends(before + TickEvents(leased, answers, cfg, now, n), {}) == UnsettledSends(before, {})
  {
    if n == 0 {
      GrantsSendNothing(before, leased, cfg.workerId, now, now + cfg.leaseMs);
    } else {
      TickSettlesItsSends(before, leased, answers, cfg, now, n - 1);
      OneMoreTurnSettles(before, TickEvents(leased, answers, cfg, now, n - 1), Sending(leased[n - 1], cfg),
                         Settlement(leased[n - 1], answers(n - 1), cfg));
    }
  }

  lemma OneMoreTurnSettles(before: Log, events: Log, sending: Event, settlement: Event)
    requires sending.Send? && settlement.Settles() && settlement.key == sending.key && settlement.actor == sending.actor
    ensures UnsettledSends(before + (events + [sending] + [settlement]), {}) == UnsettledSends(before + events, {})
  {
    assert before + (events + [sending] + [settlement]) == before + events + [sending] + [settlement];
    SendThenSettle(before + events, sending, settlement);
  }

  lemma SendThenSettle(log: Log, sending: Event, settlement: Event)
    requires sending.Send? && settlement.Settles() && settlement.key == sending.key && settlement.actor == sending.actor
    ensures UnsettledSends(log + [sending] + [settlement], {}) == UnsettledSends(log, {})
  {
    var x := (sending.key, sending.actor);
    Snoc(log, sending);
    Snoc(log + [sending], settlement);
    assert {} + {x} == {x} && {x} - {x} == {};
  }

  /** Whatever others did meanwhile, a finished tick left none of its worker's sends unsettled
      that was not unsettled before. */
  lemma TickedSettles(start: SystemLog, run: SystemLog, leased: seq<Message>, answers: nat -> Answer, cfg: Config,
                      now: int, n: nat, until: int)
    requires n <= |leased| && Ticked(start, run, TickEvents(leased, answers, cfg, now, n), cfg, until)
    ensures UnsettledSends(EventsOf(Project(run), cfg.workerId), {})
            == UnsettledSends(EventsOf(Project(start), cfg.workerId), {})
  {
    TickSettlesItsSends(EventsOf(Project(start), cfg.workerId), leased, answers, cfg, now, n);
  }

  // ----- a worker's ticks, one after the other -----

  /** A tick that was not cut short: what it leased, the answers it got, and how many messages it sent. */
  datatype WholeTick = WholeTick(leased: seq<Message>, answers: nat -> Answer, cfg: Config, now: int, sent: nat)

  ghost predicate WellFormed(ticks: seq<WholeTick>) {
    forall t | t in ticks :: t.sent <= |t.leased|
  }

  /** The events of the ticks, in order. */
  ghost function AllTicks(ticks: seq<WholeTick>): Log
    requires WellFormed(ticks)
  {
    if ticks == [] then []
    else
      var t := ticks[|ticks| - 1];
      AllTicks(ticks[..|ticks| - 1]) + TickEvents(t.leased, t.answers, t.cfg, t.now, t.sent)
  }

  lemma {:induction false} TicksSettleTheirSends(ticks: seq<WholeTick>)
    requires WellFormed(ticks)
    ensures UnsettledSends(AllTicks(ticks), {}) == 0
  {
    if ticks != [] {
      var init, t := ticks[..|ticks| - 1], ticks[|ticks| - 1];
      TicksSettleTheirSends(init);
      TickSettlesItsSends(AllTicks(init), t.leased, t.answers, t.cfg, t.now, t.sent);
    }
  }

  /** Whatever others did meanwhile, a worker that has done whole ticks and finishes another has done whole
      ticks. */
  lemma OneMoreTick(start: SystemLog, run: SystemLog, ticks: seq<WholeTick>, t: WholeTick, until: int)
    requires WellFormed(ticks) && t.sent <= |t.leased|
    requires EventsOf(Project(start), t.cfg.workerId) == AllTicks(ticks)
    requires Ticked(start, run, TickEvents(t.leased, t.answers, t.cfg, t.now, t.sent), t.cfg, until)
    ensures WellFormed(ticks + [t]) && EventsOf(Project(run), t.cfg.workerId) == AllTicks(ticks + [t])
  {
    assert (ticks + [t])[..|ticks|] == ticks;
  }

  /** The worker has done nothing but whole ticks. */
  ghost predicate OnlyTicks(log: Log, w: string) {
    exists ticks :: WellFormed(ticks) && EventsOf(log, w) == AllTicks(ticks)
  }

  lemma {:induction false} OthersDoNotMatter(log: Log, w: string, later: set<Sender>, x: Sender)
    requires x.1 != w
    ensures UnsettledSends(EventsOf(log, w), later + {x}) == UnsettledSends(EventsOf(log, w), later)
            == UnsettledSends(EventsOf(log, w), later - {x})
  {
    if log != [] {
      var init, e := Init(log), Last(log);
      if ActsAs(e, w) {
        Snoc(EventsOf(init, w), e);
        if e.Settles() || e.Send? {
          var y := (e.key, e.actor);
          assert later + {x} + {y} == later + {y} + {x} && later - {x} + {y} == later + {y} - {x};
          assert later + {x} - {y} == later - {y} + {x} && later - {x} - {y} == later - {y} - {x};
          OthersDoNotMatter(init, w, later + {y}, x);
          OthersDoNotMatter(init, w, later - {y}, x);
        }
        OthersDoNotMatter(init, w, later, x);
      } else {
        assert EventsOf(log, w) == EventsOf(init, w);
        OthersDoNotMatter(init, w, later, x);
      }
    }
  }

  /** One event more or less, seen by one worker. */
  lemma WorkerStep(log: Log, w: string, later: set<Sender>)
    requires log != []
    ensures var e := Last(log);
            UnsettledSends(EventsOf(log, w), later)
            == UnsettledSends(EventsOf(Init(log), w), LaterBefore(e, later))
               + if e.Send? && e.actor == w && (e.key, w) !in later then 1 else 0
  {
    var init, e := Init(log), Last(log);
    if ActsAs(e, w) {
      Snoc(EventsOf(init, w), e);
      assert e.Send? && (e.key, e.actor) !in later ==> LaterBefore(e, later) == later;
    } else {
      assert EventsOf(log, w) == EventsOf(init, w);
      if e.Settles() || e.Send? {
        OthersDoNotMatter(init, w, later, (e.key, e.actor));
      }
    }
  }

  ghost predicate NoWorkerUnsettled(log: Log, later: set<Sender>) {
    forall w :: UnsettledSends(EventsOf(log, w), later) == 0
  }

  /** A run leaves no send unsettled exactly when no worker does. */
  lemma {:induction false} NoneUnsettledByWorker(log: Log, later: set<Sender>)
    ensures UnsettledSends(log, later) == 0 <==> NoWorkerUnsettled(log, later)
  {
    if log != [] {
      var init, e := Init(log), Last(log);
      NoneUnsettledByWorker(init, LaterBefore(e, later));
      if e.Send? && (e.key, e.actor) !in later {
        WorkerStep(log, e.actor, later);
        assert UnsettledSends(EventsOf(log, e.actor), later) > 0;
      } else {
        assert UnsettledSends(log, later) == UnsettledSends(init, LaterBefore(e, later));
        forall w
          ensures UnsettledSends(EventsOf(log, w), later) == UnsettledSends(EventsOf(init, w), LaterBefore(e, later))
        {
          WorkerStep(log, w, later);
        }
        assert NoWorkerUnsettled(log, later) <==> NoWorkerUnsettled(init, LaterBefore(e, later));
      }
    }
  }

  lemma OnlyTicksSettle(log: Log)
    requires forall w :: OnlyTicks(log, w)
    ensures UnsettledSends(log, {}) == 0
  {
    forall w
      ensures UnsettledSends(EventsOf(log, w), {}) == 0
    {
      assert OnlyTicks(log, w);
      var ticks :| WellFormed(ticks) && EventsOf(log, w) == AllTicks(ticks);
      TicksSettleTheirSends(ticks);
    }
    NoneUnsettledByWorker(log, {});
  }

  lemma OrderlyIsDisciplined(run: SystemLog, maxAttempts: nat)
    requires InOrder(run, maxAttempts)
    ensures Legal(Project(run)) && Disciplined(Project(run)) && FollowsPolicy(Project(run), maxAttempts)
  {
    InOrderMeans(run, maxAttempts);
    RunsAreLegal(run);
    SerialReplaysKeepDiscipline(run);
  }

  /** So when every worker does nothing but whole ticks, however they interleave with each other and with
      enqueues, replays and purges, an orderly run sends at most the limit times as often as messages were
      enqueued or revived. */
  lemma WholeTicksSendWithinLimit(run: SystemLog, maxAttempts: nat)
    requires InOrder(run, maxAttempts) && maxAttempts <= MAX_U32
    requires forall w :: OnlyTicks(Project(run), w)
    ensures Sends(Project(run)) <= Limit(maxAttempts) * StartCount(Project(run))
  {
    OrderlyIsDisciplined(run, maxAttempts);
    OnlyTicksSettle(Project(run));
    SendsBounded(Project(run), maxAttempts);
  }
}
