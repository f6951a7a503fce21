/** One dispatcher tick: lease a batch, send each message, settle it by the answer, push the letters of
    the dead; while others act between any two of its calls to the stores. */
module Dispatcher {
  import opened Wrappers
  import opened OutboxModel
  import opened OutboxProtocol
  import opened OutboxStore
  import opened DeadLetters
  import opened DeadStore
  import opened TickReports
  import opened Ticks

  /** What others attempt while one message is handled: before it is sent, while it is being sent, and
      between its kill and the push of its letter. */
  datatype Meanwhile = Meanwhile(before: SystemLog, during: SystemLog, pushing: SystemLog)

  method OthersAct(dead: InMemoryDeadStore, events: SystemLog, cfg: Config, ghost c: Context, ghost run: SystemLog,
                   ghost n: nat, ghost own: Log, ghost open: set<DeadLetter>)
    returns (ghost run': SystemLog)
    requires Linked(dead.outbox.messages, dead.entries, dead.outbox.log, run)
    requires Ongoing(c, run, n, own, open) && c.cfg == cfg
    modifies dead, dead.outbox
    ensures Linked(dead.outbox.messages, dead.entries, dead.outbox.log, run')
    ensures Ongoing(c, run', n, own, open)
  {
    ghost var acted;
    acted, run' := dead.OthersAct(events, Some(cfg.workerId), run);
    OtherEvents(c, run, n, own, open, acted);
  }

  lemma Reported(messages: Messages, entries: Entries, log: Log, run: SystemLog, e: Event, clock: int,
                 messages': Messages)
    requires Linked(messages, entries, log, run) && Accepted(messages, e) && messages' == After(log + [e])
    ensures Linked(messages', entries, log + [e], run + [Stored(e, clock)])
    ensures e.Kill? ==> e.key in messages'
                        && ToPush(SystemAfter(run).messages, e, clock) == {LetterFor(messages'[e.key], e.error, clock)}
    ensures !e.Kill? ==> ToPush(SystemAfter(run).messages, e, clock) == {}
  {
    LinkedSnoc(messages, entries, log, run, Stored(e, clock));
    Snoc(log, e);
  }

  /** Report one sent message to the store; a killed one comes back for its letter. */
  method Report(dead: InMemoryDeadStore, cfg: Config, tenant: string, message: Message, answer: Answer, clock: int,
                ghost run: SystemLog)
    returns (letter: Option<DeadLetter>, ghost run': SystemLog)
    requires Linked(dead.outbox.messages, dead.entries, dead.outbox.log, run)
    requires !answer.Refused? && message.tenant == tenant && KeyOf(message) in dead.outbox.messages
    modifies dead.outbox
    ensures run' == run + [Stored(Settlement(message, answer, cfg), clock)]
    ensures Linked(dead.outbox.messages, dead.entries, dead.outbox.log, run')
    ensures ToPush(SystemAfter(run).messages, Settlement(message, answer, cfg), clock)
            == if letter.Some? then {letter.value} else {}
  {
    ghost var e := Settlement(message, answer, cfg);
    ghost var messages, log := dead.outbox.messages, dead.outbox.log;
    run' := run + [Stored(e, clock)];
    letter := None;
    if answer.Delivered? {
      var _ := dead.outbox.AckDone(tenant, message.id, cfg.workerId);
    } else if message.attempts + 1 >= cfg.maxAttempts {
      var killed := dead.outbox.DeadLetter(tenant, message.id, Some(answer.error), cfg.workerId);
      letter := Some(LetterFor(killed.value, Some(answer.error), clock));
    } else {
      var _ := dead.outbox.NackBackoff(tenant, message.id, answer.next, Some(answer.error), cfg.workerId);
    }
    Reported(messages, dead.entries, log, run, e, clock, dead.outbox.messages);
  }

  method PushLetter(dead: InMemoryDeadStore, letter: DeadLetter, cfg: Config, ghost c: Context, ghost run: SystemLog,
                    ghost n: nat, ghost own: Log)
    returns (ghost run': SystemLog)
    requires Linked(dead.outbox.messages, dead.entries, dead.outbox.log, run)
    requires Ongoing(c, run, n, own, {letter}) && c.cfg == cfg
    modifies dead
    ensures Linked(dead.outbox.messages, dead.entries, dead.outbox.log, run')
    ensures Ongoing(c, run', n, own, {})
  {
    ghost var e := Pushed(cfg.workerId, letter);
    LinkedSnoc(dead.outbox.messages, dead.entries, dead.outbox.log, run, e);
    assert dead.outbox.log + Projected(dead.outbox.messages, e) == dead.outbox.log;
    OwnPush(c, run, n, own, letter);
    run' := run + [e];
    dead.Push(letter);
  }

  /** Settle the `n`-th message, sent; and push its letter if it is dead, others acting in between. */
  method Settle(dead: InMemoryDeadStore, cfg: Config, tenant: string, message: Message, answer: Answer, clock: int,
                pushing: SystemLog, ghost c: Context, ghost run: SystemLog, ghost n: nat, ghost own: Log)
    returns (ghost run': SystemLog)
    requires Linked(dead.outbox.messages, dead.entries, dead.outbox.log, run)
    requires n < |c.leased| && message == c.leased[n] && OneTenant(c.leased, tenant) && !answer.Refused?
    requires Ongoing(c, run, n, own, {}) && c.cfg == cfg
    modifies dead, dead.outbox
    ensures Linked(dead.outbox.messages, dead.entries, dead.outbox.log, run')
    ensures Ongoing(c, run', n + 1, own + [Settlement(message, answer, cfg)], {})
  {
    ghost var settlement := Settlement(message, answer, cfg);
    OwnEvent(c, run, n, own, settlement, clock, n + 1);
    var letter;
    letter, run' := Report(dead, cfg, tenant, message, answer, clock, run);
    if letter.Some? {
      run' := OthersAct(dead, pushing, cfg, c, run', n + 1, own + [settlement], {letter.value});
      run' := PushLetter(dead, letter.value, cfg, c, run', n + 1, own + [settlement]);
    }
  }

  /** Send the `n`-th message. */
  method SendOut(dead: InMemoryDeadStore, cfg: Config, message: Message, clock: int, ghost c: Context,
                 ghost run: SystemLog, ghost n: nat, ghost own: Log)
    returns (ghost run': SystemLog)
    requires Linked(dead.outbox.messages, dead.entries, dead.outbox.log, run)
    requires n < |c.leased| && message == c.leased[n] && DistinctKeys(c.leased)
    requires Ongoing(c, run, n, own, {}) && c.cfg == cfg
    modifies dead.outbox
    ensures Linked(dead.outbox.messages, dead.entries, dead.outbox.log, run')
    ensures Ongoing(c, run', n, own + [Sending(message, cfg)], {})
  {
    ghost var e := Stored(Sending(message, cfg), clock);
    LinkedSnoc(dead.outbox.messages, dead.entries, dead.outbox.log, run, e);
    OwnEvent(c, run, n, own, e.event, clock, n);
    run' := run + [e];
    dead.outbox.Record(e.event);
  }

  /** Send and settle the `n`-th leased message. */
  method SendNth(dead: InMemoryDeadStore, cfg: Config, tenant: string, message: Message, answer: Answer, clock: int,
                 others: Meanwhile, ghost c: Context, ghost run: SystemLog, ghost n: nat, ghost own: Log)
    returns (ghost run': SystemLog)
    requires Linked(dead.outbox.messages, dead.entries, dead.outbox.log, run)
    requires n < |c.leased| && message == c.leased[n] && OneTenant(c.leased, tenant) && !answer.Refused?
    requires Ongoing(c, run, n, own, {}) && c.cfg == cfg
    modifies dead, dead.outbox
    ensures Linked(dead.outbox.messages, dead.entries, dead.outbox.log, run')
    ensures Ongoing(c, run', n + 1, own + [Sending(message, cfg)] + [Settlement(message, answer, cfg)], {})
  {
    run' := SendOut(dead, cfg, message, clock, c, run, n, own);
    run' := OthersAct(dead, others.during, cfg, c, run', n, own + [Sending(message, cfg)], {});
    run' := Settle(dead, cfg, tenant, message, answer, clock, others.pushing,
                   c, run', n, own + [Sending(message, cfg)]);
  }

  /** The first `i` messages were sent and the guard has not stopped the tick. */
  ghost predicate GoesOn(answers: nat -> Answer, i: nat, n: nat)
    requires i <= n
  {
    SentFrom(answers, 0, n) == i + SentFrom(answers, i, n) && Completes(answers, 0, n) == Completes(answers, i, n)
  }

  /** The tick is stopped after exactly `i` messages were sent. */
  ghost predicate StopsAt(answers: nat -> Answer, i: nat, n: nat)
    requires i <= n
  {
    SentFrom(answers, 0, n) == i && !Completes(answers, 0, n)
  }

  lemma OneMoreSent(answers: nat -> Answer, i: nat, n: nat)
    requires i < n && GoesOn(answers, i, n)
    ensures answers(i).Refused? ==> StopsAt(answers, i, n)
    ensures !answers(i).Refused? && answers(i).stop ==> StopsAt(answers, i + 1, n)
    ensures !answers(i).Refused? && !answers(i).stop ==> GoesOn(answers, i + 1, n)
  {
  }

  /** One turn of the tick's loop. */
  method TakeTurn(dead: InMemoryDeadStore, cfg: Config, tenant: string, message: Message, answer: Answer, clock: int,
                  others: Meanwhile, ghost c: Context, ghost run: SystemLog, ghost n: nat, ghost own: Log)
    returns (ghost run': SystemLog)
    requires Linked(dead.outbox.messages, dead.entries, dead.outbox.log, run)
    requires n < |c.leased| && message == c.leased[n] && OneTenant(c.leased, tenant)
    requires Ongoing(c, run, n, own, {}) && c.cfg == cfg
    modifies dead, dead.outbox
    ensures Linked(dead.outbox.messages, dead.entries, dead.outbox.log, run')
    ensures answer.Refused? ==> Ongoing(c, run', n, own, {})
    ensures !answer.Refused? ==>
              Ongoing(c, run', n + 1, own + [Sending(message, cfg)] + [Settlement(message, answer, cfg)], {})
  {
    run' := OthersAct(dead, others.before, cfg, c, run, n, own, {});
    if !answer.Refused? {
      run' := SendNth(dead, cfg, tenant, message, answer, clock, others, c, run', n, own);
    }
  }

  /** The loop's invariant: `n` messages are sent and settled, and with `ok` the tick goes on. */
  ghost predicate Progress(c: Context, run: SystemLog, answers: nat -> Answer, now: int, n: nat, ok: bool) {
    && n <= |c.leased|
    && Ongoing(c, run, n, TickEvents(c.leased, answers, c.cfg, now, n), {})
    && if ok then GoesOn(answers, n, |c.leased|) else StopsAt(answers, n, |c.leased|)
  }

  /** One turn, and whether the tick goes on. */
  method NextTurn(dead: InMemoryDeadStore, cfg: Config, tenant: string, now: int, leased: seq<Message>, n: nat,
                  answers: nat -> Answer, clock: int, others: Meanwhile, ghost c: Context, ghost run: SystemLog)
    returns (ok: bool, next: nat, ghost run': SystemLog)
    requires Linked(dead.outbox.messages, dead.entries, dead.outbox.log, run)
    requires c.leased == leased && c.cfg == cfg && n < |leased| && OneTenant(leased, tenant)
    requires Progress(c, run, answers, now, n, true)
    modifies dead, dead.outbox
    ensures Linked(dead.outbox.messages, dead.entries, dead.outbox.log, run')
    ensures n <= next <= |leased| && (ok ==> n < next) && Progress(c, run', answers, now, next, ok)
  {
    ghost var own := TickEvents(leased, answers, cfg, now, n);
    run' := TakeTurn(dead, cfg, tenant, leased[n], answers(n), clock, others, c, run, n, own);
    TurnProgresses(c, run', answers, now, n);
    ok := !answers(n).Refused? && !answers(n).stop;
    next := if answers(n).Refused? then n else n + 1;
  }

  lemma TurnProgresses(c: Context, run: SystemLog, answers: nat -> Answer, now: int, n: nat)
    requires n < |c.leased| && GoesOn(answers, n, |c.leased|)
    requires answers(n).Refused? ==> Ongoing(c, run, n, TickEvents(c.leased, answers, c.cfg, now, n), {})
    requires !answers(n).Refused? ==>
               Ongoing(c, run, n + 1, TickEvents(c.leased, answers, c.cfg, now, n) + [Sending(c.leased[n], c.cfg)]
                                      + [Settlement(c.leased[n], answers(n), c.cfg)], {})
    ensures Progress(c, run, answers, now, if answers(n).Refused? then n else n + 1,
                     !answers(n).Refused? && !answers(n).stop)
  {
    OneMoreSent(answers, n, |c.leased|);
  }

  lemma TickEnds(c: Context, run: SystemLog, answers: nat -> Answer, now: int, n: nat, ok: bool)
    requires Progress(c, run, answers, now, n, ok) && (ok ==> n == |c.leased|)
    ensures Ticked(c.start, run, TickEvents(c.leased, answers, c.cfg, now, n), c.cfg, c.until)
    ensures n == SentFrom(answers, 0, |c.leased|) && ok == Completes(answers, 0, |c.leased|)
  {
  }

  /** The loop of a tick over the leased messages. */
  method SendAll(dead: InMemoryDeadStore, cfg: Config, tenant: string, now: int, leased: seq<Message>,
                 answers: nat -> Answer, clocks: nat -> int, others: nat -> Meanwhile,
                  ghost c: Context, ghost first: SystemLog)
    returns (ok: bool, sent: nat, ghost run: SystemLog)
    requires Linked(dead.outbox.messages, dead.entries, dead.outbox.log, first)
    requires c.leased == leased && c.cfg == cfg && OneTenant(leased, tenant)
    requires Progress(c, first, answers, now, 0, true)
    modifies dead, dead.outbox
    ensures Linked(dead.outbox.messages, dead.entries, dead.outbox.log, run)
    ensures sent == SentFrom(answers, 0, |leased|) && ok == Completes(answers, 0, |leased|)
    ensures Ticked(c.start, run, TickEvents(leased, answers, cfg, now, sent), cfg, c.until)
  {
    ok, sent, run := true, 0, first;
    while ok && sent < |leased|
      invariant Linked(dead.outbox.messages, dead.entries, dead.outbox.log, run)
      invariant sent <= |leased| && Progress(c, run, answers, now, sent, ok)
      decreases |leased| - sent, ok
    {
      ok, sent, run := NextTurn(dead, cfg, tenant, now, leased, sent, answers, clocks(sent), others(sent), c, run);
    }
    TickEnds(c, run, answers, now, sent, ok);
  }

  lemma NoEventsYet(leased: seq<Message>, answers: nat -> Answer, cfg: Config, now: int)
    ensures TickEvents(leased, answers, cfg, now, 0) == GrantsOf(leased, cfg.workerId, now, now + cfg.leaseMs)
    ensures GoesOn(answers, 0, |leased|)
  {
  }

  lemma ProgressStarts(c: Context, run: SystemLog, answers: nat -> Answer, now: int, own: Log)
    requires own == TickEvents(c.leased, answers, c.cfg, now, 0) && GoesOn(answers, 0, |c.leased|)
    requires Ongoing(c, run, 0, own, {})
    ensures Progress(c, run, answers, now, 0, true)
  {
  }

  lemma {:induction false} ProperAreOneTenants(s: Messages, leased: seq<Message>, tenant: string, now: int,
                                               worker: string, until: int)
    requires ProperLeases(s, leased, tenant, now, worker, until)
    ensures OneTenant(leased, tenant)
  {
    if leased != [] {
      ProperAreOneTenants(s, leased[..|leased| - 1], tenant, now, worker, until);
    }
  }

  /** A batch, as leased in one step, starts a tick. */
  lemma BatchStarts(c: Context, messages: Messages, entries: Entries, log: Log, answers: nat -> Answer, tenant: string,
                    now: int, messages': Messages, log': Log)
    returns (run: SystemLog)
    requires Linked(messages, entries, log, c.start) && c.until == now + c.cfg.leaseMs
    requires ProperLeases(messages, c.leased, tenant, now, c.cfg.workerId, c.until)
    requires messages' == AfterGrants(messages, c.leased)
    requires log' == log + GrantsOf(c.leased, c.cfg.workerId, now, c.until)
    ensures OneTenant(c.leased, tenant)
    ensures Linked(messages', entries, log', run) && Progress(c, run, answers, now, 0, true)
  {
    ProperAreOneTenants(messages, c.leased, tenant, now, c.cfg.workerId, c.until);
    run := GrantsStart(c, messages, entries, tenant, now);
    NoEventsYet(c.leased, answers, c.cfg, now);
    ProgressStarts(c, run, answers, now, GrantsOf(c.leased, c.cfg.workerId, now, c.until));
  }

  /** A tick from the moment its batch is leased; `messages` and `log` are what the lease found. */
  method SendBatch(dead: InMemoryDeadStore, cfg: Config, tenant: string, now: int, leased: seq<Message>,
                   answers: nat -> Answer, clocks: nat -> int, others: nat -> Meanwhile, ghost start: SystemLog,
                   ghost messages: Messages, ghost log: Log)
    returns (ok: bool, sent: nat, ghost run: SystemLog)
    requires Linked(messages, dead.entries, log, start)
    requires ProperLeases(messages, leased, tenant, now, cfg.workerId, now + cfg.leaseMs)
    requires dead.outbox.messages == AfterGrants(messages, leased)
    requires dead.outbox.log == log + GrantsOf(leased, cfg.workerId, now, now + cfg.leaseMs)
    modifies dead, dead.outbox
    ensures Linked(dead.outbox.messages, dead.entries, dead.outbox.log, run)
    ensures sent == SentFrom(answers, 0, |leased|) && ok == Completes(answers, 0, |leased|)
    ensures Ticked(start, run, TickEvents(leased, answers, cfg, now, sent), cfg, now + cfg.leaseMs)
  {
    ghost var c := Context(start, leased, cfg, now + cfg.leaseMs);
    ghost var first := BatchStarts(c, messages, dead.entries, log, answers, tenant, now, dead.outbox.messages,
                                   dead.outbox.log);
    ok, sent, run := SendAll(dead, cfg, tenant, now, leased, answers, clocks, others, c, first);
  }

  /** A valid choice of the tenant's messages, as leased. */
  ghost predicate Batch(s: Messages, leased: seq<Message>, tenant: string, now: int, cfg: Config) {
    && BatchLeased(s, leased, tenant, now, cfg.leaseMs, cfg.batch, cfg.workerId, cfg.group)
    && ProperLeases(s, leased, tenant, now, cfg.workerId, now + cfg.leaseMs)
  }

  /** The batch, leased in one step. */
  method LeaseProper(store: InMemoryOutboxStore, order: seq<Key>, tenant: string, now: int, cfg: Config)
    returns (leased: seq<Message>)
    requires store.Valid() && Enumerates(order, store.messages)
    modifies store
    ensures store.Valid()
    ensures Batch(old(store.messages), leased, tenant, now, cfg)
    ensures store.messages == AfterGrants(old(store.messages), leased)
    ensures store.log == old(store.log) + GrantsOf(leased, cfg.workerId, now, now + cfg.leaseMs)
  {
    ghost var stored := store.messages;
    leased := store.LeaseBatch(order, tenant, now, cfg.leaseMs, cfg.batch, cfg.workerId, cfg.group);
    ChosenAreProper(stored, leased, tenant, now, cfg.leaseMs, cfg.batch, cfg.workerId, cfg.group);
  }

  /** A whole tick, while others do whatever the stores let them.  As far as the worker's own events go,
      every leased message up to the one that stops the tick is sent once and settled once, in order, by
      its own copy, and the letter of every kill is pushed; and all of it is in the rules until somebody
      breaks them or leases something at or past the end of the tick's leases, so that an orderly run
      goes on in order if nobody does. */
  method Tick(dead: InMemoryDeadStore, cfg: Config, tenant: string, now: int, order: seq<Key>,
              answers: nat -> Answer, clocks: nat -> int, others: nat -> Meanwhile, ghost start: SystemLog)
    returns (ok: bool, sent: nat, leased: seq<Message>, ghost run: SystemLog)
    requires Linked(dead.outbox.messages, dead.entries, dead.outbox.log, start)
    requires Enumerates(order, dead.outbox.messages)
    modifies dead, dead.outbox
    ensures Linked(dead.outbox.messages, dead.entries, dead.outbox.log, run)
    ensures Batch(old(dead.outbox.messages), leased, tenant, now, cfg)
    ensures StopsWhere(answers, |leased|, sent, ok)
    ensures Ticked(start, run, TickEvents(leased, answers, cfg, now, sent), cfg, now + cfg.leaseMs)
    ensures Told(TickEvents(leased, answers, cfg, now, sent), leased, answers, cfg, now, sent)
  {
    ghost var messages, log := dead.outbox.messages, dead.outbox.log;
    leased := LeaseProper(dead.outbox, order, tenant, now, cfg);
    ok, sent, run := SendBatch(dead, cfg, tenant, now, leased, answers, clocks, others, start, messages, log);
    TickTold(leased, answers, cfg, now, sent, ok);
  }
}
