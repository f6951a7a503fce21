/** The in-memory store of dead letters, next to the outbox it replays to.  Each of its calls to a map
    is one atomic step, and others act between any two. */
module DeadStore {
  import opened Wrappers
  import opened OutboxModel
  import opened OutboxProtocol
  import opened OutboxStore
  import opened DeadLetters

  /** Outbox, letters and the outbox's log are those of a run. */
  ghost predicate Linked(messages: Messages, entries: Entries, log: Log, run: SystemLog) {
    var s := SystemAfter(run);
    messages == s.messages && entries == s.entries && log == Project(run) && messages == After(log) && Legal(log)
  }

  lemma LinkedSnoc(messages: Messages, entries: Entries, log: Log, run: SystemLog, e: SystemEvent)
    requires Linked(messages, entries, log, run) && (e.Stored? ==> Accepted(messages, e.event))
    ensures Linked(ApplyMessages(messages, e), ApplyEntries(entries, e), log + Projected(messages, e), run + [e])
  {
    SystemSnoc(run, e);
    ProjectedStep(log, messages, e);
  }

  /** The event is a store call or a push in this worker's name. */
  predicate DoneBy(e: SystemEvent, w: string) {
    match e
    case Stored(event, _) => ActsAs(event, w)
    case Pushed(actor, _) => actor == w
    case _ => false
  }

  predicate NoneBy(events: SystemLog, w: Option<string>) {
    forall e | e in events :: w.Some? ==> !DoneBy(e, w.value)
  }

  lemma OneMoreActed(run: SystemLog, acted: SystemLog, e: SystemEvent, w: Option<string>)
    requires NoneBy(acted, w) && (w.Some? ==> !DoneBy(e, w.value))
    ensures run + acted + [e] == run + (acted + [e]) && NoneBy(acted + [e], w)
  {
  }

  class InMemoryDeadStore {
    var entries: Entries
    const outbox: InMemoryOutboxStore

    constructor (outbox: InMemoryOutboxStore)
      ensures this.outbox == outbox && entries == map[]
    {
      this.outbox := outbox;
      entries := map[];
    }

    method Push(letter: DeadLetter)
      modifies this
      ensures entries == old(entries)[letter.reference := letter]
    {
      entries := entries[letter.reference := letter];
    }

    method Remove(ref: Ref)
      modifies this
      ensures entries == old(entries) - {ref}
    {
      entries := entries - {ref};
    }

    /** One event that the stores accept. */
    method Happen(e: SystemEvent, ghost run: SystemLog)
      requires Linked(outbox.messages, entries, outbox.log, run) && (e.Stored? ==> Accepted(outbox.messages, e.event))
      modifies this, outbox
      ensures Linked(outbox.messages, entries, outbox.log, run + [e])
    {
      LinkedSnoc(outbox.messages, entries, outbox.log, run, e);
      outbox.log := outbox.log + Projected(outbox.messages, e);
      outbox.messages, entries := ApplyMessages(outbox.messages, e), ApplyEntries(entries, e);
    }

    /** What others do between two steps: whatever the stores accept, under the rules or not, but not in
        the name of worker `w`. */
    method OthersAct(events: seq<SystemEvent>, w: Option<string>, ghost run: SystemLog)
      returns (ghost acted: SystemLog, ghost run': SystemLog)
      requires Linked(outbox.messages, entries, outbox.log, run)
      modifies this, outbox
      ensures Linked(outbox.messages, entries, outbox.log, run')
      ensures run' == run + acted && NoneBy(acted, w)
    {
      acted, run' := [], run;
      assert run + [] == run;
      for i := 0 to |events|
        invariant Linked(outbox.messages, entries, outbox.log, run')
        invariant run' == run + acted && NoneBy(acted, w)
      {
        if !(w.Some? && DoneBy(events[i], w.value))
           && (events[i].Stored? ==> Accepted(outbox.messages, events[i].event)) {
          Happen(events[i], run');
          OneMoreActed(run, acted, events[i], w);
          acted, run' := acted + [events[i]], run' + [events[i]];
        }
      }
    }

    /** Three steps: read the letter, revive its message, remove what is stored under the reference by
        then; `first` and `second` are what others attempt in between. */
    method Replay(ref: Ref, at: int, first: seq<SystemEvent>, second: seq<SystemEvent>, ghost run: SystemLog)
      returns (r: Result<(), OutboxError>, ghost before: SystemLog, ghost after: SystemLog, ghost run': SystemLog)
      requires Linked(outbox.messages, entries, outbox.log, run)
      modifies this, outbox
      ensures Linked(outbox.messages, entries, outbox.log, run')
      ensures ref !in old(entries) ==> r == Err(Missing) && run' == run + [ReadForReplay(ref)]
      ensures ref in old(entries) ==>
                var letter := old(entries)[ref];
                var revived := run + [ReadForReplay(ref)] + before + [SystemEvent.Revived(letter, at)];
                && (r.Ok? <==> Target(letter) in SystemAfter(run + [ReadForReplay(ref)] + before).messages)
                && run' == if r.Ok? then revived + after + [Removed(letter.reference)] else revived
    {
      before, after := [], [];
      var read;
      read, run' := ReadFor(ref, run);
      if read.None? {
        return Err(Missing), before, after, run';
      }
      before, run' := OthersAct(first, None, run');
      r, run' := ReviveFor(read.value, at, run');
      if r.Err? {
        return;
      }
      after, run' := OthersAct(second, None, run');
      run' := RemoveFor(read.value.reference, run');
    }

    method ReadFor(ref: Ref, ghost run: SystemLog) returns (letter: Option<DeadLetter>, ghost run': SystemLog)
      requires Linked(outbox.messages, entries, outbox.log, run)
      ensures run' == run + [ReadForReplay(ref)] && Linked(outbox.messages, entries, outbox.log, run')
      ensures letter == if ref in entries then Some(entries[ref]) else None
    {
      LinkedSnoc(outbox.messages, entries, outbox.log, run, ReadForReplay(ref));
      assert outbox.log + Projected(outbox.messages, ReadForReplay(ref)) == outbox.log;
      run' := run + [ReadForReplay(ref)];
      letter := if ref in entries then Some(entries[ref]) else None;
    }

    method RemoveFor(ref: Ref, ghost run: SystemLog) returns (ghost run': SystemLog)
      requires Linked(outbox.messages, entries, outbox.log, run)
      modifies this
      ensures run' == run + [Removed(ref)] && Linked(outbox.messages, entries, outbox.log, run')
    {
      LinkedSnoc(outbox.messages, entries, outbox.log, run, Removed(ref));
      assert outbox.log + Projected(outbox.messages, Removed(ref)) == outbox.log;
      Remove(ref);
      run' := run + [Removed(ref)];
    }

    /** The second step of a replay. */
    method ReviveFor(letter: DeadLetter, at: int, ghost run: SystemLog)
      returns (r: Result<(), OutboxError>, ghost run': SystemLog)
      requires Linked(outbox.messages, entries, outbox.log, run)
      modifies outbox
      ensures run' == run + [SystemEvent.Revived(letter, at)]
      ensures Linked(outbox.messages, entries, outbox.log, run')
      ensures r.Ok? <==> Target(letter) in old(outbox.messages)
    {
      ghost var e := SystemEvent.Revived(letter, at);
      LinkedSnoc(outbox.messages, entries, outbox.log, run, e);
      assert outbox.log + [] == outbox.log;
      run' := run + [e];
      Snoc(outbox.log, Revive(Target(letter), at));
      r := outbox.Revive(letter.tenant, letter.reference.id, at);
    }

    method PurgeOlderThan(tenant: string, before: int)
      modifies this
      ensures entries == Purged(old(entries), tenant, before)
    {
      var expired := set ref | ref in entries && entries[ref].tenant == tenant && entries[ref].occurredAt < before;
      ghost var all := entries;
      while expired != {}
        invariant forall ref | ref in expired :: ref in all && all[ref].tenant == tenant && all[ref].occurredAt < before
        invariant entries == map ref | ref in all
                  && (ref in expired || !(all[ref].tenant == tenant && all[ref].occurredAt < before)) :: all[ref]
        decreases |expired|
      {
        var ref :| ref in expired;
        expired := expired - {ref};
        entries := entries - {ref};
      }
    }
  }

  // ----- a replay among others -----

  lemma {:induction false} ReadStaysRead(run: SystemLog, more: SystemLog, letter: DeadLetter)
    requires letter in SystemAfter(run).read
    ensures letter in SystemAfter(run + more).read
  {
    if more == [] {
      assert run + more == run;
    } else {
      var init, e := more[..|more| - 1], more[|more| - 1];
      ReadStaysRead(run, init, letter);
      assert run + more == run + init + [e];
      SystemSnoc(run + init, e);
    }
  }

  /** The steps of a replay are always allowed: it revives by a letter that it has read. */
  lemma ReplayIsAllowed(run: SystemLog, ref: Ref, before: SystemLog, at: int)
    requires ref in SystemAfter(run).entries && SystemLegal(run + [ReadForReplay(ref)] + before)
    ensures SystemLegal(run + [ReadForReplay(ref)])
    ensures SystemLegal(run + [ReadForReplay(ref)] + before + [SystemEvent.Revived(SystemAfter(run).entries[ref], at)])
  {
    var read := run + [ReadForReplay(ref)];
    SystemSnoc(run, ReadForReplay(ref));
    LegalStart(read, before);
    ReadStaysRead(read, before, SystemAfter(run).entries[ref]);
    SystemSnoc(read + before, SystemEvent.Revived(SystemAfter(run).entries[ref], at));
  }

  lemma {:induction false} LegalStart(run: SystemLog, more: SystemLog)
    requires SystemLegal(run + more)
    ensures SystemLegal(run)
  {
    if more == [] {
      assert run + more == run;
    } else {
      var init, e := more[..|more| - 1], more[|more| - 1];
      assert run + more == run + init + [e];
      SystemSnoc(run + init, e);
      LegalStart(run, init);
    }
  }
}
