/** Dead letters beside the outbox: pushes follow their kills, and replays take three steps. */
module DeadLetters {
  import opened Wrappers
  import opened OutboxModel
  import opened OutboxProtocol

  datatype DeadKind = OutboxKind | SagaKind

  /** A letter is filed under its kind and id; the tenant is not part of the key. */
  datatype Ref = Ref(kind: DeadKind, id: string)

  datatype DeadLetter = DeadLetter(reference: Ref, tenant: string, error: Option<string>, occurredAt: int,
                                   payload: Message)

  type Entries = map<Ref, DeadLetter>

  function LetterFor(m: Message, error: Option<string>, clock: int): DeadLetter {
    DeadLetter(Ref(OutboxKind, m.id), m.tenant, error, clock, m)
  }

  function Target(letter: DeadLetter): Key {
    (letter.tenant, letter.reference.id)
  }

  function RefOf(k: Key): Ref {
    Ref(OutboxKind, k.1)
  }

  // ----- outbox and letters as one state -----

  /** The replay of a reference under way: it has read this letter, or it has revived the message. */
  datatype Replay = Reading(letter: DeadLetter) | Reviving

  /** The messages and the letters; and what those who act on them have in hand: letters of killed
      messages that their workers have yet to push, letters that replays have read, and for each
      reference how far the last replay has come. */
  datatype System = System(messages: Messages, entries: Entries, pushing: set<(string, DeadLetter)>,
                           read: set<DeadLetter>, replays: map<Ref, Replay>)

  datatype SystemEvent =
    /** A store event; `clock` stamps the letter of a kill. */
    | Stored(event: Event, clock: int)
    | Pushed(actor: string, letter: DeadLetter)
    | ReadForReplay(ref: Ref)
    | Revived(letter: DeadLetter, at: int)
    | Removed(ref: Ref)
    | PurgedBefore(tenant: string, before: int)

  type SystemLog = seq<SystemEvent>

  function Purged(entries: Entries, tenant: string, before: int): Entries {
    map ref | ref in entries && !(entries[ref].tenant == tenant && entries[ref].occurredAt < before) :: entries[ref]
  }

  function ApplyMessages(messages: Messages, e: SystemEvent): Messages {
    match e
    case Stored(event, _) => Apply(messages, event)
    case Revived(letter, at) => Apply(messages, Revive(Target(letter), at))
    case _ => messages
  }

  function ApplyEntries(entries: Entries, e: SystemEvent): Entries {
    match e
    case Pushed(_, letter) => entries[letter.reference := letter]
    case Removed(ref) => entries - {ref}
    case PurgedBefore(tenant, before) => Purged(entries, tenant, before)
    case _ => entries
  }

  predicate Kills(messages: Messages, e: SystemEvent) {
    e.Stored? && e.event.Kill? && e.event.key in messages
  }

  /** The letter that a kill hands to its worker. */
  function LetterOfKill(messages: Messages, e: SystemEvent): DeadLetter
    requires Kills(messages, e)
  {
    LetterFor(Killed(messages[e.event.key], e.event.error), e.event.error, e.clock)
  }

  function ApplyPushing(s: System, e: SystemEvent): set<(string, DeadLetter)> {
    if Kills(s.messages, e) then s.pushing + {(e.event.actor, LetterOfKill(s.messages, e))}
    else if e.Pushed? then s.pushing - {(e.actor, e.letter)}
    else s.pushing
  }

  function ApplyReplays(s: System, e: SystemEvent): map<Ref, Replay> {
    match e
    case ReadForReplay(ref) => if ref in s.entries then s.replays[ref := Reading(s.entries[ref])] else s.replays
    case Revived(letter, _) =>
      if Target(letter) in s.messages then s.replays[letter.reference := Reviving] else s.replays - {letter.reference}
    case Removed(ref) => s.replays - {ref}
    case _ => s.replays
  }

  function ApplySystem(s: System, e: SystemEvent): System {
    System(ApplyMessages(s.messages, e), ApplyEntries(s.entries, e), ApplyPushing(s, e),
           if e.ReadForReplay? && e.ref in s.entries then s.read + {s.entries[e.ref]} else s.read,
           ApplyReplays(s, e))
  }

  const NOTHING := System(map[], map[], {}, {}, map[])

  function SystemAfter(log: SystemLog): System {
    if log == [] then NOTHING else ApplySystem(SystemAfter(log[..|log| - 1]), log[|log| - 1])
  }

  /** Workers respect leases, and each pushes the letters of its own kills; nothing is revived but by
      a replay that has read a letter of the message.  Anybody may remove or purge letters. */
  predicate Allowed(s: System, e: SystemEvent) {
    match e
    case Stored(event, _) => Accepted(s.messages, event) && LeaseRespecting(s.messages, event) && !event.Revive?
    case Pushed(actor, letter) => (actor, letter) in s.pushing
    case Revived(letter, _) => letter in s.read
    case _ => true
  }

  predicate SystemLegal(log: SystemLog) {
    log == [] || (SystemLegal(log[..|log| - 1]) && Allowed(SystemAfter(log[..|log| - 1]), log[|log| - 1]))
  }

  /** What the outbox store sees of one event. */
  function Projected(messages: Messages, e: SystemEvent): Log {
    match e
    case Stored(event, _) => [event]
    case Revived(letter, at) => if Target(letter) in messages then [Revive(Target(letter), at)] else []
    case _ => []
  }

  /** The events of the run as the outbox store sees them. */
  function Project(log: SystemLog): Log {
    if log == [] then []
    else Project(log[..|log| - 1]) + Projected(SystemAfter(log[..|log| - 1]).messages, log[|log| - 1])
  }

  lemma SystemSnoc(log: SystemLog, e: SystemEvent)
    ensures SystemAfter(log + [e]) == ApplySystem(SystemAfter(log), e)
    ensures SystemLegal(log + [e]) <==> SystemLegal(log) && Allowed(SystemAfter(log), e)
    ensures Project(log + [e]) == Project(log) + Projected(SystemAfter(log).messages, e)
  {
    assert (log + [e])[..|log|] == log;
  }

  // ----- every run is a run of the outbox -----

  lemma ProjectedStep(log: Log, messages: Messages, e: SystemEvent)
    requires messages == After(log) && Legal(log) && (e.Stored? ==> Accepted(messages, e.event))
    ensures Legal(log + Projected(messages, e)) && ApplyMessages(messages, e) == After(log + Projected(messages, e))
  {
    var projected := Projected(messages, e);
    if projected == [] {
      assert log + projected == log;
    } else {
      assert projected == [projected[0]];
      Snoc(log, projected[0]);
    }
  }

  lemma {:induction false} RunsAreLegal(log: SystemLog)
    requires SystemLegal(log)
    ensures Legal(Project(log)) && SystemAfter(log).messages == After(Project(log))
    ensures WellKept(SystemAfter(log).messages)
  {
    if log != [] {
      var before := log[..|log| - 1];
      RunsAreLegal(before);
      ProjectedStep(Project(before), SystemAfter(before).messages, log[|log| - 1]);
    }
    LeaseFieldsAlwaysAgree(Project(log));
  }

  // ----- no dead message is without its letter -----

  /** A letter of the message is on its way. */
  ghost predicate InFlight(s: System, k: Key) {
    exists x | x in s.pushing :: Target(x.1) == k
  }

  ghost predicate HasLetter(s: System, k: Key) {
    (RefOf(k) in s.entries && Target(s.entries[RefOf(k)]) == k) || InFlight(s, k)
  }

  predicate IsDead(s: System, k: Key) {
    k in s.messages && s.messages[k].status == Dead
  }

  /** Every dead message has its letter, stored or on its way. */
  ghost predicate LettersComplete(s: System) {
    forall k | IsDead(s, k) :: HasLetter(s, k)
  }

  /** Letters on their way are filed by the id of a message of their tenant; stored ones under
      their own references. */
  ghost predicate Filed(s: System) {
    && (forall x | x in s.pushing :: x.1.reference == RefOf(Target(x.1)))
    && (forall ref | ref in s.entries :: s.entries[ref].reference == ref)
    && (forall letter | letter in s.read :: letter.reference == RefOf(Target(letter)))
    && (forall ref | ref in s.entries :: ref.kind == OutboxKind)
    && (forall ref | ref in s.replays && s.replays[ref].Reading? ::
          s.replays[ref].letter.reference == ref && ref == RefOf(Target(s.replays[ref].letter)))
  }

  lemma {:induction false} LettersAlwaysFiled(log: SystemLog)
    requires SystemLegal(log)
    ensures Filed(SystemAfter(log))
  {
    if log != [] {
      LettersAlwaysFiled(log[..|log| - 1]);
    }
  }

  /** The message is dead, and the only letter it has is stored. */
  ghost predicate OnlyStored(s: System, k: Key) {
    IsDead(s, k) && !InFlight(s, k)
  }

  /** What takes the only letter of a dead message: a push for another tenant's message of the same
      id, a removal under its id, and a purge that its letter is old enough for. */
  ghost predicate Loses(s: System, e: SystemEvent) {
    match e
    case Pushed(_, letter) => exists k | OnlyStored(s, k) :: RefOf(k) == letter.reference && k != Target(letter)
    case Removed(ref) => exists k | OnlyStored(s, k) :: RefOf(k) == ref
    case PurgedBefore(tenant, before) =>
      exists k | OnlyStored(s, k) ::
        RefOf(k) in s.entries && s.entries[RefOf(k)].tenant == tenant && s.entries[RefOf(k)].occurredAt < before
    case _ => false
  }

  /** Store events kill no message but the killed one, and put its letter on its way. */
  lemma StoreKeepsComplete(s: System, event: Event, clock: int)
    requires LettersComplete(s) && WellKept(s.messages) && Allowed(s, Stored(event, clock))
    ensures LettersComplete(ApplySystem(s, Stored(event, clock)))
  {
    var e := Stored(event, clock);
    var t := ApplySystem(s, e);
    forall k | IsDead(t, k)
      ensures HasLetter(t, k)
    {
      if event.Kill? && k == event.key {
        var x := (event.actor, LetterOfKill(s.messages, e));
        assert x in t.pushing && Target(x.1) == k;
      } else {
        assert IsDead(s, k) && HasLetter(s, k);
        if x :| x in s.pushing && Target(x.1) == k {
          assert x in t.pushing;
        }
      }
    }
  }

  lemma PushKeepsComplete(s: System, actor: string, letter: DeadLetter)
    requires LettersComplete(s) && Filed(s) && (actor, letter) in s.pushing
    ensures LettersComplete(ApplySystem(s, Pushed(actor, letter))) <==> !Loses(s, Pushed(actor, letter))
  {
    var t := ApplySystem(s, Pushed(actor, letter));
    if k :| OnlyStored(s, k) && RefOf(k) == letter.reference && k != Target(letter) {
      assert IsDead(t, k) && !HasLetter(t, k);
    } else {
      forall k | IsDead(t, k)
        ensures HasLetter(t, k)
      {
        if k != Target(letter) && InFlight(s, k) {
          var x :| x in s.pushing && Target(x.1) == k;
          assert x in t.pushing;
        } else if k != Target(letter) {
          assert OnlyStored(s, k) && HasLetter(s, k);
        }
      }
    }
  }

  lemma RemoveKeepsComplete(s: System, ref: Ref)
    requires LettersComplete(s)
    ensures LettersComplete(ApplySystem(s, Removed(ref))) <==> !Loses(s, Removed(ref))
  {
    var t := ApplySystem(s, Removed(ref));
    assert forall k :: IsDead(t, k) <==> IsDead(s, k);
    assert forall k :: InFlight(t, k) <==> InFlight(s, k);
    if k :| OnlyStored(s, k) && RefOf(k) == ref {
      assert IsDead(t, k) && !HasLetter(t, k);
    }
  }

  lemma PurgeKeepsComplete(s: System, tenant: string, before: int)
    requires LettersComplete(s)
    ensures LettersComplete(ApplySystem(s, PurgedBefore(tenant, before))) <==> !Loses(s, PurgedBefore(tenant, before))
  {
    var t := ApplySystem(s, PurgedBefore(tenant, before));
    assert forall k :: IsDead(t, k) <==> IsDead(s, k);
    assert forall k :: InFlight(t, k) <==> InFlight(s, k);
    if k :| OnlyStored(s, k) && RefOf(k) in s.entries && s.entries[RefOf(k)].tenant == tenant
            && s.entries[RefOf(k)].occurredAt < before {
      assert IsDead(t, k) && !HasLetter(t, k);
    }
  }

  lemma ReplayKeepsComplete(s: System, e: SystemEvent)
    requires LettersComplete(s) && (e.ReadForReplay? || e.Revived?)
    ensures LettersComplete(ApplySystem(s, e))
  {
    var t := ApplySystem(s, e);
    forall k | IsDead(t, k)
      ensures HasLetter(t, k)
    {
      assert IsDead(s, k) && HasLetter(s, k);
    }
  }

  /** Letters were complete after every event of the run. */
  ghost predicate AlwaysComplete(log: SystemLog) {
    LettersComplete(SystemAfter(log)) && (log == [] || AlwaysComplete(log[..|log| - 1]))
  }

  /** No event of the run took the only letter of a dead message. */
  ghost predicate NothingLost(log: SystemLog) {
    log == [] || (NothingLost(log[..|log| - 1]) && !Loses(SystemAfter(log[..|log| - 1]), log[|log| - 1]))
  }

  /** In every run, however its steps interleave: every dead message always has its letter, stored or
      on its way, exactly when no push for another tenant, removal or purge comes at a time when
      some dead message of that id has no other letter. */
  lemma {:induction false} CompleteExactlyIfNothingLost(log: SystemLog)
    requires SystemLegal(log)
    ensures AlwaysComplete(log) <==> NothingLost(log)
  {
    if log != [] {
      var init, e := log[..|log| - 1], log[|log| - 1];
      CompleteExactlyIfNothingLost(init);
      if AlwaysComplete(init) {
        RunsAreLegal(init);
        LettersAlwaysFiled(init);
        OneEventKeepsComplete(SystemAfter(init), e);
      }
    }
  }

  lemma OneEventKeepsComplete(s: System, e: SystemEvent)
    requires LettersComplete(s) && Filed(s) && WellKept(s.messages) && Allowed(s, e)
    ensures LettersComplete(ApplySystem(s, e)) <==> !Loses(s, e)
  {
    match e
    case Stored(event, clock) => StoreKeepsComplete(s, event, clock);
    case Pushed(actor, letter) => PushKeepsComplete(s, actor, letter);
    case Removed(ref) => RemoveKeepsComplete(s, ref);
    case PurgedBefore(tenant, before) => PurgeKeepsComplete(s, tenant, before);
    case _ => ReplayKeepsComplete(s, e);
  }

  // ----- letters are of stored messages -----

  /** Every letter, stored, on its way or in a replay's hands, is of a message that exists. */
  ghost predicate Known(s: System) {
    && (forall x | x in s.pushing :: Target(x.1) in s.messages)
    && (forall ref | ref in s.entries :: Target(s.entries[ref]) in s.messages)
    && (forall letter | letter in s.read :: Target(letter) in s.messages)
  }

  /** So a replay's revive never misses its message. */
  lemma {:induction false} LettersAlwaysKnown(log: SystemLog)
    requires SystemLegal(log)
    ensures Known(SystemAfter(log))
  {
    if log != [] {
      var init, e := log[..|log| - 1], log[|log| - 1];
      LettersAlwaysKnown(init);
      RunsAreLegal(init);
      KnownStep(SystemAfter(init), e);
    }
  }

  lemma KnownStep(s: System, e: SystemEvent)
    requires Known(s) && WellKept(s.messages) && Allowed(s, e)
    ensures Known(ApplySystem(s, e))
  {
    var t := ApplySystem(s, e);
    assert forall k | k in s.messages :: k in t.messages;
    if Kills(s.messages, e) {
      assert Target(LetterOfKill(s.messages, e)) == e.event.key;
    }
  }

  // ----- what a letter says -----

  /** Event `i` killed the letter's message; the letter is filed under its id, is its tenant's, has the
      error and the time of the kill, and carries the message as the kill left it. */
  predicate MadeBy(log: SystemLog, i: nat, letter: DeadLetter) {
    && i < |log| && log[i].Stored? && log[i].event.Kill?
    && letter.reference == Ref(OutboxKind, log[i].event.key.1) && letter.tenant == log[i].event.key.0
    && letter.error == log[i].event.error && letter.occurredAt == log[i].clock
    && log[i].event.key in SystemAfter(log[..i + 1]).messages
    && letter.payload == SystemAfter(log[..i + 1]).messages[log[i].event.key]
  }

  ghost predicate Made(log: SystemLog, letter: DeadLetter) {
    exists i :: MadeBy(log, i, letter)
  }

  lemma StaysMade(log: SystemLog, e: SystemEvent, letter: DeadLetter)
    requires Made(log, letter)
    ensures Made(log + [e], letter)
  {
    var i :| MadeBy(log, i, letter);
    assert (log + [e])[..i + 1] == log[..i + 1];
    assert MadeBy(log + [e], i, letter);
  }

  lemma KillMakes(log: SystemLog, e: SystemEvent)
    requires Kills(SystemAfter(log).messages, e) && WellKept(SystemAfter(log).messages)
    ensures Made(log + [e], LetterOfKill(SystemAfter(log).messages, e))
  {
    var t := log + [e];
    SystemSnoc(log, e);
    assert t[..|log| + 1] == t;
    assert MadeBy(t, |log|, LetterOfKill(SystemAfter(log).messages, e));
  }

  /** A letter that is stored, on its way or in a replay's hands. */
  ghost predicate IsThere(s: System, letter: DeadLetter) {
    letter in s.entries.Values || letter in s.read || exists x | x in s.pushing :: x.1 == letter
  }

  /** Only kills make new letters. */
  lemma NewLetters(s: System, e: SystemEvent, letter: DeadLetter)
    requires Allowed(s, e) && IsThere(ApplySystem(s, e), letter)
    ensures IsThere(s, letter) || (Kills(s.messages, e) && letter == LetterOfKill(s.messages, e))
  {
  }

  /** Every letter there is is that of one kill of the run. */
  lemma {:induction false} LettersComeFromKills(log: SystemLog, letter: DeadLetter)
    requires SystemLegal(log) && IsThere(SystemAfter(log), letter)
    ensures Made(log, letter)
  {
    if log != [] {
      var init, e := log[..|log| - 1], log[|log| - 1];
      assert log == init + [e];
      NewLetters(SystemAfter(init), e, letter);
      if IsThere(SystemAfter(init), letter) {
        LettersComeFromKills(init, letter);
        StaysMade(init, e, letter);
      } else {
        RunsAreLegal(init);
        KillMakes(init, e);
      }
    }
  }

  // ----- unique ids -----

  ghost predicate IdsUnique(messages: Messages) {
    forall k1, k2 | k1 in messages && k2 in messages && k1.1 == k2.1 :: k1 == k2
  }

  /** No removal and no purge of the run took the only letter of a dead message. */
  ghost predicate NothingTaken(log: SystemLog) {
    log == []
    || (NothingTaken(log[..|log| - 1])
        && (log[|log| - 1].Pushed? || !Loses(SystemAfter(log[..|log| - 1]), log[|log| - 1])))
  }

  /** With ids unique across tenants, pushes lose nothing. */
  lemma {:induction false} UniqueIdsLoseNothingToPushes(log: SystemLog)
    requires SystemLegal(log) && IdsUnique(SystemAfter(log).messages)
    ensures NothingLost(log) <==> NothingTaken(log)
  {
    if log != [] {
      var init, e := log[..|log| - 1], log[|log| - 1];
      var s, t := SystemAfter(init), SystemAfter(log);
      assert forall k | k in s.messages :: k in t.messages;
      UniqueIdsLoseNothingToPushes(init);
      LettersAlwaysKnown(init);
      LettersAlwaysFiled(init);
      if e.Pushed? {
        forall k | OnlyStored(s, k) && RefOf(k) == e.letter.reference
          ensures k == Target(e.letter)
        {
          assert k in s.messages && Target(e.letter) in s.messages;
        }
      }
    }
  }
}
