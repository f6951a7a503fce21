/** When replays are safe: they take three steps, and others may act between them. */
module Replays {
  import opened Wrappers
  import opened OutboxModel
  import opened OutboxProtocol
  import opened DeadLetters

  // ----- replays that do not overlap -----

  /** A replay of a reference reads its letter only when no other has revived and not yet removed,
      and revives only when nothing was done to the reference since it read. */
  predicate NoOverlap(s: System, e: SystemEvent) {
    match e
    case ReadForReplay(ref) => !(ref in s.replays && s.replays[ref].Reviving?)
    case Revived(letter, _) => letter.reference in s.replays && s.replays[letter.reference] == Reading(letter)
    case _ => true
  }

  predicate Serial(log: SystemLog) {
    log == [] || (Serial(log[..|log| - 1]) && NoOverlap(SystemAfter(log[..|log| - 1]), log[|log| - 1]))
  }

  /** The letter carries exactly a message that is dead now. */
  predicate Carries(s: System, letter: DeadLetter) {
    IsDead(s, Target(letter)) && letter.payload == s.messages[Target(letter)]
  }

  predicate Reviving(s: System, ref: Ref) {
    ref in s.replays && s.replays[ref].Reviving?
  }

  /** Letters on their way are sound, and no message has two. */
  ghost predicate SoundPushing(s: System) {
    && (forall x | x in s.pushing :: Carries(s, x.1))
    && (forall x, y | x in s.pushing && y in s.pushing && Target(x.1) == Target(y.1) :: x == y)
  }

  /** The letter is sound, and its message has no other on its way. */
  ghost predicate Settled(s: System, letter: DeadLetter) {
    Carries(s, letter) && !InFlight(s, Target(letter))
  }

  /** Stored letters are, except those a replay is about to remove. */
  ghost predicate SoundEntries(s: System) {
    forall ref | ref in s.entries && !Reviving(s, ref) :: Settled(s, s.entries[ref])
  }

  /** And so are letters that a replay has just read. */
  ghost predicate SoundReplays(s: System) {
    forall ref | ref in s.replays && s.replays[ref].Reading? :: Settled(s, s.replays[ref].letter)
  }

  ghost predicate Sound(s: System) {
    SoundPushing(s) && SoundEntries(s) && SoundReplays(s)
  }

  /** Dead messages stay as they are, and get no new letter on the way. */
  ghost predicate KeepsTheDead(s: System, t: System) {
    forall k | IsDead(s, k) :: IsDead(t, k) && t.messages[k] == s.messages[k] && (InFlight(t, k) ==> InFlight(s, k))
  }

  lemma SettledStays(s: System, t: System, letter: DeadLetter)
    requires KeepsTheDead(s, t) && Settled(s, letter)
    ensures Settled(t, letter)
  {
  }

  lemma StoreKeepsTheDead(s: System, event: Event, clock: int)
    requires Sound(s) && WellKept(s.messages) && Allowed(s, Stored(event, clock))
    ensures KeepsTheDead(s, ApplySystem(s, Stored(event, clock)))
    ensures event.Kill? ==> !IsDead(s, event.key)
  {
    var e := Stored(event, clock);
    var t := ApplySystem(s, e);
    forall k | IsDead(s, k)
      ensures IsDead(t, k) && t.messages[k] == s.messages[k] && (InFlight(t, k) ==> InFlight(s, k))
    {
      if event.Kill? {
        assert event.key != k && Target(LetterOfKill(s.messages, e)) == event.key;
      }
    }
  }

  lemma KillKeepsSoundPushing(s: System, event: Event, clock: int)
    requires Sound(s) && WellKept(s.messages) && Allowed(s, Stored(event, clock))
    ensures SoundPushing(ApplySystem(s, Stored(event, clock)))
  {
    var e := Stored(event, clock);
    var t := ApplySystem(s, e);
    StoreKeepsTheDead(s, event, clock);
    if event.Kill? {
      assert Target(LetterOfKill(s.messages, e)) == event.key;
    }
  }

  lemma StoreKeepsSound(s: System, event: Event, clock: int)
    requires Sound(s) && WellKept(s.messages) && Allowed(s, Stored(event, clock))
    ensures Sound(ApplySystem(s, Stored(event, clock)))
  {
    var t := ApplySystem(s, Stored(event, clock));
    StoreKeepsTheDead(s, event, clock);
    KillKeepsSoundPushing(s, event, clock);
    forall ref | ref in t.entries && !Reviving(t, ref)
      ensures Settled(t, t.entries[ref])
    {
      SettledStays(s, t, s.entries[ref]);
    }
    forall ref | ref in t.replays && t.replays[ref].Reading?
      ensures Settled(t, t.replays[ref].letter)
    {
      SettledStays(s, t, s.replays[ref].letter);
    }
  }

  lemma PushKeepsTheDead(s: System, actor: string, letter: DeadLetter)
    requires SoundPushing(s) && (actor, letter) in s.pushing
    ensures var t := ApplySystem(s, Pushed(actor, letter)); KeepsTheDead(s, t) && Settled(t, letter) && SoundPushing(t)
  {
  }

  lemma PushKeepsSound(s: System, actor: string, letter: DeadLetter)
    requires Sound(s) && (actor, letter) in s.pushing
    ensures Sound(ApplySystem(s, Pushed(actor, letter)))
  {
    var t := ApplySystem(s, Pushed(actor, letter));
    PushKeepsTheDead(s, actor, letter);
    forall ref | ref in t.entries && !Reviving(t, ref)
      ensures Settled(t, t.entries[ref])
    {
      if ref != letter.reference {
        SettledStays(s, t, s.entries[ref]);
      }
    }
    forall ref | ref in t.replays && t.replays[ref].Reading?
      ensures Settled(t, t.replays[ref].letter)
    {
      SettledStays(s, t, s.replays[ref].letter);
    }
  }

  /** Reading, removing and purging touch no message and no letter on its way. */
  lemma QuietStep(s: System, e: SystemEvent)
    requires Sound(s) && (e.ReadForReplay? || e.Removed? || e.PurgedBefore?)
    ensures var t := ApplySystem(s, e); SoundPushing(t) && forall letter :: Settled(t, letter) <==> Settled(s, letter)
  {
    var t := ApplySystem(s, e);
    assert forall k :: InFlight(t, k) <==> InFlight(s, k);
  }

  lemma QuietKeepsSound(s: System, e: SystemEvent)
    requires Sound(s) && NoOverlap(s, e) && (e.ReadForReplay? || e.Removed? || e.PurgedBefore?)
    ensures Sound(ApplySystem(s, e))
  {
    QuietStep(s, e);
  }

  lemma OthersUntouchedByRevive(s: System, letter: DeadLetter, at: int, other: DeadLetter)
    requires Target(other) != Target(letter)
    ensures Carries(s, other) ==> Carries(ApplySystem(s, Revived(letter, at)), other)
    ensures Settled(s, other) ==> Settled(ApplySystem(s, Revived(letter, at)), other)
  {
    var t := ApplySystem(s, Revived(letter, at));
    assert forall k :: InFlight(t, k) <==> InFlight(s, k);
  }

  lemma ReviveKeepsSound(s: System, letter: DeadLetter, at: int)
    requires Sound(s) && Filed(s) && letter.reference == RefOf(Target(letter)) && NoOverlap(s, Revived(letter, at))
    ensures IsDead(s, Target(letter)) && Sound(ApplySystem(s, Revived(letter, at)))
  {
    var t := ApplySystem(s, Revived(letter, at));
    assert Settled(s, letter);
    forall x | x in t.pushing
      ensures Carries(t, x.1)
    {
      OthersUntouchedByRevive(s, letter, at, x.1);
    }
    forall ref | ref in t.entries && !Reviving(t, ref)
      ensures Settled(t, t.entries[ref])
    {
      OthersUntouchedByRevive(s, letter, at, s.entries[ref]);
    }
    forall ref | ref in t.replays && t.replays[ref].Reading?
      ensures Settled(t, t.replays[ref].letter)
    {
      OthersUntouchedByRevive(s, letter, at, s.replays[ref].letter);
    }
  }

  /** In every run in which no two replays of one reference overlap, whatever else happens: replays
      revive only dead messages, so the run keeps the discipline of the lease protocol; and every
      letter, but those about to be removed, carries a message that is dead now, unchanged since it
      died. */
  lemma {:induction false} SerialReplaysKeepDiscipline(log: SystemLog)
    requires SystemLegal(log) && Serial(log)
    ensures Sound(SystemAfter(log)) && Disciplined(Project(log))
  {
    if log != [] {
      var init, e := log[..|log| - 1], log[|log| - 1];
      SerialReplaysKeepDiscipline(init);
      RunsAreLegal(init);
      LettersAlwaysFiled(init);
      OneEventKeepsSound(SystemAfter(init), e);
      ProjectedDiscipline(Project(init), SystemAfter(init).messages, e);
    }
  }

  lemma OneEventKeepsSound(s: System, e: SystemEvent)
    requires Sound(s) && Filed(s) && WellKept(s.messages) && Allowed(s, e) && NoOverlap(s, e)
    ensures Sound(ApplySystem(s, e))
    ensures e.Revived? ==> IsDead(s, Target(e.letter))
  {
    match e
    case Stored(event, clock) => StoreKeepsSound(s, event, clock);
    case Pushed(actor, letter) => PushKeepsSound(s, actor, letter);
    case Revived(letter, at) => ReviveKeepsSound(s, letter, at);
    case _ => QuietKeepsSound(s, e);
  }

  lemma ProjectedDiscipline(log: Log, messages: Messages, e: SystemEvent)
    requires messages == After(log)
    requires e.Stored? ==> LeaseRespecting(messages, e.event)
    ensures Disciplined(log + Projected(messages, e)) <==>
            Disciplined(log)
            && (e.Revived? && Target(e.letter) in messages ==> messages[Target(e.letter)].status == Dead)
  {
    var projected := Projected(messages, e);
    if projected == [] {
      assert log + projected == log;
    } else {
      assert projected == [projected[0]];
      Snoc(log, projected[0]);
    }
  }

  /** When no replay is between its steps and no letter on its way, letters and dead messages are in
      bijection, if none was lost: each dead message has its letter, which carries it as it is, and
      there are no others. */
  lemma LettersAreTheDead(log: SystemLog)
    requires SystemLegal(log) && Serial(log) && NothingLost(log)
    requires SystemAfter(log).pushing == {} && forall ref :: !Reviving(SystemAfter(log), ref)
    ensures var s := SystemAfter(log);
            && (forall k :: IsDead(s, k) <==> RefOf(k) in s.entries && Target(s.entries[RefOf(k)]) == k)
            && (forall ref | ref in s.entries :: ref == RefOf(Target(s.entries[ref])) && Carries(s, s.entries[ref]))
  {
    SerialReplaysKeepDiscipline(log);
    CompleteExactlyIfNothingLost(log);
    LettersAlwaysFiled(log);
    var s := SystemAfter(log);
    forall k | IsDead(s, k)
      ensures RefOf(k) in s.entries && Target(s.entries[RefOf(k)]) == k
    {
      assert HasLetter(s, k);
    }
  }

  // ----- exactly when -----

  /** Of the kills and revivals of the message, the last was a kill. */
  predicate DiedLast(log: Log, k: Key) {
    log != []
    && var e := Last(log);
       if e.key == k && e.Kill? then true
       else if e.key == k && e.Revive? then false
       else DiedLast(Init(log), k)
  }

  /** Before every revival the message has died since it was last revived. */
  predicate DiesBetweenRevivals(log: Log) {
    log == []
    || (DiesBetweenRevivals(Init(log)) && (Last(log).Revive? ==> DiedLast(Init(log), Last(log).key)))
  }

  /** In a disciplined run a message is dead exactly when the last of its kills and revivals was a
      kill. */
  lemma {:induction false} DeadIfDiedLast(log: Log, k: Key)
    requires Legal(log) && Disciplined(log)
    ensures DiedLast(log, k) <==> k in After(log) && After(log)[k].status == Dead
  {
    if log != [] {
      DeadIfDiedLast(Init(log), k);
      LeaseFieldsAlwaysAgree(Init(log));
    }
  }

  /** In every run, overlapping or not: the lease discipline is kept exactly when every message that is
      revived has died since it was last revived. */
  lemma {:induction false} DisciplineExactly(log: SystemLog)
    requires SystemLegal(log)
    ensures Disciplined(Project(log)) <==> DiesBetweenRevivals(Project(log))
  {
    if log != [] {
      var init, e := log[..|log| - 1], log[|log| - 1];
      var messages, projected := SystemAfter(init).messages, Projected(SystemAfter(init).messages, e);
      DisciplineExactly(init);
      RunsAreLegal(init);
      ProjectedDiscipline(Project(init), messages, e);
      if projected == [] {
        assert Project(init) + projected == Project(init);
      } else {
        assert projected == [projected[0]];
        Snoc(Project(init), projected[0]);
        if Disciplined(Project(init)) {
          DeadIfDiedLast(Project(init), projected[0].key);
        }
      }
    }
  }

  // ----- when a replay loses no letter -----

  predicate NoKillOf(log: SystemLog, k: Key) {
    forall e | e in log :: e.Stored? && e.event.Kill? ==> e.event.key != k
  }

  lemma StaysAliveStep(s: System, e: SystemEvent, k: Key)
    requires k in s.messages && !IsDead(s, k) && Allowed(s, e)
    requires e.Stored? && e.event.Kill? ==> e.event.key != k
    ensures k in ApplySystem(s, e).messages && !IsDead(ApplySystem(s, e), k)
  {
  }

  lemma {:induction false} StaysAlive(start: SystemLog, more: SystemLog, k: Key)
    requires k in SystemAfter(start).messages && !IsDead(SystemAfter(start), k)
    requires NoKillOf(more, k) && SystemLegal(start + more)
    ensures k in SystemAfter(start + more).messages && !IsDead(SystemAfter(start + more), k)
  {
    if more == [] {
      assert start + more == start;
    } else {
      var init, e := more[..|more| - 1], more[|more| - 1];
      assert start + more == start + init + [e];
      SystemSnoc(start + init, e);
      StaysAlive(start, init, k);
      StaysAliveStep(SystemAfter(start + init), e, k);
    }
  }

  /** With ids unique across tenants, a replay whose message nobody kills between its revive and its
      remove takes no dead message's letter. */
  lemma UndisturbedReplayLosesNothing(before: SystemLog, letter: DeadLetter, at: int, between: SystemLog)
    requires var log := before + [Revived(letter, at)] + between;
             SystemLegal(log) && IdsUnique(SystemAfter(log).messages)
    requires Target(letter) in SystemAfter(before).messages && NoKillOf(between, Target(letter))
    requires letter.reference == RefOf(Target(letter))
    ensures !Loses(SystemAfter(before + [Revived(letter, at)] + between), Removed(letter.reference))
  {
    var start := before + [Revived(letter, at)];
    var s := SystemAfter(start + between);
    SystemSnoc(before, Revived(letter, at));
    StaysAlive(start, between, Target(letter));
    forall k | OnlyStored(s, k)
      ensures RefOf(k) != letter.reference
    {
      assert k in s.messages && Target(letter) in s.messages;
    }
  }
}
