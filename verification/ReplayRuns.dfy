/** Runs in which a replay, or a shared id, does harm, each built up event by event: a letter lost because two
    tenants use one id; a letter lost although there is only one message and one replay; and a completed
    message pending again after two replays that overlap.  Every event is allowed. */
module ReplayRuns {
  import opened Wrappers
  import opened OutboxModel
  import opened OutboxProtocol
  import opened DeadLetters
  import opened Replays

  // ----- one thing after another -----

  lemma ThenLeased(log: SystemLog, m: Message) returns (t: SystemLog)
    requires SystemLegal(log) && Fresh(m)
    requires KeyOf(m) in SystemAfter(log).messages && SystemAfter(log).messages[KeyOf(m)] == m
    ensures SystemLegal(t) && (Serial(log) ==> Serial(t)) && (NothingLost(log) ==> NothingLost(t))
    ensures SystemAfter(t) == SystemAfter(log).(messages := SystemAfter(log).messages[KeyOf(m) := Granted(m, "w", 1)])
  {
    var grant := Stored(Grant(KeyOf(m), "w", 0, 1), 0);
    t := log + [grant];
    SystemSnoc(log, grant);
    assert t[..|log|] == log;
  }

  /** A pending message is leased, and fails for the last time; its letter is on its way. */
  lemma LeaseAndKill(log: SystemLog, m: Message) returns (t: SystemLog, letter: DeadLetter)
    requires SystemLegal(log) && Fresh(m)
    requires KeyOf(m) in SystemAfter(log).messages && SystemAfter(log).messages[KeyOf(m)] == m
    ensures SystemLegal(t) && (Serial(log) ==> Serial(t)) && (NothingLost(log) ==> NothingLost(t))
    ensures var s, dead := SystemAfter(log), Killed(Granted(m, "w", 1), None);
            && letter == LetterFor(dead, None, 0)
            && SystemAfter(t) == s.(messages := s.messages[KeyOf(m) := dead], pushing := s.pushing + {("w", letter)})
  {
    var kill := Stored(Kill(KeyOf(m), "w", None), 0);
    var leased := ThenLeased(log, m);
    t := leased + [kill];
    SystemSnoc(leased, kill);
    assert t[..|leased|] == leased;
    letter := LetterFor(Killed(Granted(m, "w", 1), None), None, 0);
  }

  /** And its letter is pushed. */
  lemma LeaseKillAndPush(log: SystemLog, m: Message) returns (t: SystemLog, letter: DeadLetter)
    requires SystemLegal(log) && Fresh(m)
             && ("w", LetterFor(Killed(Granted(m, "w", 1), None), None, 0)) !in SystemAfter(log).pushing
    requires KeyOf(m) in SystemAfter(log).messages && SystemAfter(log).messages[KeyOf(m)] == m
    requires forall other :: IsDead(SystemAfter(log), other) ==> other.1 != m.id
    ensures SystemLegal(t) && (Serial(log) ==> Serial(t)) && (NothingLost(log) ==> NothingLost(t))
    ensures var s, dead := SystemAfter(log), Killed(Granted(m, "w", 1), None);
            && letter == LetterFor(dead, None, 0)
            && SystemAfter(t) == s.(messages := s.messages[KeyOf(m) := dead],
                                    entries := s.entries[RefOf(KeyOf(m)) := letter])
  {
    var killed;
    killed, letter := LeaseAndKill(log, m);
    var push := Pushed("w", letter);
    t := killed + [push];
    SystemSnoc(killed, push);
    assert t[..|killed|] == killed;
    assert SystemAfter(t).pushing == SystemAfter(log).pushing;
    assert !Loses(SystemAfter(killed), push);
  }

  lemma Enqueued(log: SystemLog, m: Message) returns (t: SystemLog)
    requires SystemLegal(log) && Fresh(m) && KeyOf(m) !in SystemAfter(log).messages
    ensures SystemLegal(t) && (Serial(log) ==> Serial(t)) && (NothingLost(log) ==> NothingLost(t))
    ensures SystemAfter(t) == SystemAfter(log).(messages := SystemAfter(log).messages[KeyOf(m) := m])
  {
    var enqueue := Stored(Enqueue(KeyOf(m), m), 0);
    t := log + [enqueue];
    SystemSnoc(log, enqueue);
    assert t[..|log|] == log;
  }

  /** A replay has read the letter and revived the message. */
  lemma ReadAndRevived(log: SystemLog, ref: Ref) returns (t: SystemLog)
    requires SystemLegal(log) && ref in SystemAfter(log).entries
             && Target(SystemAfter(log).entries[ref]) in SystemAfter(log).messages
    requires !Replays.Reviving(SystemAfter(log), ref) && SystemAfter(log).entries[ref].reference == ref
    ensures SystemLegal(t) && (Serial(log) ==> Serial(t)) && (NothingLost(log) ==> NothingLost(t))
    ensures var s := SystemAfter(log);
            var letter := s.entries[ref];
            var revived := OutboxModel.Revived(s.messages[Target(letter)], 0);
            SystemAfter(t) == s.(messages := s.messages[Target(letter) := revived], read := s.read + {letter},
                                 replays := s.replays[ref := Replay.Reviving])
  {
    var read := ReadForReplay(ref);
    var revive := SystemEvent.Revived(SystemAfter(log).entries[ref], 0);
    var before := log + [read];
    SystemSnoc(log, read);
    assert before[..|log|] == log;
    assert SystemAfter(before).replays[ref] == Reading(SystemAfter(log).entries[ref]);
    t := before + [revive];
    SystemSnoc(before, revive);
    assert t[..|before|] == before;
    assert SystemAfter(log).replays[ref := Reading(SystemAfter(log).entries[ref])][ref := Replay.Reviving]
        == SystemAfter(log).replays[ref := Replay.Reviving];
  }

  /** One id used by two tenants: pushing the second letter takes the first tenant's. */
  lemma SharedIdLosesLetter(a: Message, b: Message) returns (log: SystemLog, last: SystemEvent)
    requires a.id == b.id && a.tenant != b.tenant && Fresh(a) && Fresh(b)
    ensures SystemLegal(log + [last]) && Serial(log + [last]) && NothingLost(log)
    ensures last.Pushed? && !LettersComplete(SystemAfter(log + [last]))
  {
    var l1 := Enqueued([], a);
    var l2, first := LeaseKillAndPush(l1, a);
    var l3 := Enqueued(l2, b);
    var second;
    log, second := LeaseAndKill(l3, b);
    last := Pushed("w", second);
    var s, t := SystemAfter(log), SystemAfter(log + [last]);
    SystemSnoc(log, last);
    assert (log + [last])[..|log|] == log;
    assert IsDead(t, KeyOf(a)) && t.pushing == {} && Target(t.entries[RefOf(KeyOf(a))]) == KeyOf(b);
    assert !HasLetter(t, KeyOf(a));
  }

  /** One message, and one replay that overlaps no other: between its revive and its remove the message
      fails again and its new letter is pushed, and that is the one the replay removes. */
  lemma SlowReplayLosesLetter(m: Message) returns (log: SystemLog, last: SystemEvent)
    requires Fresh(m)
    ensures SystemLegal(log + [last]) && Serial(log + [last]) && NothingLost(log)
    ensures last.Removed? && !LettersComplete(SystemAfter(log + [last]))
  {
    var k := KeyOf(m);
    var l1 := Enqueued([], m);
    var l2, letter := LeaseKillAndPush(l1, m);
    var l3 := ReadAndRevived(l2, RefOf(k));
    var again := SystemAfter(l3).messages[k];
    var newer;
    log, newer := LeaseKillAndPush(l3, again);
    last := Removed(RefOf(k));
    var t := SystemAfter(log + [last]);
    SystemSnoc(log, last);
    assert (log + [last])[..|log|] == log;
    assert IsDead(t, k) && t.pushing == {} && !HasLetter(t, k);
  }

  lemma ThenRemoved(log: SystemLog, ref: Ref) returns (t: SystemLog)
    requires SystemLegal(log) && Serial(log)
    ensures SystemLegal(t) && Serial(t)
    ensures var s := SystemAfter(log); SystemAfter(t) == s.(entries := s.entries - {ref}, replays := s.replays - {ref})
  {
    t := log + [Removed(ref)];
    SystemSnoc(log, Removed(ref));
    assert t[..|log|] == log;
  }

  /** A pending message is leased and completed. */
  lemma LeaseAndComplete(log: SystemLog, m: Message) returns (t: SystemLog)
    requires SystemLegal(log) && Serial(log) && Fresh(m)
    requires KeyOf(m) in SystemAfter(log).messages && SystemAfter(log).messages[KeyOf(m)] == m
    ensures SystemLegal(t) && Serial(t)
    ensures var s := SystemAfter(log);
            SystemAfter(t) == s.(messages := s.messages[KeyOf(m) := Acked(Granted(m, "w", 1))])
  {
    var ack := Stored(Ack(KeyOf(m), "w"), 0);
    var leased := ThenLeased(log, m);
    t := leased + [ack];
    SystemSnoc(leased, ack);
    assert t[..|leased|] == leased;
  }

  /** A replay that read its letter some time ago revives only now. */
  lemma LateRevive(log: SystemLog, letter: DeadLetter)
    requires SystemLegal(log) && letter in SystemAfter(log).read && letter.reference !in SystemAfter(log).replays
    requires Target(letter) in SystemAfter(log).messages
    ensures var t := log + [SystemEvent.Revived(letter, 0)];
            && SystemLegal(t) && !Serial(t)
            && Target(letter) in SystemAfter(t).messages && SystemAfter(t).messages[Target(letter)].status == Pending
  {
    var last := SystemEvent.Revived(letter, 0);
    SystemSnoc(log, last);
    assert (log + [last])[..|log|] == log;
  }

  /** Two replays of one reference that both read the letter: the message is revived, sent and completed,
      and then the second replay makes it pending again. */
  lemma OverlappingReplaysReopenDone(m: Message) returns (log: SystemLog, last: SystemEvent)
    requires Fresh(m)
    ensures SystemLegal(log + [last]) && Serial(log) && !Serial(log + [last])
    ensures var k := KeyOf(m);
            && k in SystemAfter(log).messages && SystemAfter(log).messages[k].status == Done
            && k in SystemAfter(log + [last]).messages && SystemAfter(log + [last]).messages[k].status == Pending
  {
    var k := KeyOf(m);
    var l1 := Enqueued([], m);
    var l2, letter := LeaseKillAndPush(l1, m);
    var l3 := ReadAndRevived(l2, RefOf(k));
    var l4 := ThenRemoved(l3, RefOf(k));
    log := LeaseAndComplete(l4, SystemAfter(l4).messages[k]);
    last := SystemEvent.Revived(letter, 0);
    LateRevive(log, letter);
  }
}
