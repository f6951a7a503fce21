/** What the store holds of a message, told from the log alone. */
module OutboxHistory {
  import opened Wrappers
  import opened OutboxModel
  import opened OutboxProtocol
  import opened OutboxAttempts

  /** The message as it was enqueued. */
  function Original(log: Log, k: Key): Option<Message> {
    if log == [] then None
    else if Original(Init(log), k).Some? then Original(Init(log), k)
    else if Last(log).Enqueue? && Last(log).key == k then Some(Last(log).message)
    else None
  }

  /** From when on it is due: the time it was last enqueued, reported as failed or revived with. */
  function DueFrom(log: Log, k: Key): int {
    if log == [] then 0
    else if Last(log).key != k then DueFrom(Init(log), k)
    else match Last(log)
      case Enqueue(_, m) => m.notBefore
      case Nack(_, _, notBefore, _) => notBefore
      case Revive(_, at) => at
      case _ => DueFrom(Init(log), k)
  }

  function StatusOf(log: Log, k: Key): Status {
    if log == [] then Pending
    else if Last(log).key != k then StatusOf(Init(log), k)
    else match Last(log)
      case Grant(_, _, _, _) => Leased
      case Ack(_, _) => Done
      case Kill(_, _, _) => Dead
      case Heartbeat(_, _, _) => StatusOf(Init(log), k)
      case Send(_, _) => StatusOf(Init(log), k)
      case _ => Pending
  }

  /** Who was last granted it, and until when by the last grant or heartbeat, if nobody has settled or
      revived it since. */
  function Holder(log: Log, k: Key): Option<(string, int)> {
    if log == [] then None
    else if Last(log).key != k then Holder(Init(log), k)
    else match Last(log)
      case Grant(_, worker, _, until) => Some((worker, until))
      case Heartbeat(_, worker, until) => Some((worker, until))
      case Send(_, _) => Holder(Init(log), k)
      case _ => None
  }

  /** The error of the last failure, if nothing has succeeded or been revived since. */
  function ErrorOf(log: Log, k: Key): Option<string> {
    if log == [] then None
    else if Last(log).key != k then ErrorOf(Init(log), k)
    else match Last(log)
      case Enqueue(_, m) => m.lastError
      case Ack(_, _) => None
      case Revive(_, _) => None
      case Nack(_, _, _, error) => error
      case Kill(_, _, error) => error
      case _ => ErrorOf(Init(log), k)
  }

  /** In every run, disciplined or not, a message is stored exactly if it was enqueued, as it was
      enqueued but for what has happened to it since: every field is told from the log. */
  lemma {:induction false} StoredIsHistory(log: Log, k: Key)
    requires Legal(log)
    ensures k in After(log) <==> Original(log, k).Some?
    ensures k in After(log) ==>
              After(log)[k] == Original(log, k).value.(
                status := StatusOf(log, k),
                notBefore := DueFrom(log, k),
                attempts := if Failures(log, k) < MAX_U32 then Failures(log, k) else MAX_U32,
                lastError := ErrorOf(log, k),
                worker := if Holder(log, k).Some? then Some(Holder(log, k).value.0) else None,
                leaseUntil := if Holder(log, k).Some? then Some(Holder(log, k).value.1) else None)
  {
    if log != [] {
      StoredIsHistory(Init(log), k);
    }
  }

  /** Exactly when a worker can lease a message: it was enqueued, it is neither completed nor dead, it is
      due, and no other worker's lease on it is running. */
  lemma LeasableExactly(log: Log, k: Key, w: string, now: int)
    requires Legal(log)
    ensures Accepted(After(log), Grant(k, w, now, now)) <==>
            && Original(log, k).Some?
            && StatusOf(log, k) != Done && StatusOf(log, k) != Dead
            && DueFrom(log, k) <= now
            && (Holder(log, k).None? || Holder(log, k).value.0 == w || Holder(log, k).value.1 <= now)
  {
    StoredIsHistory(log, k);
    LeaseFieldsAlwaysAgree(log);
  }

  /** The message is not put off or revived by any event from `i` on. */
  predicate NotPutOff(log: Log, k: Key, i: nat) {
    forall p | i <= p < |log| :: log[p].key == k ==> !log[p].Nack? && !log[p].Revive?
  }

  lemma {:induction false} DueAsEnqueued(log: Log, k: Key, i: nat)
    requires Legal(log) && i < |log| && log[i].Enqueue? && log[i].key == k && NotPutOff(log, k, i)
    ensures DueFrom(log, k) == log[i].message.notBefore
    decreases |log|
  {
    if i < |log| - 1 {
      DueAsEnqueued(Init(log), k, i);
      LegalPrefix(log, i + 1);
      PrefixSnoc(log, i);
      Snoc(log[..i], log[i]);
      StoredIsHistory(Init(log), k);
      StaysStored(Init(log), i + 1, k);
      assert Init(log)[..i + 1] == log[..i + 1];
    }
  }

  lemma {:induction false} StaysStored(log: Log, n: nat, k: Key)
    requires n <= |log| && k in After(log[..n])
    ensures k in After(log)
    decreases |log|
  {
    if n < |log| {
      assert Init(log)[..n] == log[..n];
      StaysStored(Init(log), n, k);
    } else {
      assert log[..n] == log;
    }
  }

  /** A message enqueued with a time is not leased before it, unless it was put off or revived since. */
  lemma NotLeasedBeforeDue(log: Log, i: nat, j: nat)
    requires Legal(log) && i < j < |log| && log[i].Enqueue? && log[j].Grant? && log[j].key == log[i].key
    requires NotPutOff(log[..j], log[i].key, i)
    ensures log[j].now >= log[i].message.notBefore
  {
    EventAt(log, j);
    StoredIsHistory(log[..j], log[i].key);
    DueAsEnqueued(log[..j], log[i].key, i);
  }
}
