/** The events of a dispatcher tick, and what they say of each message sent. */
module TickReports {
  import opened Wrappers
  import opened OutboxModel
  import opened OutboxProtocol
  import opened OutboxStore

  datatype Config = Config(workerId: string, maxAttempts: nat, leaseMs: int, batch: nat, group: bool)

  /** What the budget guard and the transport answer for one leased message: the guard refuses
      it, or it is sent and delivered, or it is sent and fails, with the error and the time the
      backoff policy gives.  With `stop`, the guard fails on the result after the settlement. */
  datatype Answer = Refused | Delivered(stop: bool) | Failed(error: string, next: int, stop: bool)

  function Sending(m: Message, cfg: Config): Event {
    Send(KeyOf(m), cfg.workerId)
  }

  /** How the dispatcher settles a sent message, from the copy it was leased. */
  function Settlement(m: Message, a: Answer, cfg: Config): Event {
    if !a.Failed? then Ack(KeyOf(m), cfg.workerId)
    else if m.attempts + 1 >= cfg.maxAttempts then Kill(KeyOf(m), cfg.workerId, Some(a.error))
    else Nack(KeyOf(m), cfg.workerId, a.next, Some(a.error))
  }

  /** How many of the messages i..n are sent before the guard stops the tick. */
  function SentFrom(answers: nat -> Answer, i: nat, n: nat): (sent: nat)
    requires i <= n
    ensures sent <= n - i
    decreases n - i
  {
    if i == n || answers(i).Refused? then 0
    else if answers(i).stop then 1
    else 1 + SentFrom(answers, i + 1, n)
  }

  /** The guard lets the tick go through all the messages i..n. */
  predicate Completes(answers: nat -> Answer, i: nat, n: nat)
    requires i <= n
    decreases n - i
  {
    i == n || (!answers(i).Refused? && !answers(i).stop && Completes(answers, i + 1, n))
  }

  /** The events of a tick that sent and settled the first `n` of its leased messages. */
  function TickEvents(leased: seq<Message>, answers: nat -> Answer, cfg: Config, now: int, n: nat): Log
    requires n <= |leased|
  {
    if n == 0 then GrantsOf(leased, cfg.workerId, now, now + cfg.leaseMs)
    else
      TickEvents(leased, answers, cfg, now, n - 1)
      + [Sending(leased[n - 1], cfg)] + [Settlement(leased[n - 1], answers(n - 1), cfg)]
  }

  /** What a worker reports of the message `m` it sent, as the transport answered: delivered is
      acknowledged, and failed is dead-lettered at the last permitted attempt, with the error, and backed
      off before it, with the error and until the time the backoff gives. */
  predicate Reports(e: Event, m: Message, a: Answer, cfg: Config) {
    && e.key == KeyOf(m) && ActsAs(e, cfg.workerId)
    && (e.Ack? <==> a.Delivered?)
    && (e.Kill? <==> a.Failed? && m.attempts + 1 >= cfg.maxAttempts)
    && (e.Nack? <==> a.Failed? && m.attempts + 1 < cfg.maxAttempts)
    && (e.Kill? ==> e.error == Some(a.error))
    && (e.Nack? ==> e.error == Some(a.error) && e.notBefore == a.next)
  }

  /** A tick in full: first the grants, then for each message sent its send and then its report. */
  ghost predicate Told(own: Log, leased: seq<Message>, answers: nat -> Answer, cfg: Config, now: int, n: nat) {
    && n <= |leased| && |own| == |leased| + 2 * n
    && (forall i | 0 <= i < |leased| :: own[i] == Grant(KeyOf(leased[i]), cfg.workerId, now, now + cfg.leaseMs))
    && (forall i | 0 <= i < n ::
          && own[|leased| + 2 * i] == Send(KeyOf(leased[i]), cfg.workerId)
          && Reports(own[|leased| + 2 * i + 1], leased[i], answers(i), cfg))
  }

  lemma {:induction false} GrantsTold(leased: seq<Message>, worker: string, now: int, until: int)
    ensures |GrantsOf(leased, worker, now, until)| == |leased|
    ensures forall i | 0 <= i < |leased| ::
              GrantsOf(leased, worker, now, until)[i] == Grant(KeyOf(leased[i]), worker, now, until)
  {
    if leased != [] {
      GrantsTold(leased[..|leased| - 1], worker, now, until);
    }
  }

  lemma {:induction false} TickEventsTold(leased: seq<Message>, answers: nat -> Answer, cfg: Config, now: int, n: nat)
    requires n <= |leased| && forall i | 0 <= i < n :: !answers(i).Refused?
    ensures Told(TickEvents(leased, answers, cfg, now, n), leased, answers, cfg, now, n)
  {
    if n == 0 {
      GrantsTold(leased, cfg.workerId, now, now + cfg.leaseMs);
    } else {
      TickEventsTold(leased, answers, cfg, now, n - 1);
      var before := TickEvents(leased, answers, cfg, now, n - 1);
      OneMoreTold(before, leased, answers, cfg, now, n, Sending(leased[n - 1], cfg),
                  Settlement(leased[n - 1], answers(n - 1), cfg));
    }
  }

  lemma OneMoreTold(before: Log, leased: seq<Message>, answers: nat -> Answer, cfg: Config, now: int, n: nat,
                    sending: Event, report: Event)
    requires 0 < n <= |leased| && Told(before, leased, answers, cfg, now, n - 1)
    requires sending == Send(KeyOf(leased[n - 1]), cfg.workerId)
    requires Reports(report, leased[n - 1], answers(n - 1), cfg)
    ensures Told(before + [sending] + [report], leased, answers, cfg, now, n)
  {
    var own := before + [sending] + [report];
    assert forall i | 0 <= i < |before| :: own[i] == before[i];
  }

  /** Where a tick over `n` messages stops: at the first the guard refuses, or after the first whose result
      it fails on; and whether it went through all of them. */
  ghost predicate StopsWhere(answers: nat -> Answer, n: nat, sent: nat, ok: bool) {
    && sent <= n
    && (forall i | 0 <= i < sent :: !answers(i).Refused? && (answers(i).stop ==> i == sent - 1))
    && (sent < n ==> answers(sent).Refused? || (sent > 0 && answers(sent - 1).stop))
    && (ok <==> sent == n && (n > 0 ==> !answers(n - 1).stop))
  }

  lemma {:induction false} SentExactly(answers: nat -> Answer, i: nat, n: nat)
    requires i <= n && forall j | 0 <= j < i :: !answers(j).Refused? && !answers(j).stop
    ensures StopsWhere(answers, n, i + SentFrom(answers, i, n), Completes(answers, i, n))
    decreases n - i
  {
    if i < n && !answers(i).Refused? && !answers(i).stop {
      SentExactly(answers, i + 1, n);
    }
  }

  lemma TickTold(leased: seq<Message>, answers: nat -> Answer, cfg: Config, now: int, sent: nat, ok: bool)
    requires sent == SentFrom(answers, 0, |leased|) && ok == Completes(answers, 0, |leased|)
    ensures StopsWhere(answers, |leased|, sent, ok)
    ensures Told(TickEvents(leased, answers, cfg, now, sent), leased, answers, cfg, now, sent)
  {
    SentExactly(answers, 0, |leased|);
    TickEventsTold(leased, answers, cfg, now, sent);
  }
}
