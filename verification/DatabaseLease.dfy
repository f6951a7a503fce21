/** The database outbox store leases in two phases, a query for candidates and one atomic update for each,
    and other workers act in between. */
module DatabaseLease {
  import opened Wrappers
  import opened OutboxModel
  import opened OutboxProtocol
  import opened OutboxStore

  /** The query reads up to four candidates for each message wanted. */
  function Prefetch(batch: nat): nat {
    4 * batch
  }

  /** What may come back from the candidate query on the records `s`: at most `limit` records that
      pass the guard, distinct.  In which order, and which of them, is nothing to rely on. */
  ghost predicate QueryResult(s: Messages, candidates: seq<Message>, tenant: string, now: int, worker: string,
                              limit: nat)
  {
    && |candidates| <= limit
    && (forall i | 0 <= i < |candidates| ::
          && KeyOf(candidates[i]) in s && s[KeyOf(candidates[i])] == candidates[i]
          && LeaseGuard(candidates[i], tenant, now, worker))
    && (forall i, j | 0 <= i < j < |candidates| :: KeyOf(candidates[i]) != KeyOf(candidates[j]))
  }

  /** A query that comes back with fewer than `limit` has read every record that passes the guard. */
  ghost predicate QueryComplete(s: Messages, candidates: seq<Message>, tenant: string, now: int, worker: string,
                                limit: nat)
  {
    |candidates| < limit ==> forall k | k in s && LeaseGuard(s[k], tenant, now, worker) :: s[k] in candidates
  }

  /** What a record never changes. */
  predicate SameMessage(a: Message, b: Message) {
    KeyOf(a) == KeyOf(b) && a.dispatchKey == b.dispatchKey && a.payload == b.payload && a.topic == b.topic
  }

  /** Records are never removed, and their identity, payload and dispatch key never change. */
  ghost predicate Persists(s: Messages, t: Messages) {
    forall k | k in s :: k in t && SameMessage(s[k], t[k])
  }

  lemma AcceptedPersists(s: Messages, e: Event)
    requires Accepted(s, e)
    ensures Persists(s, Apply(s, e))
  {
  }

  ghost predicate DistinctDispatchKeys(selected: seq<Message>) {
    forall i, j | 0 <= i < j < |selected| :: !SameDispatchKey(selected[i], selected[j])
  }

  /** The candidates are still on record, though perhaps leased or settled by now. */
  ghost predicate OnRecord(s: Messages, candidates: seq<Message>) {
    forall c | c in candidates :: KeyOf(c) in s && SameMessage(c, s[KeyOf(c)])
  }

  lemma StillOnRecord(s: Messages, t: Messages, candidates: seq<Message>)
    requires OnRecord(s, candidates) && Persists(s, t)
    ensures OnRecord(t, candidates)
  {
  }

  // ----- which candidates are leased -----

  /** What a call asks for. */
  datatype Request = Request(worker: string, now: int, until: int, group: bool)

  predicate SharesEarlier(candidates: seq<Message>, i: nat)
    requires i < |candidates|
  {
    exists j | 0 <= j < i :: SameDispatchKey(candidates[j], candidates[i])
  }

  /** The candidate is to be leased when its turn comes after the first `at` events: with grouping its
      dispatch key has not come before, and its record passes the guard at that moment. */
  predicate Leasable(log: Log, at: nat, candidates: seq<Message>, i: nat, req: Request)
    requires at <= |log| && i < |candidates|
  {
    var k, s := KeyOf(candidates[i]), After(log[..at]);
    !(req.group && SharesEarlier(candidates, i)) && k in s && LeaseGuard(s[k], k.0, req.now, req.worker)
  }

  /** The candidate was leased by the event at position `at`, and came back as `m`. */
  predicate LeasedAt(log: Log, at: nat, c: Message, m: Message, req: Request) {
    && at < |log| && log[at] == Grant(KeyOf(c), req.worker, req.now, req.until)
    && KeyOf(c) in After(log[..at]) && m == Granted(After(log[..at])[KeyOf(c)], req.worker, req.until)
    && SameMessage(c, m)
  }

  /** How far a call has come: the first `|turns|` candidates had their turns, each after so many events
      of the log; those at the positions `picks` were leased, and came back as `selected`. */
  datatype Course = Course(turns: seq<nat>, picks: seq<nat>, selected: seq<Message>)
  {
    function Passed(at: nat): Course {
      this.(turns := turns + [at])
    }

    function Taken(at: nat, m: Message): Course {
      Course(turns + [at], picks + [|turns|], selected + [m])
    }
  }

  /** The turns came in order, none before event `from`. */
  ghost predicate TurnsInOrder(log: Log, from: nat, candidates: seq<Message>, turns: seq<nat>) {
    && |turns| <= |candidates|
    && (forall i | 0 <= i < |turns| :: from <= turns[i] <= |log|)
    && (forall i, j | 0 <= i < j < |turns| :: turns[i] <= turns[j])
  }

  ghost predicate PicksInOrder(picks: seq<nat>, n: nat) {
    && (forall j | 0 <= j < |picks| :: picks[j] < n)
    && (forall i, j | 0 <= i < j < |picks| :: picks[i] < picks[j])
  }

  /** Of the candidates that had their turns exactly the leasable ones were leased. */
  ghost predicate PicksLeasable(log: Log, candidates: seq<Message>, turns: seq<nat>, picks: seq<nat>, req: Request) {
    && |turns| <= |candidates|
    && forall i | 0 <= i < |turns| :: turns[i] <= |log| && (i in picks <==> Leasable(log, turns[i], candidates, i, req))
  }

  ghost predicate AllLeased(log: Log, candidates: seq<Message>, c: Course, req: Request) {
    && |c.selected| == |c.picks|
    && forall j | 0 <= j < |c.picks| ::
         && c.picks[j] < |c.turns| && c.picks[j] < |candidates|
         && LeasedAt(log, c.turns[c.picks[j]], candidates[c.picks[j]], c.selected[j], req)
  }

  ghost predicate Served(log: Log, from: nat, candidates: seq<Message>, c: Course, req: Request) {
    && TurnsInOrder(log, from, candidates, c.turns)
    && PicksInOrder(c.picks, |c.turns|)
    && PicksLeasable(log, candidates, c.turns, c.picks, req)
    && AllLeased(log, candidates, c, req)
  }

  lemma EarlierPart(log: Log, more: Log, at: nat)
    requires Extends(log, more) && at <= |log|
    ensures more[..at] == log[..at] && (at < |log| ==> more[at] == log[at])
  {
    assert more[..|log|][..at] == more[..at];
    assert at < |log| ==> more[at] == more[..|log|][at];
  }

  lemma ServedByLongerLog(log: Log, more: Log, from: nat, candidates: seq<Message>, c: Course, req: Request)
    requires Served(log, from, candidates, c, req) && Extends(log, more)
    ensures Served(more, from, candidates, c, req)
  {
    forall at: nat | at <= |log|
      ensures more[..at] == log[..at] && (at < |log| ==> more[at] == log[at])
    {
      EarlierPart(log, more, at);
    }
  }

  lemma MoreTurns(log: Log, from: nat, candidates: seq<Message>, turns: seq<nat>)
    requires TurnsInOrder(log, from, candidates, turns) && |turns| < |candidates| && from <= |log|
    ensures TurnsInOrder(log, from, candidates, turns + [|log|])
  {
    var turns' := turns + [|log|];
    assert forall i | 0 <= i < |turns| :: turns'[i] == turns[i];
  }

  /** The next candidate has its turn now, and is not leased. */
  lemma TurnPassed(log: Log, from: nat, candidates: seq<Message>, c: Course, req: Request)
    requires Served(log, from, candidates, c, req) && from <= |log|
    requires |c.turns| < |candidates| && !Leasable(log, |log|, candidates, |c.turns|, req)
    ensures Served(log, from, candidates, c.Passed(|log|), req)
  {
    MoreTurns(log, from, candidates, c.turns);
    PassedPicks(log, candidates, c, req);
    PassedLeased(log, candidates, c, req);
  }

  lemma PassedPicks(log: Log, candidates: seq<Message>, c: Course, req: Request)
    requires PicksInOrder(c.picks, |c.turns|) && PicksLeasable(log, candidates, c.turns, c.picks, req)
    requires |c.turns| < |candidates| && !Leasable(log, |log|, candidates, |c.turns|, req)
    ensures PicksInOrder(c.picks, |c.turns| + 1)
    ensures PicksLeasable(log, candidates, c.turns + [|log|], c.picks, req)
  {
    assert |c.turns| !in c.picks;
  }

  lemma PassedLeased(log: Log, candidates: seq<Message>, c: Course, req: Request)
    requires AllLeased(log, candidates, c, req)
    ensures AllLeased(log, candidates, c.Passed(|log|), req)
  {
    var t := c.Passed(|log|);
    forall j | 0 <= j < |c.picks|
      ensures t.turns[t.picks[j]] == c.turns[c.picks[j]]
    {
    }
  }

  lemma TakenPicks(log: Log, candidates: seq<Message>, c: Course, at: nat, m: Message, req: Request)
    requires PicksInOrder(c.picks, |c.turns|) && PicksLeasable(log, candidates, c.turns, c.picks, req)
    requires |c.turns| < |candidates| && at <= |log| && Leasable(log, at, candidates, |c.turns|, req)
    ensures PicksInOrder(c.picks + [|c.turns|], |c.turns| + 1)
    ensures PicksLeasable(log, candidates, c.turns + [at], c.picks + [|c.turns|], req)
  {
    forall i | 0 <= i <= |c.turns|
      ensures i in c.picks + [|c.turns|] <==> i in c.picks || i == |c.turns|
    {
    }
  }

  lemma TakenLeased(log: Log, candidates: seq<Message>, c: Course, at: nat, m: Message, req: Request)
    requires AllLeased(log, candidates, c, req) && |c.turns| < |candidates|
    requires LeasedAt(log, at, candidates[|c.turns|], m, req)
    ensures AllLeased(log, candidates, c.Taken(at, m), req)
  {
    var t := c.Taken(at, m);
    forall j | 0 <= j < |t.picks|
      ensures t.picks[j] < |t.turns| && t.picks[j] < |candidates|
      ensures LeasedAt(log, t.turns[t.picks[j]], candidates[t.picks[j]], t.selected[j], req)
    {
      if j < |c.picks| {
        assert t.turns[t.picks[j]] == c.turns[c.picks[j]] && t.selected[j] == c.selected[j];
      }
    }
  }

  /** The next candidate has its turn now, and is leased. */
  lemma TurnTaken(log: Log, log': Log, from: nat, candidates: seq<Message>, c: Course, req: Request, m: Message)
    requires Served(log, from, candidates, c, req) && from <= |log|
    requires |c.turns| < |candidates| && Leasable(log, |log|, candidates, |c.turns|, req)
    requires log' == log + [Grant(KeyOf(candidates[|c.turns|]), req.worker, req.now, req.until)]
    requires var k := KeyOf(candidates[|c.turns|]);
             k in After(log) && m == Granted(After(log)[k], req.worker, req.until)
             && SameMessage(candidates[|c.turns|], m)
    ensures Served(log', from, candidates, c.Taken(|log|, m), req)
  {
    assert log'[..|log|] == log && log[..|log|] == log;
    MoreTurns(log, from, candidates, c.turns);
    ServedByLongerLog(log, log', from, candidates, c, req);
    TakenPicks(log', candidates, c, |log|, m, req);
    TakenLeased(log', candidates, c, |log|, m, req);
  }

  /** With grouping, no two of the selected messages share a dispatch key. */
  lemma ServedAreDistinct(log: Log, from: nat, candidates: seq<Message>, c: Course, req: Request)
    requires Served(log, from, candidates, c, req)
    ensures req.group ==> DistinctDispatchKeys(c.selected)
  {
    if req.group {
      forall i, j | 0 <= i < j < |c.selected|
        ensures !SameDispatchKey(c.selected[i], c.selected[j])
      {
        assert c.picks[j] in c.picks && Leasable(log, c.turns[c.picks[j]], candidates, c.picks[j], req);
        assert LeasedAt(log, c.turns[c.picks[i]], candidates[c.picks[i]], c.selected[i], req);
        assert LeasedAt(log, c.turns[c.picks[j]], candidates[c.picks[j]], c.selected[j], req);
      }
    }
  }

  /** The dispatch keys of the first `n` candidates. */
  ghost predicate CameBefore(candidates: seq<Message>, n: nat, seen: set<string>)
    requires n <= |candidates|
  {
    forall key :: key in seen <==> exists i | 0 <= i < n :: candidates[i].dispatchKey == Some(key)
  }

  lemma OneMoreKey(candidates: seq<Message>, n: nat, seen: set<string>)
    requires n < |candidates| && CameBefore(candidates, n, seen)
    ensures var key := candidates[n].dispatchKey;
            && CameBefore(candidates, n + 1, if key.Some? then seen + {key.value} else seen)
            && (key.Some? && key.value in seen <==> SharesEarlier(candidates, n))
  {
    var key := candidates[n].dispatchKey;
    if key.Some? && key.value in seen {
      var i :| 0 <= i < n && candidates[i].dispatchKey == key;
      assert SameDispatchKey(candidates[i], candidates[n]);
    }
    forall k
      ensures k in (if key.Some? then seen + {key.value} else seen) <==>
              exists i | 0 <= i < n + 1 :: candidates[i].dispatchKey == Some(k)
    {
      if k in seen {
        var i :| 0 <= i < n && candidates[i].dispatchKey == Some(k);
      }
      if key == Some(k) {
        assert candidates[n].dispatchKey == Some(k);
      }
    }
  }

  // ----- the store -----

  class DatabaseOutboxStore {
    var records: Messages
    ghost var log: Log

    ghost predicate Valid()
      reads this
    {
      Legal(log) && records == After(log)
    }

    constructor ()
      ensures Valid() && log == []
    {
      records := map[];
      log := [];
    }

    /** What other workers do meanwhile: of the events they attempt, those the store accepts. */
    method OthersAct(events: Log)
      requires Valid()
      modifies this
      ensures Valid()
      ensures Persists(old(records), records)
      ensures Extends(old(log), log) && (events == [] ==> log == old(log))
    {
      for i := 0 to |events|
        invariant Valid()
        invariant Persists(old(records), records)
        invariant Extends(old(log), log) && (i == 0 ==> log == old(log))
      {
        if Accepted(records, events[i]) {
          Snoc(log, events[i]);
          AcceptedPersists(records, events[i]);
          records, log := Apply(records, events[i]), log + [events[i]];
        }
      }
    }

    /** The conditional update of one record. */
    method TryLease(key: Key, now: int, until: int, worker: string) returns (leased: Option<Message>)
      requires Valid()
      modifies this
      ensures Valid()
      ensures leased.Some? <==> key in old(records) && LeaseGuard(old(records)[key], key.0, now, worker)
      ensures leased.Some? ==> leased.value == Granted(old(records)[key], worker, until) && KeyOf(leased.value) == key
      ensures leased.Some? ==> records == old(records)[key := leased.value]
      ensures log == old(log) + if leased.Some? then [Grant(key, worker, now, until)] else []
      ensures leased.None? ==> records == old(records)
    {
      if key in records && LeaseGuard(records[key], key.0, now, worker) {
        LeaseFieldsAlwaysAgree(log);
        GuardsAgree(records[key], key.0, now, worker);
        Snoc(log, Grant(key, worker, now, until));
        var updated := Granted(records[key], worker, until);
        records, log := records[key := updated], log + [Grant(key, worker, now, until)];
        return Some(updated);
      }
      leased := None;
    }

    /** The loop over the candidates, with other workers acting before each conditional update. */
    method LeaseCandidates(candidates: seq<Message>, req: Request, batch: nat, others: nat -> Log)
      returns (selected: seq<Message>, ghost c: Course)
      requires Valid() && OnRecord(records, candidates) && |candidates| <= Prefetch(batch)
      modifies this
      ensures Valid() && Extends(old(log), log)
      ensures Served(log, |old(log)|, candidates, c, req) && c.selected == selected
      ensures |selected| <= batch && (|selected| < batch ==> |c.turns| == |candidates|)
      ensures (forall i :: others(i) == []) ==> |log| == |old(log)| + |selected|
    {
      selected, c := [], Course([], [], []);
      var seen: set<string> := {};
      var i := 0;
      while i < |candidates|
        invariant 0 <= i <= |candidates| && |c.turns| == i
        invariant Valid() && Extends(old(log), log)
        invariant OnRecord(records, candidates)
        invariant if batch == 0 then |selected| == 0 else |selected| < batch
        invariant Served(log, |old(log)|, candidates, c, req) && c.selected == selected
        invariant req.group ==> CameBefore(candidates, i, seen)
        invariant (forall j :: others(j) == []) ==> |log| == |old(log)| + |selected|
      {
        OthersActMeanwhile(others(i), candidates, |old(log)|, c, req);
        selected, seen, c := TryCandidate(candidates[i], candidates, |old(log)|, c, selected, seen, req);
        i := i + 1;
        if |selected| >= batch {
          break;
        }
      }
    }

    method OthersActMeanwhile(events: Log, candidates: seq<Message>, ghost from: nat, ghost c: Course, req: Request)
      requires Valid() && OnRecord(records, candidates) && Served(log, from, candidates, c, req)
      modifies this
      ensures Valid() && Extends(old(log), log) && OnRecord(records, candidates)
      ensures Served(log, from, candidates, c, req) && (events == [] ==> log == old(log))
    {
      OthersAct(events);
      ServedByLongerLog(old(log), log, from, candidates, c, req);
      StillOnRecord(old(records), records, candidates);
    }

    /** One turn of the loop: skip a candidate whose dispatch key was seen, else try to lease it. */
    method TryCandidate(doc: Message, ghost candidates: seq<Message>, ghost from: nat, ghost c: Course,
                        selected: seq<Message>, seen: set<string>, req: Request)
      returns (selected': seq<Message>, seen': set<string>, ghost c': Course)
      requires Valid() && OnRecord(records, candidates) && from <= |log|
      requires Served(log, from, candidates, c, req) && c.selected == selected
      requires |c.turns| < |candidates| && doc == candidates[|c.turns|]
      requires req.group ==> CameBefore(candidates, |c.turns|, seen)
      modifies this
      ensures Valid() && Extends(old(log), log) && OnRecord(records, candidates)
      ensures Served(log, from, candidates, c', req) && c'.selected == selected' && |c'.turns| == |c.turns| + 1
      ensures |selected| <= |selected'| <= |selected| + 1 && |log| - |old(log)| == |selected'| - |selected|
      ensures req.group ==> CameBefore(candidates, |c'.turns|, seen')
    {
      selected', seen', c' := selected, seen, c.Passed(|log|);
      assert log[..|log|] == log;
      if req.group {
        OneMoreKey(candidates, |c.turns|, seen);
      }
      if req.group && doc.dispatchKey.Some? {
        if doc.dispatchKey.value in seen {
          TurnPassed(log, from, candidates, c, req);
          assert seen + {doc.dispatchKey.value} == seen;
          return;
        }
        seen' := seen + {doc.dispatchKey.value};
      }
      var leased := LeaseOnRecord(doc, candidates, req);
      if leased.Some? {
        selected', c' := selected + [leased.value], c.Taken(|old(log)|, leased.value);
        TurnTaken(old(log), log, from, candidates, c, req, leased.value);
      } else {
        TurnPassed(log, from, candidates, c, req);
      }
    }

    /** Try to lease a candidate's record; the candidates stay on record. */
    method LeaseOnRecord(doc: Message, ghost candidates: seq<Message>, req: Request) returns (leased: Option<Message>)
      requires Valid() && OnRecord(records, candidates) && doc in candidates
      modifies this
      ensures Valid() && Extends(old(log), log) && OnRecord(records, candidates)
      ensures KeyOf(doc) in old(records)
      ensures leased.Some? <==> LeaseGuard(old(records)[KeyOf(doc)], KeyOf(doc).0, req.now, req.worker)
      ensures leased.Some? ==> leased.value == Granted(old(records)[KeyOf(doc)], req.worker, req.until)
      ensures leased.Some? ==> SameMessage(doc, leased.value)
      ensures log == old(log) + if leased.Some? then [Grant(KeyOf(doc), req.worker, req.now, req.until)] else []
      ensures leased.None? ==> log == old(log)
    {
      leased := TryLease(KeyOf(doc), req.now, req.until, req.worker);
      assert Persists(old(records), records);
      StillOnRecord(old(records), records, candidates);
    }

    /** For every interleaving with other workers' events, after whatever the query read: the candidates
        have their turns in order until `batch` messages are leased or there are no more; each is leased
        exactly if its record passes the guard at its turn and, with grouping, no candidate before it has
        its dispatch key. */
    method LeaseBatch(candidates: seq<Message>, tenant: string, now: int, leaseMs: int, batch: nat, worker: string,
                      group: bool, others: nat -> Log)
      returns (selected: seq<Message>, ghost c: Course)
      requires Valid() && QueryResult(records, candidates, tenant, now, worker, Prefetch(batch))
      modifies this
      ensures Valid() && Extends(old(log), log)
      ensures Served(log, |old(log)|, candidates, c, Request(worker, now, now + leaseMs, group))
      ensures c.selected == selected
      ensures |selected| <= batch && (|selected| < batch ==> |c.turns| == |candidates|)
      ensures group ==> DistinctDispatchKeys(selected)
      ensures (forall i :: others(i) == []) ==> |log| == |old(log)| + |selected|
    {
      var req := Request(worker, now, now + leaseMs, group);
      QueriedAreOnRecord(records, candidates, tenant, now, worker, Prefetch(batch));
      selected, c := LeaseCandidates(candidates, req, batch, others);
      ServedAreDistinct(log, |old(log)|, candidates, c, req);
    }
  }

  lemma QueriedAreOnRecord(s: Messages, candidates: seq<Message>, tenant: string, now: int, worker: string, limit: nat)
    requires QueryResult(s, candidates, tenant, now, worker, limit)
    ensures OnRecord(s, candidates)
  {
  }

  // ----- nobody else holds a leased message -----

  /** Although candidates may be stale, exclusivity is that of the protocol: when a two-phase
      lease is granted, no other worker holds a live lease on the message, at any instant not
      before the clock readings of the grants so far. */
  lemma TwoPhaseLeaseIsExclusive(log: Log, from: nat, candidates: seq<Message>, c: Course, req: Request, i: nat,
                                 other: string, t: int)
    requires Served(log, from, candidates, c, req) && i < |c.selected|
    requires var p := c.turns[c.picks[i]] + 1; Legal(log) && Disciplined(log[..p]) && Present(log[..p], t)
    requires other != req.worker && req.until > t
    ensures var claim := Claim(log[..c.turns[c.picks[i]] + 1], KeyOf(c.selected[i]), other, false);
            claim.None? || claim.value <= t
  {
    var p, k := c.turns[c.picks[i]], KeyOf(c.selected[i]);
    var run := log[..p + 1];
    assert LeasedAt(log, p, candidates[c.picks[i]], c.selected[i], req);
    LegalPrefix(log, p + 1);
    assert Last(run) == log[p];
    assert Claim(run, k, req.worker, false) == Some(req.until);
    if Claim(run, k, other, false).Some? && Claim(run, k, other, false).value > t {
      AtMostOneLiveLease(run, k, req.worker, other, t);
    }
  }

  // ----- undisturbed -----

  lemma {:induction false} AtLeast(s: seq<nat>, from: nat, j: nat)
    requires j < |s| && s[0] >= from && forall i, k | 0 <= i < k < |s| :: s[i] < s[k]
    ensures s[j] >= from + j
  {
    if j > 0 {
      AtLeast(s, from, j - 1);
      assert s[j - 1] < s[j];
    }
  }

  lemma {:induction false} AtMost(s: seq<nat>, from: nat, j: nat)
    requires j < |s| && s[|s| - 1] < from + |s| && forall i, k | 0 <= i < k < |s| :: s[i] < s[k]
    ensures s[j] <= from + j
    decreases |s| - j
  {
    if j < |s| - 1 {
      AtMost(s, from, j + 1);
      assert s[j] < s[j + 1];
    }
  }

  lemma {:induction false} UntouchedBetween(log: Log, from: nat, end: nat, k: Key)
    requires from <= end <= |log| && forall p | from <= p < end :: log[p].key != k
    ensures k in After(log[..end]) <==> k in After(log[..from])
    ensures k in After(log[..end]) ==> After(log[..end])[k] == After(log[..from])[k]
    decreases end
  {
    if from < end {
      UntouchedBetween(log, from, end - 1, k);
      PrefixSnoc(log, end - 1);
      Snoc(log[..end - 1], log[end - 1]);
    }
  }

  /** Nothing happened but the grants of the call, to distinct messages. */
  ghost predicate Alone(log: Log, from: nat, candidates: seq<Message>, c: Course, req: Request) {
    && Served(log, from, candidates, c, req) && |log| == from + |c.selected|
    && forall i, j | 0 <= i < j < |candidates| :: KeyOf(candidates[i]) != KeyOf(candidates[j])
  }

  lemma GrantedInOrder(log: Log, from: nat, candidates: seq<Message>, c: Course, req: Request, i: nat, k: nat)
    requires Alone(log, from, candidates, c, req) && i < k < |c.picks|
    ensures c.turns[c.picks[i]] < c.turns[c.picks[k]]
  {
    assert LeasedAt(log, c.turns[c.picks[i]], candidates[c.picks[i]], c.selected[i], req);
    assert LeasedAt(log, c.turns[c.picks[k]], candidates[c.picks[k]], c.selected[k], req);
  }

  /** Then each event is the grant of one selected message. */
  lemma OwnGrant(log: Log, from: nat, candidates: seq<Message>, c: Course, req: Request, j: nat)
    requires Alone(log, from, candidates, c, req) && j < |c.selected|
    ensures c.turns[c.picks[j]] == from + j && log[from + j].key == KeyOf(candidates[c.picks[j]])
  {
    var positions := seq(|c.picks|, i requires 0 <= i < |c.picks| => c.turns[c.picks[i]]);
    forall i, k | 0 <= i < k < |c.picks|
      ensures positions[i] < positions[k]
    {
      GrantedInOrder(log, from, candidates, c, req, i, k);
    }
    var last := |c.picks| - 1;
    assert LeasedAt(log, c.turns[c.picks[last]], candidates[c.picks[last]], c.selected[last], req);
    AtLeast(positions, from, j);
    AtMost(positions, from, j);
    assert LeasedAt(log, c.turns[c.picks[j]], candidates[c.picks[j]], c.selected[j], req);
  }

  lemma CandidateUntouched(log: Log, from: nat, candidates: seq<Message>, c: Course, req: Request, i: nat)
    requires Alone(log, from, candidates, c, req) && i < |c.turns|
    requires var k := KeyOf(candidates[i]);
             k in After(log[..from]) && LeaseGuard(After(log[..from])[k], k.0, req.now, req.worker)
    ensures i in c.picks <==> !(req.group && SharesEarlier(candidates, i))
  {
    var k := KeyOf(candidates[i]);
    forall p | from <= p < c.turns[i]
      ensures log[p].key != k
    {
      OwnGrant(log, from, candidates, c, req, p - from);
      assert c.picks[p - from] != i;
    }
    UntouchedBetween(log, from, c.turns[i], k);
    assert i in c.picks <==> Leasable(log, c.turns[i], candidates, i, req);
  }

  /** When nobody else acts, every candidate that has its turn is leased, but with grouping for those
      whose dispatch key came before: the call leases the first candidates there are. */
  lemma AloneLeasesFirst(log: Log, from: nat, candidates: seq<Message>, c: Course, req: Request, tenant: string,
                         limit: nat)
    requires Served(log, from, candidates, c, req) && |log| == from + |c.selected|
    requires QueryResult(After(log[..from]), candidates, tenant, req.now, req.worker, limit)
    ensures forall i | 0 <= i < |c.turns| :: i in c.picks <==> !(req.group && SharesEarlier(candidates, i))
    ensures !req.group ==> |c.selected| == |c.turns|
    ensures !req.group ==> forall i | 0 <= i < |c.selected| :: KeyOf(c.selected[i]) == KeyOf(candidates[i])
  {
    forall i | 0 <= i < |c.turns|
      ensures i in c.picks <==> !(req.group && SharesEarlier(candidates, i))
    {
      CandidateUntouched(log, from, candidates, c, req, i);
    }
    if !req.group {
      AllPicked(c.picks, |c.turns|);
      forall i | 0 <= i < |c.selected|
        ensures KeyOf(c.selected[i]) == KeyOf(candidates[i])
      {
        assert LeasedAt(log, c.turns[c.picks[i]], candidates[c.picks[i]], c.selected[i], req);
      }
    }
  }

  lemma {:induction false} AllPicked(picks: seq<nat>, n: nat)
    requires PicksInOrder(picks, n) && forall i | 0 <= i < n :: i in picks
    ensures |picks| == n && forall i | 0 <= i < n :: picks[i] == i
  {
    assert picks != [] ==> picks[0] < n;
    if n > 0 {
      assert n - 1 in picks;
      var j :| 0 <= j < |picks| && picks[j] == n - 1;
      assert j == |picks| - 1;
      var init := picks[..j];
      forall i | 0 <= i < n - 1
        ensures i in init
      {
        assert i in picks;
        var m :| 0 <= m < |picks| && picks[m] == i;
        assert init[m] == i;
      }
      AllPicked(init, n - 1);
    }
  }

  /** So when nobody else acts, and without grouping, a call that comes back short of its batch has leased
      everything the worker could lease. */
  lemma AloneLeasesAll(log: Log, from: nat, candidates: seq<Message>, c: Course, req: Request, tenant: string,
                       batch: nat, k: Key)
    requires Served(log, from, candidates, c, req) && |log| == from + |c.selected|
    requires QueryResult(After(log[..from]), candidates, tenant, req.now, req.worker, Prefetch(batch))
    requires QueryComplete(After(log[..from]), candidates, tenant, req.now, req.worker, Prefetch(batch))
    requires !req.group && |c.selected| < batch && |c.turns| == |candidates| && Legal(log) && from <= |log|
    requires k in After(log[..from]) && LeaseGuard(After(log[..from])[k], tenant, req.now, req.worker)
    ensures exists i :: 0 <= i < |c.selected| && KeyOf(c.selected[i]) == k
  {
    AloneLeasesFirst(log, from, candidates, c, req, tenant, Prefetch(batch));
    LegalPrefix(log, from);
    LeaseFieldsAlwaysAgree(log[..from]);
    var i :| 0 <= i < |candidates| && candidates[i] == After(log[..from])[k];
    assert KeyOf(c.selected[i]) == k;
  }
}
