/** The in-memory outbox store, updating its message map in place.  Every method is proved
    against the lease protocol: it appends to the store's log exactly the events it performs. */
module OutboxStore {
  import opened Wrappers
  import opened OutboxModel
  import opened OutboxProtocol

  datatype OutboxError = Conflict | Missing | OwnedByAnother

  // ----- choosing what to lease -----

  /** Two chosen messages share a dispatch key. */
  predicate SameDispatchKey(a: Message, b: Message) {
    a.dispatchKey.Some? && a.dispatchKey == b.dispatchKey
  }

  /** The message at position `m` is picked, or when grouping shares its dispatch key with one
      that is. */
  ghost predicate Covered(all: seq<Message>, picks: seq<nat>, m: nat, group: bool)
    requires m < |all| && forall i | 0 <= i < |picks| :: picks[i] < |all|
  {
    exists i | 0 <= i < |picks| :: picks[i] == m || (group && SameDispatchKey(all[picks[i]], all[m]))
  }

  ghost predicate SharesNone(all: seq<Message>, picks: seq<nat>, m: nat)
    requires m < |all| && forall i | 0 <= i < |picks| :: picks[i] < |all|
  {
    forall i | 0 <= i < |picks| :: !SameDispatchKey(all[picks[i]], all[m])
  }

  /** `picks` are the positions of a valid selection among the first `n` messages: increasing,
      eligible, with distinct dispatch keys when grouping, and nothing eligible is passed over
      except for sharing a dispatch key with a picked one. */
  ghost predicate Selects(all: seq<Message>, n: nat, tenant: string, now: int, worker: string, group: bool,
                          picks: seq<nat>)
    requires n <= |all|
  {
    && (forall i | 0 <= i < |picks| :: picks[i] < n && Eligible(all[picks[i]], tenant, now, worker))
    && (forall i, j | 0 <= i < j < |picks| :: picks[i] < picks[j])
    && (group ==> forall i, j | 0 <= i < j < |picks| :: !SameDispatchKey(all[picks[i]], all[picks[j]]))
    && (forall m: nat | m < n && Eligible(all[m], tenant, now, worker) :: Covered(all, picks, m, group))
  }

  /** One scan over the first `n` messages, without the batch limit: the positions picked and,
      when grouping, the dispatch keys seen. */
  function Scan(all: seq<Message>, n: nat, tenant: string, now: int, worker: string, group: bool):
    (seq<nat>, set<string>)
    requires n <= |all|
  {
    if n == 0 then ([], {})
    else
      var (picks, seen) := Scan(all, n - 1, tenant, now, worker, group);
      var m := all[n - 1];
      if !Eligible(m, tenant, now, worker) then (picks, seen)
      else if group && m.dispatchKey.Some? then
        if m.dispatchKey.value in seen then (picks, seen)
        else (picks + [n - 1], seen + {m.dispatchKey.value})
      else (picks + [n - 1], seen)
  }

  /** The seen keys are the dispatch keys of the picked messages. */
  ghost predicate KeysSeen(all: seq<Message>, picks: seq<nat>, seen: set<string>) {
    && (forall i | 0 <= i < |picks| :: picks[i] < |all|)
    && (forall i | 0 <= i < |picks| :: all[picks[i]].dispatchKey.Some? ==> all[picks[i]].dispatchKey.value in seen)
    && (forall key | key in seen :: exists i | 0 <= i < |picks| :: all[picks[i]].dispatchKey == Some(key))
  }

  lemma PassOver(all: seq<Message>, n: nat, tenant: string, now: int, worker: string, group: bool, picks: seq<nat>)
    requires n < |all| && Selects(all, n, tenant, now, worker, group, picks)
    requires !Eligible(all[n], tenant, now, worker) || Covered(all, picks, n, group)
    ensures Selects(all, n + 1, tenant, now, worker, group, picks)
  {
  }

  lemma Pick(all: seq<Message>, n: nat, tenant: string, now: int, worker: string, group: bool, picks: seq<nat>)
    requires n < |all| && Selects(all, n, tenant, now, worker, group, picks)
    requires Eligible(all[n], tenant, now, worker) && (group ==> SharesNone(all, picks, n))
    ensures Selects(all, n + 1, tenant, now, worker, group, picks + [n])
  {
    var picks' := picks + [n];
    assert picks'[|picks|] == n;
    forall m: nat | m < n + 1 && Eligible(all[m], tenant, now, worker)
      ensures Covered(all, picks', m, group)
    {
      if m < n {
        var i :| 0 <= i < |picks| && (picks[i] == m || (group && SameDispatchKey(all[picks[i]], all[m])));
        assert picks'[i] == picks[i];
      }
    }
  }

  lemma PickKeys(all: seq<Message>, n: nat, picks: seq<nat>, seen: set<string>)
    requires n < |all| && KeysSeen(all, picks, seen)
    ensures KeysSeen(all, picks + [n], if all[n].dispatchKey.Some? then seen + {all[n].dispatchKey.value} else seen)
  {
    var picks' := picks + [n];
    var seen' := if all[n].dispatchKey.Some? then seen + {all[n].dispatchKey.value} else seen;
    assert picks'[|picks|] == n;
    forall key | key in seen'
      ensures exists i | 0 <= i < |picks'| :: all[picks'[i]].dispatchKey == Some(key)
    {
      if key in seen {
        var i :| 0 <= i < |picks| && all[picks[i]].dispatchKey == Some(key);
        assert picks'[i] == picks[i];
      }
    }
  }

  /** A dispatch key is seen exactly when some pick shares it. */
  lemma SeenMeansShared(all: seq<Message>, n: nat, picks: seq<nat>, seen: set<string>)
    requires n < |all| && KeysSeen(all, picks, seen)
    ensures all[n].dispatchKey.Some? && all[n].dispatchKey.value in seen ==> Covered(all, picks, n, true)
    ensures !(all[n].dispatchKey.Some? && all[n].dispatchKey.value in seen) ==> SharesNone(all, picks, n)
  {
    if all[n].dispatchKey.Some? && all[n].dispatchKey.value in seen {
      var i :| 0 <= i < |picks| && all[picks[i]].dispatchKey == Some(all[n].dispatchKey.value);
      assert SameDispatchKey(all[picks[i]], all[n]);
    }
  }

  /** What a scan of the first `n` messages has found. */
  ghost predicate Scanned(all: seq<Message>, n: nat, tenant: string, now: int, worker: string, group: bool,
                          found: (seq<nat>, set<string>))
    requires n <= |all|
  {
    Selects(all, n, tenant, now, worker, group, found.0) && (group ==> KeysSeen(all, found.0, found.1))
  }

  /** A scan selects: everything it picks is eligible and in order, no two picks share a
      dispatch key when grouping, and nothing eligible is left out for another reason. */
  lemma {:induction false} ScanSelects(all: seq<Message>, n: nat, tenant: string, now: int, worker: string, group: bool)
    requires n <= |all|
    ensures Scanned(all, n, tenant, now, worker, group, Scan(all, n, tenant, now, worker, group))
  {
    if n > 0 {
      ScanSelects(all, n - 1, tenant, now, worker, group);
      ScanStep(all, n, tenant, now, worker, group);
    }
  }

  /** The scan passes over a message with these dispatch keys seen. */
  predicate Skips(m: Message, tenant: string, now: int, worker: string, group: bool, seen: set<string>) {
    !Eligible(m, tenant, now, worker) || (group && m.dispatchKey.Some? && m.dispatchKey.value in seen)
  }

  lemma ScanStep(all: seq<Message>, n: nat, tenant: string, now: int, worker: string, group: bool)
    requires 0 < n <= |all|
    requires Scanned(all, n - 1, tenant, now, worker, group, Scan(all, n - 1, tenant, now, worker, group))
    ensures Scanned(all, n, tenant, now, worker, group, Scan(all, n, tenant, now, worker, group))
  {
    var found := Scan(all, n - 1, tenant, now, worker, group);
    if Skips(all[n - 1], tenant, now, worker, group, found.1) {
      assert Scan(all, n, tenant, now, worker, group) == found;
      ScanPasses(all, n - 1, tenant, now, worker, group, found.0, found.1);
    } else {
      ScanPicks(all, n - 1, tenant, now, worker, group, found.0, found.1);
    }
  }

  lemma ScanPasses(all: seq<Message>, n: nat, tenant: string, now: int, worker: string, group: bool, picks: seq<nat>,
                   seen: set<string>)
    requires n < |all| && Scanned(all, n, tenant, now, worker, group, (picks, seen))
    requires Skips(all[n], tenant, now, worker, group, seen)
    ensures Scanned(all, n + 1, tenant, now, worker, group, (picks, seen))
  {
    if Eligible(all[n], tenant, now, worker) {
      SeenMeansShared(all, n, picks, seen);
    }
    PassOver(all, n, tenant, now, worker, group, picks);
  }

  lemma ScanPicks(all: seq<Message>, n: nat, tenant: string, now: int, worker: string, group: bool, picks: seq<nat>,
                  seen: set<string>)
    requires n < |all| && Scanned(all, n, tenant, now, worker, group, (picks, seen))
    requires !Skips(all[n], tenant, now, worker, group, seen)
    ensures var seen' := if group && all[n].dispatchKey.Some? then seen + {all[n].dispatchKey.value} else seen;
            Scanned(all, n + 1, tenant, now, worker, group, (picks + [n], seen'))
  {
    if group {
      SeenMeansShared(all, n, picks, seen);
      PickKeys(all, n, picks, seen);
    }
    Pick(all, n, tenant, now, worker, group, picks);
  }

  /** `selected` are the ids at the positions of a valid selection among the first `scanned`
      messages, at most `batch` of them (one, for a batch of 0); if there are fewer, all the
      messages were scanned. */
  ghost predicate SelectedAt(all: seq<Message>, selected: seq<string>, tenant: string, now: int, batch: nat,
                             worker: string, group: bool, picks: seq<nat>, scanned: nat)
  {
    && scanned <= |all| && Selects(all, scanned, tenant, now, worker, group, picks)
    && |selected| == |picks| <= (if batch == 0 then 1 else batch)
    && (|selected| < batch ==> scanned == |all|)
    && forall i | 0 <= i < |picks| :: selected[i] == all[picks[i]].id
  }

  /** For every order of the messages, the selection is eligible, without repetition and at
      most `batch` long (one, for a batch of 0); it stops short of that only when every
      eligible message left out shares its dispatch key with a selected one. */
  method SelectMessages(all: seq<Message>, tenant: string, now: int, batch: nat, worker: string, group: bool)
    returns (selected: seq<string>)
    ensures exists picks, scanned :: SelectedAt(all, selected, tenant, now, batch, worker, group, picks, scanned)
  {
    selected := [];
    ghost var picks: seq<nat> := [];
    var seenKeys: set<string> := {};
    var next := 0;
    while next < |all|
      invariant 0 <= next <= |all|
      invariant (picks, seenKeys) == Scan(all, next, tenant, now, worker, group)
      invariant |selected| == |picks| && (picks == [] || |picks| < batch)
      invariant forall i | 0 <= i < |picks| :: picks[i] < |all| && selected[i] == all[picks[i]].id
      decreases |all| - next
    {
      var msg := all[next];
      next := next + 1;
      if msg.tenant != tenant {
        continue;
      }
      if msg.status == Done || msg.status == Dead {
        continue;
      }
      if msg.leaseUntil.Some? {
        if msg.leaseUntil.value > now && msg.worker != Some(worker) {
          continue;
        }
      }
      if msg.notBefore > now {
        continue;
      }
      if group && msg.dispatchKey.Some? {
        if msg.dispatchKey.value in seenKeys {
          continue;
        }
        seenKeys := seenKeys + {msg.dispatchKey.value};
      }
      selected, picks := selected + [msg.id], picks + [next - 1];
      if |selected| >= batch {
        break;
      }
    }
    ScanSelects(all, next, tenant, now, worker, group);
    assert SelectedAt(all, selected, tenant, now, batch, worker, group, picks, next);
  }

  // ----- the store -----

  ghost predicate Listed(order: seq<Key>, k: Key) {
    exists i :: 0 <= i < |order| && order[i] == k
  }

  /** An iteration order of the map: every key once. */
  ghost predicate Enumerates(order: seq<Key>, messages: Messages) {
    && (forall i | 0 <= i < |order| :: order[i] in messages)
    && (forall k {:trigger Listed(order, k)} :: k in messages ==> Listed(order, k))
    && (forall i, j | 0 <= i < j < |order| :: order[i] != order[j])
  }

  /** The grants of a batch, in order. */
  function GrantsOf(leased: seq<Message>, worker: string, now: int, until: int): Log {
    if leased == [] then []
    else GrantsOf(leased[..|leased| - 1], worker, now, until) + [Grant(KeyOf(leased[|leased| - 1]), worker, now, until)]
  }

  /** Some chosen key is `k`, or when grouping is the key of a message sharing its dispatch key. */
  ghost predicate CoveredBy(s: Messages, keys: seq<Key>, k: Key, group: bool)
    requires k in s
  {
    exists i :: 0 <= i < |keys| && keys[i] in s && (keys[i] == k || (group && SameDispatchKey(s[keys[i]], s[k])))
  }

  /** A valid choice of keys to lease: distinct keys of eligible messages, at most `batch` of
      them (one, for a batch of 0), with distinct dispatch keys when grouping; and nothing
      eligible is missing from a choice that is not full, except for its dispatch key. */
  ghost predicate Chosen(s: Messages, keys: seq<Key>, tenant: string, now: int, batch: nat, worker: string, group: bool)
  {
    && |keys| <= (if batch == 0 then 1 else batch)
    && (forall i | 0 <= i < |keys| :: keys[i] in s && Eligible(s[keys[i]], tenant, now, worker))
    && (forall i, j | 0 <= i < j < |keys| :: keys[i] != keys[j])
    && (group ==> forall i, j | 0 <= i < j < |keys| :: !SameDispatchKey(s[keys[i]], s[keys[j]]))
    && (|keys| < batch ==> forall k | k in s && Eligible(s[k], tenant, now, worker) :: CoveredBy(s, keys, k, group))
  }

  function KeysOf(leased: seq<Message>): seq<Key> {
    seq(|leased|, i requires 0 <= i < |leased| => KeyOf(leased[i]))
  }

  /** The chosen messages, as granted. */
  function GrantedAll(s: Messages, keys: seq<Key>, worker: string, until: int): seq<Message>
    requires forall i | 0 <= i < |keys| :: keys[i] in s
  {
    seq(|keys|, i requires 0 <= i < |keys| => Granted(s[keys[i]], worker, until))
  }

  /** A valid choice of messages, as granted. */
  ghost predicate BatchLeased(s: Messages, leased: seq<Message>, tenant: string, now: int, leaseMs: int, batch: nat,
                              worker: string, group: bool)
  {
    && Chosen(s, KeysOf(leased), tenant, now, batch, worker, group)
    && leased == GrantedAll(s, KeysOf(leased), worker, now + leaseMs)
  }

  /** The map after granting a batch. */
  function AfterGrants(s: Messages, leased: seq<Message>): Messages {
    if leased == [] then s
    else
      var before := AfterGrants(s, leased[..|leased| - 1]);
      var m := leased[|leased| - 1];
      before[KeyOf(m) := m]
  }

  function At(order: seq<Key>, picks: seq<nat>): seq<Key>
    requires forall i | 0 <= i < |picks| :: picks[i] < |order|
  {
    seq(|picks|, i requires 0 <= i < |picks| => order[picks[i]])
  }

  /** A selection over the map's values, in whatever order, is a valid choice of keys. */
  lemma SelectionChooses(s: Messages, order: seq<Key>, all: seq<Message>, scanned: nat, picks: seq<nat>,
                         tenant: string, now: int, batch: nat, worker: string, group: bool)
    requires Enumerates(order, s)
    requires |all| == |order| && forall i | 0 <= i < |order| :: all[i] == s[order[i]]
    requires scanned <= |all| && Selects(all, scanned, tenant, now, worker, group, picks)
    requires |picks| <= (if batch == 0 then 1 else batch)
    requires |picks| < batch ==> scanned == |all|
    ensures Chosen(s, At(order, picks), tenant, now, batch, worker, group)
  {
    var keys := At(order, picks);
    forall i, j | 0 <= i < j < |keys|
      ensures keys[i] != keys[j]
    {
      assert picks[i] < picks[j];
    }
    if |keys| < batch {
      forall k | k in s && Eligible(s[k], tenant, now, worker)
        ensures CoveredBy(s, keys, k, group)
      {
        assert Listed(order, k);
        var m :| 0 <= m < |order| && order[m] == k;
        CoveredInMap(s, order, all, picks, m, group);
      }
    }
  }

  lemma CoveredInMap(s: Messages, order: seq<Key>, all: seq<Message>, picks: seq<nat>, m: nat, group: bool)
    requires forall i | 0 <= i < |order| :: order[i] in s
    requires |all| == |order| && forall i | 0 <= i < |order| :: all[i] == s[order[i]]
    requires m < |all| && (forall i | 0 <= i < |picks| :: picks[i] < |all|)
    requires Covered(all, picks, m, group)
    ensures CoveredBy(s, At(order, picks), order[m], group)
  {
    var i :| 0 <= i < |picks| && (picks[i] == m || (group && SameDispatchKey(all[picks[i]], all[m])));
    assert At(order, picks)[i] == order[picks[i]];
  }

  /** The first `n` chosen messages are granted. */
  ghost predicate GrantedSoFar(s: Messages, keys: seq<Key>, n: nat, leased: seq<Message>, worker: string, until: int) {
    && n <= |keys| && |leased| == n
    && forall i | 0 <= i < n :: keys[i] in s && leased[i] == Granted(s[keys[i]], worker, until)
          && KeyOf(leased[i]) == keys[i]
  }

  lemma GrantOneMore(s: Messages, keys: seq<Key>, n: nat, leased: seq<Message>, granted: Message, worker: string,
                     now: int, until: int, start: Log)
    requires n < |keys| && keys[n] in s
    requires GrantedSoFar(s, keys, n, leased, worker, until)
    requires granted == Granted(s[keys[n]], worker, until) && KeyOf(granted) == keys[n]
    ensures GrantedSoFar(s, keys, n + 1, leased + [granted], worker, until)
    ensures start + GrantsOf(leased + [granted], worker, now, until)
            == start + GrantsOf(leased, worker, now, until) + [Grant(keys[n], worker, now, until)]
    ensures AfterGrants(s, leased + [granted]) == AfterGrants(s, leased)[keys[n] := granted]
  {
    assert (leased + [granted])[..|leased|] == leased;
    assert GrantsOf(leased + [granted], worker, now, until)
           == GrantsOf(leased, worker, now, until) + [Grant(keys[n], worker, now, until)];
  }

  lemma {:induction false} UntouchedByGrants(s: Messages, leased: seq<Message>, k: Key)
    requires forall i | 0 <= i < |leased| :: KeyOf(leased[i]) != k
    ensures k in AfterGrants(s, leased) <==> k in s
    ensures k in s ==> AfterGrants(s, leased)[k] == s[k]
  {
    if leased != [] {
      UntouchedByGrants(s, leased[..|leased| - 1], k);
    }
  }

  /** The message is eligible in `s`, and `m` is it as granted. */
  ghost predicate ProperLease(s: Messages, m: Message, tenant: string, now: int, worker: string, until: int) {
    && KeyOf(m) in s
    && Eligible(s[KeyOf(m)], tenant, now, worker)
    && m == Granted(s[KeyOf(m)], worker, until)
  }

  /** Distinct messages of one tenant, eligible in `s`, as granted. */
  ghost predicate ProperLeases(s: Messages, leased: seq<Message>, tenant: string, now: int, worker: string, until: int)
  {
    leased == []
    || (var init, m := leased[..|leased| - 1], leased[|leased| - 1];
        && ProperLeases(s, init, tenant, now, worker, until)
        && ProperLease(s, m, tenant, now, worker, until)
        && forall i | 0 <= i < |init| :: KeyOf(init[i]) != KeyOf(m))
  }

  lemma {:induction false} AllProper(s: Messages, leased: seq<Message>, tenant: string, now: int,
                                     worker: string, until: int)
    requires forall i | 0 <= i < |leased| :: ProperLease(s, leased[i], tenant, now, worker, until)
    requires forall i, j | 0 <= i < j < |leased| :: KeyOf(leased[i]) != KeyOf(leased[j])
    ensures ProperLeases(s, leased, tenant, now, worker, until)
  {
    if leased != [] {
      AllProper(s, leased[..|leased| - 1], tenant, now, worker, until);
    }
  }

  lemma ChosenAreProper(s: Messages, leased: seq<Message>, tenant: string, now: int, leaseMs: int, batch: nat,
                        worker: string, group: bool)
    requires BatchLeased(s, leased, tenant, now, leaseMs, batch, worker, group)
    ensures ProperLeases(s, leased, tenant, now, worker, now + leaseMs)
  {
    forall i | 0 <= i < |leased|
      ensures ProperLease(s, leased[i], tenant, now, worker, now + leaseMs)
    {
      assert KeysOf(leased)[i] == KeyOf(leased[i]);
    }
    forall i, j | 0 <= i < j < |leased|
      ensures KeyOf(leased[i]) != KeyOf(leased[j])
    {
      assert KeysOf(leased)[i] != KeysOf(leased)[j];
    }
    AllProper(s, leased, tenant, now, worker, now + leaseMs);
  }

  lemma NextIsUntouched(s: Messages, keys: seq<Key>, n: nat, leased: seq<Message>, tenant: string, now: int,
                        batch: nat, worker: string, group: bool, until: int)
    requires Chosen(s, keys, tenant, now, batch, worker, group) && n < |keys|
    requires GrantedSoFar(s, keys, n, leased, worker, until)
    ensures keys[n] in s && Eligible(s[keys[n]], tenant, now, worker)
    ensures keys[n] in AfterGrants(s, leased) && AfterGrants(s, leased)[keys[n]] == s[keys[n]]
  {
    UntouchedByGrants(s, leased, keys[n]);
  }

  lemma GrantedSoFarAll(s: Messages, keys: seq<Key>, leased: seq<Message>, worker: string, until: int)
    requires GrantedSoFar(s, keys, |keys|, leased, worker, until)
    ensures KeysOf(leased) == keys
    ensures forall i | 0 <= i < |keys| :: keys[i] in s
    ensures leased == GrantedAll(s, keys, worker, until)
  {
  }

  class InMemoryOutboxStore {
    var messages: Messages
    ghost var log: Log

    /** The stored messages are what a legal run of the protocol left behind. */
    ghost predicate Valid()
      reads this
    {
      Legal(log) && messages == After(log)
    }

    constructor ()
      ensures Valid() && log == []
    {
      messages := map[];
      log := [];
    }

    /** The one place where the log grows. */
    ghost method Record(e: Event)
      requires Legal(log) && Accepted(After(log), e)
      modifies this`log
      ensures log == old(log) + [e] && Legal(log) && After(log) == Apply(After(old(log)), e)
    {
      Snoc(log, e);
      log := log + [e];
    }

    method Enqueue(message: NewMessage, created: int, due: int) returns (r: Result<Message, OutboxError>)
      requires Valid()
      modifies this
      ensures Valid()
      ensures var k := (message.tenant, message.id);
              if k in old(messages) then r == Err(Conflict) && log == old(log)
              else
                && r.Ok? && AsRequested(r.value, message, created, due)
                && log == old(log) + [OutboxProtocol.Enqueue(k, r.value)]
    {
      var stored := Built(message, created, due);
      var key := KeyOf(stored);
      if key in messages {
        return Err(Conflict);
      }
      Record(OutboxProtocol.Enqueue(key, stored));
      messages := messages[key := stored];
      r := Ok(stored);
    }

    method LeaseBatch(order: seq<Key>, tenant: string, now: int, leaseMs: int, batch: nat, worker: string, group: bool)
      returns (leased: seq<Message>)
      requires Valid() && Enumerates(order, messages)
      modifies this
      ensures Valid()
      ensures BatchLeased(old(messages), leased, tenant, now, leaseMs, batch, worker, group)
      ensures log == old(log) + GrantsOf(leased, worker, now, now + leaseMs)
      ensures messages == AfterGrants(old(messages), leased)
    {
      ghost var stored := messages;
      ghost var keys;
      var ids;
      ids, keys := SelectIds(order, tenant, now, batch, worker, group);
      leased := [];
      ghost var start := log;
      assert start + GrantsOf([], worker, now, now + leaseMs) == start;
      for n := 0 to |ids|
        invariant Valid()
        invariant GrantedSoFar(stored, keys, n, leased, worker, now + leaseMs)
        invariant log == start + GrantsOf(leased, worker, now, now + leaseMs)
        invariant messages == AfterGrants(stored, leased)
      {
        var key := (tenant, ids[n]);
        NextIsUntouched(stored, keys, n, leased, tenant, now, batch, worker, group, now + leaseMs);
        if key in messages {
          var granted := Lease(key, worker, now, now + leaseMs);
          GrantOneMore(stored, keys, n, leased, granted, worker, now, now + leaseMs, start);
          leased := leased + [granted];
        }
      }
      GrantedSoFarAll(stored, keys, leased, worker, now + leaseMs);
    }

    method Lease(key: Key, worker: string, now: int, until: int) returns (granted: Message)
      requires Valid() && key in messages && Eligible(messages[key], key.0, now, worker)
      modifies this
      ensures Valid()
      ensures granted == Granted(old(messages)[key], worker, until) && KeyOf(granted) == key
      ensures messages == old(messages)[key := granted]
      ensures log == old(log) + [Grant(key, worker, now, until)]
    {
      LeaseFieldsAlwaysAgree(log);
      Record(Grant(key, worker, now, until));
      granted := messages[key].(status := Leased, worker := Some(worker), leaseUntil := Some(until));
      messages := messages[key := granted];
    }

    /** The ids to lease, with the keys they stand for. */
    method SelectIds(order: seq<Key>, tenant: string, now: int, batch: nat, worker: string, group: bool)
      returns (ids: seq<string>, ghost keys: seq<Key>)
      requires Valid() && Enumerates(order, messages)
      ensures Chosen(messages, keys, tenant, now, batch, worker, group)
      ensures |ids| == |keys| && forall i | 0 <= i < |ids| :: keys[i] == (tenant, ids[i])
    {
      LeaseFieldsAlwaysAgree(log);
      var stored := messages;
      var snapshot := seq(|order|, i requires 0 <= i < |order| && order[i] in stored => stored[order[i]]);
      ids := SelectMessages(snapshot, tenant, now, batch, worker, group);
      ghost var picks, scanned :| SelectedAt(snapshot, ids, tenant, now, batch, worker, group, picks, scanned);
      keys := At(order, picks);
      SelectionChooses(stored, order, snapshot, scanned, picks, tenant, now, batch, worker, group);
      forall i | 0 <= i < |ids|
        ensures keys[i] == (tenant, ids[i])
      {
        assert snapshot[picks[i]] == stored[keys[i]];
        assert KeyOf(stored[keys[i]]) == keys[i];
      }
    }

    method AckDone(tenant: string, id: string, ghost actor: string) returns (r: Result<(), OutboxError>)
      requires Valid()
      modifies this
      ensures Valid()
      ensures if (tenant, id) in old(messages) then r == Ok(()) && log == old(log) + [Ack((tenant, id), actor)]
              else r == Err(Missing) && log == old(log)
    {
      var key := (tenant, id);
      if key !in messages {
        return Err(Missing);
      }
      Record(Ack(key, actor));
      messages := messages[key := messages[key].(status := Done, worker := None, leaseUntil := None,
                                                 lastError := None)];
      r := Ok(());
    }

    method NackBackoff(tenant: string, id: string, notBefore: int, error: Option<string>, ghost actor: string)
      returns (r: Result<(), OutboxError>)
      requires Valid()
      modifies this
      ensures Valid()
      ensures if (tenant, id) in old(messages) then r == Ok(())
              && log == old(log) + [Nack((tenant, id), actor, notBefore, error)]
              else r == Err(Missing) && log == old(log)
    {
      var key := (tenant, id);
      if key !in messages {
        return Err(Missing);
      }
      Record(Nack(key, actor, notBefore, error));
      var msg := messages[key];
      messages := messages[key := msg.(status := Pending, notBefore := notBefore, worker := None, leaseUntil := None,
                                       lastError := error, attempts := Incremented(msg.attempts))];
      r := Ok(());
    }

    /** Returns the stored message, for the dead letter. */
    method DeadLetter(tenant: string, id: string, error: Option<string>, ghost actor: string)
      returns (r: Result<Message, OutboxError>)
      requires Valid()
      modifies this
      ensures Valid()
      ensures if (tenant, id) in old(messages) then
                && log == old(log) + [Kill((tenant, id), actor, error)]
                && (tenant, id) in messages && r == Ok(messages[(tenant, id)])
              else r == Err(Missing) && log == old(log)
    {
      var key := (tenant, id);
      if key !in messages {
        return Err(Missing);
      }
      Record(Kill(key, actor, error));
      var msg := messages[key];
      msg := msg.(status := Dead, worker := None, leaseUntil := None, lastError := error,
                  attempts := Incremented(msg.attempts));
      messages := messages[key := msg];
      r := Ok(msg);
    }

    method Heartbeat(tenant: string, id: string, until: int, worker: string) returns (r: Result<(), OutboxError>)
      requires Valid()
      modifies this
      ensures Valid()
      ensures var k := (tenant, id);
              if k !in old(messages) then r == Err(Missing) && log == old(log)
              else if old(messages)[k].worker != Some(worker) then r == Err(OwnedByAnother) && log == old(log)
              else r == Ok(()) && log == old(log) + [OutboxProtocol.Heartbeat(k, worker, until)]
    {
      var key := (tenant, id);
      if key !in messages {
        return Err(Missing);
      }
      if messages[key].worker != Some(worker) {
        return Err(OwnedByAnother);
      }
      Record(OutboxProtocol.Heartbeat(key, worker, until));
      messages := messages[key := messages[key].(leaseUntil := Some(until))];
      r := Ok(());
    }

    method Revive(tenant: string, id: string, at: int) returns (r: Result<(), OutboxError>)
      requires Valid()
      modifies this
      ensures Valid()
      ensures if (tenant, id) in old(messages) then r == Ok(())
              && log == old(log) + [OutboxProtocol.Revive((tenant, id), at)]
              else r == Err(Missing) && log == old(log)
    {
      var key := (tenant, id);
      if key !in messages {
        return Err(Missing);
      }
      Record(OutboxProtocol.Revive(key, at));
      messages := messages[key := messages[key].(status := Pending, worker := None, leaseUntil := None,
                                                 lastError := None,
                                                 notBefore := at, attempts := 0)];
      r := Ok(());
    }
  }
}
