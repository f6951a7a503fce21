/** The in-memory idempotency store: who is granted a key, and what repeated requests get. */
module Idempotency {
  import opened Wrappers

  datatype Status = InFlight | Succeeded | Failed

  datatype Record = Record(
    hash: string,
    status: Status,
    resultDigest: Option<string>,
    lastError: Option<string>,
    ttlMs: nat,
    createdAt: int,
    updatedAt: int)

  /** Tenant and idempotency key. */
  type Key = (string, string)

  type Records = map<Key, Record>

  datatype IdempoError = HashMismatch | Busy | LastFailed | RecordMissing

  const MIN_I64: int := -0x8000_0000_0000_0000
  const MAX_I64: int := 0x7FFF_FFFF_FFFF_FFFF

  predicate IsI64(n: int) {
    MIN_I64 <= n <= MAX_I64
  }

  /** `a.saturating_sub(b) as u64` on signed 64-bit values: a negative difference wraps. */
  function Elapsed(a: int, b: int): int {
    var d := if a - b < MIN_I64 then MIN_I64 else if a - b > MAX_I64 then MAX_I64 else a - b;
    if d < 0 then d + 0x1_0000_0000_0000_0000 else d
  }

  predicate Expired(r: Record, now: int) {
    Elapsed(now, r.updatedAt) > r.ttlMs
  }

  /** The records after dropping the expired one under `k`. */
  function Pruned(s: Records, k: Key, now: int): Records {
    if k in s && Expired(s[k], now) then s - {k} else s
  }

  function FreshRecord(hash: string, ttlMs: nat, stamp: int): Record {
    Record(hash, InFlight, None, None, ttlMs, stamp, stamp)
  }

  /** The answer to a request, on the pruned records. */
  function Answer(s: Records, k: Key, hash: string): Result<Option<string>, IdempoError> {
    if k !in s then Ok(None)
    else if s[k].hash != hash then Err(HashMismatch)
    else match s[k].status
      case InFlight => Err(Busy)
      case Succeeded => Ok(s[k].resultDigest)
      case Failed => Err(LastFailed)
  }

  /** `now` is the clock reading of the request, `stamp` the later one of a fresh record. */
  function Checked(s: Records, k: Key, hash: string, ttlMs: nat, now: int, stamp: int): Records {
    var p := Pruned(s, k, now);
    if k in p then p else p[k := FreshRecord(hash, ttlMs, stamp)]
  }

  function Completed(r: Record, digest: string, now: int): Record {
    r.(status := Succeeded, resultDigest := Some(digest), lastError := None, updatedAt := now)
  }

  function Broken(r: Record, error: Option<string>, now: int): Record {
    r.(status := Failed, lastError := error, updatedAt := now)
  }

  // ----- runs -----

  datatype Event =
    | Check(key: Key, hash: string, ttlMs: nat, now: int, stamp: int)
    | Finish(key: Key, digest: string, now: int)
    | Fail(key: Key, error: Option<string>, now: int)
  {
    function First(): int {
      now
    }

    function Latest(): int {
      if Check? then stamp else now
    }
  }

  type Log = seq<Event>

  function Apply(s: Records, e: Event): Records {
    match e
    case Check(k, hash, ttlMs, now, stamp) => Checked(s, k, hash, ttlMs, now, stamp)
    case Finish(k, digest, now) => if k in s then s[k := Completed(s[k], digest, now)] else s
    case Fail(k, error, now) => if k in s then s[k := Broken(s[k], error, now)] else s
  }

  function After(log: Log): Records {
    if log == [] then map[] else Apply(After(log[..|log| - 1]), log[|log| - 1])
  }

  /** What the last event, a request, is answered. */
  function LastAnswer(log: Log): Result<Option<string>, IdempoError>
    requires log != [] && log[|log| - 1].Check?
  {
    var e := log[|log| - 1];
    Answer(Pruned(After(log[..|log| - 1]), e.key, e.now), e.key, e.hash)
  }

  /** Clock readings are 64-bit and never go back, from event to event and within one. */
  predicate ClockUpTo(log: Log, t: int) {
    log == []
    || (var e := log[|log| - 1];
        ClockUpTo(log[..|log| - 1], e.First()) && e.First() <= e.Latest() <= t && IsI64(e.First()) && IsI64(e.Latest()))
  }

  /** The last event is a request for `k` that is granted: answered `Ok(None)`. */
  predicate LastGrants(log: Log, k: Key) {
    log != [] && log[|log| - 1].Check? && log[|log| - 1].key == k && LastAnswer(log) == Ok(None)
  }

  // ----- records -----

  predicate DigestKept(r: Record) {
    r.status == Succeeded ==> r.resultDigest.Some?
  }

  /** A record that succeeded has a digest, so a request is answered `Ok(None)` exactly when it
      finds no live record and leaves a fresh one. */
  lemma {:induction false} SucceededHasDigest(log: Log)
    ensures forall k | k in After(log) :: DigestKept(After(log)[k])
  {
    if log != [] {
      SucceededHasDigest(log[..|log| - 1]);
    }
  }

  lemma GrantedExactlyWhenFresh(log: Log, e: Event)
    requires e.Check?
    ensures LastAnswer(log + [e]) == Ok(None) <==> e.key !in Pruned(After(log), e.key, e.now)
    ensures LastAnswer(log + [e]) == Ok(None) ==>
              e.key in After(log + [e]) && After(log + [e])[e.key] == FreshRecord(e.hash, e.ttlMs, e.stamp)
  {
    assert (log + [e])[..|log|] == log;
    SucceededHasDigest(log);
  }

  // ----- the history of a key since its last grant -----

  /** What happened to a key since it was last granted, by the event at `index`: when its record
      was last touched, the last outcome reported, and the last digest. */
  datatype History = Never | Since(index: nat, hash: string, ttlMs: nat, stamp: int, touched: int,
                                   outcome: Option<Result<string, Option<string>>>, digest: Option<string>)

  /** Read off the log alone. */
  function HistoryOf(log: Log, k: Key): History {
    if log == [] then Never
    else
      var before := HistoryOf(log[..|log| - 1], k);
      var e := log[|log| - 1];
      if e.key != k then before
      else if LastGrants(log, k) then Since(|log| - 1, e.hash, e.ttlMs, e.stamp, e.stamp, None, None)
      else if before.Never? then Never
      else match e
        case Check(_, _, _, _, _) => before
        case Finish(_, digest, now) => before.(touched := now, outcome := Some(Ok(digest)), digest := Some(digest))
        case Fail(_, error, now) => before.(touched := now, outcome := Some(Err(error)))
  }

  /** The record is what the history says. */
  ghost predicate Matches(r: Record, h: History) {
    && h.Since?
    && r.hash == h.hash && r.ttlMs == h.ttlMs && r.resultDigest == h.digest
    && r.createdAt == h.stamp <= r.updatedAt == h.touched
    && match h.outcome
       case None => r.status == InFlight && r.lastError.None?
       case Some(Ok(digest)) => r.status == Succeeded && r.lastError.None? && h.digest == Some(digest)
       case Some(Err(error)) => r.status == Failed && r.lastError == error
  }

  /** In every run under a clock that never goes back, a key has a record exactly when it was
      ever granted, and the record is what happened since the last grant. */
  lemma {:induction false} RecordIsHistory(log: Log, k: Key, t: int)
    requires ClockUpTo(log, t)
    ensures k in After(log) <==> HistoryOf(log, k).Since?
    ensures k in After(log) ==> Matches(After(log)[k], HistoryOf(log, k))
    ensures k in After(log) ==> After(log)[k].updatedAt <= t && IsI64(After(log)[k].updatedAt)
  {
    if log != [] {
      var init, e := log[..|log| - 1], log[|log| - 1];
      RecordIsHistory(init, k, e.First());
      SucceededHasDigest(init);
    }
  }

  /** Under a clock that has not gone back, a record is expired exactly when more than its ttl
      passed since it was last touched (a ttl past the signed range never passes). */
  lemma ExpiredExactlyAfterTtl(r: Record, now: int)
    requires IsI64(r.updatedAt) && IsI64(now) && r.updatedAt <= now
    ensures Expired(r, now) <==> now - r.updatedAt > r.ttlMs && r.ttlMs < MAX_I64
  {
  }

  /** With any clock: a reading earlier than the last touch, by however little, makes the
      difference wrap, so a record with a ttl in the signed range is expired exactly when the
      clock reads earlier or its ttl has passed. */
  lemma ExpiredExactly(r: Record, now: int)
    requires IsI64(r.updatedAt) && IsI64(now) && r.ttlMs < MAX_I64
    ensures Expired(r, now) <==> now < r.updatedAt || now - r.updatedAt > r.ttlMs
  {
  }

  /** What every request gets: the grant exactly when there was none before, or when more than
      its ttl passed since the record was last touched; otherwise, under the same hash, the last
      outcome reported since that grant; and a refusal under another hash. */
  lemma RequestsAnsweredByHistory(log: Log, e: Event, t: int)
    requires e.Check? && ClockUpTo(log + [e], t)
    ensures var h := HistoryOf(log, e.key);
            LastAnswer(log + [e]) ==
              if h.Never? || (e.now - h.touched > h.ttlMs && h.ttlMs < MAX_I64) then Ok(None)
              else if h.hash != e.hash then Err(HashMismatch)
              else match h.outcome
                case None => Err(Busy)
                case Some(Ok(digest)) => Ok(Some(digest))
                case Some(Err(_)) => Err(LastFailed)
  {
    assert (log + [e])[..|log|] == log;
    RecordIsHistory(log, e.key, e.now);
    SucceededHasDigest(log);
    if e.key in After(log) {
      ExpiredExactlyAfterTtl(After(log)[e.key], e.now);
    }
  }

  lemma {:induction false} ClockPrefix(log: Log, n: nat, t: int)
    requires n < |log| && ClockUpTo(log, t)
    ensures ClockUpTo(log[..n], log[n].First()) && log[n].First() <= log[n].Latest() <= t
    ensures ClockUpTo(log[..n + 1], t)
    decreases |log|
  {
    var init := log[..|log| - 1];
    if n < |log| - 1 {
      ClockPrefix(init, n, log[|log| - 1].First());
      assert init[..n] == log[..n] && init[..n + 1] == log[..n + 1];
      ClockLater(log[..n + 1], log[|log| - 1].First(), t);
    } else {
      assert log[..n] == init && log[..n + 1] == log;
    }
  }

  lemma ClockLater(log: Log, t: int, u: int)
    requires ClockUpTo(log, t) && t <= u
    ensures ClockUpTo(log, u)
  {
  }

  /** After the grant at `i`, either it is still the last grant of the key, or more than its ttl
      has passed. */
  lemma {:induction false} GrantOrTtlPassed(log: Log, i: nat, k: Key, t: int)
    requires i < |log| && ClockUpTo(log, t) && LastGrants(log[..i + 1], k)
    ensures var h := HistoryOf(log, k);
            && log[i].Check?
            && ((h.Since? && h.index == i && h.stamp == log[i].stamp <= h.touched && h.ttlMs == log[i].ttlMs)
                || t - log[i].stamp > log[i].ttlMs)
    decreases |log|
  {
    var init, e := log[..|log| - 1], log[|log| - 1];
    if i == |log| - 1 {
      assert log[..i + 1] == log;
    } else {
      assert init[..i + 1] == log[..i + 1];
      GrantOrTtlPassed(init, i, k, e.First());
      ClockPrefix(log, i, t);
      RecordIsHistory(init, k, e.First());
      if LastGrants(log, k) {
        assert log == init + [e];
        RequestsAnsweredByHistory(init, e, t);
      }
    }
  }

  /** In every run under a clock that never goes back, two grants of one key are more than the
      first grant's ttl apart. */
  lemma GrantsMoreThanTtlApart(log: Log, i: nat, j: nat, k: Key, t: int)
    requires i < j < |log| && ClockUpTo(log, t)
    requires LastGrants(log[..i + 1], k) && LastGrants(log[..j + 1], k)
    ensures log[i].Check? && log[j].Check? && log[j].now - log[i].stamp > log[i].ttlMs
  {
    ClockPrefix(log, j, t);
    var before := log[..j];
    assert before[..i + 1] == log[..i + 1];
    GrantOrTtlPassed(before, i, k, log[j].First());
    RecordIsHistory(before, k, log[j].First());
    assert log[..j + 1] == before + [log[j]];
    RequestsAnsweredByHistory(before, log[j], t);
  }

  // ----- the store -----

  class InMemoryIdempoStore {
    var records: Records
    ghost var log: Log

    ghost predicate Valid()
      reads this
    {
      records == After(log)
    }

    constructor ()
      ensures Valid() && log == []
    {
      records := map[];
      log := [];
    }

    ghost method Append(e: Event)
      modifies this`log
      ensures log == old(log) + [e] && After(log) == Apply(After(old(log)), e) && log[..|log| - 1] == old(log)
    {
      log := log + [e];
    }

    method CheckAndPut(tenant: string, key: string, hash: string, ttlMs: nat, now: int, stamp: int)
      returns (r: Result<Option<string>, IdempoError>)
      requires Valid()
      modifies this
      ensures Valid() && log == old(log) + [Check((tenant, key), hash, ttlMs, now, stamp)]
      ensures r == LastAnswer(log)
    {
      var k := (tenant, key);
      Append(Check(k, hash, ttlMs, now, stamp));
      if k in records {
        if Elapsed(now, records[k].updatedAt) > records[k].ttlMs {
          records := records - {k};
        }
      }
      if k in records {
        var existing := records[k];
        if existing.hash != hash {
          return Err(HashMismatch);
        }
        match existing.status {
          case InFlight => return Err(Busy);
          case Succeeded => return Ok(existing.resultDigest);
          case Failed => return Err(LastFailed);
        }
      }
      records := records[k := Record(hash, InFlight, None, None, ttlMs, stamp, stamp)];
      r := Ok(None);
    }

    method Finish(tenant: string, key: string, digest: string, now: int) returns (r: Result<(), IdempoError>)
      requires Valid()
      modifies this
      ensures Valid() && log == old(log) + [Event.Finish((tenant, key), digest, now)]
      ensures r == if (tenant, key) in old(records) then Ok(()) else Err(RecordMissing)
    {
      var k := (tenant, key);
      Append(Event.Finish(k, digest, now));
      if k !in records {
        return Err(RecordMissing);
      }
      records := records[k := records[k].(status := Succeeded, resultDigest := Some(digest), lastError := None,
                                          updatedAt := now)];
      r := Ok(());
    }

    method Fail(tenant: string, key: string, error: Option<string>, now: int) returns (r: Result<(), IdempoError>)
      requires Valid()
      modifies this
      ensures Valid() && log == old(log) + [Event.Fail((tenant, key), error, now)]
      ensures r == if (tenant, key) in old(records) then Ok(()) else Err(RecordMissing)
    {
      var k := (tenant, key);
      Append(Event.Fail(k, error, now));
      if k !in records {
        return Err(RecordMissing);
      }
      records := records[k := records[k].(status := Failed, lastError := error, updatedAt := now)];
      r := Ok(());
    }
  }
}
