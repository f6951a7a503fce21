/** Outbox messages and the updates a store makes to one of them. */
module OutboxModel {
  import opened Wrappers
  import opened Json

  datatype Status = Pending | Leased | Done | Dead

  /** Tenant and message id. */
  type Key = (string, string)

  datatype Message = Message(
    id: string,
    tenant: string,
    envelopeId: string,
    topic: string,
    payload: Json,
    createdAt: int,
    notBefore: int,
    attempts: nat,
    status: Status,
    lastError: Option<string>,
    dispatchKey: Option<string>,
    leaseUntil: Option<int>,
    worker: Option<string>)

  datatype NewMessage = NewMessage(
    id: string,
    tenant: string,
    envelopeId: string,
    topic: string,
    payload: Json,
    notBefore: Option<int>,
    dispatchKey: Option<string>)

  type Messages = map<Key, Message>

  const MAX_U32: nat := 0xFFFF_FFFF

  function KeyOf(m: Message): Key {
    (m.tenant, m.id)
  }

  /** `attempts.saturating_add(1)` on a 32-bit counter. */
  function Incremented(attempts: nat): nat {
    if attempts < MAX_U32 then attempts + 1 else attempts
  }

  /** The message is what was asked for, created now, due when asked or else at once, and untouched.
      The clock is read once for each of the two times. */
  predicate AsRequested(m: Message, n: NewMessage, created: int, due: int) {
    && m.id == n.id && m.tenant == n.tenant && m.envelopeId == n.envelopeId && m.topic == n.topic
    && m.payload == n.payload && m.dispatchKey == n.dispatchKey
    && m.createdAt == created && (if n.notBefore.Some? then m.notBefore == n.notBefore.value else m.notBefore == due)
    && m.status == Pending && m.attempts == 0 && m.lastError.None? && m.worker.None? && m.leaseUntil.None?
  }

  function Built(n: NewMessage, created: int, due: int): (m: Message)
    ensures AsRequested(m, n, created, due)
  {
    Message(n.id, n.tenant, n.envelopeId, n.topic, n.payload, created, n.notBefore.GetOr(due), 0, Pending, None,
            n.dispatchKey, None, None)
  }

  /** A message that can be enqueued, and leased at once. */
  predicate Fresh(m: Message) {
    m.status == Pending && m.attempts == 0 && m.worker.None? && m.leaseUntil.None? && m.notBefore <= 0
  }

  function Granted(m: Message, worker: string, until: int): Message {
    m.(status := Leased, worker := Some(worker), leaseUntil := Some(until))
  }

  function Acked(m: Message): Message {
    m.(status := Done, worker := None, leaseUntil := None, lastError := None)
  }

  function Nacked(m: Message, notBefore: int, error: Option<string>): Message {
    m.(status := Pending, notBefore := notBefore, worker := None, leaseUntil := None, lastError := error,
       attempts := Incremented(m.attempts))
  }

  function Killed(m: Message, error: Option<string>): Message {
    m.(status := Dead, worker := None, leaseUntil := None, lastError := error, attempts := Incremented(m.attempts))
  }

  function Extended(m: Message, until: int): Message {
    m.(leaseUntil := Some(until))
  }

  function Revived(m: Message, at: int): Message {
    m.(status := Pending, worker := None, leaseUntil := None, lastError := None, notBefore := at, attempts := 0)
  }

  /** The conditions under which `select_messages` considers a message. */
  predicate Eligible(m: Message, tenant: string, now: int, worker: string) {
    && m.tenant == tenant
    && m.status != Done && m.status != Dead
    && !(m.leaseUntil.Some? && m.leaseUntil.value > now && m.worker != Some(worker))
    && m.notBefore <= now
  }

  /** The guard of the database's candidate query and of its lease update. */
  predicate LeaseGuard(m: Message, tenant: string, now: int, worker: string) {
    && m.tenant == tenant
    && (m.status == Pending || m.status == Leased)
    && m.notBefore <= now
    && (m.status == Pending
        || (m.leaseUntil.Some? && m.leaseUntil.value <= now)
        || m.worker == Some(worker)
        || m.leaseUntil.None?)
  }

  /** Leased exactly when a worker is recorded, and exactly when an end of lease is. */
  predicate LeaseFieldsAgree(m: Message) {
    (m.status == Leased <==> m.worker.Some?) && (m.status == Leased <==> m.leaseUntil.Some?)
  }

  /** On messages whose lease fields agree the two stores lease under the same condition. */
  lemma GuardsAgree(m: Message, tenant: string, now: int, worker: string)
    requires LeaseFieldsAgree(m)
    ensures LeaseGuard(m, tenant, now, worker) <==> Eligible(m, tenant, now, worker)
  {
  }
}
