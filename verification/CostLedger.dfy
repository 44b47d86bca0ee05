/** The append-only, idempotent, tenant-partitioned cost ledger, with the snapshot rollback of its
    transaction coordinator and its two injectable faults. */
module CostLedger {
  import opened FixedPoint
  import opened Wrappers

  type Id = string

  datatype Source = Estimated | Measured | ProviderReported
  datatype Unit = Minute | Second | TokenUnit | Character | Megabyte | RequestUnit | Seat | Flat | ConversationUnit
  datatype FaultPoint = AfterCostEventInsert | BeforeCommit
  datatype Error = Authorization | Validation | Conflict | Reconciliation | Transaction | NestedTransaction

  datatype RateCard = RateCard(ref: string, asOf: string, providerId: string, service: string, unit: Unit, unitCost: nat)

  /** A trusted request reference, bound to one rate-card capability, tenant and session. */
  datatype RequestReference = RequestReference(providerId: string, ref: string, cardCapability: nat,
                                               tenantId: Id, sessionId: Option<Id>)

  /** One call's parsed input. `losslessNumbers` says whether its quantity, unit cost and amount
      survive the conversion to contract numbers. */
  datatype WriteInput = WriteInput(
    eventId: Id, tenantId: Id, sessionId: Option<Id>, source: Source, quantity: nat, occurredAt: string,
    traceId: string, cardCapability: nat, card: RateCard, request: RequestReference,
    reconciles: Option<Id>, declaredAmount: Option<nat>, losslessNumbers: bool)

  /** The sixteen values a stored event and its fingerprint are made of. */
  datatype CostWrite = CostWrite(
    eventId: Id, tenantId: Id, sessionId: Option<Id>, source: Source, quantity: nat, amount: nat,
    occurredAt: string, traceId: string, cardRef: string, cardAsOf: string, providerId: string,
    service: string, unit: Unit, unitCost: nat, requestRef: string, reconciles: Option<Id>)

  datatype Normalized = Accepted(write: CostWrite) | Refused(error: Error)

  function Normalize(authorizedTenant: Id, input: WriteInput): Normalized {
    var card := input.card;
    var amount := UsdAmount(input.quantity, card.unitCost);
    if input.tenantId != authorizedTenant then Refused(Authorization)
    else if input.request.providerId != card.providerId
         || input.request.cardCapability != input.cardCapability
         || input.request.tenantId != input.tenantId
         || input.request.sessionId != input.sessionId then Refused(Validation)
    else if amount.None? then Refused(Validation)
    else if input.declaredAmount.Some? && input.declaredAmount != amount then Refused(Validation)
    else if input.reconciles.Some? && input.source == Estimated then Refused(Reconciliation)
    else Accepted(CostWrite(input.eventId, input.tenantId, input.sessionId, input.source, input.quantity, amount.value,
                         input.occurredAt, input.traceId, card.ref, card.asOf, card.providerId, card.service,
                         card.unit, card.unitCost, input.request.ref, input.reconciles))
  }

  /** The secondary key: a provider request is recorded at most once per source. */
  datatype RequestKey = RequestKey(source: Source, requestRef: string)

  function KeyOf(w: CostWrite): RequestKey {
    RequestKey(w.source, w.requestRef)
  }

  type Events = map<Id, CostWrite>
  type Requests = map<RequestKey, Id>

  datatype Ledger = Ledger(records: map<Id, Events>, requests: map<Id, Requests>)

  const EMPTY := Ledger(map[], map[])

  function EventsOf(l: Ledger, tenant: Id): Events {
    if tenant in l.records then l.records[tenant] else map[]
  }

  function RequestsOf(l: Ledger, tenant: Id): Requests {
    if tenant in l.requests then l.requests[tenant] else map[]
  }

  /** A stored estimate that a reconciling write may point to. */
  predicate Reconcilable(target: CostWrite, w: CostWrite) {
    && target.source == Estimated
    && target.sessionId == w.sessionId
    && target.providerId == w.providerId
    && target.service == w.service
    && target.unit == w.unit
  }

  predicate TargetAllowed(events: Events, w: CostWrite) {
    w.reconciles.Some? ==> w.reconciles.value in events && Reconcilable(events[w.reconciles.value], w)
  }

  function Insert(l: Ledger, w: CostWrite): Ledger {
    Ledger(l.records[w.tenantId := EventsOf(l, w.tenantId)[w.eventId := w]],
           l.requests[w.tenantId := RequestsOf(l, w.tenantId)[KeyOf(w) := w.eventId]])
  }

  datatype Outcome = Recorded(write: CostWrite) | Failed(error: Error)
  datatype StepResult = StepResult(ledger: Ledger, faults: set<FaultPoint>, outcome: Outcome)

  /** Why the transaction refuses an event, in the order of its checks. */
  function Refusal(events: Events, requests: Requests, w: CostWrite, losslessNumbers: bool): Option<Error> {
    if KeyOf(w) in requests && requests[KeyOf(w)] != w.eventId then Some(Conflict)
    else if !TargetAllowed(events, w) then Some(Reconciliation)
    else if !losslessNumbers then Some(Validation)
    else None
  }

  /** What the transaction does with an event that is not stored yet. */
  function Transact(l: Ledger, faults: set<FaultPoint>, w: CostWrite, losslessNumbers: bool): StepResult {
    var refusal := Refusal(EventsOf(l, w.tenantId), RequestsOf(l, w.tenantId), w, losslessNumbers);
    if refusal.Some? then StepResult(l, faults, Failed(refusal.value))
    else if AfterCostEventInsert in faults then StepResult(l, faults - {AfterCostEventInsert}, Failed(Transaction))
    else if BeforeCommit in faults then StepResult(l, faults - {BeforeCommit}, Failed(Transaction))
    else StepResult(Insert(l, w), faults, Recorded(w))
  }

  lemma FailedTransactionChangesNothing(l: Ledger, faults: set<FaultPoint>, w: CostWrite, losslessNumbers: bool)
    ensures var r := Transact(l, faults, w, losslessNumbers); r.outcome.Failed? ==> r.ledger == l
  {
    hide Refusal, Insert;
  }

  /** What one call of `record` does to the ledger and the armed faults. */
  function Step(l: Ledger, faults: set<FaultPoint>, authorizedTenant: Id, input: WriteInput): StepResult {
    match Normalize(authorizedTenant, input)
    case Refused(error) => StepResult(l, faults, Failed(error))
    case Accepted(w) =>
      var events := EventsOf(l, w.tenantId);
      if w.eventId in events then
        StepResult(l, faults, if events[w.eventId] == w then Recorded(w) else Failed(Conflict))
      else Transact(l, faults, w, input.losslessNumbers)
  }

  // ---------------------------------------------------------------- consistency

  predicate EventsIndexed(tenant: Id, events: Events, requests: Requests) {
    forall e :: e in events ==>
                  events[e].eventId == e && events[e].tenantId == tenant
                  && KeyOf(events[e]) in requests && requests[KeyOf(events[e])] == e
  }

  predicate RequestsStored(events: Events, requests: Requests) {
    forall k :: k in requests ==> requests[k] in events && KeyOf(events[requests[k]]) == k
  }

  predicate TargetsStored(events: Events) {
    forall e :: e in events ==> TargetAllowed(events, events[e]) && (events[e].source == Estimated ==> events[e].reconciles.None?)
  }

  /** Index and events of a tenant are two views of one relation, and every reconciling event
      points to a stored estimate with the same session, provider, service and unit. */
  predicate TenantConsistent(l: Ledger, tenant: Id) {
    var events, requests := EventsOf(l, tenant), RequestsOf(l, tenant);
    EventsIndexed(tenant, events, requests) && RequestsStored(events, requests) && TargetsStored(events)
  }

  ghost predicate Consistent(l: Ledger) {
    forall tenant :: TenantConsistent(l, tenant)
  }

  /** Consistency makes the index a bijection: one key per event, one event per key. */
  lemma IndexIsABijection(l: Ledger, tenant: Id)
    requires TenantConsistent(l, tenant)
    ensures var events, requests := EventsOf(l, tenant), RequestsOf(l, tenant);
            && (forall e :: e in events ==> KeyOf(events[e]) in requests && requests[KeyOf(events[e])] == e)
            && (forall k :: k in requests ==> requests[k] in events && KeyOf(events[requests[k]]) == k)
            && (forall d, e :: d in events && e in events && KeyOf(events[d]) == KeyOf(events[e]) ==> d == e)
  {
  }

  lemma InsertTouchesOneTenant(l: Ledger, w: CostWrite, tenant: Id)
    ensures tenant != w.tenantId ==>
              EventsOf(Insert(l, w), tenant) == EventsOf(l, tenant)
              && RequestsOf(Insert(l, w), tenant) == RequestsOf(l, tenant)
    ensures EventsOf(Insert(l, w), w.tenantId) == EventsOf(l, w.tenantId)[w.eventId := w]
    ensures RequestsOf(Insert(l, w), w.tenantId) == RequestsOf(l, w.tenantId)[KeyOf(w) := w.eventId]
  {
  }

  lemma InsertKeepsIndex(events: Events, requests: Requests, w: CostWrite)
    requires EventsIndexed(w.tenantId, events, requests) && RequestsStored(events, requests)
    requires w.eventId !in events && (KeyOf(w) in requests ==> requests[KeyOf(w)] == w.eventId)
    ensures EventsIndexed(w.tenantId, events[w.eventId := w], requests[KeyOf(w) := w.eventId])
    ensures RequestsStored(events[w.eventId := w], requests[KeyOf(w) := w.eventId])
  {
  }

  lemma InsertKeepsTargets(events: Events, w: CostWrite)
    requires TargetsStored(events) && w.eventId !in events && TargetAllowed(events, w)
    requires w.source == Estimated ==> w.reconciles.None?
    ensures TargetsStored(events[w.eventId := w])
  {
  }

  /** No call, whatever it does, breaks the ledger. */
  lemma StepKeepsConsistent(l: Ledger, faults: set<FaultPoint>, authorizedTenant: Id, input: WriteInput)
    requires Consistent(l)
    ensures Consistent(Step(l, faults, authorizedTenant, input).ledger)
  {
    var r := Step(l, faults, authorizedTenant, input);
    if r.ledger != l {
      var w := r.outcome.write;
      var t := w.tenantId;
      assert TenantConsistent(l, t);
      InsertKeepsIndex(EventsOf(l, t), RequestsOf(l, t), w);
      InsertKeepsTargets(EventsOf(l, t), w);
      forall tenant
        ensures TenantConsistent(r.ledger, tenant)
      {
        InsertTouchesOneTenant(l, w, tenant);
        assert TenantConsistent(l, tenant);
      }
    }
  }

  /** A failed call leaves both maps exactly as before; only an armed fault is spent. */
  lemma FailureChangesNothing(l: Ledger, faults: set<FaultPoint>, authorizedTenant: Id, input: WriteInput)
    requires Step(l, faults, authorizedTenant, input).outcome.Failed?
    ensures var r := Step(l, faults, authorizedTenant, input);
            && r.ledger == l && r.faults <= faults
            && (r.faults != faults <==> r.outcome.error == Transaction)
            && (r.outcome.error == Transaction ==> |r.faults| == |faults| - 1)
  {
  }

  /** Faults only delay: with at most two armed, the third attempt of the same call does what a
      fault-free ledger would have done at once. */
  lemma ThirdAttemptIsFaultFree(l: Ledger, faults: set<FaultPoint>, authorizedTenant: Id, input: WriteInput)
    ensures var first := Step(l, faults, authorizedTenant, input);
            var second := Step(first.ledger, first.faults, authorizedTenant, input);
            var third := Step(second.ledger, second.faults, authorizedTenant, input);
            var clean := Step(l, {}, authorizedTenant, input);
            third.ledger == clean.ledger && third.outcome == clean.outcome
  {
    var clean := Step(l, {}, authorizedTenant, input);
    var first := Step(l, faults, authorizedTenant, input);
    AttemptIsCleanOrSpendsAFault(l, faults, authorizedTenant, input);
    if first.outcome == Failed(Transaction) {
      var second := Step(l, first.faults, authorizedTenant, input);
      AttemptIsCleanOrSpendsAFault(l, first.faults, authorizedTenant, input);
      if second.outcome == Failed(Transaction) {
        AttemptIsCleanOrSpendsAFault(l, second.faults, authorizedTenant, input);
      } else {
        RepeatingAFinishedCall(l, second.faults, authorizedTenant, input);
      }
    } else {
      RepeatingAFinishedCall(l, first.faults, authorizedTenant, input);
    }
  }

  lemma AttemptIsCleanOrSpendsAFault(l: Ledger, faults: set<FaultPoint>, authorizedTenant: Id, input: WriteInput)
    ensures var r, clean := Step(l, faults, authorizedTenant, input), Step(l, {}, authorizedTenant, input);
            if r.outcome == Failed(Transaction) then
              && r.ledger == l
              && r.faults == faults - {if AfterCostEventInsert in faults then AfterCostEventInsert else BeforeCommit}
              && faults != {}
            else
              r == clean.(faults := faults)
    ensures faults == {} ==> Step(l, faults, authorizedTenant, input).outcome != Failed(Transaction)
  {
  }

  /** Recording an equal event again is a no-op with the same answer, whatever faults are armed. */
  lemma RepeatingAFinishedCall(l: Ledger, faults: set<FaultPoint>, authorizedTenant: Id, input: WriteInput)
    ensures var clean := Step(l, {}, authorizedTenant, input);
            clean.outcome.Recorded? ==>
              Step(clean.ledger, faults, authorizedTenant, input) == StepResult(clean.ledger, faults, clean.outcome)
    ensures var clean := Step(l, {}, authorizedTenant, input);
            clean.outcome.Failed? ==> clean.ledger == l
  {
    var clean := Step(l, {}, authorizedTenant, input);
    if clean.outcome.Recorded? && clean.ledger != l {
      InsertTouchesOneTenant(l, clean.outcome.write, clean.outcome.write.tenantId);
    }
  }

  // ---------------------------------------------------------------- whole runs

  datatype Call = Call(authorizedTenant: Id, input: WriteInput)
  datatype RunState = RunState(ledger: Ledger, faults: set<FaultPoint>)

  /** The ledger after the first `n` calls. */
  function After(faults: set<FaultPoint>, calls: seq<Call>, n: nat): RunState
    requires n <= |calls|
  {
    if n == 0 then RunState(EMPTY, faults)
    else
      var before := After(faults, calls, n - 1);
      var r := Step(before.ledger, before.faults, calls[n - 1].authorizedTenant, calls[n - 1].input);
      RunState(r.ledger, r.faults)
  }

  function OutcomeOf(faults: set<FaultPoint>, calls: seq<Call>, i: nat): Outcome
    requires i < |calls|
  {
    var before := After(faults, calls, i);
    Step(before.ledger, before.faults, calls[i].authorizedTenant, calls[i].input).outcome
  }

  /** Every ledger any run can reach is consistent. */
  lemma {:induction false} ReachableIsConsistent(faults: set<FaultPoint>, calls: seq<Call>, n: nat)
    requires n <= |calls|
    ensures Consistent(After(faults, calls, n).ledger)
  {
    hide Step;
    if n > 0 {
      ReachableIsConsistent(faults, calls, n - 1);
      var before := After(faults, calls, n - 1);
      StepKeepsConsistent(before.ledger, before.faults, calls[n - 1].authorizedTenant, calls[n - 1].input);
    }
  }

  lemma StepOnlyAppends(l: Ledger, faults: set<FaultPoint>, authorizedTenant: Id, input: WriteInput, tenant: Id, e: Id)
    requires e in EventsOf(l, tenant)
    ensures var l' := Step(l, faults, authorizedTenant, input).ledger;
            e in EventsOf(l', tenant) && EventsOf(l', tenant)[e] == EventsOf(l, tenant)[e]
  {
  }

  /** A stored event never changes and never disappears. */
  lemma {:induction false} RecordsAreImmutable(faults: set<FaultPoint>, calls: seq<Call>, i: nat, j: nat, tenant: Id, e: Id)
    requires i <= j <= |calls|
    requires e in EventsOf(After(faults, calls, i).ledger, tenant)
    ensures e in EventsOf(After(faults, calls, j).ledger, tenant)
    ensures EventsOf(After(faults, calls, j).ledger, tenant)[e] == EventsOf(After(faults, calls, i).ledger, tenant)[e]
    decreases j
  {
    hide Step;
    if i < j {
      RecordsAreImmutable(faults, calls, i, j - 1, tenant, e);
      var before := After(faults, calls, j - 1);
      StepOnlyAppends(before.ledger, before.faults, calls[j - 1].authorizedTenant, calls[j - 1].input, tenant, e);
    }
  }

  /** A call authorized for one tenant never changes another tenant's events or index. */
  lemma OtherTenantsAreUntouched(l: Ledger, faults: set<FaultPoint>, authorizedTenant: Id, input: WriteInput, tenant: Id)
    requires tenant != authorizedTenant
    ensures var l' := Step(l, faults, authorizedTenant, input).ledger;
            EventsOf(l', tenant) == EventsOf(l, tenant) && RequestsOf(l', tenant) == RequestsOf(l, tenant)
  {
  }

  /** A successful answer is the stored event, then and at every later point of the run. */
  lemma RecordedEventIsStored(faults: set<FaultPoint>, calls: seq<Call>, i: nat, j: nat)
    requires i < j <= |calls| && OutcomeOf(faults, calls, i).Recorded?
    ensures var w := OutcomeOf(faults, calls, i).write;
            && Normalize(calls[i].authorizedTenant, calls[i].input) == Accepted(w)
            && w.eventId in EventsOf(After(faults, calls, j).ledger, w.tenantId)
            && EventsOf(After(faults, calls, j).ledger, w.tenantId)[w.eventId] == w
  {
    var w := OutcomeOf(faults, calls, i).write;
    RecordedIsStoredNow(After(faults, calls, i), calls[i]);
    hide Step;
    RecordsAreImmutable(faults, calls, i + 1, j, w.tenantId, w.eventId);
  }

  lemma RecordedIsStoredNow(before: RunState, call: Call)
    requires Step(before.ledger, before.faults, call.authorizedTenant, call.input).outcome.Recorded?
    ensures var r := Step(before.ledger, before.faults, call.authorizedTenant, call.input);
            var w := r.outcome.write;
            && Normalize(call.authorizedTenant, call.input) == Accepted(w)
            && w.eventId in EventsOf(r.ledger, w.tenantId) && EventsOf(r.ledger, w.tenantId)[w.eventId] == w
  {
  }

  /** Idempotence over the whole run: once a call has succeeded, making it again at any later point
      changes nothing, spends no fault, and gives the same answer. */
  lemma ReplayChangesNothing(faults: set<FaultPoint>, calls: seq<Call>, i: nat, j: nat)
    requires i < j < |calls| && calls[j] == calls[i] && OutcomeOf(faults, calls, i).Recorded?
    ensures After(faults, calls, j + 1) == After(faults, calls, j)
    ensures OutcomeOf(faults, calls, j) == OutcomeOf(faults, calls, i)
  {
    RecordedEventIsStored(faults, calls, i, j);
  }

  predicate PricedRight(w: CostWrite) {
    UsdAmount(w.quantity, w.unitCost) == Some(w.amount)
  }

  lemma StepKeepsPrices(l: Ledger, faults: set<FaultPoint>, authorizedTenant: Id, input: WriteInput, tenant: Id, e: Id)
    requires e in EventsOf(l, tenant) ==> PricedRight(EventsOf(l, tenant)[e])
    ensures var l' := Step(l, faults, authorizedTenant, input).ledger;
            e in EventsOf(l', tenant) ==> PricedRight(EventsOf(l', tenant)[e])
  {
    hide UsdAmount;
  }

  /** Every stored amount is the nearest 10^-8 USD to its quantity times its unit cost, ties up,
      and fits the money column. */
  lemma {:induction false} StoredAmountsAreNearest(faults: set<FaultPoint>, calls: seq<Call>, n: nat, tenant: Id, e: Id)
    requires n <= |calls| && e in EventsOf(After(faults, calls, n).ledger, tenant)
    ensures var w := EventsOf(After(faults, calls, n).ledger, tenant)[e];
            && PricedRight(w)
            && 0 <= 2 * (w.quantity * w.unitCost - w.amount * Pow10(UNIT_COST_SCALE)) + Pow10(UNIT_COST_SCALE)
                 < 2 * Pow10(UNIT_COST_SCALE)
            && w.amount < Pow10(MAX_USD_INTEGER_DIGITS + USD_SCALE)
  {
    hide Step, Pow10, RoundedAmount;
    var before := After(faults, calls, n - 1);
    if e in EventsOf(before.ledger, tenant) {
      StoredAmountsAreNearest(faults, calls, n - 1, tenant, e);
    }
    StepKeepsPrices(before.ledger, before.faults, calls[n - 1].authorizedTenant, calls[n - 1].input, tenant, e);
    var w := EventsOf(After(faults, calls, n).ledger, tenant)[e];
    AmountIsNearest(w.quantity, w.unitCost, w.amount);
  }

  /** Two successful calls of a run that name the same tenant and source and provider request are the
      same event. */
  lemma ProviderRequestRecordedOnce(faults: set<FaultPoint>, calls: seq<Call>, i: nat, j: nat)
    requires i < |calls| && j < |calls| && OutcomeOf(faults, calls, i).Recorded? && OutcomeOf(faults, calls, j).Recorded?
    requires var v, w := OutcomeOf(faults, calls, i).write, OutcomeOf(faults, calls, j).write;
             v.tenantId == w.tenantId && KeyOf(v) == KeyOf(w)
    ensures OutcomeOf(faults, calls, i).write == OutcomeOf(faults, calls, j).write
  {
    hide Step;
    var n := |calls|;
    RecordedEventIsStored(faults, calls, i, n);
    RecordedEventIsStored(faults, calls, j, n);
    ReachableIsConsistent(faults, calls, n);
    var t := OutcomeOf(faults, calls, i).write.tenantId;
    assert TenantConsistent(After(faults, calls, n).ledger, t);
    IndexIsABijection(After(faults, calls, n).ledger, t);
  }

  // ---------------------------------------------------------------- the mutable ledger

  /** One tenant's mutable map, which a snapshot has to copy. */
  class Table<K(==), V> {
    var entries: map<K, V>

    constructor (start: map<K, V>)
      ensures entries == start
    {
      entries := start;
    }
  }

  type Tables<K(==), V> = map<Id, Table<K, V>>

  ghost function Objects<K, V>(m: Tables<K, V>): set<object> {
    set t | t in m :: m[t] as object
  }

  /** No two tenants share a table. */
  ghost predicate Apart<K, V>(m: Tables<K, V>) {
    forall s, t :: s in m && t in m && s != t ==> m[s] != m[t]
  }

  /** What the tables hold. */
  ghost function Held<K, V>(m: Tables<K, V>): map<Id, map<K, V>>
    reads Objects(m)
  {
    map t | t in m :: m[t].entries
  }

  ghost function HeldFor<K, V>(held: map<Id, map<K, V>>, tenant: Id): map<K, V> {
    if tenant in held then held[tenant] else map[]
  }

  /** Puts an entry into one tenant's table, in place. */
  method Put<K(==), V>(m: Tables<K, V>, tenant: Id, key: K, value: V) returns (r: Tables<K, V>)
    requires Apart(m)
    modifies Objects(m)
    ensures Apart(r) && Objects(m) <= Objects(r) && fresh(Objects(r) - Objects(m))
    ensures Held(r) == old(Held(m))[tenant := HeldFor(old(Held(m)), tenant)[key := value]]
  {
    if tenant in m {
      assert m[tenant] in Objects(m);
      m[tenant].entries := m[tenant].entries[key := value];
      r := m;
    } else {
      var table := new Table(map[key := value]);
      assert forall t :: t in m ==> m[t] in Objects(m);
      r := m[tenant := table];
      assert forall t :: t in m ==> r[t] == m[t];
    }
  }

  /** Copies every tenant's table. */
  method Copy<K(==), V>(m: Tables<K, V>) returns (r: Tables<K, V>)
    ensures Apart(r) && fresh(Objects(r)) && Held(r) == Held(m)
  {
    r := map[];
    var left := m.Keys;
    while left != {}
      invariant left <= m.Keys && r.Keys == m.Keys - left
      invariant Apart(r) && fresh(Objects(r))
      invariant forall t :: t in r ==> r[t] in Objects(r) && r[t].entries == m[t].entries
    {
      var t :| t in left;
      left := left - {t};
      var table := new Table(m[t].entries);
      r := r[t := table];
    }
  }

  /** Both kinds of tables, kept for a rollback. */
  datatype Snapshot = Snapshot(records: Tables<Id, CostWrite>, requests: Tables<RequestKey, Id>) {
    ghost function Footprint(): set<object> {
      Objects(records) + Objects(requests)
    }

    ghost predicate Separate() {
      Apart(records) && Apart(requests) && Objects(records) !! Objects(requests)
    }

    ghost function Contents(): Ledger
      reads Footprint()
    {
      Ledger(Held(records), Held(requests))
    }
  }

  /** The ledger object. Work inserts before it can fail; the transaction restores the snapshot. */
  class LedgerStore {
    var records: Tables<Id, CostWrite>
    var requests: Tables<RequestKey, Id>
    var faults: set<FaultPoint>
    var transactionActive: bool

    ghost function Footprint(): set<object>
      reads this
    {
      Objects(records) + Objects(requests)
    }

    /** No table is shared, and the ledger is none of them. */
    ghost predicate Separate()
      reads this
    {
      Apart(records) && Apart(requests) && Objects(records) !! Objects(requests) && this !in Footprint()
    }

    ghost function Contents(): Ledger
      reads this, Footprint()
    {
      Ledger(Held(records), Held(requests))
    }

    ghost predicate Valid()
      reads this, Footprint()
    {
      !transactionActive && Separate() && Consistent(Contents())
    }

    constructor (faultPoints: set<FaultPoint>)
      ensures Valid() && Contents() == EMPTY && faults == faultPoints && Footprint() == {}
    {
      records, requests := map[], map[];
      faults := faultPoints;
      transactionActive := false;
      new;
      assert Contents() == EMPTY;
    }

    /** Fires and disarms a fault. */
    method ThrowAt(point: FaultPoint) returns (thrown: bool)
      modifies this`faults
      ensures thrown == (point in old(faults)) && faults == old(faults) - {point}
    {
      thrown := point in faults;
      faults := faults - {point};
    }

    /** Stores an event and its request key in the tenant's own tables. */
    method Store(w: CostWrite)
      requires Separate()
      modifies this`records, this`requests, Footprint()
      ensures Separate() && fresh(Footprint() - old(Footprint()))
      ensures Contents() == Insert(old(Contents()), w)
    {
      hide Apart, Held;
      records := Put(records, w.tenantId, w.eventId, w);
      assert Held(requests) == old(Held(requests)) && Objects(records) !! Objects(requests);
      requests := Put(requests, w.tenantId, KeyOf(w), w.eventId);
    }

    /** The checks of the transaction, in the source's order. */
    method Check(w: CostWrite, losslessNumbers: bool) returns (refusal: Option<Error>)
      ensures refusal == Refusal(EventsOf(Contents(), w.tenantId), RequestsOf(Contents(), w.tenantId), w, losslessNumbers)
    {
      hide TargetAllowed;
      var keys := if w.tenantId in requests then requests[w.tenantId].entries else map[];
      var events := if w.tenantId in records then records[w.tenantId].entries else map[];
      if KeyOf(w) in keys && keys[KeyOf(w)] != w.eventId {
        return Some(Conflict);
      }
      if !TargetAllowed(events, w) {
        return Some(Reconciliation);
      }
      if !losslessNumbers {
        return Some(Validation);
      }
      return None;
    }

    /** The transaction's work. On failure it may leave the tables changed. */
    method Work(w: CostWrite, losslessNumbers: bool) returns (outcome: Outcome)
      requires Separate()
      modifies this`records, this`requests, this`faults, Footprint()
      ensures Separate() && fresh(Footprint() - old(Footprint()))
      ensures var r := Transact(old(Contents()), old(faults), w, losslessNumbers);
              && outcome == r.outcome && faults == r.faults
              && (outcome.Recorded? ==> Contents() == r.ledger)
    {
      hide Refusal, Insert, Apart, EventsOf, RequestsOf;
      var refusal := Check(w, losslessNumbers);
      assert Contents() == old(Contents()) && Footprint() == old(Footprint());
      hide Held, Objects;
      if refusal.Some? {
        return Failed(refusal.value);
      }
      Store(w);
      var thrown := ThrowAt(AfterCostEventInsert);
      if thrown {
        return Failed(Transaction);
      }
      thrown := ThrowAt(BeforeCommit);
      if thrown {
        return Failed(Transaction);
      }
      return Recorded(w);
    }

    /** Copies of every table, sharing none with the ledger. */
    method CaptureSnapshot() returns (snapshot: Snapshot)
      ensures snapshot.Separate() && fresh(snapshot.Footprint()) && snapshot.Contents() == Contents()
    {
      hide Apart;
      var recordsCopy := Copy(records);
      assert Held(recordsCopy) == Held(records);
      label copied:
      var requestsCopy := Copy(requests);
      assert Held(recordsCopy) == old@copied(Held(recordsCopy));
      assert Held(records) == old@copied(Held(records));
      snapshot := Snapshot(recordsCopy, requestsCopy);
    }

    /** Puts copies of the snapshot's tables in place of the ledger's. */
    method RestoreSnapshot(snapshot: Snapshot)
      requires snapshot.Separate()
      modifies this`records, this`requests
      ensures Separate() && fresh(Footprint()) && Contents() == old(snapshot.Contents())
    {
      hide Apart, Held;
      records := Copy(snapshot.records);
      requests := Copy(snapshot.requests);
    }

    /** Runs the work between capturing and, on failure, restoring copies of every table. */
    method ExecuteSync(w: CostWrite, losslessNumbers: bool) returns (outcome: Outcome)
      requires Separate()
      modifies this, Footprint()
      ensures Separate() && fresh(Footprint() - old(Footprint()))
      ensures old(transactionActive) ==>
                outcome == Failed(NestedTransaction) && transactionActive
                && Contents() == old(Contents()) && faults == old(faults)
      ensures !old(transactionActive) ==>
                && !transactionActive
                && StepResult(Contents(), faults, outcome) == Transact(old(Contents()), old(faults), w, losslessNumbers)
    {
      hide Transact, Apart, Held;
      if transactionActive {
        return Failed(NestedTransaction);
      }
      FailedTransactionChangesNothing(Contents(), faults, w, losslessNumbers);
      transactionActive := true;
      assert Contents() == old(Contents());
      var snapshot := CaptureSnapshot();
      label captured:
      outcome := Work(w, losslessNumbers);
      assert snapshot.Contents() == old@captured(snapshot.Contents());
      if outcome.Failed? {
        RestoreSnapshot(snapshot);
      }
      transactionActive := false;
    }

    /** Records one cost event, or reports why not. */
    method Record(authorizedTenant: Id, input: WriteInput) returns (outcome: Outcome)
      requires Valid()
      modifies this, Footprint()
      ensures Valid() && fresh(Footprint() - old(Footprint()))
      ensures StepResult(Contents(), faults, outcome) == Step(old(Contents()), old(faults), authorizedTenant, input)
    {
      hide Transact, Normalize, Consistent, Apart;
      StepKeepsConsistent(Contents(), faults, authorizedTenant, input);
      var normalized := Normalize(authorizedTenant, input);
      if normalized.Refused? {
        return Failed(normalized.error);
      }
      var w := normalized.write;
      if w.tenantId in records && w.eventId in records[w.tenantId].entries {
        var existing := records[w.tenantId].entries[w.eventId];
        return if existing == w then Recorded(existing) else Failed(Conflict);
      }
      outcome := ExecuteSync(w, input.losslessNumbers);
    }
  }
}
