/** The receipt evidence projection: which commercial milestones a set of stored records confirms. */
module ReceiptEvidence {

  import CanonicalJson
  import opened JsonText
  import opened TextOrder
  import opened Wrappers

  datatype Milestone = LeadRegistered | MeetingConfirmed | CheckoutLinkCreated | PaymentConfirmed

  datatype Violation =
    | TenantMismatch | SessionMismatch | ConflictingDuplicate | MissingIntent | ToolScopeMismatch | InvalidEffect
    | InvalidResult | MissingDisclosure | MissingEssentialConsent

  datatype Status = Started | Succeeded | Failed | Pending | Unknown | Cancelled
  datatype DisclosureType = AiIdentity | OtherDisclosure
  datatype ConsentStatus = Granted | Denied | Revoked | Expired

  const ESSENTIAL := "essential_processing"

  /** Records by the fields the projection reads; `rest` stands for all the others. */
  datatype Intent = Intent(id: string, tenantId: string, sessionId: string, toolContractId: string, action: string,
                           purpose: string, requestedAt: int, expiresAt: int, rest: string)

  datatype Receipt = Receipt(id: string, intentId: string, tenantId: string, status: Status, resultJson: Option<string>,
                             effectHash: Option<string>, hasError: bool, startedAt: int, completedAt: Option<int>, rest: string)

  datatype Disclosure = Disclosure(id: string, tenantId: string, sessionId: string, kind: DisclosureType, version: string,
                                   deliveredAt: int, acknowledgedAt: Option<int>, rest: string)

  datatype Consent = Consent(id: string, tenantId: string, sessionId: string, subjectRef: string, consentType: string,
                             purpose: string, status: ConsentStatus, disclosureVersion: string, capturedAt: int,
                             expiresAt: Option<int>, revokedAt: Option<int>, rest: string)

  /** Whose records, of which session and subject, as of when. */
  datatype Scope = Scope(tenantId: string, sessionId: string, asOf: int, subjectRef: string)

  datatype Input = Input(scope: Scope, intents: seq<Intent>, receipts: seq<Receipt>, disclosures: seq<Disclosure>,
                         consents: seq<Consent>)

  /** What the projection takes from outside: field checks, canonical sizes, bounded JSON reading, the hash of
      a canonical text, and the readers of times, identifiers and addresses inside results. */
  datatype Platform = Platform(
    intentOk: Intent -> bool, receiptOk: Receipt -> bool, disclosureOk: Disclosure -> bool, consentOk: Consent -> bool,
    intentSize: Intent -> nat, receiptSize: Receipt -> nat, disclosureSize: Disclosure -> nat, consentSize: Consent -> nat,
    readJson: string -> Option<Value>, hash: string -> string,
    time: string -> Option<int>, uuid: string -> bool, safeUrl: string -> bool)

  // ---------------------------------------------------------------- one record per identifier

  /** The first record of each identifier among the first `n`. */
  function Firsts<T(==)>(items: seq<T>, id: T -> string, n: nat): seq<T>
    requires n <= |items|
  {
    if n == 0 then []
    else
      var before := Firsts(items, id, n - 1);
      if Listed(before, id, id(items[n - 1])) then before else before + [items[n - 1]]
  }

  predicate Listed<T>(items: seq<T>, id: T -> string, key: string) {
    exists i :: 0 <= i < |items| && id(items[i]) == key
  }

  /** Some record differs from another with its identifier. */
  predicate Conflicting<T(==)>(items: seq<T>, id: T -> string) {
    exists i, j :: 0 <= i < |items| && 0 <= j < |items| && id(items[i]) == id(items[j]) && items[i] != items[j]
  }

  lemma {:induction false} FirstsFacts<T>(items: seq<T>, id: T -> string, n: nat)
    requires n <= |items|
    ensures var f := Firsts(items, id, n);
            && (forall i, j :: 0 <= i < j < |f| ==> id(f[i]) != id(f[j]))
            && (forall x :: x in f ==> x in items[..n])
            && (forall k :: 0 <= k < n ==> Listed(f, id, id(items[k])))
  {
    hide Listed;
    if n > 0 {
      FirstsFacts(items, id, n - 1);
      var before, x := Firsts(items, id, n - 1), items[n - 1];
      assert items[..n] == items[..n - 1] + [x];
      if !Listed(before, id, id(x)) {
        ListedSnoc(before, id, x);
        UnlistedIsNew(before, id, x);
      }
    }
  }

  lemma {:induction false} ListedSnoc<T>(items: seq<T>, id: T -> string, x: T)
    ensures forall key :: Listed(items + [x], id, key) <==> Listed(items, id, key) || key == id(x)
  {
    forall key
      ensures Listed(items + [x], id, key) <==> Listed(items, id, key) || key == id(x)
    {
      if Listed(items, id, key) {
        var i :| 0 <= i < |items| && id(items[i]) == key;
        assert (items + [x])[i] == items[i];
      }
      assert (items + [x])[|items|] == x;
    }
  }

  lemma {:induction false} UnlistedIsNew<T>(items: seq<T>, id: T -> string, x: T)
    requires !Listed(items, id, id(x))
    ensures forall i :: 0 <= i < |items| ==> id(items[i]) != id(x)
  {
  }

  /** A copy of a record that is there adds nothing. */
  lemma {:induction false} CopyAddsNothing<T>(items: seq<T>, id: T -> string, k: nat)
    requires k < |items|
    ensures var more := items + [items[k]];
            Firsts(more, id, |more|) == Firsts(items, id, |items|) && (Conflicting(more, id) <==> Conflicting(items, id))
  {
    var more := items + [items[k]];
    FirstsFacts(items, id, |items|);
    FirstsOfPrefix(items, id, items[k], |items|);
    CopyConflicts(items, id, k);
    hide Conflicting, Listed;
    assert more[|items|] == items[k];
  }

  lemma {:induction false} FirstsOfPrefix<T>(items: seq<T>, id: T -> string, x: T, n: nat)
    requires n <= |items|
    ensures Firsts(items + [x], id, n) == Firsts(items, id, n)
  {
    hide Listed;
    if n > 0 {
      FirstsOfPrefix(items, id, x, n - 1);
    }
  }

  lemma {:induction false} CopyConflicts<T>(items: seq<T>, id: T -> string, k: nat)
    requires k < |items|
    ensures Conflicting(items + [items[k]], id) <==> Conflicting(items, id)
  {
    var more := items + [items[k]];
    if Conflicting(items, id) {
      var i, j :| 0 <= i < |items| && 0 <= j < |items| && id(items[i]) == id(items[j]) && items[i] != items[j];
      assert more[i] == items[i] && more[j] == items[j];
    }
    if Conflicting(more, id) {
      var i, j :| 0 <= i < |more| && 0 <= j < |more| && id(more[i]) == id(more[j]) && more[i] != more[j];
      var a, b := if i == |items| then k else i, if j == |items| then k else j;
      assert items[a] == more[i] && items[b] == more[j];
    }
  }

  /** Keeps the first record of each identifier and notes whether a later one differs from it. */
  method Unique<T(==)>(items: seq<T>, id: T -> string) returns (kept: seq<T>, conflict: bool)
    ensures kept == Firsts(items, id, |items|) && (conflict <==> Conflicting(items, id))
  {
    kept, conflict := [], false;
    var byId: map<string, T> := map[];
    var i := 0;
    NothingListed(id);
    assert Keeping(items, id, 0, kept, byId, conflict);
    hide Keeping, Listed, Firsts, Conflicting, Differs;
    while i < |items|
      invariant i <= |items| && Keeping(items, id, i, kept, byId, conflict)
    {
      var x := items[i];
      var key := id(x);
      if key in byId {
        KeepKnown(items, id, i, kept, byId, conflict);
        if byId[key] != x {
          conflict := true;
        }
      } else {
        KeepNew(items, id, i, kept, byId, conflict);
        byId := byId[key := x];
        kept := kept + [x];
      }
      i := i + 1;
    }
    KeptAll(items, id, kept, byId, conflict);
  }

  /** After `n` records: what is kept, the index of the kept records, and whether a record differed from the
      kept one. */
  ghost predicate Keeping<T>(items: seq<T>, id: T -> string, n: nat, kept: seq<T>, byId: map<string, T>, conflict: bool) {
    && n <= |items| && kept == Firsts(items, id, n)
    && (forall key :: key in byId <==> Listed(kept, id, key))
    && (forall k :: 0 <= k < n ==> id(items[k]) in byId)
    && (forall key :: key in byId ==> id(byId[key]) == key && byId[key] in items[..n])
    && (conflict <==> exists k :: 0 <= k < n && Differs(items[k], byId, id))
  }

  lemma {:induction false} KeepKnown<T>(items: seq<T>, id: T -> string, n: nat, kept: seq<T>, byId: map<string, T>, conflict: bool)
    requires n < |items| && Keeping(items, id, n, kept, byId, conflict) && id(items[n]) in byId
    ensures Keeping(items, id, n + 1, kept, byId, conflict || byId[id(items[n])] != items[n])
  {
    hide Listed;
    assert items[..n + 1] == items[..n] + [items[n]];
  }

  lemma {:induction false} KeepNew<T>(items: seq<T>, id: T -> string, n: nat, kept: seq<T>, byId: map<string, T>, conflict: bool)
    requires n < |items| && Keeping(items, id, n, kept, byId, conflict) && id(items[n]) !in byId
    ensures Keeping(items, id, n + 1, kept + [items[n]], byId[id(items[n]) := items[n]], conflict)
  {
    var x := items[n];
    var more := byId[id(x) := x];
    ListedSnoc(kept, id, x);
    assert items[..n + 1] == items[..n] + [x];
    hide Listed;
    assert forall k :: 0 <= k < n ==> (Differs(items[k], more, id) <==> Differs(items[k], byId, id));
    assert !Differs(x, more, id);
  }

  lemma {:induction false} KeptAll<T>(items: seq<T>, id: T -> string, kept: seq<T>, byId: map<string, T>, conflict: bool)
    requires Keeping(items, id, |items|, kept, byId, conflict)
    ensures kept == Firsts(items, id, |items|) && (conflict <==> Conflicting(items, id))
  {
    assert items[..|items|] == items;
    ConflictIsDifference(items, id, byId);
    hide Listed, Conflicting, Differs;
  }

  predicate Differs<T(==)>(x: T, byId: map<string, T>, id: T -> string) {
    id(x) in byId && byId[id(x)] != x
  }

  lemma {:induction false} NothingListed<T>(id: T -> string)
    ensures forall key :: !Listed<T>([], id, key)
  {
  }

  lemma {:induction false} ConflictIsDifference<T>(items: seq<T>, id: T -> string, byId: map<string, T>)
    requires forall k :: 0 <= k < |items| ==> id(items[k]) in byId
    requires forall key :: key in byId ==> id(byId[key]) == key && byId[key] in items
    ensures (exists k :: 0 <= k < |items| && Differs(items[k], byId, id)) <==> Conflicting(items, id)
  {
    if k :| 0 <= k < |items| && Differs(items[k], byId, id) {
      var j :| 0 <= j < |items| && items[j] == byId[id(items[k])];
    }
    if Conflicting(items, id) {
      var i, j :| 0 <= i < |items| && 0 <= j < |items| && id(items[i]) == id(items[j]) && items[i] != items[j];
      assert Differs(items[i], byId, id) || Differs(items[j], byId, id);
    }
  }

  // ---------------------------------------------------------------- results of recognized actions

  datatype Recognition = Found(milestone: Milestone) | Nothing | Unrecognized

  const REGISTER := "register_lead"
  const CONFIRM := "confirm_meeting_slot"
  const CHECKOUT := "request_checkout"

  predicate KnownAction(action: string) {
    action == REGISTER || action == CONFIRM || action == CHECKOUT
  }

  function KeySet(f: Fields): set<string> {
    if f.NoFields? then {} else {f.key} + KeySet(f.rest)
  }

  predicate Says(f: Fields, key: string, text: string) {
    Has(f, key) && Get(f, key) == Text(text)
  }

  predicate IsUuid(p: Platform, f: Fields, key: string) {
    Has(f, key) && Get(f, key).Text? && p.uuid(Get(f, key).text)
  }

  predicate IsText(f: Fields, key: string, most: nat) {
    Has(f, key) && Get(f, key).Text? && 1 <= Units(Get(f, key).text) <= most
  }

  function TimeAt(p: Platform, f: Fields, key: string): Option<int> {
    if Has(f, key) && Get(f, key).Text? then p.time(Get(f, key).text) else None
  }

  predicate InTimeOrder(p: Platform, f: Fields) {
    var start, end := TimeAt(p, f, "startAt"), TimeAt(p, f, "endAt");
    start.Some? && end.Some? && start.value < end.value
  }

  predicate NullOrText(f: Fields, key: string, most: nat) {
    Has(f, key) && (Get(f, key).Null? || IsText(f, key, most))
  }

  function RecognizeLead(p: Platform, f: Fields): Recognition {
    if KeySet(f) == {"outcome", "code", "leadId"} && Says(f, "outcome", "registered") && Says(f, "code", "registered")
       && IsUuid(p, f, "leadId") then Found(LeadRegistered)
    else Unrecognized
  }

  const REPLAY_STATES := {"reserved", "provider_in_flight", "committed", "completed", "unknown", "released"}

  /** A reservation or a replay proves nothing; a commitment does. */
  function RecognizeMeeting(p: Platform, f: Fields): Recognition {
    if Says(f, "outcome", "already_committed") then
      if KeySet(f) == {"outcome"} then Found(MeetingConfirmed) else Unrecognized
    else if Says(f, "outcome", "reserved") then
      if KeySet(f) == {"outcome", "code", "reservationId", "googleEventId", "googleCalendarId", "startAt", "endAt", "timezone"}
         && Says(f, "code", "reserved") && IsUuid(p, f, "reservationId") && IsText(f, "googleEventId", 1024)
         && NullOrText(f, "googleCalendarId", 1024) && IsText(f, "timezone", 120) && InTimeOrder(p, f) then Nothing
      else Unrecognized
    else if Says(f, "outcome", "replayed") then
      if KeySet(f) == {"outcome", "code", "reservationId", "state", "googleEventId"}
         && Says(f, "code", "replayed") && IsUuid(p, f, "reservationId") && IsText(f, "state", 200)
         && Get(f, "state").text in REPLAY_STATES && NullOrText(f, "googleEventId", 1024) then Nothing
      else Unrecognized
    else if KeySet(f) == {"outcome", "reservationId", "googleEventId", "startAt", "endAt", "timezone"}
            && Says(f, "outcome", "committed") && IsUuid(p, f, "reservationId") && IsText(f, "googleEventId", 1024)
            && IsText(f, "timezone", 120) && InTimeOrder(p, f) then Found(MeetingConfirmed)
    else Unrecognized
  }

  function RecognizeCheckout(p: Platform, f: Fields): Recognition {
    if Says(f, "outcome", "pending_approval") then
      if KeySet(f) == {"outcome", "code", "reservationId", "receiptId", "approvalExpiresAt"}
         && Says(f, "code", "pending_approval") && IsUuid(p, f, "reservationId") && IsUuid(p, f, "receiptId")
         && TimeAt(p, f, "approvalExpiresAt").Some? then Nothing
      else Unrecognized
    else if KeySet(f) == {"status", "checkoutUrl", "checkoutIntentId"} && Says(f, "status", "ready")
            && IsUuid(p, f, "checkoutIntentId") && IsText(f, "checkoutUrl", 2000) && p.safeUrl(Get(f, "checkoutUrl").text) then
      Found(CheckoutLinkCreated)
    else Unrecognized
  }

  function RecognizeResult(p: Platform, action: string, v: Value): Recognition {
    if !v.Record? then Unrecognized
    else if action == REGISTER then RecognizeLead(p, v.fields)
    else if action == CONFIRM then RecognizeMeeting(p, v.fields)
    else RecognizeCheckout(p, v.fields)
  }

  // ---------------------------------------------------------------- intents and receipts

  function Misplaced(scope: Scope, tenantId: string, sessionId: string): set<Violation> {
    (if tenantId != scope.tenantId then {TenantMismatch} else {}) + (if sessionId != scope.sessionId then {SessionMismatch} else {})
  }

  predicate InScope(scope: Scope, i: Intent) {
    i.tenantId == scope.tenantId && i.sessionId == scope.sessionId
  }

  function Scoped(scope: Scope, intents: seq<Intent>, n: nat): seq<Intent>
    requires n <= |intents|
  {
    if n == 0 then []
    else Scoped(scope, intents, n - 1) + if InScope(scope, intents[n - 1]) then [intents[n - 1]] else []
  }

  function MisplacedIntents(scope: Scope, intents: seq<Intent>, n: nat): set<Violation>
    requires n <= |intents|
  {
    if n == 0 then {}
    else MisplacedIntents(scope, intents, n - 1) + Misplaced(scope, intents[n - 1].tenantId, intents[n - 1].sessionId)
  }

  /** The latest time a disclosure or consent may have and still come before every intent. */
  function Deadline(asOf: int, intents: seq<Intent>): int {
    if intents == [] then asOf
    else
      var before, t := Deadline(asOf, intents[..|intents| - 1]), intents[|intents| - 1].requestedAt;
      if t < before then t else before
  }

  function FindIntent(intents: seq<Intent>, id: string): Option<Intent> {
    if intents == [] then None
    else
      var last := intents[|intents| - 1];
      if last.id == id then Some(last) else FindIntent(intents[..|intents| - 1], id)
  }

  datatype Judgement = Judgement(violations: set<Violation>, milestones: set<Milestone>)

  const NEUTRAL := Judgement({}, {})

  function Against(v: Violation): Judgement {
    Judgement({v}, {})
  }

  function Recognized(r: Recognition): Judgement {
    match r
    case Found(m) => Judgement({}, {m})
    case Nothing => NEUTRAL
    case Unrecognized => Against(InvalidResult)
  }

  function JudgeSuccess(p: Platform, intent: Intent, r: Receipt): Judgement {
    if r.hasError || r.completedAt.None? || r.resultJson.None? || r.effectHash.None? then Against(InvalidEffect)
    else
      var result := p.readJson(r.resultJson.value);
      if result.None? || p.hash(CanonicalJson.CanonicalText(result.value)) != r.effectHash.value then Against(InvalidEffect)
      else if !KnownAction(intent.action) then NEUTRAL
      else if intent.toolContractId != intent.action then Against(ToolScopeMismatch)
      else Recognized(RecognizeResult(p, intent.action, result.value))
  }

  function JudgeReceipt(p: Platform, scope: Scope, intents: seq<Intent>, r: Receipt): Judgement {
    if r.tenantId != scope.tenantId then Against(TenantMismatch)
    else
      var intent := FindIntent(intents, r.intentId);
      if intent.None? then Against(MissingIntent)
      else if r.startedAt < intent.value.requestedAt || r.startedAt >= intent.value.expiresAt then Against(InvalidEffect)
      else if !r.status.Succeeded? then (if r.effectHash.Some? then Against(InvalidEffect) else NEUTRAL)
      else JudgeSuccess(p, intent.value, r)
  }

  function Judged(p: Platform, scope: Scope, intents: seq<Intent>, receipts: seq<Receipt>, n: nat): Judgement
    requires n <= |receipts|
  {
    if n == 0 then NEUTRAL
    else
      var before, last := Judged(p, scope, intents, receipts, n - 1), JudgeReceipt(p, scope, intents, receipts[n - 1]);
      Judgement(before.violations + last.violations, before.milestones + last.milestones)
  }

  datatype Effect = Effect(status: Status, resultJson: Option<string>, effectHash: Option<string>)

  function EffectOf(r: Receipt): Effect {
    Effect(r.status, r.resultJson, r.effectHash)
  }

  /** Two receipts of the tenant claim different effects for one intent. */
  predicate EffectsClash(scope: Scope, receipts: seq<Receipt>) {
    exists i, j :: 0 <= i < |receipts| && 0 <= j < |receipts|
                   && receipts[i].tenantId == scope.tenantId && receipts[j].tenantId == scope.tenantId
                   && receipts[i].intentId == receipts[j].intentId && EffectOf(receipts[i]) != EffectOf(receipts[j])
  }

  // ---------------------------------------------------------------- disclosures and consents

  function MisplacedDisclosures(scope: Scope, ds: seq<Disclosure>, n: nat): set<Violation>
    requires n <= |ds|
  {
    if n == 0 then {} else MisplacedDisclosures(scope, ds, n - 1) + Misplaced(scope, ds[n - 1].tenantId, ds[n - 1].sessionId)
  }

  predicate Disclosing(scope: Scope, deadline: int, d: Disclosure) {
    d.tenantId == scope.tenantId && d.sessionId == scope.sessionId && d.deliveredAt <= deadline && d.kind.AiIdentity?
  }

  /** For each version of the AI disclosure, when it was first delivered. */
  function Delivered(scope: Scope, deadline: int, ds: seq<Disclosure>, n: nat): map<string, int>
    requires n <= |ds|
  {
    if n == 0 then map[]
    else
      var before, d := Delivered(scope, deadline, ds, n - 1), ds[n - 1];
      if !Disclosing(scope, deadline, d) then before
      else before[d.version := if d.version in before && before[d.version] < d.deliveredAt then before[d.version] else d.deliveredAt]
  }

  function MisplacedConsents(scope: Scope, cs: seq<Consent>, n: nat): set<Violation>
    requires n <= |cs|
  {
    if n == 0 then {} else MisplacedConsents(scope, cs, n - 1) + Misplaced(scope, cs[n - 1].tenantId, cs[n - 1].sessionId)
  }

  datatype Purpose = Purpose(consentType: string, purpose: string)

  function PurposeOf(c: Consent): Purpose {
    Purpose(c.consentType, c.purpose)
  }

  predicate Consenting(scope: Scope, c: Consent) {
    c.tenantId == scope.tenantId && c.sessionId == scope.sessionId && c.subjectRef == scope.subjectRef && c.capturedAt <= scope.asOf
  }

  /** The latest consent of each type and purpose, and whether a different one was met that ties with it. */
  datatype Consents = Consents(latest: map<Purpose, Consent>, clash: bool)

  function Take(scope: Scope, before: Consents, c: Consent): Consents {
    var key := PurposeOf(c);
    if !Consenting(scope, c) then before
    else if key !in before.latest || before.latest[key].capturedAt < c.capturedAt then
      Consents(before.latest[key := c], before.clash)
    else if before.latest[key].capturedAt == c.capturedAt && before.latest[key] != c then Consents(before.latest, true)
    else before
  }

  function Taken(scope: Scope, cs: seq<Consent>, n: nat): Consents
    requires n <= |cs|
  {
    if n == 0 then Consents(map[], false) else Take(scope, Taken(scope, cs, n - 1), cs[n - 1])
  }

  predicate Active(scope: Scope, deadline: int, delivered: map<string, int>, c: Consent) {
    && c.status.Granted? && c.capturedAt <= deadline
    && (c.expiresAt.Some? ==> c.expiresAt.value > scope.asOf) && (c.revokedAt.Some? ==> c.revokedAt.value > scope.asOf)
    && c.disclosureVersion in delivered && delivered[c.disclosureVersion] <= c.capturedAt
  }

  function ActiveTypes(scope: Scope, deadline: int, delivered: map<string, int>, latest: map<Purpose, Consent>): set<string> {
    set key | key in latest && Active(scope, deadline, delivered, latest[key]) :: latest[key].consentType
  }

  function EssentialPurposes(scope: Scope, deadline: int, delivered: map<string, int>, latest: map<Purpose, Consent>): set<string> {
    set key | key in latest && Active(scope, deadline, delivered, latest[key]) && latest[key].consentType == ESSENTIAL :: latest[key].purpose
  }

  // ---------------------------------------------------------------- the projection

  datatype Evidence = Evidence(confirmed: set<Milestone>, ambiguousEffects: nat, violations: set<Violation>,
                               aiDisclosureDelivered: bool, activeConsentTypes: set<string>, uniqueReceipts: nat)

  predicate Ambiguous(r: Receipt) {
    r.status.Started? || r.status.Pending? || r.status.Unknown?
  }

  function CountAmbiguous(receipts: seq<Receipt>, n: nat): nat
    requires n <= |receipts|
  {
    if n == 0 then 0 else CountAmbiguous(receipts, n - 1) + if Ambiguous(receipts[n - 1]) then 1 else 0
  }

  function Total<T>(items: seq<T>, size: T -> nat, n: nat): nat
    requires n <= |items|
  {
    if n == 0 then 0 else Total(items, size, n - 1) + size(items[n - 1])
  }

  const MOST_RECORDS := 128
  const MOST_PER_RECORD := 250_000
  const MOST_IN_ALL := 2_000_000

  predicate Bounded<T>(items: seq<T>, size: T -> nat) {
    |items| <= MOST_RECORDS && forall i :: 0 <= i < |items| ==> size(items[i]) <= MOST_PER_RECORD
  }

  predicate WithinBounds(p: Platform, input: Input) {
    && Bounded(input.intents, p.intentSize) && Bounded(input.receipts, p.receiptSize)
    && Bounded(input.disclosures, p.disclosureSize) && Bounded(input.consents, p.consentSize)
    && Total(input.intents, p.intentSize, |input.intents|) + Total(input.receipts, p.receiptSize, |input.receipts|)
       + Total(input.disclosures, p.disclosureSize, |input.disclosures|) + Total(input.consents, p.consentSize, |input.consents|)
       <= MOST_IN_ALL
  }

  predicate GoodIntent(p: Platform, i: Intent) {
    p.intentOk(i) && i.requestedAt < i.expiresAt
  }

  predicate GoodReceipt(p: Platform, asOf: int, r: Receipt) {
    && p.receiptOk(r) && r.startedAt <= asOf
    && (r.completedAt.Some? ==> r.startedAt <= r.completedAt.value <= asOf)
    && (r.resultJson.Some? ==> p.readJson(r.resultJson.value).Some?)
  }

  predicate GoodDisclosure(p: Platform, asOf: int, d: Disclosure) {
    p.disclosureOk(d) && (d.acknowledgedAt.Some? ==> d.deliveredAt <= d.acknowledgedAt.value <= asOf)
  }

  predicate GoodConsent(p: Platform, c: Consent) {
    && p.consentOk(c) && (c.expiresAt.Some? ==> c.capturedAt < c.expiresAt.value)
    && (c.revokedAt.Some? ==> c.capturedAt <= c.revokedAt.value)
  }

  function IntentId(i: Intent): string { i.id }
  function ReceiptId(r: Receipt): string { r.id }
  function DisclosureId(d: Disclosure): string { d.id }
  function ConsentId(c: Consent): string { c.id }

  /** The records the projection goes by: the first of each identifier, and whether any list holds two
      different records with one identifier. */
  datatype Kept = Kept(intents: seq<Intent>, receipts: seq<Receipt>, disclosures: seq<Disclosure>, consents: seq<Consent>,
                       conflict: bool)

  function Keep(input: Input): Kept {
    Kept(Firsts(input.intents, IntentId, |input.intents|), Firsts(input.receipts, ReceiptId, |input.receipts|),
         Firsts(input.disclosures, DisclosureId, |input.disclosures|), Firsts(input.consents, ConsentId, |input.consents|),
         Conflicting(input.intents, IntentId) || Conflicting(input.receipts, ReceiptId)
         || Conflicting(input.disclosures, DisclosureId) || Conflicting(input.consents, ConsentId))
  }

  predicate Good(p: Platform, asOf: int, k: Kept) {
    && (forall i :: 0 <= i < |k.intents| ==> GoodIntent(p, k.intents[i]))
    && (forall i :: 0 <= i < |k.receipts| ==> GoodReceipt(p, asOf, k.receipts[i]))
    && (forall i :: 0 <= i < |k.disclosures| ==> GoodDisclosure(p, asOf, k.disclosures[i]))
    && (forall i :: 0 <= i < |k.consents| ==> GoodConsent(p, k.consents[i]))
  }

  function When(condition: bool, v: Violation): set<Violation> {
    if condition then {v} else {}
  }

  /** The evidence drawn from kept, well-formed records. */
  function Conclude(p: Platform, scope: Scope, k: Kept): Evidence {
    var intents := Scoped(scope, k.intents, |k.intents|);
    var deadline := Deadline(scope.asOf, intents);
    var judged := Judged(p, scope, intents, k.receipts, |k.receipts|);
    var delivered := Delivered(scope, deadline, k.disclosures, |k.disclosures|);
    var taken := Taken(scope, k.consents, |k.consents|);
    var essential := EssentialPurposes(scope, deadline, delivered, taken.latest);
    var types := ActiveTypes(scope, deadline, delivered, taken.latest);
    var active := if exists i :: 0 <= i < |intents| && intents[i].purpose !in essential then types - {ESSENTIAL} else types;
    var violations :=
      When(k.conflict || taken.clash || EffectsClash(scope, k.receipts), ConflictingDuplicate)
      + MisplacedIntents(scope, k.intents, |k.intents|) + judged.violations
      + MisplacedDisclosures(scope, k.disclosures, |k.disclosures|) + MisplacedConsents(scope, k.consents, |k.consents|)
      + When(delivered == map[], MissingDisclosure) + When(ESSENTIAL !in active, MissingEssentialConsent);
    Evidence(if violations == {} then judged.milestones else {}, CountAmbiguous(k.receipts, |k.receipts|), violations,
             delivered != map[], active, |k.receipts|)
  }

  /** The projection, or nothing for input that is out of bounds or malformed. */
  function Project(p: Platform, input: Input): Option<Evidence> {
    if WithinBounds(p, input) && Good(p, input.scope.asOf, Keep(input)) then Some(Conclude(p, input.scope, Keep(input))) else None
  }

  // ---------------------------------------------------------------- soundness

  /** A receipt that proves a milestone: it succeeded inside its intent's window, its result is the one its
      effect hash names, and the intent's tool is its own action. */
  ghost predicate Proves(p: Platform, scope: Scope, intents: seq<Intent>, r: Receipt, m: Milestone) {
    && r.tenantId == scope.tenantId && r.status.Succeeded? && !r.hasError && r.completedAt.Some?
    && r.resultJson.Some? && p.readJson(r.resultJson.value).Some?
    && r.effectHash == Some(p.hash(CanonicalJson.CanonicalText(p.readJson(r.resultJson.value).value)))
    && exists i :: i in intents && ProvesFor(p, i, r, m)
  }

  ghost predicate ProvesFor(p: Platform, i: Intent, r: Receipt, m: Milestone) {
    && i.id == r.intentId && i.requestedAt <= r.startedAt < i.expiresAt
    && KnownAction(i.action) && i.toolContractId == i.action
    && r.resultJson.Some? && p.readJson(r.resultJson.value).Some?
    && RecognizeResult(p, i.action, p.readJson(r.resultJson.value).value) == Found(m)
  }

  lemma {:induction false} FoundIntent(intents: seq<Intent>, id: string)
    ensures FindIntent(intents, id).Some? ==> FindIntent(intents, id).value in intents && FindIntent(intents, id).value.id == id
  {
    if intents != [] && intents[|intents| - 1].id != id {
      FoundIntent(intents[..|intents| - 1], id);
    }
  }

  lemma {:induction false} JudgementProves(p: Platform, scope: Scope, intents: seq<Intent>, r: Receipt, m: Milestone)
    requires m in JudgeReceipt(p, scope, intents, r).milestones
    ensures Proves(p, scope, intents, r, m)
  {
    hide RecognizeResult, FindIntent, KnownAction;
    FoundIntent(intents, r.intentId);
    assert ProvesFor(p, FindIntent(intents, r.intentId).value, r, m);
  }

  lemma {:induction false} SomeReceiptProves(p: Platform, scope: Scope, intents: seq<Intent>, receipts: seq<Receipt>, n: nat, m: Milestone)
    requires n <= |receipts| && m in Judged(p, scope, intents, receipts, n).milestones
    ensures exists r :: r in receipts[..n] && Proves(p, scope, intents, r, m)
  {
    hide JudgeReceipt, Proves;
    assert n > 0;
    assert receipts[..n] == receipts[..n - 1] + [receipts[n - 1]];
    if m in Judged(p, scope, intents, receipts, n - 1).milestones {
      SomeReceiptProves(p, scope, intents, receipts, n - 1, m);
      var r :| r in receipts[..n - 1] && Proves(p, scope, intents, r, m);
      assert r in receipts[..n];
    } else {
      JudgementProves(p, scope, intents, receipts[n - 1], m);
      assert receipts[n - 1] in receipts[..n];
    }
  }

  lemma {:induction false} ScopedFacts(scope: Scope, intents: seq<Intent>, n: nat)
    requires n <= |intents|
    ensures forall i :: i in Scoped(scope, intents, n) <==> i in intents[..n] && InScope(scope, i)
  {
    if n > 0 {
      ScopedFacts(scope, intents, n - 1);
      assert intents[..n] == intents[..n - 1] + [intents[n - 1]];
    }
  }

  lemma {:induction false} DeadlineBound(asOf: int, intents: seq<Intent>)
    ensures Deadline(asOf, intents) <= asOf && forall i :: i in intents ==> Deadline(asOf, intents) <= i.requestedAt
  {
    if intents != [] {
      var n := |intents| - 1;
      DeadlineBound(asOf, intents[..n]);
      assert intents == intents[..n] + [intents[n]];
    }
  }

  /** A delivered version comes from a record, delivered first at that time. */
  lemma {:induction false} DeliveredFrom(scope: Scope, deadline: int, ds: seq<Disclosure>, n: nat, version: string)
    requires n <= |ds| && version in Delivered(scope, deadline, ds, n)
    ensures exists d :: d in ds[..n] && Disclosing(scope, deadline, d) && d.version == version
                        && d.deliveredAt == Delivered(scope, deadline, ds, n)[version]
  {
    hide Disclosing;
    assert n > 0;
    var before, d := Delivered(scope, deadline, ds, n - 1), ds[n - 1];
    assert ds[..n] == ds[..n - 1] + [d];
    if version in before && before[version] == Delivered(scope, deadline, ds, n)[version] {
      DeliveredFrom(scope, deadline, ds, n - 1, version);
      var e :| e in ds[..n - 1] && Disclosing(scope, deadline, e) && e.version == version && e.deliveredAt == before[version];
      assert e in ds[..n];
    } else {
      assert d in ds[..n];
    }
  }

  lemma {:induction false} TakenFrom(scope: Scope, cs: seq<Consent>, n: nat, key: Purpose)
    requires n <= |cs| && key in Taken(scope, cs, n).latest
    ensures Taken(scope, cs, n).latest[key] in cs[..n]
    ensures Consenting(scope, Taken(scope, cs, n).latest[key]) && PurposeOf(Taken(scope, cs, n).latest[key]) == key
  {
    hide Consenting;
    assert n > 0;
    assert cs[..n] == cs[..n - 1] + [cs[n - 1]];
    var before := Taken(scope, cs, n - 1);
    if key in before.latest && before.latest[key] == Taken(scope, cs, n).latest[key] {
      TakenFrom(scope, cs, n - 1, key);
    }
  }

  /** The chain an intent rests on: an AI disclosure, delivered no later than a granted essential consent for
      the intent's purpose that names it, captured no later than the intent was requested and still in force. */
  ghost predicate Covered(scope: Scope, k: Kept, i: Intent) {
    exists c, d :: c in k.consents && d in k.disclosures && Covers(scope, i, c, d)
  }

  predicate Covers(scope: Scope, i: Intent, c: Consent, d: Disclosure) {
    && d.tenantId == scope.tenantId && d.sessionId == scope.sessionId && d.kind.AiIdentity?
    && c.tenantId == scope.tenantId && c.sessionId == scope.sessionId && c.subjectRef == scope.subjectRef
    && c.consentType == ESSENTIAL && c.status.Granted? && c.purpose == i.purpose && c.disclosureVersion == d.version
    && d.deliveredAt <= c.capturedAt <= i.requestedAt
    && (c.expiresAt.Some? ==> c.expiresAt.value > scope.asOf) && (c.revokedAt.Some? ==> c.revokedAt.value > scope.asOf)
  }

  lemma {:induction false} EssentialCovers(scope: Scope, k: Kept, deadline: int, i: Intent)
    requires deadline <= i.requestedAt
    requires i.purpose in EssentialPurposes(scope, deadline, Delivered(scope, deadline, k.disclosures, |k.disclosures|),
                                            Taken(scope, k.consents, |k.consents|).latest)
    ensures Covered(scope, k, i)
  {
    hide Delivered, Taken;
    var delivered := Delivered(scope, deadline, k.disclosures, |k.disclosures|);
    var latest := Taken(scope, k.consents, |k.consents|).latest;
    var key :| key in latest && Active(scope, deadline, delivered, latest[key]) && latest[key].consentType == ESSENTIAL
               && latest[key].purpose == i.purpose;
    TakenFrom(scope, k.consents, |k.consents|, key);
    DeliveredFrom(scope, deadline, k.disclosures, |k.disclosures|, latest[key].disclosureVersion);
    var d :| d in k.disclosures[..|k.disclosures|] && Disclosing(scope, deadline, d)
             && d.version == latest[key].disclosureVersion && d.deliveredAt == delivered[latest[key].disclosureVersion];
    assert k.disclosures[..|k.disclosures|] == k.disclosures && k.consents[..|k.consents|] == k.consents;
    assert Covers(scope, i, latest[key], d);
  }

  /** Without violations, every intent in scope is covered. */
  lemma {:induction false} NoViolationMeansCovered(p: Platform, scope: Scope, k: Kept, i: Intent)
    requires Conclude(p, scope, k).violations == {} && i in Scoped(scope, k.intents, |k.intents|)
    ensures Covered(scope, k, i) && Conclude(p, scope, k).aiDisclosureDelivered
  {
    hide Covered, Judged, Delivered, Taken, Scoped, Deadline, MisplacedIntents, MisplacedDisclosures, MisplacedConsents,
      EffectsClash, ActiveTypes, EssentialPurposes, CountAmbiguous;
    var intents := Scoped(scope, k.intents, |k.intents|);
    var deadline := Deadline(scope.asOf, intents);
    DeadlineBound(scope.asOf, intents);
    var j :| 0 <= j < |intents| && intents[j] == i;
    var delivered := Delivered(scope, deadline, k.disclosures, |k.disclosures|);
    var latest := Taken(scope, k.consents, |k.consents|).latest;
    NoMissingConsent(p, scope, k);
    assert intents[j].purpose in EssentialPurposes(scope, deadline, delivered, latest);
    EssentialCovers(scope, k, deadline, i);
  }

  lemma {:induction false} NoMissingConsent(p: Platform, scope: Scope, k: Kept)
    requires Conclude(p, scope, k).violations == {}
    ensures var intents := Scoped(scope, k.intents, |k.intents|);
            var deadline := Deadline(scope.asOf, intents);
            var delivered := Delivered(scope, deadline, k.disclosures, |k.disclosures|);
            var latest := Taken(scope, k.consents, |k.consents|).latest;
            && delivered != map[]
            && forall j :: 0 <= j < |intents| ==> intents[j].purpose in EssentialPurposes(scope, deadline, delivered, latest)
  {
    hide Judged, Delivered, Taken, Scoped, Deadline, MisplacedIntents, MisplacedDisclosures, MisplacedConsents, EffectsClash,
      ActiveTypes, EssentialPurposes, CountAmbiguous;
    var e := Conclude(p, scope, k);
    assert MissingDisclosure !in e.violations && MissingEssentialConsent !in e.violations;
  }

  /** A confirmed milestone means: no violation at all; a stored receipt of the tenant that proves it for an
      intent in scope; and under every intent in scope the chain of disclosure and consent. */
  lemma {:induction false} ConfirmedIsProved(p: Platform, input: Input, m: Milestone)
    requires Project(p, input).Some? && m in Project(p, input).value.confirmed
    ensures Project(p, input).value.violations == {} && Project(p, input).value.aiDisclosureDelivered
    ensures exists r :: r in input.receipts && Proves(p, input.scope, Scoped(input.scope, Keep(input).intents, |Keep(input).intents|), r, m)
    ensures forall i :: i in Scoped(input.scope, Keep(input).intents, |Keep(input).intents|) ==> Covered(input.scope, Keep(input), i)
  {
    hide Conclude, Keep, Proves, Covered, Scoped, Good, WithinBounds;
    var k := Keep(input);
    var intents := Scoped(input.scope, k.intents, |k.intents|);
    ConfirmedFacts(p, input.scope, k, m);
    SomeReceiptProves(p, input.scope, intents, k.receipts, |k.receipts|, m);
    var r :| r in k.receipts[..|k.receipts|] && Proves(p, input.scope, intents, r, m);
    assert r in input.receipts by { KeptReceipt(input, r); }
    forall i | i in intents
      ensures Covered(input.scope, k, i)
    {
      NoViolationMeansCovered(p, input.scope, k, i);
    }
  }

  lemma {:induction false} KeptReceipt(input: Input, r: Receipt)
    requires r in Keep(input).receipts[..|Keep(input).receipts|]
    ensures r in input.receipts
  {
    hide Firsts, Conflicting;
    FirstsFacts(input.receipts, ReceiptId, |input.receipts|);
    assert input.receipts[..|input.receipts|] == input.receipts;
  }

  lemma {:induction false} ConfirmedFacts(p: Platform, scope: Scope, k: Kept, m: Milestone)
    requires m in Conclude(p, scope, k).confirmed
    ensures Conclude(p, scope, k).violations == {} && Conclude(p, scope, k).aiDisclosureDelivered
    ensures m in Judged(p, scope, Scoped(scope, k.intents, |k.intents|), k.receipts, |k.receipts|).milestones
  {
    hide Judged, Delivered, Taken, Scoped, Deadline, MisplacedIntents, MisplacedDisclosures, MisplacedConsents, EffectsClash,
      ActiveTypes, EssentialPurposes, CountAmbiguous;
    var e := Conclude(p, scope, k);
    assert MissingDisclosure !in e.violations;
  }

  /** No stored record ever confirms a payment. */
  lemma {:induction false} PaymentIsNeverConfirmed(p: Platform, input: Input)
    requires Project(p, input).Some?
    ensures PaymentConfirmed !in Project(p, input).value.confirmed
  {
    hide Project, Proves, Scoped, Keep;
    if PaymentConfirmed in Project(p, input).value.confirmed {
      ConfirmedIsProved(p, input, PaymentConfirmed);
      var intents := Scoped(input.scope, Keep(input).intents, |Keep(input).intents|);
      var r :| r in input.receipts && Proves(p, input.scope, intents, r, PaymentConfirmed);
      NoPaymentProof(p, input.scope, intents, r);
    }
  }

  lemma {:induction false} NoPaymentProof(p: Platform, scope: Scope, intents: seq<Intent>, r: Receipt)
    ensures !Proves(p, scope, intents, r, PaymentConfirmed)
  {
    forall i | i in intents
      ensures !ProvesFor(p, i, r, PaymentConfirmed)
    {
      if r.resultJson.Some? && p.readJson(r.resultJson.value).Some? {
        NoPaymentResult(p, i.action, p.readJson(r.resultJson.value).value);
      }
      hide RecognizeResult;
    }
  }

  lemma {:induction false} NoPaymentResult(p: Platform, action: string, v: Value)
    ensures RecognizeResult(p, action, v) != Found(PaymentConfirmed)
  {
    hide Says, KeySet, IsUuid, IsText, TimeAt, InTimeOrder, NullOrText, Get, Has;
  }

  // ---------------------------------------------------------------- copies

  lemma {:induction false} BoundedBefore<T>(items: seq<T>, x: T, size: T -> nat)
    requires Bounded(items + [x], size)
    ensures Bounded(items, size) && Total(items, size, |items|) <= Total(items + [x], size, |items| + 1)
  {
    TotalOfPrefix(items, x, size, |items|);
    assert (items + [x])[|items|] == x;
    assert forall i :: 0 <= i < |items| ==> (items + [x])[i] == items[i];
  }

  lemma {:induction false} TotalOfPrefix<T>(items: seq<T>, x: T, size: T -> nat, n: nat)
    requires n <= |items|
    ensures Total(items + [x], size, n) == Total(items, size, n)
  {
    if n > 0 {
      TotalOfPrefix(items, x, size, n - 1);
    }
  }

  /** An input with a copy of one of its records appended to one list. */
  ghost predicate AddsCopy(input: Input, more: Input) {
    && more.scope == input.scope
    && ((exists i :: i in input.intents && more == input.(intents := input.intents + [i]))
        || (exists r :: r in input.receipts && more == input.(receipts := input.receipts + [r]))
        || (exists d :: d in input.disclosures && more == input.(disclosures := input.disclosures + [d]))
        || (exists c :: c in input.consents && more == input.(consents := input.consents + [c])))
  }

  lemma {:induction false} CopyKeeps(p: Platform, input: Input, more: Input)
    requires AddsCopy(input, more) && WithinBounds(p, more)
    ensures Keep(more) == Keep(input) && WithinBounds(p, input)
  {
    hide Firsts, Conflicting, Bounded, Total;
    if i :| i in input.intents && more == input.(intents := input.intents + [i]) {
      var k :| 0 <= k < |input.intents| && input.intents[k] == i;
      CopyAddsNothing(input.intents, IntentId, k);
      BoundedBefore(input.intents, i, p.intentSize);
    } else if r :| r in input.receipts && more == input.(receipts := input.receipts + [r]) {
      var k :| 0 <= k < |input.receipts| && input.receipts[k] == r;
      CopyAddsNothing(input.receipts, ReceiptId, k);
      BoundedBefore(input.receipts, r, p.receiptSize);
    } else if d :| d in input.disclosures && more == input.(disclosures := input.disclosures + [d]) {
      var k :| 0 <= k < |input.disclosures| && input.disclosures[k] == d;
      CopyAddsNothing(input.disclosures, DisclosureId, k);
      BoundedBefore(input.disclosures, d, p.disclosureSize);
    } else {
      var c :| c in input.consents && more == input.(consents := input.consents + [c]);
      var k :| 0 <= k < |input.consents| && input.consents[k] == c;
      CopyAddsNothing(input.consents, ConsentId, k);
      BoundedBefore(input.consents, c, p.consentSize);
    }
  }

  /** Storing an exact copy of a record again leaves the projection as it was, as long as the bounds allow it. */
  lemma {:induction false} CopiesChangeNothing(p: Platform, input: Input, more: Input)
    requires AddsCopy(input, more) && WithinBounds(p, more)
    ensures Project(p, more) == Project(p, input)
  {
    hide Keep, WithinBounds, Good, Conclude;
    CopyKeeps(p, input, more);
  }

  /** The order of consents can matter: two that tie are reported unless a later one was met first. */
  lemma {:induction false} OrderOfTiesMatters(scope: Scope, a: Consent, b: Consent, c: Consent)
    requires Consenting(scope, a) && Consenting(scope, b) && Consenting(scope, c)
    requires PurposeOf(a) == PurposeOf(b) == PurposeOf(c) && a != b && a.capturedAt == b.capturedAt < c.capturedAt
    ensures Taken(scope, [a, b, c], 3).clash && !Taken(scope, [c, a, b], 3).clash
    ensures Taken(scope, [a, b, c], 3).latest == Taken(scope, [c, a, b], 3).latest
  {
    hide Consenting, PurposeOf;
    var key := PurposeOf(a);
    assert Taken(scope, [a, b, c], 1) == Consents(map[key := a], false);
    assert Taken(scope, [a, b, c], 2) == Consents(map[key := a], true);
    assert Taken(scope, [c, a, b], 1) == Consents(map[key := c], false);
    assert Taken(scope, [c, a, b], 2) == Consents(map[key := c], false);
    assert (map[key := a])[key := c] == map[key := c];
  }

  // ---------------------------------------------------------------- the projection's loops

  method Measure<T>(items: seq<T>, size: T -> nat, budget: nat) returns (ok: bool, spent: nat)
    ensures ok <==> Bounded(items, size) && budget + Total(items, size, |items|) <= MOST_IN_ALL
    ensures ok ==> spent == budget + Total(items, size, |items|)
  {
    spent := budget;
    if |items| > MOST_RECORDS {
      return false, spent;
    }
    var i := 0;
    while i < |items|
      invariant i <= |items| && spent == budget + Total(items, size, i) && (i == 0 || spent <= MOST_IN_ALL)
      invariant forall k :: 0 <= k < i ==> size(items[k]) <= MOST_PER_RECORD
    {
      spent := spent + size(items[i]);
      if size(items[i]) > MOST_PER_RECORD || spent > MOST_IN_ALL {
        TotalGrows(items, size, i + 1, |items|);
        return false, spent;
      }
      i := i + 1;
    }
    return spent <= MOST_IN_ALL, spent;
  }

  lemma {:induction false} TotalGrows<T>(items: seq<T>, size: T -> nat, i: nat, n: nat)
    requires i <= n <= |items|
    ensures Total(items, size, i) <= Total(items, size, n)
    decreases n
  {
    if i < n {
      TotalGrows(items, size, i, n - 1);
    }
  }

  method CheckBounds(p: Platform, input: Input) returns (ok: bool)
    ensures ok <==> WithinBounds(p, input)
  {
    hide Bounded, Total;
    var intents, spent := Measure(input.intents, p.intentSize, 0);
    if !intents {
      return false;
    }
    var receipts, more := Measure(input.receipts, p.receiptSize, spent);
    if !receipts {
      return false;
    }
    var disclosures, evenMore := Measure(input.disclosures, p.disclosureSize, more);
    if !disclosures {
      return false;
    }
    var consents, all := Measure(input.consents, p.consentSize, evenMore);
    return consents;
  }

  method ScopeIntents(scope: Scope, intents: seq<Intent>) returns (scoped: seq<Intent>, violations: set<Violation>)
    ensures scoped == Scoped(scope, intents, |intents|) && violations == MisplacedIntents(scope, intents, |intents|)
  {
    scoped, violations := [], {};
    var i := 0;
    while i < |intents|
      invariant i <= |intents| && scoped == Scoped(scope, intents, i) && violations == MisplacedIntents(scope, intents, i)
    {
      violations := violations + Misplaced(scope, intents[i].tenantId, intents[i].sessionId);
      if InScope(scope, intents[i]) {
        scoped := scoped + [intents[i]];
      }
      i := i + 1;
    }
  }

  method JudgeReceipts(p: Platform, scope: Scope, intents: seq<Intent>, receipts: seq<Receipt>) returns (j: Judgement, clash: bool)
    ensures j == Judged(p, scope, intents, receipts, |receipts|) && (clash <==> EffectsClash(scope, receipts))
  {
    j, clash := NEUTRAL, false;
    var effects: map<string, Effect> := map[];
    var i := 0;
    assert EffectsSeen(scope, receipts, 0, effects, clash);
    hide JudgeReceipt, EffectsSeen, EffectsClash;
    while i < |receipts|
      invariant i <= |receipts| && j == Judged(p, scope, intents, receipts, i)
      invariant EffectsSeen(scope, receipts, i, effects, clash)
    {
      var r := receipts[i];
      var judged := JudgeReceipt(p, scope, intents, r);
      NextEffect(scope, receipts, i, effects, clash);
      if r.tenantId == scope.tenantId {
        if r.intentId in effects && effects[r.intentId] != EffectOf(r) {
          clash := true;
        } else {
          effects := effects[r.intentId := EffectOf(r)];
        }
      }
      j := Judgement(j.violations + judged.violations, j.milestones + judged.milestones);
      i := i + 1;
    }
    AllEffectsSeen(scope, receipts, effects, clash);
  }

  /** The first effect claimed for each intent among the tenant's first `n` receipts, and whether a later one
      differed. */
  ghost predicate EffectsSeen(scope: Scope, receipts: seq<Receipt>, n: nat, effects: map<string, Effect>, clash: bool) {
    && n <= |receipts|
    && (forall k :: 0 <= k < n && receipts[k].tenantId == scope.tenantId ==> receipts[k].intentId in effects)
    && (forall id :: id in effects ==> Claimed(scope, receipts, n, id, effects[id]))
    && (clash <==> exists k :: 0 <= k < n && Contradicts(scope, receipts[k], effects))
  }

  ghost predicate Claimed(scope: Scope, receipts: seq<Receipt>, n: nat, id: string, effect: Effect) {
    exists k :: 0 <= k < n <= |receipts| && receipts[k].tenantId == scope.tenantId && receipts[k].intentId == id
                && EffectOf(receipts[k]) == effect
  }

  predicate Contradicts(scope: Scope, r: Receipt, effects: map<string, Effect>) {
    r.tenantId == scope.tenantId && r.intentId in effects && effects[r.intentId] != EffectOf(r)
  }

  lemma {:induction false} NextEffect(scope: Scope, receipts: seq<Receipt>, n: nat, effects: map<string, Effect>, clash: bool)
    requires n < |receipts| && EffectsSeen(scope, receipts, n, effects, clash)
    ensures var r := receipts[n];
            if r.tenantId != scope.tenantId then EffectsSeen(scope, receipts, n + 1, effects, clash)
            else if r.intentId in effects && effects[r.intentId] != EffectOf(r) then EffectsSeen(scope, receipts, n + 1, effects, true)
            else EffectsSeen(scope, receipts, n + 1, effects[r.intentId := EffectOf(r)], clash)
  {
    hide EffectOf;
    var r := receipts[n];
    forall id | id in effects
      ensures Claimed(scope, receipts, n + 1, id, effects[id])
    {
      var k :| 0 <= k < n && receipts[k].tenantId == scope.tenantId && receipts[k].intentId == id
               && EffectOf(receipts[k]) == effects[id];
    }
    if r.tenantId == scope.tenantId && !(r.intentId in effects && effects[r.intentId] != EffectOf(r)) {
      var more := effects[r.intentId := EffectOf(r)];
      assert Claimed(scope, receipts, n + 1, r.intentId, EffectOf(r));
      assert forall k :: 0 <= k < n ==> (Contradicts(scope, receipts[k], more) <==> Contradicts(scope, receipts[k], effects));
    }
  }

  lemma {:induction false} AllEffectsSeen(scope: Scope, receipts: seq<Receipt>, effects: map<string, Effect>, clash: bool)
    requires EffectsSeen(scope, receipts, |receipts|, effects, clash)
    ensures clash <==> EffectsClash(scope, receipts)
  {
    hide EffectOf;
    if k :| 0 <= k < |receipts| && Contradicts(scope, receipts[k], effects) {
      assert Claimed(scope, receipts, |receipts|, receipts[k].intentId, effects[receipts[k].intentId]);
    }
    if EffectsClash(scope, receipts) {
      var i, j :| 0 <= i < |receipts| && 0 <= j < |receipts|
                  && receipts[i].tenantId == scope.tenantId && receipts[j].tenantId == scope.tenantId
                  && receipts[i].intentId == receipts[j].intentId && EffectOf(receipts[i]) != EffectOf(receipts[j]);
      assert Contradicts(scope, receipts[i], effects) || Contradicts(scope, receipts[j], effects);
    }
  }

  method CollectDisclosures(scope: Scope, deadline: int, ds: seq<Disclosure>)
      returns (delivered: map<string, int>, violations: set<Violation>)
    ensures delivered == Delivered(scope, deadline, ds, |ds|) && violations == MisplacedDisclosures(scope, ds, |ds|)
  {
    delivered, violations := map[], {};
    var i := 0;
    while i < |ds|
      invariant i <= |ds| && delivered == Delivered(scope, deadline, ds, i) && violations == MisplacedDisclosures(scope, ds, i)
    {
      var d := ds[i];
      violations := violations + Misplaced(scope, d.tenantId, d.sessionId);
      if Disclosing(scope, deadline, d) {
        var first := if d.version in delivered && delivered[d.version] < d.deliveredAt then delivered[d.version] else d.deliveredAt;
        delivered := delivered[d.version := first];
      }
      i := i + 1;
    }
  }

  method CollectConsents(scope: Scope, cs: seq<Consent>) returns (taken: Consents, violations: set<Violation>)
    ensures taken == Taken(scope, cs, |cs|) && violations == MisplacedConsents(scope, cs, |cs|)
  {
    hide Take;
    taken, violations := Consents(map[], false), {};
    var i := 0;
    while i < |cs|
      invariant i <= |cs| && taken == Taken(scope, cs, i) && violations == MisplacedConsents(scope, cs, i)
    {
      violations := violations + Misplaced(scope, cs[i].tenantId, cs[i].sessionId);
      taken := Take(scope, taken, cs[i]);
      i := i + 1;
    }
  }

  method ProjectEvidence(p: Platform, input: Input) returns (r: Option<Evidence>)
    ensures r == Project(p, input)
  {
    hide WithinBounds, Good, Firsts, Conflicting, Scoped, Deadline, Judged, Delivered, Taken, EffectsClash, MisplacedIntents,
      MisplacedDisclosures, MisplacedConsents, ActiveTypes, EssentialPurposes, CountAmbiguous;
    var bounded := CheckBounds(p, input);
    if !bounded {
      return None;
    }
    var intents, a := Unique(input.intents, IntentId);
    var receipts, b := Unique(input.receipts, ReceiptId);
    var disclosures, c := Unique(input.disclosures, DisclosureId);
    var consents, d := Unique(input.consents, ConsentId);
    var k := Kept(intents, receipts, disclosures, consents, a || b || c || d);
    assert k == Keep(input);
    if !Good(p, input.scope.asOf, k) {
      return None;
    }
    var e := ConcludeKept(p, input.scope, k);
    return Some(e);
  }

  method ConcludeKept(p: Platform, scope: Scope, k: Kept) returns (e: Evidence)
    ensures e == Conclude(p, scope, k)
  {
    hide Scoped, Deadline, Judged, Delivered, Taken, EffectsClash, MisplacedIntents, MisplacedDisclosures, MisplacedConsents,
      ActiveTypes, EssentialPurposes, CountAmbiguous;
    var intents, misplacedIntents := ScopeIntents(scope, k.intents);
    var deadline := Deadline(scope.asOf, intents);
    var judged, effects := JudgeReceipts(p, scope, intents, k.receipts);
    var delivered, misplacedDisclosures := CollectDisclosures(scope, deadline, k.disclosures);
    var taken, misplacedConsents := CollectConsents(scope, k.consents);
    var essential := EssentialPurposes(scope, deadline, delivered, taken.latest);
    var active := ActiveTypes(scope, deadline, delivered, taken.latest);
    if exists i :: 0 <= i < |intents| && intents[i].purpose !in essential {
      active := active - {ESSENTIAL};
    }
    var violations :=
      When(k.conflict || taken.clash || effects, ConflictingDuplicate) + misplacedIntents + judged.violations
      + misplacedDisclosures + misplacedConsents + When(delivered == map[], MissingDisclosure)
      + When(ESSENTIAL !in active, MissingEssentialConsent);
    e := Evidence(if violations == {} then judged.milestones else {}, CountAmbiguous(k.receipts, |k.receipts|), violations,
                  delivered != map[], active, |k.receipts|);
  }
}
