/** Replaying a stored log: from envelopes through the codec into the interaction aggregate. */
module EventReplay {

  import opened CanonicalJson
  import opened EventCodec
  import opened JsonText
  import opened Wrappers
  import R = InteractionReducer

  // ---------------------------------------------------------------- reading a payload

  function TextAt(f: Fields, key: string): Option<string> {
    if Has(f, key) && Get(f, key).Text? then Some(Get(f, key).text) else None
  }

  /** A text that may be null. */
  function NullableTextAt(f: Fields, key: string): Option<Option<string>> {
    if Has(f, key) && Get(f, key).Null? then Some(None)
    else
      var text := TextAt(f, key);
      if text.None? then None else Some(text)
  }

  function NaturalOf(numeral: string): Option<nat> {
    if numeral == [] then None
    else
      var c := numeral[|numeral| - 1];
      var before := if |numeral| == 1 then Some(0) else NaturalOf(numeral[..|numeral| - 1]);
      if before.None? || !('0' <= c <= '9') then None else Some(10 * before.value + (c - '0') as nat)
  }

  function IntegerAt(f: Fields, key: string): Option<int> {
    if Has(f, key) && Get(f, key).Number? then
      var n := NaturalOf(Get(f, key).numeral);
      if n.None? then None else Some(n.value)
    else None
  }

  function NullableIntegerAt(f: Fields, key: string): Option<Option<int>> {
    if Has(f, key) && Get(f, key).Null? then Some(None)
    else
      var n := IntegerAt(f, key);
      if n.None? then None else Some(n)
  }

  /** A sub-document, by its canonical text. */
  function DocumentAt(f: Fields, key: string): Option<R.Document> {
    if Has(f, key) then Some(CanonicalText(Get(f, key))) else None
  }

  function ConsentAt(f: Fields, key: string): Option<R.Consent> {
    var text := TextAt(f, key);
    if text.None? then None
    else
      match text.value
      case "not_required" => Some(R.NotRequired)
      case "pending" => Some(R.ConsentPending)
      case "granted" => Some(R.Granted)
      case "denied" => Some(R.Denied)
      case "revoked" => Some(R.Revoked)
      case _ => None
  }

  function DisclosureAt(f: Fields, key: string): Option<R.Disclosure> {
    var text := TextAt(f, key);
    if text.None? then None
    else
      match text.value
      case "pending" => Some(R.DisclosurePending)
      case "delivered" => Some(R.Delivered)
      case "acknowledged" => Some(R.Acknowledged)
      case "failed" => Some(R.DisclosureFailed)
      case _ => None
  }

  function DegradationAt(f: Fields, key: string): Option<R.Degradation> {
    var text := TextAt(f, key);
    if text.None? then None
    else
      match text.value
      case "minor" => Some(R.Minor)
      case "major" => Some(R.Major)
      case "voice_only" => Some(R.VoiceOnly)
      case "text_only" => Some(R.TextOnly)
      case _ => None
  }

  function RepairOf(text: string): R.Repair {
    match text
    case "none" => R.RepairNone
    case "recovering_interruption" => R.RecoveringInterruption
    case _ => R.OtherRepair(text)
  }

  /** What a turn leaves in the conversation besides its index and repair state. */
  function TurnContent(f: Fields): R.Document {
    CanonicalText(Record(Pick(f, ["active_topic", "language", "open_questions", "confirmed_facts", "incremental_summary"])))
  }

  function Pick(f: Fields, keys: seq<string>): Fields {
    if keys == [] then NoFields
    else if Has(f, keys[0]) then Field(keys[0], Get(f, keys[0]), Pick(f, keys[1..]))
    else Pick(f, keys[1..])
  }

  const FIRST_QUALITY := "initialized"

  function CreatedBody(f: Fields): Option<R.Body> {
    var agent, consent, disclosure, role := TextAt(f, "agent_id"), ConsentAt(f, "consent_status"),
                                            DisclosureAt(f, "disclosure_status"), DocumentAt(f, "role");
    if agent.None? || consent.None? || disclosure.None? || role.None? then None
    else Some(R.SessionCreated(agent.value, consent.value, disclosure.value, role.value, FIRST_QUALITY))
  }

  function CommittedBody(f: Fields): Option<R.Body> {
    var speaker, role, repair := TextAt(f, "speaker_participant_id"), TextAt(f, "speaker_role"), TextAt(f, "repair_state");
    var generation, turn := NullableIntegerAt(f, "generation_id"), IntegerAt(f, "turn_index");
    if speaker.None? || role.None? || repair.None? || generation.None? || turn.None? then None
    else if role.value != "presenter" && role.value != "participant" then None
    else
      Some(R.TurnCommitted(speaker.value, if role.value == "presenter" then R.Presenter else R.Participant, generation.value,
                           turn.value, RepairOf(repair.value), TurnContent(f)))
  }

  function OutcomeBody(f: Fields): Option<R.Body> {
    var generation, resulting := IntegerAt(f, "generation"), IntegerAt(f, "resulting_turn_index");
    var outcome, reason, persistence := TextAt(f, "outcome"), TextAt(f, "reason_code"), NullableTextAt(f, "persistence");
    if generation.None? || resulting.None? || outcome.None? || reason.None? || persistence.None? then None
    else if outcome.value != "succeeded" && outcome.value != "failed" then None
    else
      Some(R.TurnOutcomeRecorded(generation.value,
                                 if outcome.value == "succeeded" then R.Succeeded(persistence.value)
                                 else R.FailedOutcome(persistence.value),
                                 reason.value == "generation_succeeded", resulting.value))
  }

  function ChangedBody(f: Fields): Option<R.Body> {
    var expected, presenter := NullableTextAt(f, "expected_presenter_id"), TextAt(f, "presenter_id");
    if expected.None? || presenter.None? then None else Some(R.PresenterChanged(expected.value, presenter.value))
  }

  /** The event body for a type and payload. */
  function BodyOf(eventType: string, f: Fields): Option<R.Body> {
    match eventType
    case "session.created" => CreatedBody(f)
    case "session.prepared" => Some(R.SessionPrepared)
    case "disclosure.delivered" =>
      var status := DisclosureAt(f, "status");
      if status.None? then None else Some(R.DisclosureDelivered(status.value))
    case "consent.recorded" =>
      var status := ConsentAt(f, "status");
      if status.None? then None else Some(R.ConsentRecorded(status.value))
    case "session.activated" =>
      var presenter := TextAt(f, "presenter_id");
      if presenter.None? then None else Some(R.SessionActivated(presenter.value))
    case "presenter.changed" => ChangedBody(f)
    case "session.degraded" =>
      var level := DegradationAt(f, "level");
      if level.None? then None else Some(R.SessionDegraded(level.value))
    case "session.completed" => Some(R.SessionCompleted)
    case "session.failed" => Some(R.SessionFailed)
    case "turn.committed" => CommittedBody(f)
    case "turn.outcome_recorded" => OutcomeBody(f)
    case "turn.interrupted" => Some(R.TurnInterrupted)
    case "role.updated" => Some(R.RoleUpdated(CanonicalText(Record(f))))
    case "quality.updated" => Some(R.QualityUpdated(CanonicalText(Record(f))))
    case "sales.installed" =>
      var state := DocumentAt(f, "state");
      if state.None? then None else Some(R.SalesInstalled(state.value))
    case "sales.updated" =>
      var state := DocumentAt(f, "state");
      if state.None? then None else Some(R.SalesUpdated(state.value))
    case "sales.uninstalled" => Some(R.SalesUninstalled)
    case _ => None
  }

  /** What the reducer refuses as an invalid event. */
  const UNREADABLE := R.Event("", "", 0, "", R.SessionPrepared)

  /** A codec event as the reducer sees it. */
  function ToReducer(e: Event): R.Event {
    var body := if e.payload.Record? then BodyOf(e.header.eventType, e.payload.fields) else None;
    if body.None? then UNREADABLE
    else R.Event(e.header.sessionId, e.header.tenantId, e.header.aggregateVersion, e.header.occurredAt, body.value)
  }

  function ToReducerAll(log: seq<Event>): (r: seq<R.Event>)
    ensures |r| == |log|
  {
    seq(|log|, i requires 0 <= i < |log| => ToReducer(log[i]))
  }

  /** The aggregate after a whole log: each event is validated and rebuilt, then reduced. */
  function ReplayOf(rules: Rules, log: seq<Event>): R.Run {
    var parsed := ParseAll(rules, log);
    if parsed.None? then R.Stopped(R.InvalidEvent) else R.After(ToReducerAll(parsed.value), |parsed.value|)
  }

  /** The aggregate after a stored log: each envelope is decoded, then reduced. */
  function ReplayStored(rules: Rules, envelopes: seq<Envelope>): R.Run {
    var decoded := DecodeAll(rules, envelopes);
    if decoded.None? then R.Stopped(R.InvalidEvent) else ReplayOf(rules, decoded.value)
  }

  // ---------------------------------------------------------------- storing a log does not change its replay

  lemma {:induction false} ParsedIsStable(rules: Rules, e: Event)
    requires ProperRules(rules) && ParseEvent(rules, e).Some?
    ensures ParseEvent(rules, ParseEvent(rules, e).value) == ParseEvent(rules, e)
  {
    hide Normalize, Proper, ValidHeader;
    var shape := rules.shapeFor(e.header);
    assert Proper(shape.value);
    NormalIsStable(shape.value, e.payload);
  }

  lemma {:induction false} ParsedLogIsStable(rules: Rules, log: seq<Event>)
    requires ProperRules(rules) && ParseAll(rules, log).Some?
    ensures ParseAll(rules, ParseAll(rules, log).value) == ParseAll(rules, log)
  {
    hide ParseEvent, ProperRules;
    if log != [] {
      var n := |log| - 1;
      ParsedLogIsStable(rules, log[..n]);
      ParsedIsStable(rules, log[n]);
      var before, last := ParseAll(rules, log[..n]).value, ParseEvent(rules, log[n]).value;
      assert (before + [last])[..|before|] == before;
    }
  }

  /** Replaying an encoded log gives the state that replaying the log itself gives, exactly when every payload
      is short enough to be decoded; otherwise nothing is replayed. */
  lemma {:induction false} StoringKeepsTheReplay(rules: Rules, log: seq<Event>)
    requires ProperRules(rules) && EncodeAll(rules, log).Some?
    ensures AllShort(EncodeAll(rules, log).value) ==> ReplayStored(rules, EncodeAll(rules, log).value) == ReplayOf(rules, log)
    ensures !AllShort(EncodeAll(rules, log).value) ==>
              ReplayStored(rules, EncodeAll(rules, log).value) == R.Stopped(R.InvalidEvent)
  {
    hide ParseAll, EncodeAll, DecodeAll, ProperRules, AllShort, R.After, ToReducerAll;
    LogSurvives(rules, log);
    ParsedLogIsStable(rules, log);
  }

  /** Two logs with the same headers and with payloads equal up to the order of members. */
  ghost predicate SameLogs(a: seq<Event>, b: seq<Event>) {
    |a| == |b| && forall i :: 0 <= i < |a| ==> SameEvent(a[i], b[i])
  }

  ghost predicate SameEvent(a: Event, b: Event) {
    a.header == b.header && WellFormed(a.payload) && WellFormed(b.payload) && MeaningOf(a.payload) == MeaningOf(b.payload)
  }

  lemma {:induction false} SameEventsParseAlike(rules: Rules, a: Event, b: Event)
    requires SameEvent(a, b)
    ensures ParseEvent(rules, a) == ParseEvent(rules, b) && Encode(rules, a) == Encode(rules, b)
  {
    hide Normalize, CanonicalText, MeaningOf, WellFormed, ValidHeader;
    var shape := rules.shapeFor(a.header);
    if shape.Some? {
      NormalizeByMeaning(shape.value, a.payload, b.payload);
    }
  }

  /** The order of members in payloads has no influence on what is stored or on any state replayed from it. */
  lemma {:induction false} MemberOrderIsIrrelevant(rules: Rules, a: seq<Event>, b: seq<Event>)
    requires SameLogs(a, b)
    ensures EncodeAll(rules, a) == EncodeAll(rules, b) && ReplayOf(rules, a) == ReplayOf(rules, b)
  {
    hide ParseEvent, Encode, SameEvent, R.After, ToReducerAll;
    SameLogsParseAlike(rules, a, b);
  }

  lemma {:induction false} SameLogsParseAlike(rules: Rules, a: seq<Event>, b: seq<Event>)
    requires SameLogs(a, b)
    ensures ParseAll(rules, a) == ParseAll(rules, b) && EncodeAll(rules, a) == EncodeAll(rules, b)
  {
    hide ParseEvent, Encode, SameEvent;
    if a != [] {
      var n := |a| - 1;
      SameLogsParseAlike(rules, a[..n], b[..n]);
      SameEventsParseAlike(rules, a[n], b[n]);
    }
  }

  /** A state replayed from a stored log has counted its events. */
  lemma {:induction false} StoredLogIsCounted(rules: Rules, envelopes: seq<Envelope>)
    requires ProperRules(rules) && ReplayStored(rules, envelopes).At?
    ensures ReplayStored(rules, envelopes).state.version == |envelopes|
  {
    hide ParseEvent, Decode, R.After, ToReducerAll;
    var decoded := DecodeAll(rules, envelopes).value;
    DecodedLength(rules, envelopes);
    ParsedLength(rules, decoded);
    R.CountersMatchTheLog(ToReducerAll(ParseAll(rules, decoded).value), |decoded|);
  }

  lemma {:induction false} DecodedLength(rules: Rules, envelopes: seq<Envelope>)
    requires DecodeAll(rules, envelopes).Some?
    ensures |DecodeAll(rules, envelopes).value| == |envelopes|
  {
    hide Decode;
    if envelopes != [] {
      DecodedLength(rules, envelopes[..|envelopes| - 1]);
    }
  }

  lemma {:induction false} ParsedLength(rules: Rules, log: seq<Event>)
    requires ParseAll(rules, log).Some?
    ensures |ParseAll(rules, log).value| == |log|
  {
    hide ParseEvent;
    if log != [] {
      ParsedLength(rules, log[..|log| - 1]);
    }
  }
}
