/** The event-sourced interaction aggregate: one validated event at a time, and whole replays. */
module InteractionReducer {

  import opened Wrappers

  type Id = string
  type Timestamp = string
  /** A sub-document the reducer stores without looking inside it. */
  type Document = string

  datatype Status = Preparing | Ready | Active | HandoffPending | Completed | Failed
  datatype Consent = NotRequired | ConsentPending | Granted | Denied | Revoked
  datatype Disclosure = DisclosurePending | Delivered | Acknowledged | DisclosureFailed
  datatype Degradation = Undegraded | Minor | Major | VoiceOnly | TextOnly | Terminated
  datatype Repair = RepairNone | RecoveringInterruption | OtherRepair(name: string)
  datatype SpeakerRole = Presenter | Participant
  datatype Outcome = Succeeded(persistence: Option<string>) | FailedOutcome(persistence: Option<string>)

  datatype Conversation = Conversation(turnIndex: int, repair: Repair, content: Document, updatedAt: Timestamp)

  datatype State = State(
    sessionId: Id,
    tenantId: Id,
    agentId: Id,
    status: Status,
    presenter: Option<Id>,
    version: int,
    consent: Consent,
    disclosure: Disclosure,
    degradation: Degradation,
    startedAt: Option<Timestamp>,
    updatedAt: Timestamp,
    conversation: Conversation,
    role: Document,
    quality: Document,
    sales: Option<Document>)

  /** The seventeen event payloads, with the fields that validation or the reducer branches on. */
  datatype Body =
    | SessionCreated(agentId: Id, consent: Consent, disclosure: Disclosure, role: Document, initialQuality: Document)
    | SessionPrepared
    | DisclosureDelivered(disclosureStatus: Disclosure)
    | ConsentRecorded(consentStatus: Consent)
    | SessionActivated(presenterId: Id)
    | PresenterChanged(expectedPresenter: Option<Id>, newPresenter: Id)
    | SessionDegraded(level: Degradation)
    | SessionCompleted
    | SessionFailed
    | TurnCommitted(speaker: Id, speakerRole: SpeakerRole, generationId: Option<int>, turnIndex: int,
                    turnRepair: Repair, turnContent: Document)
    | TurnOutcomeRecorded(generation: int, outcome: Outcome, reasonIsSuccess: bool, resultingTurnIndex: int)
    | TurnInterrupted
    | RoleUpdated(newRole: Document)
    | QualityUpdated(newQuality: Document)
    | SalesInstalled(installed: Document)
    | SalesUpdated(updated: Document)
    | SalesUninstalled

  datatype Event = Event(sessionId: Id, tenantId: Id, version: int, occurredAt: Timestamp, body: Body)

  datatype Rejection = InvalidEvent | InvalidState | WrongVersion | WrongIdentity | WrongTransition
  datatype Result = Ok(state: State) | Rejected(why: Rejection)

  const MAX_SAFE := 0x1F_FFFF_FFFF_FFFF
  const MAX_GENERATION := 10_000_000

  /** What the strict event parser guarantees about the modelled fields. */
  predicate WellFormed(e: Event) {
    && 1 <= e.version <= MAX_SAFE
    && match e.body
       case SessionCreated(_, consent, disclosure, _, _) => consent == ConsentPending && disclosure == DisclosurePending
       case DisclosureDelivered(status) => status == Delivered || status == Acknowledged
       case TurnCommitted(_, role, generationId, turnIndex, _, _) =>
         && 1 <= turnIndex <= MAX_SAFE
         && (generationId.Some? ==> 1 <= generationId.value <= MAX_SAFE)
         && (role == Participant ==> generationId.None?)
         && (role == Presenter ==> generationId.Some?)
       case TurnOutcomeRecorded(generation, outcome, reasonIsSuccess, resulting) =>
         && 0 <= generation <= MAX_GENERATION
         && 0 <= resulting <= MAX_SAFE
         && (outcome.Succeeded? <==> reasonIsSuccess)
         && (outcome.Succeeded? <==> outcome.persistence.Some?)
       case _ => true
  }

  predicate ConsentAllows(c: Consent) {
    c == NotRequired || c == Granted
  }

  predicate DisclosureMade(d: Disclosure) {
    d == Delivered || d == Acknowledged
  }

  predicate Terminal(s: State) {
    s.status == Completed || s.status == Failed
  }

  /** The check applied to the previous state before any event is reduced. */
  predicate CurrentStateOk(s: State) {
    && 1 <= s.version <= MAX_SAFE
    && 0 <= s.conversation.turnIndex <= MAX_SAFE
    && if s.status == Active || s.status == HandoffPending then
         && s.presenter.Some?
         && DisclosureMade(s.disclosure)
         && ConsentAllows(s.consent)
         && s.startedAt.Some?
       else
         s.presenter.None?
  }

  function Advance(s: State, e: Event): State {
    s.(version := e.version, updatedAt := e.occurredAt)
  }

  function Initialize(e: Event): Result {
    if !e.body.SessionCreated? then Rejected(WrongTransition)
    else if e.version != 1 then Rejected(WrongVersion)
    else Ok(State(e.sessionId, e.tenantId, e.body.agentId, Preparing, None, e.version, ConsentPending,
                  DisclosurePending, Undegraded, None, e.occurredAt,
                  Conversation(0, RepairNone, "", e.occurredAt), e.body.role, e.body.initialQuality, None))
  }

  function Activate(s: State, e: Event): Result
    requires e.body.SessionActivated?
  {
    if s.status != Ready || !DisclosureMade(s.disclosure) || !ConsentAllows(s.consent) then Rejected(WrongTransition)
    else Ok(Advance(s, e).(status := Active, presenter := Some(e.body.presenterId),
                           startedAt := if s.startedAt.Some? then s.startedAt else Some(e.occurredAt)))
  }

  function ChangePresenter(s: State, e: Event): Result
    requires e.body.PresenterChanged?
  {
    if s.status != Active && s.status != HandoffPending then Rejected(WrongTransition)
    else if s.presenter != e.body.expectedPresenter then Rejected(WrongTransition)
    else Ok(Advance(s, e).(presenter := Some(e.body.newPresenter), status := Active))
  }

  function CommitTurn(s: State, e: Event): Result
    requires e.body.TurnCommitted?
  {
    var b := e.body;
    if s.status != Active || s.presenter.None? then Rejected(WrongTransition)
    else if b.turnIndex != s.conversation.turnIndex + 1 then Rejected(WrongTransition)
    else if b.speakerRole == Presenter && Some(b.speaker) != s.presenter then Rejected(WrongTransition)
    else if b.speakerRole == Participant && Some(b.speaker) == s.presenter then Rejected(WrongTransition)
    else Ok(Advance(s, e).(conversation := Conversation(b.turnIndex, b.turnRepair, b.turnContent, e.occurredAt)))
  }

  function RecordTurnOutcome(s: State, e: Event): Result
    requires e.body.TurnOutcomeRecorded?
  {
    var b := e.body;
    var expected := if b.outcome.Succeeded? then s.conversation.turnIndex + 2 else s.conversation.turnIndex;
    if s.status != Active || s.presenter.None? then Rejected(WrongTransition)
    else if b.generation * 2 != s.conversation.turnIndex then Rejected(WrongTransition)
    else if b.resultingTurnIndex != expected then Rejected(WrongTransition)
    else if b.outcome.FailedOutcome? then Ok(Advance(s, e))
    else Ok(Advance(s, e).(conversation := s.conversation.(turnIndex := expected, updatedAt := e.occurredAt)))
  }

  /** The transition for one event whose version and identifiers already match. */
  function Transition(s: State, e: Event): Result {
    var next := Advance(s, e);
    match e.body
    case SessionCreated(_, _, _, _, _) => Rejected(WrongTransition)
    case SessionPrepared =>
      if s.status == Preparing then Ok(next.(status := Ready)) else Rejected(WrongTransition)
    case DisclosureDelivered(status) =>
      if Terminal(s) then Rejected(WrongTransition) else Ok(next.(disclosure := status))
    case ConsentRecorded(status) =>
      if Terminal(s) then Rejected(WrongTransition) else Ok(next.(consent := status))
    case SessionActivated(_) => Activate(s, e)
    case PresenterChanged(_, _) => ChangePresenter(s, e)
    case SessionDegraded(level) =>
      if Terminal(s) then Rejected(WrongTransition) else Ok(next.(degradation := level))
    case SessionCompleted =>
      if s.status == Ready || s.status == Active || s.status == HandoffPending
      then Ok(next.(status := Completed, presenter := None)) else Rejected(WrongTransition)
    case SessionFailed =>
      if Terminal(s) then Rejected(WrongTransition)
      else Ok(next.(status := Failed, presenter := None, degradation := Terminated))
    case TurnCommitted(_, _, _, _, _, _) => CommitTurn(s, e)
    case TurnOutcomeRecorded(_, _, _, _) => RecordTurnOutcome(s, e)
    case TurnInterrupted =>
      if s.status != Active || s.presenter.None? then Rejected(WrongTransition)
      else Ok(next.(conversation := s.conversation.(repair := RecoveringInterruption, updatedAt := e.occurredAt)))
    case RoleUpdated(role) =>
      if Terminal(s) then Rejected(WrongTransition) else Ok(next.(role := role))
    case QualityUpdated(quality) =>
      if Terminal(s) then Rejected(WrongTransition) else Ok(next.(quality := quality))
    case SalesInstalled(doc) =>
      if s.sales.Some? then Rejected(WrongTransition) else Ok(next.(sales := Some(doc)))
    case SalesUpdated(doc) =>
      if s.sales.None? then Rejected(WrongTransition) else Ok(next.(sales := Some(doc)))
    case SalesUninstalled =>
      if s.sales.None? then Rejected(WrongTransition) else Ok(next.(sales := None))
  }

  /** Applies exactly one event. */
  function Reduce(previous: Option<State>, e: Event): Result {
    if !WellFormed(e) then Rejected(InvalidEvent)
    else if previous.None? then Initialize(e)
    else
      var s := previous.value;
      if !CurrentStateOk(s) then Rejected(InvalidState)
      else if e.version != s.version + 1 then Rejected(WrongVersion)
      else if e.sessionId != s.sessionId || e.tenantId != s.tenantId then Rejected(WrongIdentity)
      else Transition(s, e)
  }

  // ---------------------------------------------------------------- one step

  /** The one way an accepted event leaves an active session with consent it may not have. */
  predicate WithdrawsConsentWhileActive(s: State, e: Event) {
    s.status == Active && e.body.ConsentRecorded? && !ConsentAllows(e.body.consentStatus)
  }

  /** The properties every reachable state has, even the one that blocks all further events. */
  predicate Coherent(s: State) {
    && 1 <= s.version <= MAX_SAFE
    && 0 <= s.conversation.turnIndex <= MAX_SAFE
    && s.status != HandoffPending
    && (s.presenter.Some? <==> s.status == Active)
    && (s.status == Active ==> DisclosureMade(s.disclosure) && s.startedAt.Some?)
  }

  lemma AcceptedStepKeepsCoherence(previous: Option<State>, e: Event)
    requires previous.Some? ==> Coherent(previous.value)
    requires Reduce(previous, e).Ok?
    ensures Coherent(Reduce(previous, e).state)
  {
  }

  /** An accepted step from an acceptable state ends in a state that blocks every later event
      exactly when it records a consent other than not-required or granted while active. */
  lemma OnlyConsentWithdrawalBlocks(s: State, e: Event)
    requires CurrentStateOk(s) && Reduce(Some(s), e).Ok?
    ensures CurrentStateOk(Reduce(Some(s), e).state) <==>
            !(s.status in {Active, HandoffPending} && e.body.ConsentRecorded? && !ConsentAllows(e.body.consentStatus))
    ensures !CurrentStateOk(Reduce(Some(s), e).state) ==>
              forall later: Event :: Reduce(Some(Reduce(Some(s), e).state), later).Rejected?
  {
  }

  predicate IsTurnEvent(e: Event) {
    e.body.TurnCommitted? || e.body.TurnOutcomeRecorded? || e.body.TurnInterrupted?
  }

  predicate IsSalesEvent(e: Event) {
    e.body.SalesInstalled? || e.body.SalesUpdated? || e.body.SalesUninstalled?
  }

  predicate IsSuccess(e: Event) {
    e.body.TurnOutcomeRecorded? && e.body.outcome.Succeeded?
  }

  /** How far one accepted event moves the turn index. */
  function TurnsAdded(e: Event): nat {
    if e.body.TurnCommitted? then 1 else if IsSuccess(e) then 2 else 0
  }

  lemma AcceptedStepMovesCounters(s: State, e: Event)
    requires Reduce(Some(s), e).Ok?
    ensures Reduce(Some(s), e).state.version == s.version + 1
    ensures Reduce(Some(s), e).state.conversation.turnIndex == s.conversation.turnIndex + TurnsAdded(e)
  {
  }

  lemma AcceptedStepKeepsIdentity(s: State, e: Event)
    requires Reduce(Some(s), e).Ok?
    ensures var t := Reduce(Some(s), e).state;
            t.sessionId == s.sessionId && t.tenantId == s.tenantId && t.agentId == s.agentId
  {
  }

  lemma AcceptedStepInTerminalSession(s: State, e: Event)
    requires Reduce(Some(s), e).Ok? && Terminal(s)
    ensures Reduce(Some(s), e).state.status == s.status && IsSalesEvent(e)
  {
  }

  // ---------------------------------------------------------------- whole runs

  datatype Run = NotStarted | At(state: State) | Stopped(why: Rejection)

  /** The aggregate after the first `n` events. */
  function After(events: seq<Event>, n: nat): Run
    requires n <= |events|
  {
    if n == 0 then NotStarted
    else
      var before := After(events, n - 1);
      if before.Stopped? then before
      else
        match Reduce(if before.At? then Some(before.state) else None, events[n - 1])
        case Ok(state) => At(state)
        case Rejected(why) => Stopped(why)
  }

  /** Replays a log from scratch, as one loop. */
  method ReplayInteraction(events: seq<Event>) returns (r: Result)
    ensures events == [] ==> r == Rejected(WrongTransition)
    ensures events != [] ==> After(events, |events|) == if r.Ok? then At(r.state) else Stopped(r.why)
  {
    hide Reduce;
    var state: Option<State> := None;
    for i := 0 to |events|
      invariant After(events, i) == if state.None? then NotStarted else At(state.value)
      invariant state.None? <==> i == 0
    {
      var next := Reduce(state, events[i]);
      assert After(events, i + 1) == if next.Ok? then At(next.state) else Stopped(next.why);
      if next.Rejected? {
        StoppedStays(events, i + 1, |events|);
        return next;
      }
      state := Some(next.state);
    }
    r := if state.Some? then Ok(state.value) else Rejected(WrongTransition);
  }

  lemma {:induction false} StoppedStays(events: seq<Event>, m: nat, n: nat)
    requires m <= n <= |events| && After(events, m).Stopped?
    ensures After(events, n) == After(events, m)
    decreases n
  {
    hide Reduce;
    if m < n {
      StoppedStays(events, m, n - 1);
    }
  }

  /** An accepted log of at least two events is an accepted log followed by one accepted event. */
  lemma LastStep(events: seq<Event>, n: nat)
    requires 1 < n <= |events| && After(events, n).At?
    ensures After(events, n - 1).At?
    ensures Reduce(Some(After(events, n - 1).state), events[n - 1]) == Ok(After(events, n).state)
  {
    hide Reduce;
  }

  /** An accepted log starts with the event that creates the aggregate. */
  lemma FirstStep(events: seq<Event>)
    requires events != [] && After(events, 1).At?
    ensures WellFormed(events[0]) && Initialize(events[0]) == Ok(After(events, 1).state)
  {
    assert After(events, 0) == NotStarted;
  }

  lemma {:induction false} ReachableIsCoherent(events: seq<Event>, n: nat)
    requires n <= |events| && After(events, n).At?
    ensures Coherent(After(events, n).state)
  {
    var before := After(events, n - 1);
    if before.At? {
      ReachableIsCoherent(events, n - 1);
    }
    AcceptedStepKeepsCoherence(if before.At? then Some(before.state) else None, events[n - 1]);
  }

  /** One presenter on an active session with delivered disclosure and allowed consent, and a turn
      spoken by the floor owner exactly when it is a presenter's turn. */
  predicate OpenFloor(s: State, e: Event) {
    && s.status == Active && s.presenter.Some?
    && DisclosureMade(s.disclosure) && ConsentAllows(s.consent)
    && (e.body.TurnCommitted? ==> (e.body.speakerRole == Presenter <==> Some(e.body.speaker) == s.presenter))
  }

  lemma AcceptedTurnNeedsOpenFloor(s: State, e: Event)
    requires Reduce(Some(s), e).Ok? && IsTurnEvent(e)
    ensures OpenFloor(s, e)
  {
  }

  /** In every accepted run, every turn event happened on an open floor. */
  lemma {:induction false} TurnsHappenOnAnOpenFloor(events: seq<Event>, n: nat)
    requires n <= |events| && After(events, n).At?
    ensures forall i :: 0 <= i < n && IsTurnEvent(events[i]) ==>
                          After(events, i).At? && OpenFloor(After(events, i).state, events[i])
  {
    hide Reduce;
    if n == 1 {
      FirstStep(events);
    } else {
      LastStep(events, n);
      TurnsHappenOnAnOpenFloor(events, n - 1);
      if IsTurnEvent(events[n - 1]) {
        AcceptedTurnNeedsOpenFloor(After(events, n - 1).state, events[n - 1]);
      }
    }
  }

  /** A reachable state blocks all further events exactly when the last event withdrew consent
      from an active session. */
  lemma ReachableStateBlocksIffConsentWithdrawn(events: seq<Event>, n: nat)
    requires n <= |events| && After(events, n).At?
    ensures CurrentStateOk(After(events, n).state) <==>
            !(n > 1 && After(events, n - 1).At?
              && WithdrawsConsentWhileActive(After(events, n - 1).state, events[n - 1]))
  {
    if n == 1 {
      FirstStep(events);
    } else {
      LastStep(events, n);
      ReachableIsCoherent(events, n - 1);
      var s := After(events, n - 1).state;
      assert CurrentStateOk(s);
      hide Reduce;
      OnlyConsentWithdrawalBlocks(s, events[n - 1]);
    }
  }

  /** A terminal status is absorbing, and afterwards only sales events are accepted. */
  lemma {:induction false} TerminalIsAbsorbing(events: seq<Event>, i: nat, j: nat)
    requires i <= j <= |events| && After(events, j).At?
    requires After(events, i).At? && Terminal(After(events, i).state)
    ensures After(events, j).state.status == After(events, i).state.status
    ensures forall k :: i <= k < j ==> IsSalesEvent(events[k])
    decreases j
  {
    hide Reduce;
    if i < j {
      LastStep(events, j);
      TerminalIsAbsorbing(events, i, j - 1);
      AcceptedStepInTerminalSession(After(events, j - 1).state, events[j - 1]);
    }
  }

  /** The session, tenant and agent of an aggregate never change. */
  lemma {:induction false} IdentityIsFixed(events: seq<Event>, i: nat, j: nat)
    requires 0 < i <= j <= |events| && After(events, j).At?
    ensures After(events, i).At?
    ensures var s, t := After(events, i).state, After(events, j).state;
            s.sessionId == t.sessionId && s.tenantId == t.tenantId && s.agentId == t.agentId
    decreases j
  {
    hide Reduce;
    if i < j {
      LastStep(events, j);
      IdentityIsFixed(events, i, j - 1);
      AcceptedStepKeepsIdentity(After(events, j - 1).state, events[j - 1]);
    }
  }

  // ---------------------------------------------------------------- the log determines the content

  /** The parts of the state that only record what the log said last. */
  datatype View = View(consent: Consent, disclosure: Disclosure, role: Document, quality: Document,
                       sales: Option<Document>, degradation: Degradation, floor: Option<Id>,
                       startedAt: Option<Timestamp>, repair: Repair, turnContent: Document)

  function ViewOf(s: State): View {
    View(s.consent, s.disclosure, s.role, s.quality, s.sales, s.degradation, s.presenter, s.startedAt,
         s.conversation.repair, s.conversation.content)
  }

  function Observe(v: View, e: Event): View {
    match e.body
    case ConsentRecorded(status) => v.(consent := status)
    case DisclosureDelivered(status) => v.(disclosure := status)
    case RoleUpdated(role) => v.(role := role)
    case QualityUpdated(quality) => v.(quality := quality)
    case SalesInstalled(doc) => v.(sales := Some(doc))
    case SalesUpdated(doc) => v.(sales := Some(doc))
    case SalesUninstalled => v.(sales := None)
    case SessionActivated(presenter) => v.(floor := Some(presenter), startedAt := Some(e.occurredAt))
    case PresenterChanged(_, presenter) => v.(floor := Some(presenter))
    case SessionCompleted => v.(floor := None)
    case SessionDegraded(level) => v.(degradation := level)
    case SessionFailed => v.(floor := None, degradation := Terminated)
    case TurnCommitted(_, _, _, _, repair, content) => v.(repair := repair, turnContent := content)
    case TurnInterrupted => v.(repair := RecoveringInterruption)
    case _ => v
  }

  /** What a reader of the log who checks nothing would record. */
  function LogView(events: seq<Event>, n: nat): View
    requires 0 < n <= |events| && events[0].body.SessionCreated?
  {
    if n == 1 then
      View(events[0].body.consent, events[0].body.disclosure, events[0].body.role, events[0].body.initialQuality,
           None, Undegraded, None, None, RepairNone, "")
    else
      Observe(LogView(events, n - 1), events[n - 1])
  }

  /** A session that was never active has no start time, and only a ready session can be activated. */
  predicate StartRecorded(s: State) {
    s.status == Preparing || s.status == Ready ==> s.startedAt.None?
  }

  lemma AcceptedStepIsObserved(s: State, e: Event)
    requires Reduce(Some(s), e).Ok? && StartRecorded(s)
    ensures ViewOf(Reduce(Some(s), e).state) == Observe(ViewOf(s), e)
    ensures StartRecorded(Reduce(Some(s), e).state)
  {
    hide Transition;
    TransitionIsObserved(s, e);
    TransitionKeepsStartRecorded(s, e);
  }

  lemma TransitionKeepsStartRecorded(s: State, e: Event)
    requires Transition(s, e).Ok? && StartRecorded(s)
    ensures StartRecorded(Transition(s, e).state)
  {
  }

  lemma {:induction false} TurnIsObserved(s: State, e: Event)
    ensures e.body.TurnCommitted? && CommitTurn(s, e).Ok? ==> ViewOf(CommitTurn(s, e).state) == Observe(ViewOf(s), e)
    ensures e.body.TurnOutcomeRecorded? && RecordTurnOutcome(s, e).Ok? ==>
              ViewOf(RecordTurnOutcome(s, e).state) == Observe(ViewOf(s), e)
  {
  }

  lemma {:induction false} FloorChangeIsObserved(s: State, e: Event)
    requires StartRecorded(s)
    ensures e.body.SessionActivated? && Activate(s, e).Ok? ==> ViewOf(Activate(s, e).state) == Observe(ViewOf(s), e)
    ensures e.body.PresenterChanged? && ChangePresenter(s, e).Ok? ==> ViewOf(ChangePresenter(s, e).state) == Observe(ViewOf(s), e)
  {
  }

  predicate ChangesDocuments(e: Event) {
    || e.body.RoleUpdated? || e.body.QualityUpdated?
    || e.body.SalesInstalled? || e.body.SalesUpdated? || e.body.SalesUninstalled?
  }

  lemma {:induction false} DocumentChangeIsObserved(s: State, e: Event)
    requires Transition(s, e).Ok? && ChangesDocuments(e)
    ensures ViewOf(Transition(s, e).state) == Observe(ViewOf(s), e)
  {
    hide CommitTurn, RecordTurnOutcome, Activate, ChangePresenter;
  }

  lemma {:induction false} SessionChangeIsObserved(s: State, e: Event)
    requires Transition(s, e).Ok? && StartRecorded(s) && !ChangesDocuments(e)
    ensures ViewOf(Transition(s, e).state) == Observe(ViewOf(s), e)
  {
    TurnIsObserved(s, e);
    FloorChangeIsObserved(s, e);
    hide CommitTurn, RecordTurnOutcome, Activate, ChangePresenter;
  }

  lemma {:induction false} TransitionIsObserved(s: State, e: Event)
    requires Transition(s, e).Ok? && StartRecorded(s)
    ensures ViewOf(Transition(s, e).state) == Observe(ViewOf(s), e)
  {
    hide Transition, ViewOf, Observe, StartRecorded, ChangesDocuments;
    if ChangesDocuments(e) {
      DocumentChangeIsObserved(s, e);
    } else {
      SessionChangeIsObserved(s, e);
    }
  }

  /** The recorded content of every reachable state is the plain last-writer reading of its log. */
  lemma {:induction false} StateContentIsTheLogView(events: seq<Event>, n: nat)
    requires n <= |events| && After(events, n).At?
    ensures events[0].body.SessionCreated?
    ensures ViewOf(After(events, n).state) == LogView(events, n) && StartRecorded(After(events, n).state)
  {
    hide Reduce;
    if n == 1 {
      FirstStep(events);
    } else {
      LastStep(events, n);
      StateContentIsTheLogView(events, n - 1);
      AcceptedStepIsObserved(After(events, n - 1).state, events[n - 1]);
    }
  }

  // ---------------------------------------------------------------- exactly-once generations

  function Commits(events: seq<Event>, n: nat): nat
    requires n <= |events|
  {
    if n == 0 then 0 else Commits(events, n - 1) + if events[n - 1].body.TurnCommitted? then 1 else 0
  }

  function Successes(events: seq<Event>, n: nat): nat
    requires n <= |events|
  {
    if n == 0 then 0 else Successes(events, n - 1) + if IsSuccess(events[n - 1]) then 1 else 0
  }

  /** The version counts events; the turn index counts committed turns and, twice, succeeded outcomes. */
  lemma {:induction false} CountersMatchTheLog(events: seq<Event>, n: nat)
    requires n <= |events| && After(events, n).At?
    ensures After(events, n).state.version == n
    ensures After(events, n).state.conversation.turnIndex == Commits(events, n) + 2 * Successes(events, n)
  {
    hide Reduce;
    if n == 1 {
      FirstStep(events);
    } else {
      LastStep(events, n);
      CountersMatchTheLog(events, n - 1);
      AcceptedStepMovesCounters(After(events, n - 1).state, events[n - 1]);
    }
  }

  lemma {:induction false} TurnIndexNeverFalls(events: seq<Event>, i: nat, j: nat)
    requires 0 < i <= j <= |events| && After(events, j).At?
    ensures After(events, i).At?
    ensures After(events, i).state.conversation.turnIndex <= After(events, j).state.conversation.turnIndex
    decreases j
  {
    hide Reduce;
    if i < j {
      LastStep(events, j);
      TurnIndexNeverFalls(events, i, j - 1);
      AcceptedStepMovesCounters(After(events, j - 1).state, events[j - 1]);
    }
  }

  lemma OutcomeMatchesTurnIndex(events: seq<Event>, i: nat)
    requires i < |events| && After(events, i + 1).At? && events[i].body.TurnOutcomeRecorded?
    ensures After(events, i).At?
    ensures After(events, i).state.conversation.turnIndex == 2 * events[i].body.generation
    ensures After(events, i + 1).state.conversation.turnIndex == 2 * events[i].body.generation + TurnsAdded(events[i])
  {
  }

  /** Once a generation has succeeded, every later outcome in the run belongs to a later generation:
      so a generation succeeds at most once, and nothing is recorded for it after its success. */
  lemma SucceededGenerationIsFinal(events: seq<Event>, i: nat, j: nat)
    requires i < j < |events| && After(events, j + 1).At?
    requires IsSuccess(events[i]) && events[j].body.TurnOutcomeRecorded?
    ensures events[i].body.generation < events[j].body.generation
  {
    hide Reduce;
    LastStep(events, j + 1);
    TurnIndexNeverFalls(events, i + 1, j);
    OutcomeMatchesTurnIndex(events, i);
    OutcomeMatchesTurnIndex(events, j);
  }

  /** A run that a withdrawn consent blocks: no longer log with this prefix is accepted. */
  lemma WithdrawnConsentEndsTheRun(events: seq<Event>, i: nat, n: nat)
    requires i + 1 < n <= |events| && After(events, i).At?
    requires WithdrawsConsentWhileActive(After(events, i).state, events[i])
    ensures After(events, n).Stopped?
  {
    if After(events, i + 1).At? {
      assert After(events, i + 2).Stopped?;
    }
    StoppedStays(events, if After(events, i + 1).Stopped? then i + 1 else i + 2, n);
  }
}
