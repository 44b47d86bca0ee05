/** The warm-handoff coordinator: proposals, the pending index, and the presenter floor, with every
    operation split at its await so that all interleavings are covered. */
module Handoff {

  import opened Wrappers

  type Presenter = string

  datatype Status = Pending | Accepted | Declined | TimedOut | RolledBack | ConflictSimultaneousRequest

  /** `id` is the N of "handoff-N". */
  datatype Proposal = Proposal(id: nat, tenantId: string, sessionId: string, current: Presenter, target: Presenter,
                               status: Status, expiresAtMs: real)

  datatype Request = Request(tenantId: string, sessionId: string, requestedBy: string, current: Presenter,
                             target: Presenter, packetValid: bool, deadlineMs: real)

  const TENANT_LENGTH := 36
  const MAX_STRING := 200
  const MAX_DEADLINE_MS := 3_600_000.0

  predicate NonEmptyString(s: string) {
    1 <= |s| <= MAX_STRING
  }

  /** What request parsing guarantees; of the tenant pattern only the fixed length matters here. */
  predicate ValidRequest(r: Request) {
    && |r.tenantId| == TENANT_LENGTH
    && NonEmptyString(r.sessionId) && NonEmptyString(r.requestedBy)
    && NonEmptyString(r.current) && NonEmptyString(r.target)
    && r.packetValid
    && 0.0 < r.deadlineMs <= MAX_DEADLINE_MS
  }

  /** The key the coordinator files a session under. */
  function SessionKey(tenantId: string, sessionId: string): string {
    tenantId + ":" + sessionId
  }

  function KeyOf(p: Proposal): string {
    SessionKey(p.tenantId, p.sessionId)
  }

  datatype Store = Store(proposals: map<nat, Proposal>, pending: map<string, nat>, sequence: nat)

  // ---------------------------------------------------------------- synchronous pieces

  /** Marks an overdue pending proposal as timed out. The index entry it tries to delete is filed
      under the bare session identifier, exactly as the code writes it. */
  function ExpireIfNeeded(s: Store, p: Proposal, atMs: real): Store {
    if p.status != Pending || atMs < p.expiresAtMs then s
    else
      Store(s.proposals[p.id := p.(status := TimedOut)],
            if p.sessionId in s.pending && s.pending[p.sessionId] == p.id then s.pending - {p.sessionId} else s.pending,
            s.sequence)
  }

  function Expired(p: Proposal, atMs: real): Proposal {
    if p.status != Pending || atMs < p.expiresAtMs then p else p.(status := TimedOut)
  }

  function ClearPending(pending: map<string, nat>, p: Proposal): map<string, nat> {
    if KeyOf(p) in pending && pending[KeyOf(p)] == p.id then pending - {KeyOf(p)} else pending
  }

  function Resolve(s: Store, p: Proposal, status: Status): Store {
    Store(s.proposals[p.id := p.(status := status)], ClearPending(s.pending, p), s.sequence)
  }

  function Propose(s: Store, r: Request, status: Status, expiresAtMs: real): Proposal {
    Proposal(s.sequence + 1, r.tenantId, r.sessionId, r.current, r.target, status, expiresAtMs)
  }

  /** The store once the session's indexed proposal, if any, has been checked for expiry. */
  function ExpireIndexed(s: Store, key: string, now: real): Store {
    if key in s.pending && s.pending[key] in s.proposals then ExpireIfNeeded(s, s.proposals[s.pending[key]], now) else s
  }

  predicate Blocked(s: Store, key: string, now: real) {
    key in s.pending && s.pending[key] in s.proposals && Expired(s.proposals[s.pending[key]], now).status == Pending
  }

  function AddConflict(s: Store, r: Request, later: real): Store {
    var p := Propose(s, r, ConflictSimultaneousRequest, later);
    Store(s.proposals[p.id := p], s.pending, s.sequence + 1)
  }

  function AddPending(s: Store, r: Request, later: real): Store {
    var p := Propose(s, r, Pending, later + r.deadlineMs);
    Store(s.proposals[p.id := p], s.pending[SessionKey(r.tenantId, r.sessionId) := p.id], s.sequence + 1)
  }

  /** `requestHandoff` up to the notification; the clock is read before and after the expiry check. */
  function RequestHandoff(s: Store, r: Request, now: real, later: real): Store {
    var key := SessionKey(r.tenantId, r.sessionId);
    if !ValidRequest(r) then s
    else if Blocked(s, key, now) then AddConflict(ExpireIndexed(s, key, now), r, later)
    else AddPending(ExpireIndexed(s, key, now), r, later)
  }

  function Decline(s: Store, id: nat, atMs: real): Store {
    if id !in s.proposals then s
    else
      var current := Expired(s.proposals[id], atMs);
      var s1 := ExpireIfNeeded(s, s.proposals[id], atMs);
      if current.status != Pending then s1 else Resolve(s1, current, Declined)
  }

  /** The proposal `acceptHandoff` goes on with after its checks, if it reaches the floor call. */
  function AcceptCandidate(s: Store, id: nat, actor: string, atMs: real): Option<Proposal> {
    if id !in s.proposals then None
    else
      var current := Expired(s.proposals[id], atMs);
      if current.status == Pending && actor == current.target then Some(current) else None
  }

  function RollbackCandidate(s: Store, id: nat): Option<Proposal> {
    if id in s.proposals && s.proposals[id].status == Accepted then Some(s.proposals[id]) else None
  }

  // ---------------------------------------------------------------- interleavings

  datatype Kind = Accepting | RollingBack

  /** An operation waiting on the floor: the proposal it captured, and the floor's answer once given. */
  datatype InFlight = InFlight(kind: Kind, captured: Proposal, answer: Option<bool>)

  /** One successful floor change made for a handoff. */
  datatype Move = Move(id: nat, kind: Kind, from: Presenter, to: Presenter)

  datatype World = World(store: Store, inFlight: seq<InFlight>, floor: map<string, Presenter>, moves: seq<Move>)

  datatype Action =
    | Requests(request: Request, now: real, later: real)
    | StartsAccept(id: nat, actor: string, atMs: real)
    | StartsRollback(id: nat)
    | Declines(id: nat, atMs: real)
    | FloorAnswers(call: nat)
    | Finishes(call: nat)
    | Aborts(call: nat)
    | OthersTakeFloor(key: string, presenter: Presenter)

  function Expected(c: InFlight): Presenter {
    if c.kind == Accepting then c.captured.current else c.captured.target
  }

  function Wanted(c: InFlight): Presenter {
    if c.kind == Accepting then c.captured.target else c.captured.current
  }

  /** The compare-and-swap of the presenter floor. */
  predicate Swaps(floor: map<string, Presenter>, c: InFlight) {
    KeyOf(c.captured) in floor && floor[KeyOf(c.captured)] == Expected(c)
  }

  function Resolved(c: InFlight): Status
    requires c.answer.Some?
  {
    if c.kind == RollingBack then RolledBack else if c.answer.value then Accepted else Declined
  }

  /** What an operation does to the store when its floor call returns. */
  function Finish(s: Store, c: InFlight): Store
    requires c.answer.Some?
  {
    if c.kind == Accepting then Resolve(s, c.captured, Resolved(c))
    else if c.answer.value then s.(proposals := s.proposals[c.captured.id := c.captured.(status := RolledBack)])
    else s
  }

  function Without(calls: seq<InFlight>, k: nat): seq<InFlight>
    requires k < |calls|
  {
    calls[..k] + calls[k + 1..]
  }

  function Next(w: World, a: Action): World {
    match a
    case Requests(r, now, later) => w.(store := RequestHandoff(w.store, r, now, later))
    case StartsAccept(id, actor, atMs) =>
      var candidate := AcceptCandidate(w.store, id, actor, atMs);
      var store := if id in w.store.proposals then ExpireIfNeeded(w.store, w.store.proposals[id], atMs) else w.store;
      w.(store := store,
         inFlight := if candidate.Some? then w.inFlight + [InFlight(Accepting, candidate.value, None)] else w.inFlight)
    case StartsRollback(id) =>
      var candidate := RollbackCandidate(w.store, id);
      w.(inFlight := if candidate.Some? then w.inFlight + [InFlight(RollingBack, candidate.value, None)] else w.inFlight)
    case Declines(id, atMs) => w.(store := Decline(w.store, id, atMs))
    case FloorAnswers(k) =>
      if k < |w.inFlight| && w.inFlight[k].answer.None? then
        var c := w.inFlight[k];
        if Swaps(w.floor, c) then
          w.(floor := w.floor[KeyOf(c.captured) := Wanted(c)],
             moves := w.moves + [Move(c.captured.id, c.kind, Expected(c), Wanted(c))],
             inFlight := w.inFlight[k := c.(answer := Some(true))])
        else
          w.(inFlight := w.inFlight[k := c.(answer := Some(false))])
      else w
    case Finishes(k) =>
      if k < |w.inFlight| && w.inFlight[k].answer.Some? then
        w.(store := Finish(w.store, w.inFlight[k]), inFlight := Without(w.inFlight, k))
      else w
    case Aborts(k) =>
      if k < |w.inFlight| && w.inFlight[k].answer.None? then w.(inFlight := Without(w.inFlight, k)) else w
    case OthersTakeFloor(key, presenter) => w.(floor := w.floor[key := presenter])
  }

  const START := World(Store(map[], map[], 0), [], map[], [])

  function After(actions: seq<Action>, n: nat): World
    requires n <= |actions|
  {
    if n == 0 then START else Next(After(actions, n - 1), actions[n - 1])
  }

  // ---------------------------------------------------------------- one pending proposal per session

  predicate SameHandoff(p: Proposal, q: Proposal) {
    p.(status := Pending) == q.(status := Pending)
  }

  ghost predicate StoreInv(s: Store) {
    && (forall id :: id in s.proposals ==> s.proposals[id].id == id && id <= s.sequence && |s.proposals[id].tenantId| == TENANT_LENGTH)
    && (forall k :: k in s.pending ==> s.pending[k] in s.proposals && KeyOf(s.proposals[s.pending[k]]) == k)
    && (forall id :: id in s.proposals && s.proposals[id].status == Pending ==>
                       KeyOf(s.proposals[id]) in s.pending && s.pending[KeyOf(s.proposals[id])] == id)
  }

  /** Tenant identifiers have one length, so distinct sessions have distinct keys. */
  lemma SessionKeyIsInjective(t1: string, s1: string, t2: string, s2: string)
    requires |t1| == TENANT_LENGTH && |t2| == TENANT_LENGTH
    ensures SessionKey(t1, s1) == SessionKey(t2, s2) <==> t1 == t2 && s1 == s2
  {
    if SessionKey(t1, s1) == SessionKey(t2, s2) {
      assert SessionKey(t1, s1)[..TENANT_LENGTH] == t1 && SessionKey(t2, s2)[..TENANT_LENGTH] == t2;
      assert SessionKey(t1, s1)[TENANT_LENGTH + 1..] == s1 && SessionKey(t2, s2)[TENANT_LENGTH + 1..] == s2;
    }
  }

  /** The deletion inside expiry never fires: index keys carry the tenant prefix, so the bare session
      identifier of a proposal is never the key its own entry is filed under. */
  lemma ExpiryNeverClearsTheIndex(s: Store, id: nat, atMs: real)
    requires StoreInv(s) && id in s.proposals
    ensures ExpireIfNeeded(s, s.proposals[id], atMs).pending == s.pending
  {
    var p := s.proposals[id];
    assert KeyOf(p) != p.sessionId by {
      assert |KeyOf(p)| == |p.tenantId| + 1 + |p.sessionId|;
    }
  }

  /** No step removes a proposal or changes anything in it but its status. */
  predicate Preserves(s: Store, t: Store) {
    && s.sequence <= t.sequence
    && forall id :: id in s.proposals ==> id in t.proposals && SameHandoff(s.proposals[id], t.proposals[id])
  }

  ghost predicate GoodStep(s: Store, t: Store) {
    StoreInv(t) && Preserves(s, t)
  }

  lemma ExpireIsGood(s: Store, id: nat, atMs: real)
    requires StoreInv(s) && id in s.proposals
    ensures GoodStep(s, ExpireIfNeeded(s, s.proposals[id], atMs))
    ensures ExpireIfNeeded(s, s.proposals[id], atMs)
            == s.(proposals := s.proposals[id := Expired(s.proposals[id], atMs)])
  {
    ExpiryNeverClearsTheIndex(s, id, atMs);
  }

  lemma ResolveIsGood(s: Store, p: Proposal, status: Status)
    requires StoreInv(s) && p.id in s.proposals && SameHandoff(p, s.proposals[p.id]) && status != Pending
    ensures GoodStep(s, Resolve(s, p, status))
  {
  }

  lemma RollbackIsGood(s: Store, p: Proposal)
    requires StoreInv(s) && p.id in s.proposals && SameHandoff(p, s.proposals[p.id])
    ensures GoodStep(s, s.(proposals := s.proposals[p.id := p.(status := RolledBack)]))
  {
  }

  lemma AddConflictIsGood(s: Store, r: Request, later: real)
    requires StoreInv(s) && ValidRequest(r)
    ensures GoodStep(s, AddConflict(s, r, later))
  {
  }

  lemma AddPendingIsGood(s: Store, r: Request, later: real)
    requires StoreInv(s) && ValidRequest(r)
    requires var key := SessionKey(r.tenantId, r.sessionId);
             key in s.pending ==> s.proposals[s.pending[key]].status != Pending
    ensures GoodStep(s, AddPending(s, r, later))
  {
  }

  lemma GoodStepsCompose(s: Store, t: Store, u: Store)
    requires GoodStep(s, t) && GoodStep(t, u)
    ensures GoodStep(s, u)
  {
  }

  lemma RequestIsGood(s: Store, r: Request, now: real, later: real)
    requires StoreInv(s)
    ensures GoodStep(s, RequestHandoff(s, r, now, later))
  {
    var key := SessionKey(r.tenantId, r.sessionId);
    var s1 := ExpireIndexed(s, key, now);
    if key in s.pending {
      ExpireIsGood(s, s.pending[key], now);
    }
    assert GoodStep(s, s1);
    if ValidRequest(r) {
      if Blocked(s, key, now) {
        AddConflictIsGood(s1, r, later);
        GoodStepsCompose(s, s1, AddConflict(s1, r, later));
      } else {
        AddPendingIsGood(s1, r, later);
        GoodStepsCompose(s, s1, AddPending(s1, r, later));
      }
    }
  }

  lemma DeclineIsGood(s: Store, id: nat, atMs: real)
    requires StoreInv(s)
    ensures GoodStep(s, Decline(s, id, atMs))
  {
    if id in s.proposals {
      ExpireIsGood(s, id, atMs);
      var current := Expired(s.proposals[id], atMs);
      var s1 := ExpireIfNeeded(s, s.proposals[id], atMs);
      if current.status == Pending {
        ResolveIsGood(s1, current, Declined);
        GoodStepsCompose(s, s1, Resolve(s1, current, Declined));
      }
    }
  }

  predicate CallMatches(s: Store, c: InFlight) {
    && c.captured.id in s.proposals && SameHandoff(c.captured, s.proposals[c.captured.id])
    && c.captured.status == if c.kind == Accepting then Pending else Accepted
  }

  ghost predicate WorldInv(w: World) {
    StoreInv(w.store) && forall k :: 0 <= k < |w.inFlight| ==> CallMatches(w.store, w.inFlight[k])
  }

  lemma FinishIsGood(s: Store, c: InFlight)
    requires StoreInv(s) && CallMatches(s, c) && c.answer.Some?
    ensures GoodStep(s, Finish(s, c))
  {
    if c.kind == Accepting {
      ResolveIsGood(s, c.captured, Resolved(c));
    } else {
      RollbackIsGood(s, c.captured);
    }
  }

  lemma StoreStepIsGood(w: World, a: Action)
    requires WorldInv(w)
    ensures GoodStep(w.store, Next(w, a).store)
  {
    match a
    case Requests(r, now, later) => RequestIsGood(w.store, r, now, later);
    case Declines(id, atMs) => DeclineIsGood(w.store, id, atMs);
    case StartsAccept(id, actor, atMs) =>
      if id in w.store.proposals {
        ExpireIsGood(w.store, id, atMs);
      }
    case Finishes(k) =>
      if k < |w.inFlight| && w.inFlight[k].answer.Some? {
        FinishIsGood(w.store, w.inFlight[k]);
      }
    case _ =>
  }

  lemma StillMatches(s: Store, t: Store, c: InFlight, d: InFlight)
    requires CallMatches(s, c) && Preserves(s, t) && c.captured == d.captured && c.kind == d.kind
    ensures CallMatches(t, d)
  {
    assert SameHandoff(s.proposals[c.captured.id], t.proposals[c.captured.id]);
  }

  lemma NewCallMatches(s: Store, id: nat, actor: string, atMs: real)
    requires StoreInv(s) && id in s.proposals
    ensures AcceptCandidate(s, id, actor, atMs).Some? ==>
              CallMatches(ExpireIfNeeded(s, s.proposals[id], atMs),
                          InFlight(Accepting, AcceptCandidate(s, id, actor, atMs).value, None))
    ensures RollbackCandidate(s, id).Some? ==>
              CallMatches(s, InFlight(RollingBack, RollbackCandidate(s, id).value, None))
  {
  }

  /** Every call after a step was a call before it, or is the one just started. */
  lemma {:induction false} CallContinues(w: World, a: Action, k: nat) returns (j: nat)
    requires k < |Next(w, a).inFlight| && !(|Next(w, a).inFlight| > |w.inFlight| && k == |w.inFlight|)
    ensures j < |w.inFlight|
    ensures Next(w, a).inFlight[k].captured == w.inFlight[j].captured && Next(w, a).inFlight[k].kind == w.inFlight[j].kind
  {
    hide RequestHandoff, Decline, ExpireIfNeeded, Finish, KeyOf, AcceptCandidate, RollbackCandidate, Swaps, Wanted, Expected;
    j := if |Next(w, a).inFlight| < |w.inFlight| && k >= a.call then k + 1 else k;
  }

  lemma {:induction false} CallsAfterStep(w: World, a: Action, k: nat)
    requires WorldInv(w) && k < |Next(w, a).inFlight|
    ensures CallMatches(Next(w, a).store, Next(w, a).inFlight[k])
  {
    hide Next, StoreInv, CallMatches, Preserves;
    StoreStepIsGood(w, a);
    if |Next(w, a).inFlight| > |w.inFlight| && k == |w.inFlight| {
      StartedCallMatches(w, a);
    } else {
      var j := CallContinues(w, a, k);
      StillMatches(w.store, Next(w, a).store, w.inFlight[j], Next(w, a).inFlight[k]);
    }
  }

  lemma StartedCallMatches(w: World, a: Action)
    requires WorldInv(w) && |Next(w, a).inFlight| > |w.inFlight|
    ensures CallMatches(Next(w, a).store, Next(w, a).inFlight[|w.inFlight|])
  {
    CandidateIsKnown(w.store, a);
    hide CallMatches, AcceptCandidate, RollbackCandidate, ExpireIfNeeded, Swaps, KeyOf;
    NewCallMatches(w.store, a.id, if a.StartsAccept? then a.actor else "", if a.StartsAccept? then a.atMs else 0.0);
  }

  lemma CandidateIsKnown(s: Store, a: Action)
    ensures a.StartsAccept? && AcceptCandidate(s, a.id, a.actor, a.atMs).Some? ==> a.id in s.proposals
    ensures a.StartsRollback? && RollbackCandidate(s, a.id).Some? ==> a.id in s.proposals
  {
  }

  lemma {:induction false} ReachableInv(actions: seq<Action>, n: nat)
    requires n <= |actions|
    ensures WorldInv(After(actions, n))
  {
    if n > 0 {
      ReachableInv(actions, n - 1);
      var w, a := After(actions, n - 1), actions[n - 1];
      StoreStepIsGood(w, a);
      forall k | 0 <= k < |Next(w, a).inFlight|
        ensures CallMatches(Next(w, a).store, Next(w, a).inFlight[k])
      {
        CallsAfterStep(w, a, k);
      }
    }
  }

  /** In every interleaving, at most one proposal per tenant and session is pending, and the pending
      index names it. */
  lemma OnePendingPerSession(actions: seq<Action>, n: nat, x: nat, y: nat)
    requires n <= |actions|
    requires var ps := After(actions, n).store.proposals;
             x in ps && y in ps && ps[x].status == Pending && ps[y].status == Pending
             && ps[x].tenantId == ps[y].tenantId && ps[x].sessionId == ps[y].sessionId
    ensures x == y
    ensures var s := After(actions, n).store;
            KeyOf(s.proposals[x]) in s.pending && s.pending[KeyOf(s.proposals[x])] == x
  {
    ReachableInv(actions, n);
  }

  // ---------------------------------------------------------------- what one finish may do

  /** The moves a handoff's status is meant to make. */
  predicate LegalMove(x: Status, y: Status) {
    || x == y
    || (x == Pending && (y == Accepted || y == Declined || y == TimedOut))
    || (x == Accepted && y == RolledBack)
  }

  /** A finishing call makes a legal move exactly when nothing else changed the proposal since the call
      captured it, or what it writes is already there. */
  lemma FinishIsLegalIff(w: World, k: nat)
    requires WorldInv(w) && k < |w.inFlight| && w.inFlight[k].answer.Some?
    requires w.inFlight[k].kind == RollingBack ==> w.inFlight[k].answer.value
    ensures var c := w.inFlight[k];
            var id := c.captured.id;
            var before, after := w.store.proposals[id].status, Next(w, Finishes(k)).store.proposals[id].status;
            after == Resolved(c)
            && (LegalMove(before, after) <==> before == c.captured.status || before == Resolved(c))
  {
    assert CallMatches(w.store, w.inFlight[k]);
    assert w.inFlight[k].kind == RollingBack ==> w.inFlight[k].captured.status == Accepted;
  }

  /** The two accepts both pass their checks before the floor answers either. */
  lemma {:induction false} BothAcceptsReachTheFloor(r: Request)
    requires ValidRequest(r)
    ensures var key := SessionKey(r.tenantId, r.sessionId);
            After(OverlappingAccepts(r), 4)
            == World(Store(map[1 := OverlappingProposal(r)], map[key := 1], 1),
                     [InFlight(Accepting, OverlappingProposal(r), None), InFlight(Accepting, OverlappingProposal(r), None)],
                     map[key := r.current], [])
  {
    var actions := OverlappingAccepts(r);
    var key := SessionKey(r.tenantId, r.sessionId);
    var indexed := Store(map[1 := OverlappingProposal(r)], map[key := 1], 1);
    assert After(actions, 1) == World(START.store, [], map[key := r.current], []);
    assert After(actions, 2) == World(indexed, [], map[key := r.current], []);
    assert After(actions, 3) == World(indexed, [InFlight(Accepting, OverlappingProposal(r), None)], map[key := r.current], []);
  }

  function OverlappingProposal(r: Request): Proposal {
    Proposal(1, r.tenantId, r.sessionId, r.current, r.target, Pending, 0.0 + r.deadlineMs)
  }

  /** The first accept moves the floor; the second finds it moved. */
  lemma {:induction false} BothAcceptsAreAnswered(r: Request)
    requires ValidRequest(r) && r.current != r.target
    ensures var key, p := SessionKey(r.tenantId, r.sessionId), OverlappingProposal(r);
            var call := InFlight(Accepting, p, None);
            After(OverlappingAccepts(r), 6)
            == World(Store(map[1 := p], map[key := 1], 1), [call.(answer := Some(true)), call.(answer := Some(false))],
                     map[key := r.target], [Move(1, Accepting, r.current, r.target)])
  {
    BothAcceptsReachTheFloor(r);
    var actions := OverlappingAccepts(r);
    var key := SessionKey(r.tenantId, r.sessionId);
    hide SessionKey, RequestHandoff, Decline, ExpireIfNeeded, AcceptCandidate, RollbackCandidate;
    var p := OverlappingProposal(r);
    assert KeyOf(p) == key;
    var call := InFlight(Accepting, p, None);
    assert After(actions, 5) == World(Store(map[1 := p], map[key := 1], 1), [call.(answer := Some(true)), call],
                                      map[key := r.target], [Move(1, Accepting, r.current, r.target)]);
  }

  /** Two accepts of one proposal that overlap at the floor call: the first moves the floor and records
      the acceptance, the second finds the floor moved and overwrites it with a refusal. */
  lemma {:induction false} OverlappingAcceptsCanLoseAnAcceptance(r: Request)
    requires ValidRequest(r) && r.current != r.target
    ensures var actions := OverlappingAccepts(r);
            After(actions, 7).store.proposals.Keys == {1}
            && After(actions, 7).store.proposals[1].status == Accepted
            && After(actions, 8).store.proposals[1].status == Declined
            && After(actions, 8).floor == map[SessionKey(r.tenantId, r.sessionId) := r.target]
            && !LegalMove(Accepted, Declined)
  {
    BothAcceptsAreAnswered(r);
    var actions := OverlappingAccepts(r);
    var key := SessionKey(r.tenantId, r.sessionId);
    hide SessionKey, RequestHandoff, Decline, ExpireIfNeeded, AcceptCandidate, RollbackCandidate;
    var p := OverlappingProposal(r);
    assert KeyOf(p) == key;
    assert After(actions, 7) == World(Store(map[1 := p.(status := Accepted)], map[], 1),
                                      [InFlight(Accepting, p, Some(false))],
                                      map[key := r.target], [Move(1, Accepting, r.current, r.target)]);
  }

  function OverlappingAccepts(r: Request): seq<Action> {
    [OthersTakeFloor(SessionKey(r.tenantId, r.sessionId), r.current), Requests(r, 0.0, 0.0),
     StartsAccept(1, r.target, 0.0), StartsAccept(1, r.target, 0.0),
     FloorAnswers(0), FloorAnswers(1), Finishes(0), Finishes(0)]
  }

  // ---------------------------------------------------------------- serialized runs

  /** One operation run to completion before the next begins; the floor may still be taken by others. */
  datatype Op =
    | RequestOp(request: Request, now: real, later: real)
    | AcceptOp(id: nat, actor: string, atMs: real, floorFails: bool)
    | DeclineOp(id: nat, atMs: real)
    | RollbackOp(id: nat, floorFails: bool)
    | OtherOp(key: string, presenter: Presenter)

  /** Starts an operation and, if it reached the floor, lets the floor answer and the operation finish. */
  function Complete(w: World, start: Action, floorFails: bool): World {
    var w1 := Next(w, start);
    if |w1.inFlight| == |w.inFlight| then w1
    else if floorFails then Next(w1, Aborts(|w.inFlight|))
    else Next(Next(w1, FloorAnswers(|w.inFlight|)), Finishes(|w.inFlight|))
  }

  function SerialNext(w: World, op: Op): World {
    match op
    case RequestOp(r, now, later) => Next(w, Requests(r, now, later))
    case AcceptOp(id, actor, atMs, floorFails) => Complete(w, StartsAccept(id, actor, atMs), floorFails)
    case DeclineOp(id, atMs) => Next(w, Declines(id, atMs))
    case RollbackOp(id, floorFails) => Complete(w, StartsRollback(id), floorFails)
    case OtherOp(key, presenter) => Next(w, OthersTakeFloor(key, presenter))
  }

  function SerialAfter(ops: seq<Op>, n: nat): World
    requires n <= |ops|
  {
    if n == 0 then START else SerialNext(SerialAfter(ops, n - 1), ops[n - 1])
  }

  function MovesOf(moves: seq<Move>, id: nat, kind: Kind): nat {
    if moves == [] then 0
    else MovesOf(moves[..|moves| - 1], id, kind)
         + if moves[|moves| - 1].id == id && moves[|moves| - 1].kind == kind then 1 else 0
  }

  /** The floor changes a handoff in this status should have made. */
  function Expects(status: Status, kind: Kind): nat {
    if kind == Accepting then if status == Accepted || status == RolledBack then 1 else 0
    else if status == RolledBack then 1 else 0
  }

  predicate MovesMatch(w: World, id: nat, kind: Kind) {
    MovesOf(w.moves, id, kind) == if id in w.store.proposals then Expects(w.store.proposals[id].status, kind) else 0
  }

  /** A move of a handoff goes from its expected presenter to its wanted one. */
  predicate MoveIsRight(s: Store, m: Move) {
    && m.id in s.proposals
    && m.from == (if m.kind == Accepting then s.proposals[m.id].current else s.proposals[m.id].target)
    && m.to == (if m.kind == Accepting then s.proposals[m.id].target else s.proposals[m.id].current)
  }

  ghost predicate SerialInv(w: World) {
    && StoreInv(w.store) && w.inFlight == []
    && (forall id, kind :: MovesMatch(w, id, kind))
    && (forall i :: 0 <= i < |w.moves| ==> MoveIsRight(w.store, w.moves[i]))
  }

  lemma {:induction false} AcceptStarts(w: World, id: nat, actor: string, atMs: real)
    requires WorldInv(w) && w.inFlight == [] && AcceptCandidate(w.store, id, actor, atMs).Some?
    ensures id in w.store.proposals && w.store.proposals[id].status == Pending && w.store.proposals[id].id == id
    ensures Next(w, StartsAccept(id, actor, atMs)) == w.(inFlight := [InFlight(Accepting, w.store.proposals[id], None)])
  {
    hide CallMatches;
    var p := w.store.proposals[id];
    assert Expired(p, atMs) == p && ExpireIfNeeded(w.store, p, atMs) == w.store;
  }

  lemma {:induction false} RollbackStarts(w: World, id: nat)
    requires WorldInv(w) && w.inFlight == [] && RollbackCandidate(w.store, id).Some?
    ensures id in w.store.proposals && w.store.proposals[id].status == Accepted && w.store.proposals[id].id == id
    ensures Next(w, StartsRollback(id)) == w.(inFlight := [InFlight(RollingBack, w.store.proposals[id], None)])
  {
    hide CallMatches;
  }

  /** How the one call in flight ends: the floor answers and the operation finishes, or the floor fails. */
  lemma {:induction false} OnlyCallEnds(w: World, c: InFlight)
    requires w.inFlight == [c] && c.answer.None?
    ensures Next(w, Aborts(0)) == w.(inFlight := [])
    ensures var swapped := Swaps(w.floor, c);
            Next(Next(w, FloorAnswers(0)), Finishes(0))
            == World(Finish(w.store, c.(answer := Some(swapped))), [],
                     if swapped then w.floor[KeyOf(c.captured) := Wanted(c)] else w.floor,
                     if swapped then w.moves + [Move(c.captured.id, c.kind, Expected(c), Wanted(c))] else w.moves)
  {
    hide Finish, KeyOf, Swaps, Wanted, Expected, RequestHandoff, Decline, ExpireIfNeeded, AcceptCandidate, RollbackCandidate;
    var answered := Next(w, FloorAnswers(0));
    assert answered.inFlight == [c.(answer := Some(Swaps(w.floor, c)))];
    assert Without(w.inFlight, 0) == [] && Without(answered.inFlight, 0) == [];
  }

  /** The closed form of an accept that is not interleaved with anything. */
  lemma {:induction false} AcceptAlone(w: World, id: nat, actor: string, atMs: real)
    requires WorldInv(w) && w.inFlight == [] && AcceptCandidate(w.store, id, actor, atMs).Some?
    ensures var p := w.store.proposals[id];
            var swapped := KeyOf(p) in w.floor && w.floor[KeyOf(p)] == p.current;
            p.status == Pending && p.id == id
            && Complete(w, StartsAccept(id, actor, atMs), false)
               == World(Resolve(w.store, p, if swapped then Accepted else Declined), [],
                        if swapped then w.floor[KeyOf(p) := p.target] else w.floor,
                        if swapped then w.moves + [Move(id, Accepting, p.current, p.target)] else w.moves)
    ensures Complete(w, StartsAccept(id, actor, atMs), true) == w
  {
    hide Next, StoreInv, CallMatches, KeyOf, Resolve, AcceptCandidate;
    AcceptStarts(w, id, actor, atMs);
    var c := InFlight(Accepting, w.store.proposals[id], None);
    OnlyCallEnds(w.(inFlight := [c]), c);
  }

  lemma {:induction false} RollbackAlone(w: World, id: nat)
    requires WorldInv(w) && w.inFlight == [] && RollbackCandidate(w.store, id).Some?
    ensures var p := w.store.proposals[id];
            var swapped := KeyOf(p) in w.floor && w.floor[KeyOf(p)] == p.target;
            p.status == Accepted && p.id == id
            && Complete(w, StartsRollback(id), false)
               == if swapped then
                    World(w.store.(proposals := w.store.proposals[id := p.(status := RolledBack)]), [],
                          w.floor[KeyOf(p) := p.current], w.moves + [Move(id, RollingBack, p.target, p.current)])
                  else w
    ensures Complete(w, StartsRollback(id), true) == w
  {
    hide Next, StoreInv, CallMatches, KeyOf, RollbackCandidate;
    RollbackStarts(w, id);
    var c := InFlight(RollingBack, w.store.proposals[id], None);
    OnlyCallEnds(w.(inFlight := [c]), c);
  }

  predicate LegalStatuses(s: Store, t: Store) {
    && (forall id :: id in s.proposals ==> id in t.proposals && LegalMove(s.proposals[id].status, t.proposals[id].status))
    && (forall id :: id in t.proposals && id !in s.proposals ==>
                       t.proposals[id].status == Pending || t.proposals[id].status == ConflictSimultaneousRequest)
  }

  /** Legal, and no handoff was accepted or rolled back. */
  predicate QuietStatuses(s: Store, t: Store) {
    && LegalStatuses(s, t)
    && forall id :: id in s.proposals && s.proposals[id].status != t.proposals[id].status ==>
                      t.proposals[id].status != Accepted && t.proposals[id].status != RolledBack
  }

  lemma ExpireIsQuiet(s: Store, id: nat, atMs: real)
    requires StoreInv(s) && id in s.proposals
    ensures QuietStatuses(s, ExpireIfNeeded(s, s.proposals[id], atMs))
  {
  }

  lemma AddIsQuiet(s: Store, p: Proposal, pending: map<string, nat>)
    requires p.id !in s.proposals && (p.status == Pending || p.status == ConflictSimultaneousRequest)
    ensures QuietStatuses(s, Store(s.proposals[p.id := p], pending, s.sequence + 1))
  {
  }

  lemma QuietAfterExpiry(s: Store, t: Store, u: Store)
    requires QuietStatuses(s, t) && t.proposals.Keys == s.proposals.Keys && QuietStatuses(t, u)
    requires forall id :: id in t.proposals ==> u.proposals[id] == t.proposals[id]
    ensures QuietStatuses(s, u)
  {
  }

  lemma ExpireIndexedIsQuiet(s: Store, key: string, now: real)
    requires StoreInv(s)
    ensures var t := ExpireIndexed(s, key, now);
            QuietStatuses(s, t) && t.proposals.Keys == s.proposals.Keys && t.sequence + 1 !in t.proposals
  {
    if key in s.pending {
      ExpireIsQuiet(s, s.pending[key], now);
      ExpireIsGood(s, s.pending[key], now);
    }
  }

  /** A valid request adds one new proposal, pending or in conflict, to the store after the expiry check. */
  lemma {:induction false} RequestAdds(s: Store, r: Request, now: real, later: real) returns (p: Proposal, pending: map<string, nat>)
    requires ValidRequest(r)
    ensures var t := ExpireIndexed(s, SessionKey(r.tenantId, r.sessionId), now);
            && p.id == t.sequence + 1 && (p.status == Pending || p.status == ConflictSimultaneousRequest)
            && RequestHandoff(s, r, now, later) == Store(t.proposals[p.id := p], pending, t.sequence + 1)
  {
    hide ExpireIndexed, Blocked;
    var key := SessionKey(r.tenantId, r.sessionId);
    var t := ExpireIndexed(s, key, now);
    if Blocked(s, key, now) {
      p, pending := Propose(t, r, ConflictSimultaneousRequest, later), t.pending;
    } else {
      p, pending := Propose(t, r, Pending, later + r.deadlineMs), t.pending[key := t.sequence + 1];
    }
  }

  lemma {:induction false} RequestIsQuiet(s: Store, r: Request, now: real, later: real)
    requires StoreInv(s)
    ensures QuietStatuses(s, RequestHandoff(s, r, now, later))
  {
    if ValidRequest(r) {
      var key := SessionKey(r.tenantId, r.sessionId);
      var t := ExpireIndexed(s, key, now);
      ExpireIndexedIsQuiet(s, key, now);
      hide ExpireIndexed, RequestHandoff, StoreInv, QuietStatuses, SessionKey;
      var p, pending := RequestAdds(s, r, now, later);
      AddIsQuiet(t, p, pending);
      QuietAfterExpiry(s, t, RequestHandoff(s, r, now, later));
    } else {
      NothingIsQuiet(s);
    }
  }

  lemma NothingIsQuiet(s: Store)
    ensures QuietStatuses(s, s)
  {
  }

  lemma DeclineIsQuiet(s: Store, id: nat, atMs: real)
    requires StoreInv(s)
    ensures QuietStatuses(s, Decline(s, id, atMs))
  {
  }

  lemma QuietStepKeepsMoves(w: World, t: World)
    requires SerialInv(w) && GoodStep(w.store, t.store) && QuietStatuses(w.store, t.store)
    requires t.inFlight == [] && t.moves == w.moves
    ensures SerialInv(t)
  {
    forall id, kind
      ensures MovesMatch(t, id, kind)
    {
      assert MovesMatch(w, id, kind);
    }
    forall i | 0 <= i < |t.moves|
      ensures MoveIsRight(t.store, t.moves[i])
    {
      assert MoveIsRight(w.store, w.moves[i]);
      assert SameHandoff(w.store.proposals[w.moves[i].id], t.store.proposals[w.moves[i].id]);
    }
  }

  /** An accept or rollback that moved the floor: one status change and its one move. */
  lemma LoudStepKeepsMoves(w: World, t: World, m: Move)
    requires SerialInv(w) && GoodStep(w.store, t.store) && t.inFlight == []
    requires t.moves == w.moves + [m] && MoveIsRight(t.store, m) && m.id in w.store.proposals
    requires t.store.proposals.Keys == w.store.proposals.Keys
    requires forall id :: id in w.store.proposals && id != m.id ==> t.store.proposals[id].status == w.store.proposals[id].status
    requires if m.kind == Accepting
             then w.store.proposals[m.id].status == Pending && t.store.proposals[m.id].status == Accepted
             else w.store.proposals[m.id].status == Accepted && t.store.proposals[m.id].status == RolledBack
    ensures SerialInv(t)
  {
    assert t.moves[..|w.moves|] == w.moves;
    forall id, kind
      ensures MovesMatch(t, id, kind)
    {
      assert MovesMatch(w, id, kind);
    }
    forall i | 0 <= i < |t.moves|
      ensures MoveIsRight(t.store, t.moves[i])
    {
      if i < |w.moves| {
        assert t.moves[i] == w.moves[i];
        assert MoveIsRight(w.store, w.moves[i]);
        assert SameHandoff(w.store.proposals[w.moves[i].id], t.store.proposals[w.moves[i].id]);
      }
    }
  }

  /** Resolving a pending proposal is a legal move, quiet if it is a refusal. */
  lemma ResolveStatuses(s: Store, id: nat)
    requires StoreInv(s) && id in s.proposals && s.proposals[id].status == Pending
    ensures LegalStatuses(s, Resolve(s, s.proposals[id], Accepted))
    ensures QuietStatuses(s, Resolve(s, s.proposals[id], Declined))
  {
  }

  lemma SerialAccept(w: World, id: nat, actor: string, atMs: real, floorFails: bool)
    requires SerialInv(w)
    ensures var t := Complete(w, StartsAccept(id, actor, atMs), floorFails);
            SerialInv(t) && LegalStatuses(w.store, t.store)
  {
    var t := Complete(w, StartsAccept(id, actor, atMs), floorFails);
    if AcceptCandidate(w.store, id, actor, atMs).None? {
      if id in w.store.proposals {
        ExpireIsGood(w.store, id, atMs);
        ExpireIsQuiet(w.store, id, atMs);
        QuietStepKeepsMoves(w, t);
      }
    } else {
      AcceptAlone(w, id, actor, atMs);
      hide Complete, AcceptCandidate, StoreInv, MovesMatch, KeyOf;
      if !floorFails {
        SerialAcceptAnswered(w, t, id);
      }
    }
  }

  /** Resolving changes one status and nothing else in the proposals. */
  lemma {:induction false} ResolveOnly(s: Store, id: nat, status: Status)
    requires StoreInv(s) && id in s.proposals
    ensures var t := Resolve(s, s.proposals[id], status);
            && t.proposals.Keys == s.proposals.Keys && t.proposals[id] == s.proposals[id].(status := status)
            && forall other :: other in s.proposals && other != id ==> t.proposals[other] == s.proposals[other]
  {
    hide ClearPending, KeyOf;
  }

  lemma {:induction false} SerialAccepted(w: World, t: World, id: nat)
    requires SerialInv(w) && id in w.store.proposals && w.store.proposals[id].status == Pending
    requires var p := w.store.proposals[id];
             && t.inFlight == [] && p.id == id
             && t.store == Resolve(w.store, p, Accepted) && t.moves == w.moves + [Move(id, Accepting, p.current, p.target)]
    ensures SerialInv(t)
  {
    var p := w.store.proposals[id];
    ResolveIsGood(w.store, p, Accepted);
    ResolveOnly(w.store, id, Accepted);
    hide StoreInv, MovesMatch, Preserves, Resolve, SerialInv;
    LoudStepKeepsMoves(w, t, Move(id, Accepting, p.current, p.target));
  }

  lemma {:induction false} SerialAcceptAnswered(w: World, t: World, id: nat)
    requires SerialInv(w) && id in w.store.proposals && w.store.proposals[id].status == Pending
    requires var p := w.store.proposals[id];
             && t.inFlight == []
             && ((t.store == Resolve(w.store, p, Declined) && t.moves == w.moves)
                 || (t.store == Resolve(w.store, p, Accepted) && t.moves == w.moves + [Move(id, Accepting, p.current, p.target)]))
    ensures SerialInv(t) && LegalStatuses(w.store, t.store)
  {
    var p := w.store.proposals[id];
    ResolveStatuses(w.store, id);
    assert p.id == id;
    hide Resolve, MovesMatch, LegalStatuses;
    if t.moves == w.moves {
      ResolveIsGood(w.store, p, Declined);
      hide StoreInv;
      QuietStepKeepsMoves(w, t);
    } else {
      SerialAccepted(w, t, id);
    }
  }

  lemma {:induction false} NothingToRollBack(w: World, id: nat, floorFails: bool)
    requires RollbackCandidate(w.store, id).None?
    ensures Complete(w, StartsRollback(id), floorFails) == w
  {
  }

  /** An unchanged store moves no status. */
  lemma {:induction false} NothingMoved(s: Store)
    ensures LegalStatuses(s, s)
  {
  }

  lemma {:induction false} SerialRolledBack(w: World, t: World, id: nat)
    requires SerialInv(w) && id in w.store.proposals && w.store.proposals[id].status == Accepted
    requires var p := w.store.proposals[id];
             && p.id == id && t.inFlight == [] && t.store == w.store.(proposals := w.store.proposals[id := p.(status := RolledBack)])
             && t.moves == w.moves + [Move(id, RollingBack, p.target, p.current)]
    ensures SerialInv(t) && LegalStatuses(w.store, t.store)
  {
    var p := w.store.proposals[id];
    RollbackIsGood(w.store, p);
    hide StoreInv, MovesMatch, KeyOf, SerialInv;
    LoudStepKeepsMoves(w, t, Move(id, RollingBack, p.target, p.current));
  }

  lemma {:induction false} SerialRollback(w: World, id: nat, floorFails: bool)
    requires SerialInv(w)
    ensures var t := Complete(w, StartsRollback(id), floorFails);
            SerialInv(t) && LegalStatuses(w.store, t.store)
  {
    var t := Complete(w, StartsRollback(id), floorFails);
    hide Complete, RollbackCandidate, StoreInv, MovesMatch, KeyOf, LegalStatuses;
    NothingMoved(w.store);
    if RollbackCandidate(w.store, id).None? {
      NothingToRollBack(w, id, floorFails);
    } else {
      RollbackAlone(w, id);
      RollbackCandidateIsStored(w.store, id);
      if t != w {
        SerialRolledBack(w, t, id);
      }
    }
  }

  lemma {:induction false} RollbackCandidateIsStored(s: Store, id: nat)
    requires RollbackCandidate(s, id).Some?
    ensures id in s.proposals
  {
  }

  lemma SerialStep(w: World, op: Op)
    requires SerialInv(w)
    ensures SerialInv(SerialNext(w, op)) && LegalStatuses(w.store, SerialNext(w, op).store)
  {
    match op
    case AcceptOp(id, actor, atMs, floorFails) => SerialAccept(w, id, actor, atMs, floorFails);
    case RollbackOp(id, floorFails) => SerialRollback(w, id, floorFails);
    case RequestOp(r, now, later) =>
      RequestIsQuiet(w.store, r, now, later);
      RequestIsGood(w.store, r, now, later);
      QuietStepKeepsMoves(w, SerialNext(w, op));
    case DeclineOp(id, atMs) =>
      DeclineIsQuiet(w.store, id, atMs);
      DeclineIsGood(w.store, id, atMs);
      QuietStepKeepsMoves(w, SerialNext(w, op));
    case OtherOp(key, presenter) =>
      QuietStepKeepsMoves(w, SerialNext(w, op));
  }

  lemma {:induction false} SerialReachable(ops: seq<Op>, n: nat)
    requires n <= |ops|
    ensures SerialInv(SerialAfter(ops, n))
  {
    if n == 0 {
      forall id, kind
        ensures MovesMatch(START, id, kind)
      {
      }
    } else {
      SerialReachable(ops, n - 1);
      hide SerialNext, SerialInv;
      SerialStep(SerialAfter(ops, n - 1), ops[n - 1]);
    }
  }

  /** The furthest a status can be from another by legal moves. */
  predicate LegalPath(x: Status, y: Status) {
    LegalMove(x, y) || (x == Pending && y == RolledBack)
  }

  /** In a serialized run a handoff's status only moves forward: pending to accepted, declined or timed
      out, and accepted to rolled back; conflicts and the final statuses never change. */
  lemma {:induction false} SerializedStatusesMoveForward(ops: seq<Op>, i: nat, j: nat, id: nat)
    requires i <= j <= |ops| && id in SerialAfter(ops, i).store.proposals
    ensures id in SerialAfter(ops, j).store.proposals
    ensures LegalPath(SerialAfter(ops, i).store.proposals[id].status, SerialAfter(ops, j).store.proposals[id].status)
    decreases j
  {
    if i < j {
      SerializedStatusesMoveForward(ops, i, j - 1, id);
      SerialReachable(ops, j - 1);
      hide SerialNext, SerialInv;
      SerialStep(SerialAfter(ops, j - 1), ops[j - 1]);
    }
  }

  /** In a serialized run every accepted handoff moved the floor exactly once for its acceptance, every
      rolled-back one exactly once more, and no other handoff moved it; each acceptance went from the
      proposal's current presenter to its target and each rollback back again. */
  lemma SerializedFloorMoves(ops: seq<Op>, n: nat, id: nat)
    requires n <= |ops|
    ensures var w := SerialAfter(ops, n);
            && MovesOf(w.moves, id, Accepting)
               == (if id in w.store.proposals && w.store.proposals[id].status in {Accepted, RolledBack} then 1 else 0)
            && MovesOf(w.moves, id, RollingBack)
               == (if id in w.store.proposals && w.store.proposals[id].status == RolledBack then 1 else 0)
            && (forall i :: 0 <= i < |w.moves| && w.moves[i].id == id ==>
                              id in w.store.proposals &&
                              var p := w.store.proposals[id];
                              if w.moves[i].kind == Accepting then w.moves[i].from == p.current && w.moves[i].to == p.target
                              else w.moves[i].from == p.target && w.moves[i].to == p.current)
  {
    SerialReachable(ops, n);
    var w := SerialAfter(ops, n);
    assert MovesMatch(w, id, Accepting) && MovesMatch(w, id, RollingBack);
    forall i | 0 <= i < |w.moves| && w.moves[i].id == id
      ensures MoveIsRight(w.store, w.moves[i])
    {
    }
  }

  /** A serialized rollback that succeeds hands the floor from the target back to the presenter who had
      it when the handoff was accepted. */
  lemma RollbackRestoresPresenter(ops: seq<Op>, n: nat, id: nat)
    requires n < |ops| && ops[n] == RollbackOp(id, false)
    requires id in SerialAfter(ops, n).store.proposals && SerialAfter(ops, n).store.proposals[id].status == Accepted
    requires SerialAfter(ops, n + 1).store.proposals[id].status == RolledBack
    ensures var w, t := SerialAfter(ops, n), SerialAfter(ops, n + 1);
            var p := w.store.proposals[id];
            && KeyOf(p) in w.floor && w.floor[KeyOf(p)] == p.target
            && KeyOf(p) in t.floor && t.floor[KeyOf(p)] == p.current
            && exists i :: 0 <= i < |w.moves| && w.moves[i] == Move(id, Accepting, p.current, p.target)
  {
    SerialReachable(ops, n);
    var w := SerialAfter(ops, n);
    RollbackAlone(w, id);
    SerializedFloorMoves(ops, n, id);
    var i := FindMove(w.moves, id, Accepting);
  }

  lemma {:induction false} FindMove(moves: seq<Move>, id: nat, kind: Kind) returns (i: nat)
    requires MovesOf(moves, id, kind) > 0
    ensures i < |moves| && moves[i].id == id && moves[i].kind == kind
  {
    var n := |moves| - 1;
    if moves[n].id == id && moves[n].kind == kind {
      i := n;
    } else {
      i := FindMove(moves[..n], id, kind);
    }
  }

  // ---------------------------------------------------------------- the coordinator object

  class HandoffCoordinator {
    var proposals: map<nat, Proposal>
    var pendingBySession: map<string, nat>
    var handoffSequence: nat

    ghost function State(): Store
      reads this
    {
      Store(proposals, pendingBySession, handoffSequence)
    }

    constructor ()
      ensures State() == START.store
    {
      proposals, pendingBySession, handoffSequence := map[], map[], 0;
    }

    method Expire(proposal: Proposal, atMs: real) returns (current: Proposal)
      modifies this
      ensures current == Expired(proposal, atMs) && State() == ExpireIfNeeded(old(State()), proposal, atMs)
    {
      if proposal.status != Pending || atMs < proposal.expiresAtMs {
        return proposal;
      }
      current := proposal.(status := TimedOut);
      proposals := proposals[proposal.id := current];
      if proposal.sessionId in pendingBySession && pendingBySession[proposal.sessionId] == proposal.id {
        pendingBySession := pendingBySession - {proposal.sessionId};
      }
    }

    method Clear(p: Proposal)
      modifies this`pendingBySession
      ensures pendingBySession == ClearPending(old(pendingBySession), p)
    {
      var key := SessionKey(p.tenantId, p.sessionId);
      if key in pendingBySession && pendingBySession[key] == p.id {
        pendingBySession := pendingBySession - {key};
      }
    }

    method RequestHandoffProposal(r: Request, now: real, later: real) returns (result: Option<Proposal>)
      modifies this
      ensures State() == RequestHandoff(old(State()), r, now, later)
      ensures result.Some? <==> ValidRequest(r)
      ensures result.Some? ==> handoffSequence in proposals && proposals[handoffSequence] == result.value
    {
      if !ValidRequest(r) {
        return None;
      }
      var key := SessionKey(r.tenantId, r.sessionId);
      if key in pendingBySession && pendingBySession[key] in proposals {
        var existing := Expire(proposals[pendingBySession[key]], now);
        if existing.status == Pending {
          handoffSequence := handoffSequence + 1;
          var conflicting := Proposal(handoffSequence, r.tenantId, r.sessionId, r.current, r.target,
                                      ConflictSimultaneousRequest, later);
          proposals := proposals[conflicting.id := conflicting];
          return Some(conflicting);
        }
      }
      handoffSequence := handoffSequence + 1;
      var proposal := Proposal(handoffSequence, r.tenantId, r.sessionId, r.current, r.target, Pending, later + r.deadlineMs);
      proposals := proposals[proposal.id := proposal];
      pendingBySession := pendingBySession[key := proposal.id];
      return Some(proposal);
    }

    /** `acceptHandoff` up to the floor call. */
    method BeginAccept(id: nat, actor: string, atMs: real) returns (captured: Option<Proposal>)
      modifies this
      ensures captured == AcceptCandidate(old(State()), id, actor, atMs)
      ensures State() == if id in old(proposals) then ExpireIfNeeded(old(State()), old(proposals[id]), atMs) else old(State())
    {
      if id !in proposals {
        return None;
      }
      var current := Expire(proposals[id], atMs);
      return if current.status == Pending && actor == current.target then Some(current) else None;
    }

    /** `acceptHandoff` or `rollback` from the floor's answer on. */
    method FinishCall(c: InFlight) returns (result: Option<Proposal>)
      requires c.answer.Some?
      modifies this
      ensures State() == Finish(old(State()), c)
      ensures result.Some? ==> result.value.id in proposals && proposals[result.value.id] == result.value
      ensures result.None? <==> c.kind == RollingBack && !c.answer.value
    {
      if c.kind == Accepting {
        var resolved := c.captured.(status := if c.answer.value then Accepted else Declined);
        proposals := proposals[resolved.id := resolved];
        Clear(c.captured);
        return Some(resolved);
      }
      if !c.answer.value {
        return None;
      }
      var rolledBack := c.captured.(status := RolledBack);
      proposals := proposals[rolledBack.id := rolledBack];
      return Some(rolledBack);
    }

    method DeclineHandoff(id: nat, atMs: real) returns (result: Option<Proposal>)
      modifies this
      ensures State() == Decline(old(State()), id, atMs)
      ensures result.Some? <==> id in old(proposals)
    {
      if id !in proposals {
        return None;
      }
      var current := Expire(proposals[id], atMs);
      if current.status != Pending {
        return Some(current);
      }
      var resolved := current.(status := Declined);
      proposals := proposals[current.id := resolved];
      Clear(current);
      return Some(resolved);
    }
  }
}
