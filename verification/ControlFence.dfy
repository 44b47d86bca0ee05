/** Generation fencing in the realtime lab: the authority that permits one scope at a time, the
    harness with its bounded queue, and every interleaving of their atomic steps. */
module ControlFence {

  import opened Wrappers

  /** A capability. `token` stands for object identity: the authority compares scopes by identity,
      so a scope invented by a caller has a token of its own. */
  datatype Scope = Scope(token: nat, generation: int)

  datatype Frame = Frame(scope: Scope, marker: string)

  const MAX_GENERATION := 0x1F_FFFF_FFFF_FFFF
  const MAX_QUEUE_LIMIT := 64
  const MAX_MARKER_LENGTH := 64

  predicate MarkerChar(c: char) {
    'a' <= c <= 'z' || '0' <= c <= '9' || c == '_' || c == '.' || c == '-'
  }

  predicate ValidMarker(marker: string) {
    1 <= |marker| <= MAX_MARKER_LENGTH && forall i :: 0 <= i < |marker| ==> MarkerChar(marker[i])
  }

  // ---------------------------------------------------------------- state and atomic steps

  /** `minted` counts the scope objects handed out so far. */
  datatype Authority = Authority(epoch: nat, lastGeneration: int, current: Option<Scope>, closed: bool, minted: nat)

  predicate Permits(a: Authority, s: Scope) {
    !a.closed && a.current == Some(s)
  }

  datatype BeginResult = Begun(scope: Scope) | InvalidGeneration | NonMonotonicGeneration

  function BeginOutcome(a: Authority, generation: int): BeginResult {
    if a.closed || generation < 1 || generation > MAX_GENERATION then InvalidGeneration
    else if generation <= a.lastGeneration then NonMonotonicGeneration
    else Begun(Scope(a.minted, generation))
  }

  function Begin(a: Authority, generation: int): Authority {
    var r := BeginOutcome(a, generation);
    if r.Begun? then Authority(a.epoch + 1, generation, Some(r.scope), false, a.minted + 1) else a
  }

  function CancelScope(a: Authority, s: Scope): Authority {
    if Permits(a, s) then a.(epoch := a.epoch + 1, current := None) else a
  }

  function CloseAuthority(a: Authority): Authority {
    a.(closed := true, epoch := a.epoch + 1, current := None)
  }

  datatype Harness = Harness(
    authority: Authority, queue: seq<Frame>, limit: nat, scope: Option<Scope>, cancelled: bool, running: bool,
    accepted: nat, staleDenied: nat, overflowDenied: nat, cleanupComplete: bool, closed: bool)

  predicate EmitDenied(h: Harness, f: Frame) {
    h.closed || !h.cleanupComplete || h.scope != Some(f.scope) || h.cancelled || !Permits(h.authority, f.scope)
  }

  predicate EmitAccepts(h: Harness, f: Frame) {
    !EmitDenied(h, f) && ValidMarker(f.marker) && |h.queue| < h.limit
  }

  function Emit(h: Harness, f: Frame): Harness {
    if EmitDenied(h, f) then h.(staleDenied := h.staleDenied + 1)
    else if !ValidMarker(f.marker) then h.(authority := CancelScope(h.authority, f.scope), cancelled := true)
    else if |h.queue| >= h.limit then
      h.(overflowDenied := h.overflowDenied + 1, authority := CancelScope(h.authority, f.scope), cancelled := true, queue := [])
    else h.(queue := h.queue + [f], accepted := h.accepted + 1)
  }

  predicate Deliverable(a: Authority, closed: bool, f: Frame) {
    Permits(a, f.scope) && !closed
  }

  /** How many frames at the head of the queue `take` discards as stale. */
  function StaleHead(a: Authority, closed: bool, queue: seq<Frame>): (n: nat)
    ensures n <= |queue|
    ensures forall i :: 0 <= i < n ==> !Deliverable(a, closed, queue[i])
    ensures n < |queue| ==> Deliverable(a, closed, queue[n])
  {
    if queue == [] || Deliverable(a, closed, queue[0]) then 0 else 1 + StaleHead(a, closed, queue[1..])
  }

  function TakeOutcome(h: Harness): Option<Frame> {
    var n := StaleHead(h.authority, h.closed, h.queue);
    if n < |h.queue| then Some(h.queue[n]) else None
  }

  function Take(h: Harness): Harness {
    var n := StaleHead(h.authority, h.closed, h.queue);
    h.(queue := if n < |h.queue| then h.queue[n + 1..] else [], staleDenied := h.staleDenied + n)
  }

  /** `queue` is left of the harness's after `n` stale frames. */
  predicate Dropped(h: Harness, queue: seq<Frame>, n: nat) {
    && n <= |h.queue| && queue == h.queue[n..]
    && StaleHead(h.authority, h.closed, h.queue) == n + StaleHead(h.authority, h.closed, queue)
  }

  lemma {:induction false} TakeStarts(h: Harness)
    ensures Dropped(h, h.queue, 0)
  {
  }

  lemma {:induction false} TakeStep(h: Harness, queue: seq<Frame>, n: nat)
    requires Dropped(h, queue, n) && queue != []
    ensures if Deliverable(h.authority, h.closed, queue[0]) then
              TakeOutcome(h) == Some(queue[0]) && Take(h) == h.(queue := queue[1..], staleDenied := h.staleDenied + n)
            else Dropped(h, queue[1..], n + 1)
  {
    hide Permits;
    assert queue[0] == h.queue[n] && queue[1..] == h.queue[n + 1..];
  }

  lemma {:induction false} TakeEnds(h: Harness, n: nat)
    requires Dropped(h, [], n)
    ensures TakeOutcome(h) == None && Take(h) == h.(queue := [], staleDenied := h.staleDenied + n)
  {
    assert |h.queue[n..]| == 0;
  }

  /** The part of `cancel` before its first await. */
  function CancelFence(h: Harness, s: Scope): Harness {
    if h.scope != Some(s) then h
    else h.(authority := CancelScope(h.authority, s), cancelled := true, queue := [])
  }

  /** The part of `run` before its first await. */
  predicate RunStarts(h: Harness, s: Scope, deadlineValid: bool) {
    !h.closed && h.cleanupComplete && Permits(h.authority, s) && deadlineValid && !h.running
  }

  function RunStart(h: Harness, s: Scope, deadlineValid: bool): Harness {
    if RunStarts(h, s, deadlineValid) then h.(queue := [], scope := Some(s), cancelled := false, running := true) else h
  }

  /** The part of `close` before its first await. */
  function CloseFence(h: Harness): Harness {
    h.(closed := true, authority := CloseAuthority(h.authority), cancelled := true, queue := [])
  }

  /** Everything that can happen between two awaits: calls on the authority, on the harness, and what
      the event loop reports about the streaming task and the adapter's cleanup. */
  datatype Action =
    | BeginGeneration(generation: int)
    | AuthorityCancels(scope: Scope)
    | AuthorityCloses
    | Emits(frame: Frame)
    | Takes
    | Cancels(scope: Scope)
    | Runs(scope: Scope, deadlineValid: bool)
    | TaskEnds
    | CleanupFails
    | Closes

  function Next(h: Harness, a: Action): Harness {
    match a
    case BeginGeneration(g) => h.(authority := Begin(h.authority, g))
    case AuthorityCancels(s) => h.(authority := CancelScope(h.authority, s))
    case AuthorityCloses => h.(authority := CloseAuthority(h.authority))
    case Emits(f) => Emit(h, f)
    case Takes => Take(h)
    case Cancels(s) => CancelFence(h, s)
    case Runs(s, deadlineValid) => RunStart(h, s, deadlineValid)
    case TaskEnds => h.(running := false)
    case CleanupFails => h.(cleanupComplete := false)
    case Closes => CloseFence(h)
  }

  /** The frame this step accepts into the queue, if any. */
  function AcceptedBy(h: Harness, a: Action): Option<Frame> {
    if a.Emits? && EmitAccepts(h, a.frame) then Some(a.frame) else None
  }

  /** The frame this step hands to the consumer, if any. */
  function TakenBy(h: Harness, a: Action): Option<Frame> {
    if a.Takes? then TakeOutcome(h) else None
  }

  // ---------------------------------------------------------------- one step

  predicate Minted(a: Authority, s: Scope) {
    s.token < a.minted
  }

  ghost predicate Inv(h: Harness) {
    && |h.queue| <= h.limit
    && (forall i :: 0 <= i < |h.queue| ==> h.scope == Some(h.queue[i].scope))
    && (h.authority.current.Some? ==> Minted(h.authority, h.authority.current.value))
    && (h.authority.closed ==> h.authority.current.None?)
    && (h.closed ==> h.authority.closed && h.queue == [])
  }

  lemma {:induction false} EmitKeepsInv(h: Harness, f: Frame)
    requires Inv(h)
    ensures Inv(Emit(h, f))
  {
    hide ValidMarker;
  }

  lemma {:induction false} TakeKeepsInv(h: Harness)
    requires Inv(h)
    ensures Inv(Take(h))
  {
    hide StaleHead;
  }

  lemma {:induction false} StepKeepsInv(h: Harness, a: Action)
    requires Inv(h)
    ensures Inv(Next(h, a))
  {
    hide Emit, Take;
    match a
    case Emits(f) => EmitKeepsInv(h, f);
    case Takes => TakeKeepsInv(h);
    case _ =>
  }

  /** Exactly which steps take a permission away. */
  predicate Revokes(h: Harness, a: Action, s: Scope) {
    match a
    case BeginGeneration(g) => BeginOutcome(h.authority, g).Begun?
    case AuthorityCancels(t) => t == s
    case AuthorityCloses => true
    case Emits(f) => f.scope == s && !EmitDenied(h, f) && (!ValidMarker(f.marker) || |h.queue| >= h.limit)
    case Cancels(t) => t == s && h.scope == Some(s)
    case Closes => true
    case _ => false
  }

  lemma {:induction false} PermissionEndsIffRevoked(h: Harness, a: Action, s: Scope)
    requires Inv(h) && Permits(h.authority, s)
    ensures Permits(Next(h, a).authority, s) <==> !Revokes(h, a, s)
  {
  }

  /** A late cancel names an old scope: it never revokes the permitted one and never touches the
      queue of a run that has moved on. */
  lemma {:induction false} LateCancelIsHarmless(h: Harness, earlier: Scope, s: Scope)
    requires Inv(h) && earlier != s && Permits(h.authority, s)
    ensures Permits(Next(h, AuthorityCancels(earlier)).authority, s)
    ensures Permits(Next(h, Cancels(earlier)).authority, s)
    ensures h.scope == Some(s) ==> Next(h, Cancels(earlier)) == h
  {
  }

  lemma {:induction false} RevokedStaysRevoked(h: Harness, a: Action, s: Scope)
    requires Minted(h.authority, s) && !Permits(h.authority, s)
    ensures Minted(Next(h, a).authority, s) && !Permits(Next(h, a).authority, s)
  {
    hide StaleHead;
  }

  lemma {:induction false} RevokedStepDeliversNothing(h: Harness, a: Action, s: Scope)
    requires !Permits(h.authority, s)
    ensures AcceptedBy(h, a).Some? ==> AcceptedBy(h, a).value.scope != s
    ensures TakenBy(h, a).Some? ==> TakenBy(h, a).value.scope != s
  {
  }

  // ---------------------------------------------------------------- every interleaving

  function Start(limit: nat): Harness {
    Harness(Authority(0, 0, None, false, 0), [], limit, None, false, false, 0, 0, 0, true, false)
  }

  /** The state after the first `n` atomic steps of an interleaving. */
  function After(limit: nat, actions: seq<Action>, n: nat): Harness
    requires n <= |actions|
  {
    if n == 0 then Start(limit) else Next(After(limit, actions, n - 1), actions[n - 1])
  }

  function AcceptedAt(limit: nat, actions: seq<Action>, i: nat): Option<Frame>
    requires i < |actions|
  {
    AcceptedBy(After(limit, actions, i), actions[i])
  }

  function TakenAt(limit: nat, actions: seq<Action>, i: nat): Option<Frame>
    requires i < |actions|
  {
    TakenBy(After(limit, actions, i), actions[i])
  }

  /** The queue bound, the ownership of queued frames and the freshness of scopes hold at every step. */
  lemma {:induction false} ReachableInv(limit: nat, actions: seq<Action>, n: nat)
    requires n <= |actions|
    ensures Inv(After(limit, actions, n)) && After(limit, actions, n).limit == limit
  {
    if n > 0 {
      ReachableInv(limit, actions, n - 1);
      LimitIsFixed(After(limit, actions, n - 1), actions[n - 1]);
      hide Next;
      StepKeepsInv(After(limit, actions, n - 1), actions[n - 1]);
    }
  }

  lemma {:induction false} LimitIsFixed(h: Harness, a: Action)
    ensures Next(h, a).limit == h.limit
  {
  }

  /** Fencing: once a scope that exists is not permitted, it is never permitted again, and no later
      step of any interleaving accepts or hands out one of its frames. */
  lemma {:induction false} FenceIsFinal(limit: nat, actions: seq<Action>, i: nat, j: nat, s: Scope)
    requires i <= j <= |actions|
    requires Minted(After(limit, actions, i).authority, s) && !Permits(After(limit, actions, i).authority, s)
    ensures Minted(After(limit, actions, j).authority, s) && !Permits(After(limit, actions, j).authority, s)
    ensures forall k :: i <= k < j ==>
                          && (AcceptedAt(limit, actions, k).Some? ==> AcceptedAt(limit, actions, k).value.scope != s)
                          && (TakenAt(limit, actions, k).Some? ==> TakenAt(limit, actions, k).value.scope != s)
    decreases j
  {
    hide Next, Inv, Permits, AcceptedBy, TakenBy;
    if i < j {
      FenceIsFinal(limit, actions, i, j - 1, s);
      RevokedStaysRevoked(After(limit, actions, j - 1), actions[j - 1], s);
      RevokedStepDeliversNothing(After(limit, actions, j - 1), actions[j - 1], s);
    }
  }

  /** At most one scope is permitted, and whatever step revokes it - a newer generation, a cancel, a bad
      marker, an overflow, a close - silences it for the rest of the run. */
  lemma {:induction false} RevocationSilences(limit: nat, actions: seq<Action>, i: nat, k: nat, s: Scope)
    requires i < k < |actions|
    requires Permits(After(limit, actions, i).authority, s) && Revokes(After(limit, actions, i), actions[i], s)
    ensures AcceptedAt(limit, actions, k).Some? ==> AcceptedAt(limit, actions, k).value.scope != s
    ensures TakenAt(limit, actions, k).Some? ==> TakenAt(limit, actions, k).value.scope != s
    ensures forall t :: Permits(After(limit, actions, k).authority, t) ==> t != s
  {
    ReachableInv(limit, actions, i);
    var h := After(limit, actions, i);
    PermissionEndsIffRevoked(h, actions[i], s);
    MintedStays(h, actions[i], s);
    assert After(limit, actions, i + 1) == Next(h, actions[i]);
    FenceIsFinal(limit, actions, i + 1, k + 1, s);
    FenceIsFinal(limit, actions, i + 1, k, s);
  }

  lemma {:induction false} MintedStays(h: Harness, a: Action, s: Scope)
    requires Minted(h.authority, s)
    ensures Minted(Next(h, a).authority, s)
  {
  }

  // ---------------------------------------------------------------- delivery order

  /** `x` is read off `y` at the strictly increasing positions `at`. */
  ghost predicate Embeds(at: seq<nat>, x: seq<Frame>, y: seq<Frame>) {
    && |at| == |x|
    && (forall i :: 0 <= i < |at| ==> at[i] < |y| && y[at[i]] == x[i])
    && (forall i, j :: 0 <= i < j < |at| ==> at[i] < at[j])
  }

  ghost predicate Subsequence(x: seq<Frame>, y: seq<Frame>) {
    exists at :: Embeds(at, x, y)
  }

  function Listed(f: Option<Frame>): seq<Frame> {
    if f.Some? then [f.value] else []
  }

  function AcceptedLog(limit: nat, actions: seq<Action>, n: nat): seq<Frame>
    requires n <= |actions|
  {
    if n == 0 then [] else AcceptedLog(limit, actions, n - 1) + Listed(AcceptedAt(limit, actions, n - 1))
  }

  function TakenLog(limit: nat, actions: seq<Action>, n: nat): seq<Frame>
    requires n <= |actions|
  {
    if n == 0 then [] else TakenLog(limit, actions, n - 1) + Listed(TakenAt(limit, actions, n - 1))
  }

  lemma {:induction false} SubsequenceExtends(x: seq<Frame>, y: seq<Frame>, f: Option<Frame>)
    requires Subsequence(x, y)
    ensures Subsequence(x + Listed(f), y + Listed(f))
    ensures Subsequence(x, y + Listed(f))
  {
    var at: seq<nat> :| Embeds(at, x, y);
    assert Embeds(at, x, y + Listed(f));
    if f.Some? {
      assert Embeds(at + [|y|], x + [f.value], y + [f.value]);
    } else {
      assert x + Listed(f) == x && y + Listed(f) == y;
    }
  }

  /** Dropping a middle part keeps a subsequence a subsequence. */
  lemma {:induction false} SubsequenceDrops(x: seq<Frame>, mid: seq<Frame>, z: seq<Frame>, y: seq<Frame>)
    requires Subsequence(x + mid + z, y)
    ensures Subsequence(x + z, y)
  {
    var at: seq<nat> :| Embeds(at, x + mid + z, y);
    var short := at[..|x|] + at[|x| + |mid|..];
    forall i | 0 <= i < |short|
      ensures short[i] < |y| && y[short[i]] == (x + z)[i]
    {
      if i < |x| {
        assert (x + mid + z)[i] == x[i];
      } else {
        assert (x + mid + z)[i + |mid|] == z[i - |x|];
      }
    }
    assert Embeds(short, x + z, y);
  }

  /** What one step does to the queue: it appends what it accepts, or it drops a stretch whose last
      frame may be the one it hands out. */
  lemma {:induction false} QueueStep(h: Harness, a: Action) returns (dropped: seq<Frame>, rest: seq<Frame>)
    ensures h.queue == dropped + Listed(TakenBy(h, a)) + rest
    ensures Next(h, a).queue == rest + Listed(AcceptedBy(h, a))
  {
    var after := Next(h, a).queue;
    if a.Takes? {
      var n := StaleHead(h.authority, h.closed, h.queue);
      dropped := h.queue[..n];
      rest := if n < |h.queue| then h.queue[n + 1..] else [];
    } else if AcceptedBy(h, a).Some? || after == h.queue {
      dropped, rest := [], h.queue;
    } else {
      dropped, rest := h.queue, [];
    }
  }

  lemma {:induction false} Regroup(t: seq<Frame>, d: seq<Frame>, x: seq<Frame>, r: seq<Frame>, y: seq<Frame>)
    ensures t + (d + x + r) == t + d + (x + r)
    ensures t + x + (r + y) == (t + (x + r)) + y
  {
  }

  /** Frames reach the consumer in the order they were accepted, each accepted frame at most once:
      at every step, what was taken followed by what is queued is a subsequence of what was accepted. */
  lemma {:induction false} DeliveredInOrder(limit: nat, actions: seq<Action>, n: nat)
    requires n <= |actions|
    ensures Subsequence(TakenLog(limit, actions, n) + After(limit, actions, n).queue, AcceptedLog(limit, actions, n))
  {
    hide *;
    if n == 0 {
      NothingDelivered(limit, actions);
    } else {
      DeliveredInOrder(limit, actions, n - 1);
      var h, a := After(limit, actions, n - 1), actions[n - 1];
      var taken, accepted := TakenLog(limit, actions, n - 1), AcceptedLog(limit, actions, n - 1);
      var x, y := Listed(TakenBy(h, a)), AcceptedBy(h, a);
      OneMoreStep(limit, actions, n - 1);
      var dropped, rest := QueueStep(h, a);
      DeliveryStep(taken, h.queue, accepted, dropped, x, rest, y);
    }
  }

  /** Handing out `x`, dropping what lies before it and queueing `y` keeps the order. */
  lemma {:induction false} DeliveryStep(taken: seq<Frame>, queue: seq<Frame>, accepted: seq<Frame>, dropped: seq<Frame>, x: seq<Frame>,
                                        rest: seq<Frame>, y: Option<Frame>)
    requires Subsequence(taken + queue, accepted) && queue == dropped + x + rest
    ensures Subsequence((taken + x) + (rest + Listed(y)), accepted + Listed(y))
  {
    hide Subsequence, Listed;
    Regroup(taken, dropped, x, rest, Listed(y));
    SubsequenceDrops(taken, dropped, x + rest, accepted);
    SubsequenceExtends(taken + (x + rest), accepted, y);
  }

  lemma {:induction false} OneMoreStep(limit: nat, actions: seq<Action>, n: nat)
    requires n < |actions|
    ensures var h, a := After(limit, actions, n), actions[n];
            && After(limit, actions, n + 1) == Next(h, a)
            && TakenLog(limit, actions, n + 1) == TakenLog(limit, actions, n) + Listed(TakenBy(h, a))
            && AcceptedLog(limit, actions, n + 1) == AcceptedLog(limit, actions, n) + Listed(AcceptedBy(h, a))
  {
    hide Next, TakenBy, AcceptedBy, Listed;
  }

  lemma {:induction false} NothingDelivered(limit: nat, actions: seq<Action>)
    ensures Subsequence(TakenLog(limit, actions, 0) + After(limit, actions, 0).queue, AcceptedLog(limit, actions, 0))
  {
    var none: seq<nat>, frames: seq<Frame> := [], [];
    assert Embeds(none, frames, frames);
    assert TakenLog(limit, actions, 0) + After(limit, actions, 0).queue == frames;
  }

  // ---------------------------------------------------------------- the objects

  class GenerationAuthority {
    var epoch: nat
    var lastGeneration: int
    var scope: Option<Scope>
    var closed: bool
    ghost var minted: nat

    ghost function State(): Authority
      reads this
    {
      Authority(epoch, lastGeneration, scope, closed, minted)
    }

    constructor ()
      ensures State() == Authority(0, 0, None, false, 0)
    {
      epoch, lastGeneration, scope, closed, minted := 0, 0, None, false, 0;
    }

    /** `token` is the identity of the scope object the call allocates. */
    method BeginGeneration(generation: int, token: nat) returns (r: BeginResult)
      requires token == minted
      modifies this
      ensures r == BeginOutcome(old(State()), generation) && State() == Begin(old(State()), generation)
    {
      if closed || generation < 1 || generation > MAX_GENERATION {
        return InvalidGeneration;
      }
      if generation <= lastGeneration {
        return NonMonotonicGeneration;
      }
      epoch := epoch + 1;
      lastGeneration := generation;
      scope := Some(Scope(token, generation));
      minted := minted + 1;
      r := Begun(scope.value);
    }

    method PermitsScope(s: Scope) returns (r: bool)
      ensures r == Permits(State(), s)
    {
      r := !closed && scope == Some(s);
    }

    method Cancel(s: Scope) returns (r: bool)
      modifies this
      ensures r == Permits(old(State()), s) && State() == CancelScope(old(State()), s)
    {
      r := PermitsScope(s);
      if r {
        epoch := epoch + 1;
        scope := None;
      }
    }

    method Close()
      modifies this
      ensures State() == CloseAuthority(old(State()))
    {
      closed := true;
      epoch := epoch + 1;
      scope := None;
    }
  }

  class ControlHarness {
    const authority: GenerationAuthority
    const limit: nat
    var queue: seq<Frame>
    var scope: Option<Scope>
    var cancelled: bool
    var running: bool
    var accepted: nat
    var staleDenied: nat
    var overflowDenied: nat
    var cleanupComplete: bool
    var closed: bool

    ghost function State(): Harness
      reads this, authority
    {
      Harness(authority.State(), queue, limit, scope, cancelled, running, accepted, staleDenied, overflowDenied,
              cleanupComplete, closed)
    }

    constructor (authority: GenerationAuthority, limit: nat)
      requires 1 <= limit <= MAX_QUEUE_LIMIT
      ensures this.authority == authority
      ensures State() == Start(limit).(authority := authority.State())
    {
      this.authority, this.limit := authority, limit;
      queue, scope, cancelled, running := [], None, false, false;
      accepted, staleDenied, overflowDenied := 0, 0, 0;
      cleanupComplete, closed := true, false;
    }

    method EmitFrame(f: Frame) returns (r: bool)
      modifies this, authority
      ensures r == EmitAccepts(old(State()), f) && State() == Emit(old(State()), f)
    {
      var permitted := authority.PermitsScope(f.scope);
      if closed || !cleanupComplete || scope != Some(f.scope) || cancelled || !permitted {
        staleDenied := staleDenied + 1;
        return false;
      }
      if !ValidMarker(f.marker) {
        var _ := authority.Cancel(f.scope);
        cancelled := true;
        return false;
      }
      if |queue| >= limit {
        overflowDenied := overflowDenied + 1;
        var _ := authority.Cancel(f.scope);
        cancelled := true;
        queue := [];
        return false;
      }
      queue := queue + [f];
      accepted := accepted + 1;
      return true;
    }

    method TakeFrame() returns (r: Option<Frame>)
      modifies this
      ensures r == TakeOutcome(old(State())) && State() == Take(old(State()))
    {
      hide ValidMarker, Permits, StaleHead, Take, TakeOutcome, Dropped;
      ghost var before, dropped: nat := State(), 0;
      TakeStarts(before);
      while queue != []
        invariant State() == before.(queue := queue, staleDenied := before.staleDenied + dropped)
        invariant Dropped(before, queue, dropped)
        decreases |queue|
        modifies this`queue, this`staleDenied
      {
        TakeStep(before, queue, dropped);
        var frame := queue[0];
        queue := queue[1..];
        var permitted := authority.PermitsScope(frame.scope);
        if permitted && !closed {
          return Some(frame);
        }
        staleDenied := staleDenied + 1;
        dropped := dropped + 1;
      }
      TakeEnds(before, dropped);
      r := None;
    }

    /** `cancel` up to its first await. */
    method FenceAndClear(s: Scope) returns (fenced: bool)
      modifies this, authority
      ensures fenced == (old(scope) == Some(s)) && State() == CancelFence(old(State()), s)
    {
      if scope != Some(s) {
        return false;
      }
      var _ := authority.Cancel(s);
      cancelled := true;
      queue := [];
      return true;
    }

    /** `run` up to its first await. */
    method StartRun(s: Scope, deadlineValid: bool) returns (started: bool)
      modifies this
      ensures started == RunStarts(old(State()), s, deadlineValid) && State() == RunStart(old(State()), s, deadlineValid)
    {
      var permitted := authority.PermitsScope(s);
      if closed || !cleanupComplete || !permitted || !deadlineValid || running {
        return false;
      }
      queue := [];
      scope := Some(s);
      cancelled := false;
      running := true;
      return true;
    }

    /** `close` up to its first await. */
    method CloseAndFence()
      modifies this, authority
      ensures State() == CloseFence(old(State()))
    {
      closed := true;
      authority.Close();
      cancelled := true;
      queue := [];
    }
  }
}
