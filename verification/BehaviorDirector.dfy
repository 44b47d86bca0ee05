/** The behavior director: gesture selection under a cooldown and per-minute caps. */
module BehaviorDirector {

  import opened Wrappers

  datatype State =
    | IdleReady | ListeningNeutral | ListeningAffirming | ThinkingBrief | SpeakingExplaining
    | SpeakingEmpathic | Presenting | InterruptedRecovering | HandoffIntro | TechnicalDegraded

  datatype Gesture = Nod | Smile | TiltHead | LeanIn | RaiseEyebrows | SoftGazeBreak
  datatype Pacing = Slow | Normal | Fast
  datatype PauseProfile = Minimal | Standard | Generous
  datatype Gaze = Camera | Away | NoGaze

  datatype Intent = Intent(goal: State, energy: real, warmth: real, pacing: Pacing, pauseProfile: PauseProfile,
                           nonverbal: seq<Gesture>, generationId: nat, reducedMotion: bool)

  datatype Capability = Capability(gestures: seq<Gesture>, minRate: real, maxRate: real, gaze: bool, voiceStyles: seq<string>)

  datatype Directive = Directive(state: State, voiceStyle: string, ratePercent: int, pauseMs: int,
                                 gestures: seq<Gesture>, gaze: Gaze, maxDurationMs: nat, generationId: nat)

  datatype Allowance = Allowance(probability: real, maxCount: nat, quietOnly: bool)

  function AllowanceOf(s: State): Allowance {
    match s
    case IdleReady => Allowance(0.15, 1, true)
    case ListeningNeutral => Allowance(0.35, 1, true)
    case ListeningAffirming => Allowance(0.55, 1, true)
    case ThinkingBrief => Allowance(0.3, 1, true)
    case SpeakingExplaining => Allowance(0.7, 2, false)
    case SpeakingEmpathic => Allowance(0.75, 2, false)
    case Presenting => Allowance(0.65, 2, false)
    case InterruptedRecovering => Allowance(0.0, 0, true)
    case HandoffIntro => Allowance(0.5, 1, false)
    case TechnicalDegraded => Allowance(0.0, 0, true)
  }

  function GazeOf(s: State): Gaze {
    match s
    case ThinkingBrief => Away
    case Presenting => Away
    case TechnicalDegraded => NoGaze
    case _ => Camera
  }

  function MaxDuration(s: State): nat {
    match s
    case IdleReady => 30_000
    case ListeningNeutral => 30_000
    case ListeningAffirming => 20_000
    case ThinkingBrief => 1_500
    case SpeakingExplaining => 12_000
    case SpeakingEmpathic => 12_000
    case Presenting => 15_000
    case InterruptedRecovering => 800
    case HandoffIntro => 4_000
    case TechnicalDegraded => 5_000
  }

  function PauseBase(p: PauseProfile): nat {
    match p case Minimal => 80 case Standard => 220 case Generous => 450
  }

  predicate Quiet(g: Gesture) {
    g == Nod || g == SoftGazeBreak || g == TiltHead
  }

  const COOLDOWN_MS := 8_000.0
  const WINDOW_MS := 60_000.0
  const NODS_PER_MINUTE := 6
  const SMILES_PER_MINUTE := 4

  // ---------------------------------------------------------------- selection

  datatype Use = Use(gesture: Gesture, atMs: real)

  /** What the director remembers between calls. */
  datatype Memory = Memory(lastUsed: map<Gesture, real>, recent: seq<Use>)

  const FORGETFUL := Memory(map[], [])

  function Prune(recent: seq<Use>, atMs: real): (r: seq<Use>)
    ensures |r| <= |recent| && r == recent[|recent| - |r|..]
    ensures forall i :: 0 <= i < |recent| - |r| ==> atMs - recent[i].atMs > WINDOW_MS
    ensures r != [] ==> atMs - r[0].atMs <= WINDOW_MS
  {
    if recent != [] && atMs - recent[0].atMs > WINDOW_MS then Prune(recent[1..], atMs) else recent
  }

  function Count(uses: seq<Use>, g: Gesture): nat {
    if uses == [] then 0 else Count(uses[..|uses| - 1], g) + if uses[|uses| - 1].gesture == g then 1 else 0
  }

  predicate Ready(m: Memory, g: Gesture, atMs: real, roll: real, probability: real) {
    && !(g in m.lastUsed && atMs - m.lastUsed[g] < COOLDOWN_MS)
    && !(g == Nod && Count(m.recent, Nod) >= NODS_PER_MINUTE)
    && !(g == Smile && Count(m.recent, Smile) >= SMILES_PER_MINUTE)
    && !(roll > probability)
  }

  function Remember(m: Memory, g: Gesture, atMs: real): Memory {
    Memory(m.lastUsed[g := atMs], m.recent + [Use(g, atMs)])
  }

  function Filtered(candidates: seq<Gesture>, c: Capability, quietOnly: bool): (r: seq<Gesture>)
    ensures forall g :: g in r ==> g in candidates && g in c.gestures && (quietOnly ==> Quiet(g))
  {
    if candidates == [] then []
    else
      var g := candidates[|candidates| - 1];
      Filtered(candidates[..|candidates| - 1], c, quietOnly)
      + if g in c.gestures && (quietOnly ==> Quiet(g)) then [g] else []
  }

  /** The memory after considering the first `n` of `gestures`, and the gestures picked. */
  datatype Picked = Picked(memory: Memory, selected: seq<Gesture>)

  function Pick(m: Memory, gestures: seq<Gesture>, n: nat, a: Allowance, atMs: real, roll: Gesture -> real): Picked
    requires n <= |gestures|
  {
    if n == 0 then Picked(m, [])
    else
      var before := Pick(m, gestures, n - 1, a, atMs, roll);
      var g := gestures[n - 1];
      if |before.selected| < a.maxCount && Ready(before.memory, g, atMs, roll(g), a.probability) then
        Picked(Remember(before.memory, g, atMs), before.selected + [g])
      else before
  }

  function Select(m: Memory, candidates: seq<Gesture>, c: Capability, s: State, atMs: real, roll: Gesture -> real): Picked {
    var pruned := m.(recent := Prune(m.recent, atMs));
    var a := AllowanceOf(s);
    if a.maxCount == 0 then Picked(pruned, [])
    else
      var gestures := Filtered(candidates, c, a.quietOnly);
      Pick(pruned, gestures, |gestures|, a, atMs, roll)
  }

  // ---------------------------------------------------------------- whole runs of calls

  /** One call that reached selection; `roll` is its deterministic draw per gesture. */
  datatype Call = Call(candidates: seq<Gesture>, goal: State, atMs: real, roll: Gesture -> real)

  function MemoryAfter(c: Capability, calls: seq<Call>, n: nat): Memory
    requires n <= |calls|
  {
    if n == 0 then FORGETFUL
    else
      var call := calls[n - 1];
      Select(MemoryAfter(c, calls, n - 1), call.candidates, c, call.goal, call.atMs, call.roll).memory
  }

  function PickedAt(c: Capability, calls: seq<Call>, i: nat): Picked
    requires i < |calls|
  {
    Select(MemoryAfter(c, calls, i), calls[i].candidates, c, calls[i].goal, calls[i].atMs, calls[i].roll)
  }

  function UsesOf(selected: seq<Gesture>, atMs: real): (r: seq<Use>)
    ensures |r| == |selected| && forall i :: 0 <= i < |r| ==> r[i] == Use(selected[i], atMs)
  {
    seq(|selected|, i requires 0 <= i < |selected| => Use(selected[i], atMs))
  }

  /** Every use of a gesture in the first `n` calls, in order. */
  function Log(c: Capability, calls: seq<Call>, n: nat): seq<Use>
    requires n <= |calls|
  {
    if n == 0 then []
    else Log(c, calls, n - 1) + UsesOf(PickedAt(c, calls, n - 1).selected, calls[n - 1].atMs)
  }

  // ---------------------------------------------------------------- cooldown

  /** Uses of one gesture are at least a cooldown apart, and `lastUsed` holds the latest of each. */
  ghost predicate Cooled(m: Memory, log: seq<Use>) {
    && (forall i, j :: 0 <= i < j < |log| && log[i].gesture == log[j].gesture ==> log[j].atMs - log[i].atMs >= COOLDOWN_MS)
    && (forall i :: 0 <= i < |log| ==> log[i].gesture in m.lastUsed && log[i].atMs <= m.lastUsed[log[i].gesture])
  }

  lemma UseKeepsCooled(m: Memory, log: seq<Use>, g: Gesture, atMs: real, roll: real, probability: real)
    requires Cooled(m, log) && Ready(m, g, atMs, roll, probability)
    ensures Cooled(Remember(m, g, atMs), log + [Use(g, atMs)])
  {
  }

  lemma {:induction false} PickKeepsCooled(m: Memory, log: seq<Use>, gestures: seq<Gesture>, n: nat, a: Allowance,
                                           atMs: real, roll: Gesture -> real)
    requires n <= |gestures| && Cooled(m, log)
    ensures var p := Pick(m, gestures, n, a, atMs, roll);
            Cooled(p.memory, log + UsesOf(p.selected, atMs))
  {
    if n == 0 {
      assert log + UsesOf([], atMs) == log;
    } else {
      PickKeepsCooled(m, log, gestures, n - 1, a, atMs, roll);
      var before := Pick(m, gestures, n - 1, a, atMs, roll);
      var g := gestures[n - 1];
      if |before.selected| < a.maxCount && Ready(before.memory, g, atMs, roll(g), a.probability) {
        UseKeepsCooled(before.memory, log + UsesOf(before.selected, atMs), g, atMs, roll(g), a.probability);
        assert log + UsesOf(before.selected + [g], atMs) == log + UsesOf(before.selected, atMs) + [Use(g, atMs)];
      }
    }
  }

  lemma SelectKeepsCooled(m: Memory, log: seq<Use>, c: Capability, call: Call)
    requires Cooled(m, log)
    ensures var p := Select(m, call.candidates, c, call.goal, call.atMs, call.roll);
            Cooled(p.memory, log + UsesOf(p.selected, call.atMs))
  {
    hide Pick, Prune, Filtered;
    var pruned := m.(recent := Prune(m.recent, call.atMs));
    var a := AllowanceOf(call.goal);
    var gestures := Filtered(call.candidates, c, a.quietOnly);
    PickKeepsCooled(pruned, log, gestures, |gestures|, a, call.atMs, call.roll);
    assert log + UsesOf([], call.atMs) == log;
  }

  lemma {:induction false} RunIsCooled(c: Capability, calls: seq<Call>, n: nat)
    requires n <= |calls|
    ensures Cooled(MemoryAfter(c, calls, n), Log(c, calls, n))
  {
    hide Select, Cooled;
    if n == 0 {
      assert Cooled(FORGETFUL, []) by { NothingUsed(); }
    } else {
      RunIsCooled(c, calls, n - 1);
      SelectKeepsCooled(MemoryAfter(c, calls, n - 1), Log(c, calls, n - 1), c, calls[n - 1]);
    }
  }

  lemma NothingUsed()
    ensures Cooled(FORGETFUL, [])
  {
  }

  /** Two uses of the same gesture, in one directive or in different ones, are at least eight seconds
      apart by their own times, whatever the clock does. */
  lemma SameGestureWaitsForCooldown(c: Capability, calls: seq<Call>, n: nat, i: nat, j: nat)
    requires n <= |calls| && i < j < |Log(c, calls, n)|
    requires Log(c, calls, n)[i].gesture == Log(c, calls, n)[j].gesture
    ensures Log(c, calls, n)[j].atMs - Log(c, calls, n)[i].atMs >= 8_000.0
  {
    RunIsCooled(c, calls, n);
  }

  // ---------------------------------------------------------------- per-minute caps

  function Cap(g: Gesture): Option<nat> {
    match g case Nod => Some(NODS_PER_MINUTE) case Smile => Some(SMILES_PER_MINUTE) case _ => None
  }

  /** Uses of `g` in the closed minute that starts at `lo`. */
  function CountInMinute(uses: seq<Use>, g: Gesture, lo: real): nat {
    if uses == [] then 0
    else CountInMinute(uses[..|uses| - 1], g, lo)
         + if uses[|uses| - 1].gesture == g && lo <= uses[|uses| - 1].atMs <= lo + WINDOW_MS then 1 else 0
  }

  // ---------------------------------------------------------------- why a use is still counted, or not

  /** The call each use of the log was made in. */
  function CallsOf(c: Capability, calls: seq<Call>, n: nat): (r: seq<nat>)
    requires n <= |calls|
    ensures |r| == |Log(c, calls, n)|
  {
    if n == 0 then []
    else CallsOf(c, calls, n - 1) + seq(|PickedAt(c, calls, n - 1).selected|, _ => n - 1)
  }

  /** Each use of the log has the time of the call it was made in, one of the first `n`. */
  ghost predicate MadeIn(calls: seq<Call>, log: seq<Use>, madeIn: seq<nat>, n: nat)
    requires n <= |calls|
  {
    |madeIn| == |log| && forall i :: 0 <= i < |log| ==> madeIn[i] < n && log[i].atMs == calls[madeIn[i]].atMs
  }

  lemma {:induction false} LogIsMadeIn(c: Capability, calls: seq<Call>, n: nat)
    requires n <= |calls|
    ensures MadeIn(calls, Log(c, calls, n), CallsOf(c, calls, n), n)
  {
    hide MadeIn, PickedAt;
    if n == 0 {
      assert MadeIn(calls, [], [], 0) by { NothingMade(calls); }
    } else {
      LogIsMadeIn(c, calls, n - 1);
      MadeNext(calls, Log(c, calls, n - 1), CallsOf(c, calls, n - 1), n - 1, PickedAt(c, calls, n - 1).selected);
    }
  }

  lemma {:induction false} NothingMade(calls: seq<Call>)
    ensures MadeIn(calls, [], [], 0)
  {
  }

  lemma {:induction false} MadeNext(calls: seq<Call>, log: seq<Use>, madeIn: seq<nat>, n: nat, selected: seq<Gesture>)
    requires n < |calls| && MadeIn(calls, log, madeIn, n)
    ensures MadeIn(calls, log + UsesOf(selected, calls[n].atMs), madeIn + seq(|selected|, _ => n), n + 1)
  {
  }

  /** A call after the use and at most the `last` came more than a minute after it. */
  ghost predicate Outdated(calls: seq<Call>, u: Use, madeIn: nat, last: nat) {
    exists k :: madeIn < k <= last && k < |calls| && calls[k].atMs - u.atMs > WINDOW_MS
  }

  /** The log without its first `d` uses, which were dropped for calls up to `last` that outdated them. */
  ghost predicate Rest(calls: seq<Call>, log: seq<Use>, madeIn: seq<nat>, d: nat, last: nat) {
    && |madeIn| == |log| && d <= |log|
    && forall i :: 0 <= i < d ==> Outdated(calls, log[i], madeIn[i], last)
  }

  /** When its `q`th use was made, fewer than `cap` uses of the same gesture were left of the log. */
  ghost predicate WasBelow(calls: seq<Call>, log: seq<Use>, madeIn: seq<nat>, q: nat, cap: nat)
    requires q < |log| && |madeIn| == |log|
  {
    exists d :: 0 <= d <= q && Count(log[d..q], log[q].gesture) < cap
                && forall i :: 0 <= i < d ==> Outdated(calls, log[i], madeIn[i], madeIn[q])
  }

  /** What the director remembers of the log. */
  ghost predicate Remembers(calls: seq<Call>, m: Memory, log: seq<Use>, madeIn: seq<nat>, last: nat) {
    && |m.recent| <= |log| && m.recent == log[|log| - |m.recent|..]
    && Rest(calls, log, madeIn, |log| - |m.recent|, last)
  }

  /** Each capped use was made below its cap. */
  ghost predicate AllBelow(calls: seq<Call>, log: seq<Use>, madeIn: seq<nat>) {
    && |madeIn| == |log|
    && forall q :: 0 <= q < |log| && Cap(log[q].gesture).Some? ==> WasBelow(calls, log, madeIn, q, Cap(log[q].gesture).value)
  }

  ghost predicate Accounted(calls: seq<Call>, m: Memory, log: seq<Use>, madeIn: seq<nat>, last: nat) {
    Remembers(calls, m, log, madeIn, last) && AllBelow(calls, log, madeIn)
  }

  lemma {:induction false} UseIsAccounted(calls: seq<Call>, m: Memory, log: seq<Use>, madeIn: seq<nat>, g: Gesture, atMs: real, last: nat,
                                          roll: real, probability: real)
    requires Accounted(calls, m, log, madeIn, last) && Ready(m, g, atMs, roll, probability)
    ensures Accounted(calls, Remember(m, g, atMs), log + [Use(g, atMs)], madeIn + [last], last)
  {
    hide Outdated, Count;
    var d := |log| - |m.recent|;
    var u := Use(g, atMs);
    var longer, made := log + [u], madeIn + [last];
    assert longer[d..] == log[d..] + [u];
    if Cap(g).Some? {
      assert longer[d..|log|] == m.recent;
      assert WasBelow(calls, longer, made, |log|, Cap(g).value);
    }
    forall q | 0 <= q < |log| && Cap(log[q].gesture).Some?
      ensures WasBelow(calls, longer, made, q, Cap(log[q].gesture).value)
    {
      BelowStays(calls, log, madeIn, q, Cap(log[q].gesture).value, u, last);
    }
  }

  lemma {:induction false} BelowStays(calls: seq<Call>, log: seq<Use>, madeIn: seq<nat>, q: nat, cap: nat, u: Use, last: nat)
    requires q < |log| == |madeIn| && WasBelow(calls, log, madeIn, q, cap)
    ensures WasBelow(calls, log + [u], madeIn + [last], q, cap)
  {
    hide Outdated, Count;
    var d :| 0 <= d <= q && Count(log[d..q], log[q].gesture) < cap
             && forall i :: 0 <= i < d ==> Outdated(calls, log[i], madeIn[i], madeIn[q]);
    assert (log + [u])[d..q] == log[d..q];
  }

  lemma {:induction false} OutdatedLater(calls: seq<Call>, u: Use, madeIn: nat, last: nat, later: nat)
    requires Outdated(calls, u, madeIn, last) && last <= later
    ensures Outdated(calls, u, madeIn, later)
  {
  }

  /** Pruning at call `n` drops uses that this call outdates. */
  lemma {:induction false} PruneIsAccounted(c: Capability, calls: seq<Call>, m: Memory, log: seq<Use>, madeIn: seq<nat>, last: nat, n: nat)
    requires Accounted(calls, m, log, madeIn, last) && last <= n < |calls| && MadeIn(calls, log, madeIn, n)
    ensures Accounted(calls, m.(recent := Prune(m.recent, calls[n].atMs)), log, madeIn, n)
  {
    var r := Prune(m.recent, calls[n].atMs);
    hide Prune, AllBelow, Outdated;
    var k := |log| - |m.recent|;
    DropTwice(log, k, |m.recent| - |r|);
    forall i | 0 <= i < |log| - |r|
      ensures Outdated(calls, log[i], madeIn[i], n)
    {
      if i < k {
        OutdatedLater(calls, log[i], madeIn[i], last, n);
      } else {
        assert log[i] == m.recent[i - k];
        OutdatedBy(calls, log[i], madeIn[i], n);
      }
    }
  }

  lemma {:induction false} OutdatedBy(calls: seq<Call>, u: Use, madeIn: nat, n: nat)
    requires madeIn < n < |calls| && calls[n].atMs - u.atMs > WINDOW_MS
    ensures Outdated(calls, u, madeIn, n)
  {
  }

  lemma DropTwice(log: seq<Use>, k: nat, d: nat)
    requires k + d <= |log|
    ensures log[k..][d..] == log[k + d..]
  {
  }

  lemma {:induction false} PickIsAccounted(calls: seq<Call>, m: Memory, log: seq<Use>, madeIn: seq<nat>, gestures: seq<Gesture>, n: nat,
                                           a: Allowance, atMs: real, roll: Gesture -> real, last: nat)
    requires n <= |gestures| && Accounted(calls, m, log, madeIn, last)
    ensures var p := Pick(m, gestures, n, a, atMs, roll);
            Accounted(calls, p.memory, log + UsesOf(p.selected, atMs), madeIn + seq(|p.selected|, _ => last), last)
  {
    if n == 0 {
      assert log + UsesOf([], atMs) == log && madeIn + seq(0, _ => last) == madeIn;
    } else {
      hide Ready, Accounted, Remember, UsesOf;
      PickIsAccounted(calls, m, log, madeIn, gestures, n - 1, a, atMs, roll, last);
      var before := Pick(m, gestures, n - 1, a, atMs, roll);
      var g := gestures[n - 1];
      if |before.selected| < a.maxCount && Ready(before.memory, g, atMs, roll(g), a.probability) {
        var uses, made := log + UsesOf(before.selected, atMs), madeIn + seq(|before.selected|, _ => last);
        UseIsAccounted(calls, before.memory, uses, made, g, atMs, last, roll(g), a.probability);
        OneMoreMade(log, madeIn, before.selected, g, atMs, last);
      }
    }
  }

  lemma {:induction false} OneMoreMade(log: seq<Use>, madeIn: seq<nat>, selected: seq<Gesture>, g: Gesture, atMs: real, last: nat)
    ensures log + UsesOf(selected + [g], atMs) == log + UsesOf(selected, atMs) + [Use(g, atMs)]
    ensures madeIn + seq(|selected + [g]|, _ => last) == madeIn + seq(|selected|, _ => last) + [last]
  {
  }

  lemma {:induction false} SelectIsAccounted(c: Capability, calls: seq<Call>, m: Memory, log: seq<Use>, madeIn: seq<nat>, last: nat, n: nat)
    requires Accounted(calls, m, log, madeIn, last) && last <= n < |calls| && MadeIn(calls, log, madeIn, n)
    ensures var p := Select(m, calls[n].candidates, c, calls[n].goal, calls[n].atMs, calls[n].roll);
            Accounted(calls, p.memory, log + UsesOf(p.selected, calls[n].atMs), madeIn + seq(|p.selected|, _ => n), n)
  {
    hide Pick, Prune, Filtered, Accounted, MadeIn;
    var call := calls[n];
    PruneIsAccounted(c, calls, m, log, madeIn, last, n);
    var pruned := m.(recent := Prune(m.recent, call.atMs));
    var a := AllowanceOf(call.goal);
    var gestures := Filtered(call.candidates, c, a.quietOnly);
    PickIsAccounted(calls, pruned, log, madeIn, gestures, |gestures|, a, call.atMs, call.roll, n);
    assert log + UsesOf([], call.atMs) == log && madeIn + seq(0, _ => n) == madeIn;
  }

  /** Whatever the clock does, a run's log is accounted for. */
  lemma {:induction false} RunIsAccounted(c: Capability, calls: seq<Call>, n: nat)
    requires n <= |calls|
    ensures Accounted(calls, MemoryAfter(c, calls, n), Log(c, calls, n), CallsOf(c, calls, n), if n == 0 then 0 else n - 1)
  {
    hide Select, Accounted, MadeIn;
    if n == 0 {
      assert Accounted(calls, FORGETFUL, [], [], 0) by { NothingAccounted(calls); }
    } else {
      RunIsAccounted(c, calls, n - 1);
      LogIsMadeIn(c, calls, n - 1);
      SelectIsAccounted(c, calls, MemoryAfter(c, calls, n - 1), Log(c, calls, n - 1), CallsOf(c, calls, n - 1),
                        if n == 1 then 0 else n - 2, n - 1);
    }
  }

  lemma {:induction false} NothingAccounted(calls: seq<Call>)
    ensures Accounted(calls, FORGETFUL, [], [], 0)
  {
  }

  // ---------------------------------------------------------------- when the caps hold

  function TimesOf(calls: seq<Call>): (r: seq<real>)
    ensures |r| == |calls|
  {
    seq(|calls|, i requires 0 <= i < |calls| => calls[i].atMs)
  }

  ghost predicate Positions(ix: seq<nat>, n: nat) {
    (forall a :: 0 <= a < |ix| ==> ix[a] < n) && (forall a, b :: 0 <= a < b < |ix| ==> ix[a] < ix[b])
  }

  function Chosen(times: seq<real>, ix: seq<nat>): (r: seq<real>)
    ensures |r| == |ix|
  {
    seq(|ix|, a requires 0 <= a < |ix| => if ix[a] < |times| then times[ix[a]] else 0.0)
  }

  ghost predicate Spaced(times: seq<real>) {
    forall a, b :: 0 <= a < b < |times| ==> times[b] - times[a] >= COOLDOWN_MS
  }

  /** Calls, one more than the cap, that are a cooldown apart and within one minute, with another call in between
      that comes more than a minute after the first. */
  ghost predicate Burst(times: seq<real>, ix: seq<nat>, k: nat, cap: nat) {
    && |ix| == cap + 1 && Positions(ix, |times|) && Spaced(Chosen(times, ix))
    && Chosen(times, ix)[cap] - Chosen(times, ix)[0] <= WINDOW_MS
    && ix[0] < k < ix[cap] && times[k] - Chosen(times, ix)[0] > WINDOW_MS
  }

  ghost predicate CanBurst(times: seq<real>, cap: nat) {
    exists ix, k :: Burst(times, ix, k, cap)
  }

  /** Every run at these times keeps the gesture within its cap in every closed minute. */
  ghost predicate CapHolds(c: Capability, times: seq<real>, g: Gesture, cap: nat) {
    forall calls, lo :: TimesOf(calls) == times ==> CountInMinute(Log(c, calls, |calls|), g, lo) <= cap
  }

  /** Where in the log the uses of `g` in the minute are. */
  function InMinute(uses: seq<Use>, g: Gesture, lo: real): (r: seq<nat>)
    ensures |r| == CountInMinute(uses, g, lo)
  {
    if uses == [] then []
    else
      var n := |uses| - 1;
      InMinute(uses[..n], g, lo) + if uses[n].gesture == g && lo <= uses[n].atMs <= lo + WINDOW_MS then [n] else []
  }

  ghost predicate UsesOfGesture(uses: seq<Use>, g: Gesture, at: seq<nat>) {
    forall a :: 0 <= a < |at| ==> at[a] < |uses| && uses[at[a]].gesture == g
  }

  ghost predicate UsesInMinute(uses: seq<Use>, lo: real, at: seq<nat>) {
    forall a :: 0 <= a < |at| ==> at[a] < |uses| && lo <= uses[at[a]].atMs <= lo + WINDOW_MS
  }

  lemma {:induction false} InMinuteFacts(uses: seq<Use>, g: Gesture, lo: real)
    ensures var at := InMinute(uses, g, lo);
            Positions(at, |uses|) && UsesOfGesture(uses, g, at) && UsesInMinute(uses, lo, at)
  {
    hide Positions, UsesOfGesture, UsesInMinute;
    if uses == [] {
      NoPositions(g, lo);
    } else {
      var n := |uses| - 1;
      InMinuteFacts(uses[..n], g, lo);
      var before := InMinute(uses[..n], g, lo);
      OneMoreUse(uses, g, lo, before);
      assert before + [] == before;
    }
  }

  lemma {:induction false} NoPositions(g: Gesture, lo: real)
    ensures Positions([], 0) && UsesOfGesture([], g, []) && UsesInMinute([], lo, [])
  {
  }

  lemma {:induction false} OneMoreUse(uses: seq<Use>, g: Gesture, lo: real, at: seq<nat>)
    requires uses != [] && Positions(at, |uses| - 1)
    requires UsesOfGesture(uses[..|uses| - 1], g, at) && UsesInMinute(uses[..|uses| - 1], lo, at)
    ensures Positions(at, |uses|) && UsesOfGesture(uses, g, at) && UsesInMinute(uses, lo, at)
    ensures var u := uses[|uses| - 1];
            u.gesture == g && lo <= u.atMs <= lo + WINDOW_MS ==>
              Positions(at + [|uses| - 1], |uses|) && UsesOfGesture(uses, g, at + [|uses| - 1]) && UsesInMinute(uses, lo, at + [|uses| - 1])
  {
    var n := |uses| - 1;
    assert forall a :: 0 <= a < |at| ==> uses[..n][at[a]] == uses[at[a]];
    var more := at + [n];
    assert forall a :: 0 <= a < |more| ==> more[a] == if a < |at| then at[a] else n;
  }

  lemma {:induction false} CountCovers(uses: seq<Use>, g: Gesture, at: seq<nat>)
    requires Positions(at, |uses|) && UsesOfGesture(uses, g, at)
    ensures |at| <= Count(uses, g)
    decreases |uses|
  {
    if uses != [] {
      var n := |uses| - 1;
      var front := if at != [] && at[|at| - 1] == n then at[..|at| - 1] else at;
      PositionsBelow(uses, g, at, front, n);
      hide Positions, UsesOfGesture;
      CountCovers(uses[..n], g, front);
      if at != [] && at[|at| - 1] == n {
        assert uses[n].gesture == g by { LastUse(uses, g, at); }
      }
    } else {
      NoneBelowZero(at, |uses|);
    }
  }

  lemma {:induction false} NoneBelowZero(at: seq<nat>, n: nat)
    requires Positions(at, n)
    ensures n == 0 ==> at == []
  {
    if at != [] {
      assert at[0] < n;
    }
  }

  lemma {:induction false} LastUse(uses: seq<Use>, g: Gesture, at: seq<nat>)
    requires at != [] && UsesOfGesture(uses, g, at)
    ensures at[|at| - 1] < |uses| && uses[at[|at| - 1]].gesture == g
  {
  }

  lemma {:induction false} PositionsBelow(uses: seq<Use>, g: Gesture, at: seq<nat>, front: seq<nat>, n: nat)
    requires n + 1 == |uses| && Positions(at, |uses|) && UsesOfGesture(uses, g, at)
    requires front == if at != [] && at[|at| - 1] == n then at[..|at| - 1] else at
    ensures Positions(front, n) && UsesOfGesture(uses[..n], g, front)
  {
    forall a | 0 <= a < |front|
      ensures front[a] < n && uses[..n][front[a]].gesture == g
    {
      assert front[a] == at[a];
      if a < |at| - 1 {
        assert at[a] < at[|at| - 1];
      }
    }
  }

  lemma {:induction false} CountCoversStretch(log: seq<Use>, d: nat, q: nat, g: Gesture, at: seq<nat>)
    requires d <= q <= |log| && Positions(at, q) && UsesOfGesture(log, g, at) && (at != [] ==> d <= at[0])
    ensures |at| <= Count(log[d..q], g)
  {
    assert forall a :: 0 < a < |at| ==> at[0] < at[a];
    var shifted := seq(|at|, a requires 0 <= a < |at| => at[a] - d);
    assert Positions(shifted, q - d);
    assert UsesOfGesture(log[d..q], g, shifted) by {
      assert forall a :: 0 <= a < |at| ==> log[d..q][shifted[a]] == log[at[a]];
    }
    CountCovers(log[d..q], g, shifted);
  }

  /** A minute over the cap comes from a burst. */
  lemma {:induction false} OverCapIsBurst(c: Capability, calls: seq<Call>, g: Gesture, lo: real, cap: nat)
    requires Cap(g) == Some(cap) && CountInMinute(Log(c, calls, |calls|), g, lo) > cap
    ensures CanBurst(TimesOf(calls), cap)
  {
    hide *;
    var log, madeIn := Log(c, calls, |calls|), CallsOf(c, calls, |calls|);
    InMinuteFacts(log, g, lo);
    var at := FirstPositions(log, g, lo, InMinute(log, g, lo), cap + 1);
    var q := at[cap];
    assert q < |log| && log[q].gesture == g by { LastUse(log, g, at); }
    RunIsAccounted(c, calls, |calls|);
    var k := FirstIsOutdated(calls, MemoryAfter(c, calls, |calls|), log, madeIn, if |calls| == 0 then 0 else |calls| - 1, g, at, cap);
    RunIsCooled(c, calls, |calls|);
    LogIsMadeIn(c, calls, |calls|);
    MadeInOrder(c, calls, |calls|);
    BurstOfUses(calls, MemoryAfter(c, calls, |calls|), log, madeIn, g, lo, at, k, cap);
  }

  lemma {:induction false} FirstPositions(uses: seq<Use>, g: Gesture, lo: real, at: seq<nat>, n: nat) returns (r: seq<nat>)
    requires n <= |at| && Positions(at, |uses|) && UsesOfGesture(uses, g, at) && UsesInMinute(uses, lo, at)
    ensures |r| == n && Positions(r, |uses|) && UsesOfGesture(uses, g, r) && UsesInMinute(uses, lo, r)
  {
    r := at[..n];
  }

  /** Of more uses than the cap, the first was outdated when the last was made. */
  lemma {:induction false} FirstIsOutdated(calls: seq<Call>, m: Memory, log: seq<Use>, madeIn: seq<nat>, last: nat, g: Gesture,
                                           at: seq<nat>, cap: nat) returns (k: nat)
    requires Accounted(calls, m, log, madeIn, last) && Cap(g) == Some(cap) && |madeIn| == |log|
    requires |at| == cap + 1 && Positions(at, |log|) && UsesOfGesture(log, g, at)
    ensures at[0] < |log| && at[cap] < |log| && madeIn[at[0]] < k <= madeIn[at[cap]] && k < |calls|
    ensures calls[k].atMs - log[at[0]].atMs > WINDOW_MS
  {
    var q := at[cap];
    hide Outdated, Count, Cap, Rest;
    assert WasBelow(calls, log, madeIn, q, cap);
    var d :| 0 <= d <= q && Count(log[d..q], g) < cap && forall i :: 0 <= i < d ==> Outdated(calls, log[i], madeIn[i], madeIn[q]);
    if d <= at[0] {
      assert forall a :: 0 <= a < cap ==> at[..cap][a] < q;
      CountCoversStretch(log, d, q, g, at[..cap]);
      assert false;
    }
    k := OutdatingCall(calls, log[at[0]], madeIn[at[0]], madeIn[q]);
  }

  lemma {:induction false} BurstOfUses(calls: seq<Call>, m: Memory, log: seq<Use>, madeIn: seq<nat>, g: Gesture, lo: real,
                                       at: seq<nat>, k: nat, cap: nat)
    requires Cooled(m, log) && MadeIn(calls, log, madeIn, |calls|)
    requires NonFalling(madeIn)
    requires |at| == cap + 1 && Positions(at, |log|) && UsesOfGesture(log, g, at) && UsesInMinute(log, lo, at)
    requires madeIn[at[0]] < k <= madeIn[at[cap]] && calls[k].atMs - log[at[0]].atMs > WINDOW_MS
    ensures CanBurst(TimesOf(calls), cap)
  {
    hide Burst;
    var times := TimesOf(calls);
    var ix := seq(cap + 1, a requires 0 <= a < cap + 1 => madeIn[at[a]]);
    forall a, b | 0 <= a < b < |ix|
      ensures ix[a] < ix[b] && log[at[b]].atMs - log[at[a]].atMs >= COOLDOWN_MS
    {
      assert at[a] < at[b];
    }
    assert Positions(ix, |times|);
    var ts := Chosen(times, ix);
    assert forall a :: 0 <= a < |ts| ==> ts[a] == log[at[a]].atMs;
    assert Spaced(ts);
    IsBurst(times, ix, k, cap);
  }

  lemma {:induction false} IsBurst(times: seq<real>, ix: seq<nat>, k: nat, cap: nat)
    requires |ix| == cap + 1 && Positions(ix, |times|) && Spaced(Chosen(times, ix))
    requires Chosen(times, ix)[cap] - Chosen(times, ix)[0] <= WINDOW_MS
    requires ix[0] < k <= ix[cap] && times[k] - Chosen(times, ix)[0] > WINDOW_MS
    ensures Burst(times, ix, k, cap) && CanBurst(times, cap)
  {
    hide Spaced;
    assert ix[cap] < |times|;
  }

  lemma {:induction false} OutdatingCall(calls: seq<Call>, u: Use, madeIn: nat, last: nat) returns (k: nat)
    requires Outdated(calls, u, madeIn, last)
    ensures madeIn < k <= last && k < |calls| && calls[k].atMs - u.atMs > WINDOW_MS
  {
    k :| madeIn < k <= last && k < |calls| && calls[k].atMs - u.atMs > WINDOW_MS;
  }

  ghost predicate NonFalling(s: seq<nat>) {
    forall i, j :: 0 <= i < j < |s| ==> s[i] <= s[j]
  }

  lemma {:induction false} MadeInOrder(c: Capability, calls: seq<Call>, n: nat)
    requires n <= |calls|
    ensures NonFalling(CallsOf(c, calls, n))
  {
    hide NonFalling, MadeIn, Log, PickedAt;
    if n == 0 {
      assert NonFalling([]) by { NoneFalls(); }
    } else {
      MadeInOrder(c, calls, n - 1);
      LogIsMadeIn(c, calls, n - 1);
      AppendedLast(Log(c, calls, n - 1), calls, CallsOf(c, calls, n - 1), n - 1, |PickedAt(c, calls, n - 1).selected|);
    }
  }

  lemma {:induction false} NoneFalls()
    ensures NonFalling([])
  {
  }

  lemma {:induction false} AppendedLast(log: seq<Use>, calls: seq<Call>, s: seq<nat>, n: nat, k: nat)
    requires NonFalling(s) && n <= |calls| && MadeIn(calls, log, s, n)
    ensures NonFalling(s + seq(k, _ => n))
  {
  }

  // ---------------------------------------------------------------- a burst goes over the cap

  function Asking(candidates: seq<Gesture>, atMs: real): Call {
    Call(candidates, SpeakingExplaining, atMs, (_: Gesture) => 0.0)
  }

  /** At these times, `g` asked for in the listed calls and nothing in the others. */
  function AskedIn(times: seq<real>, ix: seq<nat>, g: Gesture): (r: seq<Call>)
    ensures |r| == |times|
  {
    seq(|times|, i requires 0 <= i < |times| => Asking(if i in ix then [g] else [], times[i]))
  }

  lemma {:induction false} AskedAt(times: seq<real>, ix: seq<nat>, g: Gesture, i: nat)
    requires i < |times|
    ensures AskedIn(times, ix, g)[i] == Asking(if i in ix then [g] else [], times[i])
  {
  }

  lemma {:induction false} AskedAtTimes(times: seq<real>, ix: seq<nat>, g: Gesture)
    ensures TimesOf(AskedIn(times, ix, g)) == times
  {
    var calls := AskedIn(times, ix, g);
    assert forall i :: 0 <= i < |times| ==> TimesOf(calls)[i] == calls[i].atMs == times[i];
  }

  function UsesAt(g: Gesture, times: seq<real>): (r: seq<Use>)
    ensures |r| == |times|
  {
    seq(|times|, a requires 0 <= a < |times| => Use(g, times[a]))
  }

  /** One gesture that is asked for and ready is picked. */
  lemma PicksTheOne(m: Memory, c: Capability, g: Gesture, atMs: real)
    requires g in c.gestures
    requires Ready(m.(recent := Prune(m.recent, atMs)), g, atMs, 0.0, 0.7)
    ensures var call := Asking([g], atMs);
            Select(m, call.candidates, c, call.goal, call.atMs, call.roll)
            == Picked(Remember(m.(recent := Prune(m.recent, atMs)), g, atMs), [g])
  {
    var pruned := m.(recent := Prune(m.recent, atMs));
    var roll := Asking([g], atMs).roll;
    FilteredOne(g, c);
    hide Prune, Ready, Filtered, Remember;
    assert Pick(pruned, [g], 0, AllowanceOf(SpeakingExplaining), atMs, roll) == Picked(pruned, []);
    assert Pick(pruned, [g], 1, AllowanceOf(SpeakingExplaining), atMs, roll) == Picked(Remember(pruned, g, atMs), [g]);
  }

  lemma FilteredOne(g: Gesture, c: Capability)
    requires g in c.gestures
    ensures Filtered([g], c, false) == [g]
  {
    assert [g][..0] == [] && Filtered([], c, false) == [];
  }

  lemma PicksNothing(m: Memory, c: Capability, atMs: real)
    ensures var call := Asking([], atMs);
            Select(m, call.candidates, c, call.goal, call.atMs, call.roll) == Picked(m.(recent := Prune(m.recent, atMs)), [])
  {
    hide Prune;
  }

  lemma RunStep(c: Capability, calls: seq<Call>, i: nat)
    requires i < |calls|
    ensures var call := calls[i];
            var p := Select(MemoryAfter(c, calls, i), call.candidates, c, call.goal, call.atMs, call.roll);
            MemoryAfter(c, calls, i + 1) == p.memory && Log(c, calls, i + 1) == Log(c, calls, i) + UsesOf(p.selected, call.atMs)
  {
    hide Select;
  }

  lemma {:induction false} CountAtMostLength(uses: seq<Use>, g: Gesture)
    ensures Count(uses, g) <= |uses|
  {
    if uses != [] {
      CountAtMostLength(uses[..|uses| - 1], g);
    }
  }

  /** The first `j` of the positions are the ones below `n`. */
  ghost predicate Passed(ix: seq<nat>, n: nat, j: nat) {
    j <= |ix| && forall a :: 0 <= a < |ix| ==> (ix[a] < n <==> a < j)
  }

  /** After the first `j` uses of `g`, at `times`: nothing else was used, and the first `d` are forgotten, among
      them the first use once it has been outdated. */
  ghost predicate Bursting(times: seq<real>, g: Gesture, m: Memory, log: seq<Use>, d: nat, j: nat, outdated: bool) {
    && d <= j <= |times| && log == UsesAt(g, times[..j]) && m.recent == UsesAt(g, times[d..j])
    && m.lastUsed == (if j == 0 then map[] else map[g := times[j - 1]])
    && (outdated ==> d > 0)
  }

  lemma {:induction false} BurstRuns(c: Capability, times: seq<real>, ix: seq<nat>, k: nat, g: Gesture, cap: nat, n: nat)
      returns (d: nat, j: nat)
    requires g in c.gestures && Cap(g) == Some(cap) && Burst(times, ix, k, cap) && n <= |times|
    ensures Passed(ix, n, j) && Positions(ix, |times|)
    ensures var calls := AskedIn(times, ix, g);
            Bursting(Chosen(times, ix), g, MemoryAfter(c, calls, n), Log(c, calls, n), d, j, n > k)
    decreases n
  {
    hide *;
    if n == 0 {
      BurstStarts(c, times, ix, k, g, cap);
      d, j := 0, 0;
    } else {
      var calls := AskedIn(times, ix, g);
      d, j := BurstRuns(c, times, ix, k, g, cap, n - 1);
      d, j := BurstNext(c, times, ix, k, g, cap, n - 1, MemoryAfter(c, calls, n - 1), Log(c, calls, n - 1), d, j);
      AskedAt(times, ix, g, n - 1);
      RunStep(c, calls, n - 1);
    }
  }

  lemma {:induction false} BurstNext(c: Capability, times: seq<real>, ix: seq<nat>, k: nat, g: Gesture, cap: nat, n: nat,
                                     m: Memory, log: seq<Use>, d: nat, j: nat) returns (e: nat, i: nat)
    requires g in c.gestures && Cap(g) == Some(cap) && Burst(times, ix, k, cap) && n < |times|
    requires Passed(ix, n, j) && Positions(ix, |times|) && Bursting(Chosen(times, ix), g, m, log, d, j, n > k)
    ensures Passed(ix, n + 1, i)
    ensures var call := Asking(if n in ix then [g] else [], times[n]);
            var p := Select(m, call.candidates, c, call.goal, call.atMs, call.roll);
            Bursting(Chosen(times, ix), g, p.memory, log + UsesOf(p.selected, call.atMs), e, i, n + 1 > k)
  {
    hide *;
    if n in ix {
      ListedNext(times, ix, k, cap, n, j);
      e := BurstPicks(c, Chosen(times, ix), g, cap, m, log, d, j, n > k);
      i := j + 1;
    } else {
      SkippedNext(times, ix, k, cap, n, j);
      e := BurstSkips(c, Chosen(times, ix), g, m, log, d, j, n > k, n + 1 > k, times[n]);
      i := j;
    }
  }

  lemma {:induction false} BurstStarts(c: Capability, times: seq<real>, ix: seq<nat>, k: nat, g: Gesture, cap: nat)
    requires Burst(times, ix, k, cap)
    ensures Passed(ix, 0, 0) && Positions(ix, |times|)
    ensures var calls := AskedIn(times, ix, g);
            Bursting(Chosen(times, ix), g, MemoryAfter(c, calls, 0), Log(c, calls, 0), 0, 0, false)
  {
    var ts := Chosen(times, ix);
    hide AskedIn, Chosen, Spaced;
    assert UsesAt(g, ts[..0]) == [] && UsesAt(g, ts[0..0]) == [];
  }

  lemma {:induction false} ListedNext(times: seq<real>, ix: seq<nat>, k: nat, cap: nat, n: nat, j: nat)
    requires Burst(times, ix, k, cap) && n in ix && Passed(ix, n, j)
    ensures j < |ix| && ix[j] == n && Passed(ix, n + 1, j + 1) && (j == cap ==> n > k)
    ensures Chosen(times, ix)[j] == times[n] && Spaced(Chosen(times, ix)) && |Chosen(times, ix)| == cap + 1
    ensures n > k <==> n + 1 > k
  {
    var a :| 0 <= a < |ix| && ix[a] == n;
    assert a == j by {
      assert a >= j;
      assert !(ix[j] < n);
    }
    hide Spaced;
    assert forall b :: 0 <= b < |ix| ==> (b < j ==> ix[b] < ix[j]) && (j < b ==> ix[j] < ix[b]);
    if n == k {
      OutdatingIsNotChosen(times, ix, k, cap, j);
    }
  }

  lemma {:induction false} OutdatingIsNotChosen(times: seq<real>, ix: seq<nat>, k: nat, cap: nat, j: nat)
    requires Burst(times, ix, k, cap) && j < |ix|
    ensures ix[j] != k
  {
    var ts := Chosen(times, ix);
    assert j < cap ==> ts[cap] - ts[j] >= COOLDOWN_MS;
  }

  lemma {:induction false} SkippedNext(times: seq<real>, ix: seq<nat>, k: nat, cap: nat, n: nat, j: nat)
    requires Burst(times, ix, k, cap) && n < |times| && n !in ix && Passed(ix, n, j)
    ensures Passed(ix, n + 1, j)
    ensures n + 1 > k && !(n > k) ==> j > 0 && times[n] - Chosen(times, ix)[0] > WINDOW_MS
  {
    hide Spaced;
    assert forall a :: 0 <= a < |ix| ==> ix[a] != n;
  }

  /** Pruning uses of one gesture leaves the uses from some later time on. */
  lemma {:induction false} PruneUses(g: Gesture, times: seq<real>, d: nat, j: nat, atMs: real) returns (e: nat)
    requires d <= j <= |times|
    ensures d <= e <= j && Prune(UsesAt(g, times[d..j]), atMs) == UsesAt(g, times[e..j])
    ensures e == d < j ==> atMs - times[d] <= WINDOW_MS
    decreases j - d
  {
    var uses := UsesAt(g, times[d..j]);
    assert d < j ==> uses[0] == Use(g, times[d]);
    if d < j && atMs - times[d] > WINDOW_MS {
      assert uses[1..] == UsesAt(g, times[d + 1..j]);
      e := PruneUses(g, times, d + 1, j, atMs);
    } else {
      e := d;
    }
  }

  lemma {:induction false} OneMoreAt(g: Gesture, times: seq<real>, d: nat, j: nat)
    requires d <= j < |times|
    ensures UsesAt(g, times[d..j + 1]) == UsesAt(g, times[d..j]) + [Use(g, times[j])]
  {
    assert times[d..j + 1] == times[d..j] + [times[j]];
  }

  lemma {:induction false} BurstPicks(c: Capability, times: seq<real>, g: Gesture, cap: nat, m: Memory, log: seq<Use>, d: nat, j: nat,
                                      outdated: bool) returns (e: nat)
    requires g in c.gestures && Cap(g) == Some(cap) && Spaced(times) && |times| == cap + 1
    requires j < |times| && Bursting(times, g, m, log, d, j, outdated) && (j == cap ==> outdated)
    ensures var call := Asking([g], times[j]);
            var p := Select(m, call.candidates, c, call.goal, call.atMs, call.roll);
            Bursting(times, g, p.memory, log + UsesOf(p.selected, call.atMs), e, j + 1, outdated)
  {
    hide Select, UsesAt, Prune, Filtered, Count;
    var atMs := times[j];
    e := PruneUses(g, times, d, j, atMs);
    var pruned := m.(recent := Prune(m.recent, atMs));
    CountAtMostLength(pruned.recent, g);
    assert Ready(pruned, g, atMs, 0.0, 0.7);
    hide Ready, Spaced;
    PicksTheOne(m, c, g, atMs);
    OneMoreAt(g, times, e, j);
    OneMoreAt(g, times, 0, j);
    assert times[0..j] == times[..j] && times[0..j + 1] == times[..j + 1];
    assert UsesOf([g], atMs) == [Use(g, atMs)];
    assert j > 0 ==> m.lastUsed[g := atMs] == map[g := atMs];
  }

  lemma {:induction false} BurstSkips(c: Capability, times: seq<real>, g: Gesture, m: Memory, log: seq<Use>, d: nat, j: nat,
                                      outdated: bool, outdates: bool, atMs: real) returns (e: nat)
    requires Bursting(times, g, m, log, d, j, outdated)
    requires outdates && !outdated ==> j > 0 && atMs - times[0] > WINDOW_MS
    ensures var call := Asking([], atMs);
            var p := Select(m, call.candidates, c, call.goal, call.atMs, call.roll);
            Bursting(times, g, p.memory, log + UsesOf(p.selected, call.atMs), e, j, outdates)
  {
    hide *;
    BurstIsHeld(times, g, m, log, d, j, outdated);
    e := PruneUses(g, times, d, j, atMs);
    PicksNothing(m, c, atMs);
    AskingAt(atMs);
    SkipKeepsBurst(times, g, m, log, d, j, outdated, outdates, atMs, e);
  }

  lemma {:induction false} BurstIsHeld(times: seq<real>, g: Gesture, m: Memory, log: seq<Use>, d: nat, j: nat, outdated: bool)
    requires Bursting(times, g, m, log, d, j, outdated)
    ensures d <= j <= |times| && m.recent == UsesAt(g, times[d..j]) && (outdated ==> d > 0)
  {
    hide UsesAt;
  }

  lemma {:induction false} SkipKeepsBurst(times: seq<real>, g: Gesture, m: Memory, log: seq<Use>, d: nat, j: nat,
                                          outdated: bool, outdates: bool, atMs: real, e: nat)
    requires Bursting(times, g, m, log, d, j, outdated) && d <= e <= j
    requires outdates && !outdated ==> j > 0 && atMs - times[0] > WINDOW_MS
    requires e == d < j ==> atMs - times[d] <= WINDOW_MS
    ensures Bursting(times, g, m.(recent := UsesAt(g, times[e..j])), log + UsesOf([], atMs), e, j, outdates)
  {
    hide UsesAt;
    assert log + UsesOf([], atMs) == log;
  }

  lemma {:induction false} AskingAt(atMs: real)
    ensures Asking([], atMs).atMs == atMs
  {
  }

  lemma {:induction false} AllInMinute(uses: seq<Use>, g: Gesture, lo: real)
    requires forall a :: 0 <= a < |uses| ==> uses[a].gesture == g && lo <= uses[a].atMs <= lo + WINDOW_MS
    ensures CountInMinute(uses, g, lo) == |uses|
  {
    if uses != [] {
      AllInMinute(uses[..|uses| - 1], g, lo);
    }
  }

  /** A burst lets one gesture be used once more than its cap within one minute. */
  lemma {:induction false} BurstGoesOver(c: Capability, times: seq<real>, ix: seq<nat>, k: nat, g: Gesture, cap: nat)
    requires g in c.gestures && Cap(g) == Some(cap) && Burst(times, ix, k, cap)
    ensures CountInMinute(Log(c, AskedIn(times, ix, g), |times|), g, times[ix[0]]) == cap + 1
  {
    assert Positions(ix, |times|) && Spaced(Chosen(times, ix));
    hide *;
    var d, j := BurstRuns(c, times, ix, k, g, cap, |times|);
    AllPassed(ix, |times|, j);
    WholeBurst(Chosen(times, ix), g, MemoryAfter(c, AskedIn(times, ix, g), |times|), Log(c, AskedIn(times, ix, g), |times|), d, j,
               |times| > k);
    BurstIsInMinute(g, Chosen(times, ix), cap);
  }

  lemma {:induction false} WholeBurst(times: seq<real>, g: Gesture, m: Memory, log: seq<Use>, d: nat, j: nat, outdated: bool)
    requires Bursting(times, g, m, log, d, j, outdated) && j == |times|
    ensures log == UsesAt(g, times)
  {
    hide UsesAt;
    assert times[..j] == times;
  }

  lemma {:induction false} AllPassed(ix: seq<nat>, n: nat, j: nat)
    requires Passed(ix, n, j) && Positions(ix, n)
    ensures j == |ix|
  {
    if ix != [] {
      assert ix[|ix| - 1] < n;
    }
  }

  lemma {:induction false} BurstIsInMinute(g: Gesture, times: seq<real>, cap: nat)
    requires |times| == cap + 1 && Spaced(times) && times[cap] - times[0] <= WINDOW_MS
    ensures CountInMinute(UsesAt(g, times), g, times[0]) == cap + 1
  {
    forall a | 0 <= a < |times|
      ensures times[0] <= times[a] <= times[0] + WINDOW_MS
    {
      assert a > 0 ==> times[a] - times[0] >= COOLDOWN_MS;
      assert a < cap ==> times[cap] - times[a] >= COOLDOWN_MS;
    }
    AllInMinute(UsesAt(g, times), g, times[0]);
  }

  /** Exactly when calls at given times keep a capped gesture within its cap, whatever is asked for and drawn:
      when the times hold no burst. */
  lemma {:induction false} CapHoldsIffNoBurst(c: Capability, times: seq<real>, g: Gesture, cap: nat)
    requires g in c.gestures && Cap(g) == Some(cap)
    ensures CapHolds(c, times, g, cap) <==> !CanBurst(times, cap)
  {
    hide Burst, Log, CountInMinute;
    if !CanBurst(times, cap) {
      forall calls, lo | TimesOf(calls) == times
        ensures CountInMinute(Log(c, calls, |calls|), g, lo) <= cap
      {
        if CountInMinute(Log(c, calls, |calls|), g, lo) > cap {
          OverCapIsBurst(c, calls, g, lo, cap);
        }
      }
    }
    if CanBurst(times, cap) {
      var ix, k :| Burst(times, ix, k, cap);
      BurstGoesOver(c, times, ix, k, g, cap);
      AskedAtTimes(times, ix, g);
    }
  }

  predicate NonDecreasing(calls: seq<Call>) {
    forall i, j :: 0 <= i < j < |calls| ==> calls[i].atMs <= calls[j].atMs
  }

  /** With times that never go back, every closed minute of a session holds at most six nods and four
      smiles, although older uses are forgotten. */
  lemma MinuteCapsHold(c: Capability, calls: seq<Call>, lo: real)
    requires NonDecreasing(calls)
    ensures CountInMinute(Log(c, calls, |calls|), Nod, lo) <= 6
    ensures CountInMinute(Log(c, calls, |calls|), Smile, lo) <= 4
  {
    hide Log, CountInMinute;
    OrderedTimesHoldNoBurst(calls, 6);
    OrderedTimesHoldNoBurst(calls, 4);
    if CountInMinute(Log(c, calls, |calls|), Nod, lo) > 6 {
      OverCapIsBurst(c, calls, Nod, lo, 6);
    }
    if CountInMinute(Log(c, calls, |calls|), Smile, lo) > 4 {
      OverCapIsBurst(c, calls, Smile, lo, 4);
    }
  }

  lemma {:induction false} OrderedTimesHoldNoBurst(calls: seq<Call>, cap: nat)
    ensures CanBurst(TimesOf(calls), cap) ==> !NonDecreasing(calls)
  {
    hide Burst, NonDecreasing;
    if CanBurst(TimesOf(calls), cap) {
      var ix, k :| Burst(TimesOf(calls), ix, k, cap);
      BurstGoesBack(calls, ix, k, cap);
    }
  }

  lemma {:induction false} BurstGoesBack(calls: seq<Call>, ix: seq<nat>, k: nat, cap: nat)
    requires Burst(TimesOf(calls), ix, k, cap)
    ensures !NonDecreasing(calls)
  {
    hide Spaced;
    assert calls[k].atMs > calls[ix[cap]].atMs;
  }

  const BACKWARD_TIMES: seq<real> :=
    [0.0, 8_000.0, 16_000.0, 24_000.0, 32_000.0, 40_000.0, 1_000_000.0, 48_000.0]

  const NODDING_CALLS: seq<nat> := [0, 1, 2, 3, 4, 5, 7]

  lemma {:induction false} BackwardTimesBurst()
    ensures Burst(BACKWARD_TIMES, NODDING_CALLS, 6, 6)
  {
    var ts := Chosen(BACKWARD_TIMES, NODDING_CALLS);
    assert ts == [0.0, 8_000.0, 16_000.0, 24_000.0, 32_000.0, 40_000.0, 48_000.0];
    hide Chosen;
    assert Spaced(ts);
    assert Positions(NODDING_CALLS, 8);
    hide Spaced, Positions;
  }

  /** Six nods, then a call far in the future that asks for nothing but outdates them, then a nod at an earlier
      time again: seven nods within one minute. */
  lemma ClockGoingBackBreaksTheCap(c: Capability)
    requires Nod in c.gestures
    ensures var calls := AskedIn(BACKWARD_TIMES, NODDING_CALLS, Nod);
            !NonDecreasing(calls) && CountInMinute(Log(c, calls, |calls|), Nod, 0.0) == 7
  {
    BackwardTimesBurst();
    BurstGoesOver(c, BACKWARD_TIMES, NODDING_CALLS, 6, Nod, 6);
    hide Log, CountInMinute;
    var calls := AskedIn(BACKWARD_TIMES, NODDING_CALLS, Nod);
    AskedAt(BACKWARD_TIMES, NODDING_CALLS, Nod, 6);
    AskedAt(BACKWARD_TIMES, NODDING_CALLS, Nod, 7);
    assert calls[6].atMs > calls[7].atMs;
  }

  // ---------------------------------------------------------------- what may be selected

  lemma {:induction false} PickedAreReadyCandidates(m: Memory, gestures: seq<Gesture>, n: nat, a: Allowance,
                                                    atMs: real, roll: Gesture -> real)
    requires n <= |gestures|
    ensures var p := Pick(m, gestures, n, a, atMs, roll);
            && |p.selected| <= a.maxCount
            && (forall g :: g in p.selected ==> g in gestures && roll(g) <= a.probability)
  {
    if n > 0 {
      PickedAreReadyCandidates(m, gestures, n - 1, a, atMs, roll);
    }
  }

  predicate Distinct(gestures: seq<Gesture>) {
    forall i, j :: 0 <= i < j < |gestures| ==> gestures[i] != gestures[j]
  }

  /** Every selected gesture was asked for, is one the provider allows, is quiet where the state
      demands it, won its draw, and there are no more than the state permits, none twice. */
  lemma SelectionIsAllowed(c: Capability, calls: seq<Call>, i: nat)
    requires i < |calls|
    ensures var p, call := PickedAt(c, calls, i), calls[i];
            var a := AllowanceOf(call.goal);
            && |p.selected| <= a.maxCount
            && Distinct(p.selected)
            && (forall g :: g in p.selected ==>
                              g in call.candidates && g in c.gestures && (a.quietOnly ==> Quiet(g)) && call.roll(g) <= a.probability)
  {
    hide MemoryAfter, Select, Cooled;
    SelectedAreAllowed(MemoryAfter(c, calls, i), c, calls[i]);
    RunIsCooled(c, calls, i);
    SelectKeepsCooled(MemoryAfter(c, calls, i), Log(c, calls, i), c, calls[i]);
    CooledTailIsDistinct(PickedAt(c, calls, i).memory, Log(c, calls, i), PickedAt(c, calls, i).selected, calls[i].atMs);
  }

  lemma SelectedAreAllowed(m: Memory, c: Capability, call: Call)
    ensures var p := Select(m, call.candidates, c, call.goal, call.atMs, call.roll);
            var a := AllowanceOf(call.goal);
            && |p.selected| <= a.maxCount
            && (forall g :: g in p.selected ==>
                              g in call.candidates && g in c.gestures && (a.quietOnly ==> Quiet(g)) && call.roll(g) <= a.probability)
  {
    hide Pick, Prune;
    var a := AllowanceOf(call.goal);
    var gestures := Filtered(call.candidates, c, a.quietOnly);
    PickedAreReadyCandidates(m.(recent := Prune(m.recent, call.atMs)), gestures, |gestures|, a, call.atMs, call.roll);
  }

  lemma CooledTailIsDistinct(m: Memory, log: seq<Use>, selected: seq<Gesture>, atMs: real)
    requires Cooled(m, log + UsesOf(selected, atMs))
    ensures Distinct(selected)
  {
    var uses := UsesOf(selected, atMs);
    forall j, k | 0 <= j < k < |selected|
      ensures selected[j] != selected[k]
    {
      assert (log + uses)[|log| + j] == uses[j] && (log + uses)[|log| + k] == uses[k];
    }
  }

  // ---------------------------------------------------------------- the director object

  predicate ValidIntent(i: Intent) {
    0.0 <= i.energy <= 1.0 && 0.0 <= i.warmth <= 1.0
  }

  function Clamp(value: real, low: real, high: real): real {
    var raised := if value < low then low else value;
    if raised > high then high else raised
  }

  /** Rounds half up, as the directive's integers are rounded. */
  function Round(x: real): int {
    (x + 0.5).Floor
  }

  function PacingBase(p: Pacing): real {
    match p case Slow => 0.25 case Normal => 0.5 case Fast => 0.85
  }

  function RateFraction(p: Pacing, energy: real): real {
    Clamp(PacingBase(p) + (energy - 0.5) * 0.2, 0.0, 1.0)
  }

  function Blend(low: real, high: real, t: real): real {
    low + t * (high - low)
  }

  function SpeakingRate(c: Capability, p: Pacing, energy: real): int {
    Round(Blend(c.minRate, c.maxRate, RateFraction(p, energy)))
  }

  lemma Interpolates(low: real, high: real, t: real, u: real)
    requires low <= high && 0.0 <= t <= u <= 1.0
    ensures low <= Blend(low, high, t) <= Blend(low, high, u) <= high
  {
    var d := high - low;
    ProductIsNonNegative(t, d);
    ProductIsNonNegative(u - t, d);
    ProductIsNonNegative(1.0 - u, d);
    assert (u - t) * d == u * d - t * d && (1.0 - u) * d == d - u * d;
  }

  lemma ProductIsNonNegative(x: real, y: real)
    requires x >= 0.0 && y >= 0.0
    ensures x * y >= 0.0
  {
  }

  lemma RateFractionIsMonotone(p: Pacing, q: Pacing, e: real, f: real)
    requires PacingBase(p) <= PacingBase(q) && e <= f
    ensures 0.0 <= RateFraction(p, e) <= RateFraction(q, f) <= 1.0
  {
  }

  lemma RoundIsMonotone(x: real, y: real)
    requires x <= y
    ensures Round(x) <= Round(y)
  {
  }

  /** The rate stays inside the provider's range, and neither more energy nor a quicker pacing slows it. */
  lemma SpeakingRateIsBoundedAndMonotone(c: Capability, p: Pacing, q: Pacing, e: real, f: real)
    requires c.minRate <= c.maxRate && PacingBase(p) <= PacingBase(q) && e <= f
    ensures Round(c.minRate) <= SpeakingRate(c, p, e) <= SpeakingRate(c, q, f) <= Round(c.maxRate)
  {
    RateFractionIsMonotone(p, q, e, f);
    hide RateFraction, Round, Blend;
    var t, u := RateFraction(p, e), RateFraction(q, f);
    Interpolates(c.minRate, c.maxRate, t, u);
    RoundIsMonotone(c.minRate, Blend(c.minRate, c.maxRate, t));
    RoundIsMonotone(Blend(c.minRate, c.maxRate, t), Blend(c.minRate, c.maxRate, u));
    RoundIsMonotone(Blend(c.minRate, c.maxRate, u), c.maxRate);
  }

  /** The first style with the given name, or the provider's default. */
  function StyleNamed(styles: seq<string>, name: string): string
    requires styles != []
  {
    if name in styles then name else styles[0]
  }

  function VoiceStyle(c: Capability, s: State, warmth: real): Option<string> {
    if c.voiceStyles == [] then None
    else if s == TechnicalDegraded then Some(StyleNamed(c.voiceStyles, "neutral_fallback"))
    else if warmth >= 0.6 then Some(StyleNamed(c.voiceStyles, "warm"))
    else Some(c.voiceStyles[0])
  }

  class Director {
    const capability: Capability
    var lastUsedAtMs: map<Gesture, real>
    var recentUsage: seq<Use>
    var callIndex: nat

    ghost function Remembered(): Memory
      reads this
    {
      Memory(lastUsedAtMs, recentUsage)
    }

    constructor (capability: Capability)
      ensures this.capability == capability && Remembered() == FORGETFUL && callIndex == 0
    {
      this.capability := capability;
      lastUsedAtMs, recentUsage, callIndex := map[], [], 0;
    }

    method PruneWindow(atMs: real)
      modifies this`recentUsage
      ensures recentUsage == Prune(old(recentUsage), atMs)
    {
      while recentUsage != [] && atMs - recentUsage[0].atMs > WINDOW_MS
        invariant Prune(recentUsage, atMs) == Prune(old(recentUsage), atMs)
        decreases |recentUsage|
      {
        recentUsage := recentUsage[1..];
      }
    }

    method SelectMicrogestures(candidates: seq<Gesture>, s: State, atMs: real, roll: Gesture -> real)
        returns (selected: seq<Gesture>)
      modifies this`lastUsedAtMs, this`recentUsage
      ensures Picked(Remembered(), selected) == Select(old(Remembered()), candidates, capability, s, atMs, roll)
    {
      PruneWindow(atMs);
      hide Prune, Filtered, Pick;
      var allowance := AllowanceOf(s);
      if allowance.maxCount == 0 {
        return [];
      }
      var gestures := Filtered(candidates, capability, allowance.quietOnly);
      selected := PickInOrder(gestures, allowance, atMs, roll);
    }

    /** The selection loop: stops at the state's maximum, skips what is not ready. */
    method PickInOrder(gestures: seq<Gesture>, allowance: Allowance, atMs: real, roll: Gesture -> real)
        returns (selected: seq<Gesture>)
      modifies this`lastUsedAtMs, this`recentUsage
      ensures Picked(Remembered(), selected) == Pick(old(Remembered()), gestures, |gestures|, allowance, atMs, roll)
    {
      ghost var start := Remembered();
      selected := [];
      assert Pick(start, gestures, 0, allowance, atMs, roll) == Picked(start, []);
      hide Pick, Ready;
      var i := 0;
      while i < |gestures| && |selected| < allowance.maxCount
        invariant i <= |gestures|
        invariant Picked(Remembered(), selected) == Pick(start, gestures, i, allowance, atMs, roll)
        modifies this`lastUsedAtMs, this`recentUsage
      {
        var g := gestures[i];
        PickStep(start, gestures, i, allowance, atMs, roll);
        i := i + 1;
        if Ready(Memory(lastUsedAtMs, recentUsage), g, atMs, roll(g), allowance.probability) {
          selected := selected + [g];
          lastUsedAtMs := lastUsedAtMs[g := atMs];
          recentUsage := recentUsage + [Use(g, atMs)];
        }
      }
      FullPickStops(start, gestures, i, |gestures|, allowance, atMs, roll);
    }

    /** Produces one directive. The gestures are already remembered when a missing voice style makes the
        call fail. */
    method Produce(intent: Intent, atMs: real, roll: Gesture -> real) returns (r: Option<Directive>)
      modifies this
      ensures !ValidIntent(intent) || atMs < 0.0 ==>
                r.None? && Remembered() == old(Remembered()) && callIndex == old(callIndex)
      ensures ValidIntent(intent) && atMs >= 0.0 ==>
                var picked := Select(old(Remembered()), if intent.reducedMotion then [] else intent.nonverbal,
                                     capability, intent.goal, atMs, roll);
                && Remembered() == picked.memory && callIndex == old(callIndex) + 1
                && (r.None? <==> capability.voiceStyles == [])
                && (r.Some? ==>
                      && r.value.gestures == picked.selected
                      && r.value.state == intent.goal
                      && Some(r.value.voiceStyle) == VoiceStyle(capability, intent.goal, intent.warmth)
                      && r.value.ratePercent == SpeakingRate(capability, intent.pacing, intent.energy)
                      && r.value.generationId == intent.generationId
                      && r.value.pauseMs == Round(PauseBase(intent.pauseProfile) as real + intent.warmth * 40.0)
                      && r.value.maxDurationMs == MaxDuration(intent.goal)
                      && r.value.gaze == (if capability.gaze && !intent.reducedMotion then GazeOf(intent.goal) else NoGaze))
    {
      if !ValidIntent(intent) || atMs < 0.0 {
        return None;
      }
      callIndex := callIndex + 1;
      var candidates := if intent.reducedMotion then [] else intent.nonverbal;
      var gestures := SelectMicrogestures(candidates, intent.goal, atMs, roll);
      hide Select, SpeakingRate;
      var style := VoiceStyle(capability, intent.goal, intent.warmth);
      if style.None? {
        return None;
      }
      r := Some(Directive(intent.goal, style.value, SpeakingRate(capability, intent.pacing, intent.energy),
                          Round(PauseBase(intent.pauseProfile) as real + intent.warmth * 40.0), gestures,
                          if capability.gaze && !intent.reducedMotion then GazeOf(intent.goal) else NoGaze,
                          MaxDuration(intent.goal), intent.generationId));
    }

    /** The directive for an interruption: no gesture, and nothing remembered or forgotten. */
    method Interrupted(generationId: nat, atMs: real) returns (r: Option<Directive>)
      ensures r.None? <==> atMs < 0.0 || capability.voiceStyles == []
      ensures r.Some? ==>
                && r.value.state == InterruptedRecovering && r.value.gestures == [] && r.value.generationId == generationId
                && |r.value.gestures| <= AllowanceOf(InterruptedRecovering).maxCount
                && r.value.maxDurationMs == MaxDuration(InterruptedRecovering) && r.value.pauseMs == PauseBase(Minimal)
    {
      var style := VoiceStyle(capability, InterruptedRecovering, 0.5);
      if atMs < 0.0 || style.None? {
        return None;
      }
      r := Some(Directive(InterruptedRecovering, style.value, SpeakingRate(capability, Normal, 0.5), PauseBase(Minimal), [],
                          if capability.gaze then Camera else NoGaze, MaxDuration(InterruptedRecovering), generationId));
    }
  }

  lemma PickStep(m: Memory, gestures: seq<Gesture>, i: nat, a: Allowance, atMs: real, roll: Gesture -> real)
    requires i < |gestures|
    ensures var before := Pick(m, gestures, i, a, atMs, roll);
            Pick(m, gestures, i + 1, a, atMs, roll)
            == if |before.selected| < a.maxCount && Ready(before.memory, gestures[i], atMs, roll(gestures[i]), a.probability)
               then Picked(Remember(before.memory, gestures[i], atMs), before.selected + [gestures[i]]) else before
  {
  }

  /** Once the quota is full, the remaining candidates change nothing. */
  lemma {:induction false} FullPickStops(m: Memory, gestures: seq<Gesture>, i: nat, n: nat, a: Allowance,
                                         atMs: real, roll: Gesture -> real)
    requires i <= n <= |gestures|
    requires i == n || |Pick(m, gestures, i, a, atMs, roll).selected| >= a.maxCount
    ensures Pick(m, gestures, n, a, atMs, roll) == Pick(m, gestures, i, a, atMs, roll)
    decreases n
  {
    if i < n {
      FullPickStops(m, gestures, i, n - 1, a, atMs, roll);
    }
  }
}
