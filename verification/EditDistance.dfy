/** The two-row edit-distance loop behind the realtime lab's word error rate, proved to return
    the least cost of any script of token edits, together with the metric laws of that cost. */
module EditDistance {

  type Token = string

  /** One aligned step of an edit script. */
  datatype Edit =
    | Keep(t: Token)
    | Substitute(from: Token, to: Token)
    | Insert(t: Token)
    | Delete(t: Token)

  /** A script, built by appending edits. */
  datatype Script = Empty | Then(init: Script, last: Edit)

  /** The tokens one edit reads, the tokens it writes, and what it costs. */
  function Reads(e: Edit): seq<Token> {
    match e
    case Keep(t) => [t]
    case Substitute(from, _) => [from]
    case Insert(_) => []
    case Delete(t) => [t]
  }

  function Writes(e: Edit): seq<Token> {
    match e
    case Keep(t) => [t]
    case Substitute(_, to) => [to]
    case Insert(t) => [t]
    case Delete(_) => []
  }

  function EditCost(e: Edit): nat {
    if e.Keep? then 0 else 1
  }

  function Source(s: Script): seq<Token> {
    if s == Empty then [] else Source(s.init) + Reads(s.last)
  }

  function Target(s: Script): seq<Token> {
    if s == Empty then [] else Target(s.init) + Writes(s.last)
  }

  function Cost(s: Script): nat {
    if s == Empty then 0 else Cost(s.init) + EditCost(s.last)
  }

  /** Script `s` rewrites token list `a` into token list `b`. */
  ghost predicate Rewrites(s: Script, a: seq<Token>, b: seq<Token>) {
    Source(s) == a && Target(s) == b
  }

  /** `d` is the least cost of any script rewriting `a` into `b`. */
  ghost predicate IsLeastCost(d: nat, a: seq<Token>, b: seq<Token>) {
    && (exists s: Script :: Rewrites(s, a, b) && Cost(s) == d)
    && (forall s: Script :: Rewrites(s, a, b) ==> d <= Cost(s))
  }

  function Min(x: nat, y: nat): nat {
    if x <= y then x else y
  }

  /** The dynamic-programming recurrence: the entry for the first `i` tokens of `a` and `j` of `b`. */
  function Entry(a: seq<Token>, b: seq<Token>, i: nat, j: nat): nat
    requires i <= |a| && j <= |b|
    decreases i + j
  {
    if i == 0 then j
    else if j == 0 then i
    else
      Min(Min(Entry(a, b, i, j - 1) + 1, Entry(a, b, i - 1, j) + 1),
          Entry(a, b, i - 1, j - 1) + if a[i - 1] != b[j - 1] then 1 else 0)
  }

  function Distance(a: seq<Token>, b: seq<Token>): nat {
    Entry(a, b, |a|, |b|)
  }

  lemma PrefixSnoc(a: seq<Token>, i: nat, p: seq<Token>, q: seq<Token>)
    requires i <= |a| && a[..i] == p + q && |q| <= 1
    ensures |p| == i - |q| && a[..|p|] == p && (q != [] ==> q[0] == a[i - 1])
  {
    assert a[..i][..|p|] == p;
    assert q != [] ==> a[..i][|p|] == q[0];
  }

  /** What one edit can add to an entry. */
  lemma EntryStep(a: seq<Token>, b: seq<Token>, i: nat, j: nat, e: Edit)
    requires |Reads(e)| <= i <= |a| && |Writes(e)| <= j <= |b|
    requires Reads(e) != [] ==> Reads(e)[0] == a[i - 1]
    requires Writes(e) != [] ==> Writes(e)[0] == b[j - 1]
    ensures Entry(a, b, i, j) <= Entry(a, b, i - |Reads(e)|, j - |Writes(e)|) + EditCost(e)
  {
    if i == 0 || j == 0 {
      EntryBorder(a, b, i, j);
      EntryBorder(a, b, i - |Reads(e)|, j - |Writes(e)|);
    }
  }

  lemma EntryBorder(a: seq<Token>, b: seq<Token>, i: nat, j: nat)
    requires i <= |a| && j <= |b| && (i == 0 || j == 0)
    ensures Entry(a, b, i, j) == i + j
  {
  }

  /** The last edit of a cheapest script. */
  function LastEdit(a: seq<Token>, b: seq<Token>, i: nat, j: nat): (e: Edit)
    requires i <= |a| && j <= |b| && i + j > 0
    ensures |Reads(e)| <= i && |Writes(e)| <= j
    ensures Reads(e) != [] ==> Reads(e) == [a[i - 1]]
    ensures Writes(e) != [] ==> Writes(e) == [b[j - 1]]
    ensures |Reads(e)| + |Writes(e)| > 0
    ensures Entry(a, b, i, j) == Entry(a, b, i - |Reads(e)|, j - |Writes(e)|) + EditCost(e)
  {
    if i == 0 then Insert(b[j - 1])
    else if j == 0 then Delete(a[i - 1])
    else if Entry(a, b, i, j) == Entry(a, b, i, j - 1) + 1 then Insert(b[j - 1])
    else if Entry(a, b, i, j) == Entry(a, b, i - 1, j) + 1 then Delete(a[i - 1])
    else if a[i - 1] == b[j - 1] then Keep(a[i - 1])
    else Substitute(a[i - 1], b[j - 1])
  }

  /** Every script costs at least what the recurrence says. */
  lemma {:induction false} EntryIsLowerBound(s: Script, a: seq<Token>, b: seq<Token>, i: nat, j: nat)
    requires i <= |a| && j <= |b|
    requires Source(s) == a[..i] && Target(s) == b[..j]
    ensures Entry(a, b, i, j) <= Cost(s)
  {
    if s == Empty {
      assert |a[..i]| == 0 && |b[..j]| == 0;
      EntryBorder(a, b, i, j);
    } else {
      var init, e := s.init, s.last;
      PrefixSnoc(a, i, Source(init), Reads(e));
      PrefixSnoc(b, j, Target(init), Writes(e));
      EntryIsLowerBound(init, a, b, i - |Reads(e)|, j - |Writes(e)|);
      EntryStep(a, b, i, j, e);
    }
  }

  lemma PrefixSplit(a: seq<Token>, i: nat, q: seq<Token>)
    requires |q| <= i <= |a| && (q == [] || q == [a[i - 1]])
    ensures a[..i] == a[..i - |q|] + q
  {
  }

  lemma ExtendRewrite(init: Script, e: Edit, a: seq<Token>, b: seq<Token>, i: nat, j: nat)
    requires |Reads(e)| <= i <= |a| && |Writes(e)| <= j <= |b|
    requires Reads(e) != [] ==> Reads(e) == [a[i - 1]]
    requires Writes(e) != [] ==> Writes(e) == [b[j - 1]]
    requires Rewrites(init, a[..i - |Reads(e)|], b[..j - |Writes(e)|])
    ensures Rewrites(Then(init, e), a[..i], b[..j])
  {
    PrefixSplit(a, i, Reads(e));
    PrefixSplit(b, j, Writes(e));
  }

  /** Some script costs exactly what the recurrence says. */
  lemma {:induction false} EntryIsAttained(a: seq<Token>, b: seq<Token>, i: nat, j: nat) returns (s: Script)
    requires i <= |a| && j <= |b|
    ensures Rewrites(s, a[..i], b[..j]) && Cost(s) == Entry(a, b, i, j)
    decreases i + j
  {
    if i + j == 0 {
      s := Empty;
    } else {
      var e := LastEdit(a, b, i, j);
      var init := EntryIsAttained(a, b, i - |Reads(e)|, j - |Writes(e)|);
      ExtendRewrite(init, e, a, b, i, j);
      s := Then(init, e);
    }
  }

  lemma DistanceIsLowerBound(s: Script, a: seq<Token>, b: seq<Token>)
    requires Rewrites(s, a, b)
    ensures Distance(a, b) <= Cost(s)
  {
    assert a[..|a|] == a && b[..|b|] == b;
    EntryIsLowerBound(s, a, b, |a|, |b|);
  }

  lemma DistanceIsAttained(a: seq<Token>, b: seq<Token>) returns (s: Script)
    ensures Rewrites(s, a, b) && Cost(s) == Distance(a, b)
  {
    assert a[..|a|] == a && b[..|b|] == b;
    s := EntryIsAttained(a, b, |a|, |b|);
  }

  /** The recurrence computes the least cost over all edit scripts. */
  lemma DistanceIsLeastCost(a: seq<Token>, b: seq<Token>)
    ensures IsLeastCost(Distance(a, b), a, b)
  {
    var w := DistanceIsAttained(a, b);
    forall s: Script | Rewrites(s, a, b)
      ensures Distance(a, b) <= Cost(s)
    {
      DistanceIsLowerBound(s, a, b);
    }
  }

  // ---------------------------------------------------------------- metric laws

  function FlipEdit(e: Edit): Edit {
    match e
    case Keep(t) => Keep(t)
    case Substitute(x, y) => Substitute(y, x)
    case Insert(t) => Delete(t)
    case Delete(t) => Insert(t)
  }

  function Flip(s: Script): Script {
    if s == Empty then Empty else Then(Flip(s.init), FlipEdit(s.last))
  }

  lemma {:induction false} FlipSwapsEnds(s: Script)
    ensures Source(Flip(s)) == Target(s) && Target(Flip(s)) == Source(s) && Cost(Flip(s)) == Cost(s)
  {
    if s != Empty {
      FlipSwapsEnds(s.init);
    }
  }

  /** A script for a path through a middle token list that costs no more than the two halves. */
  lemma {:induction false} Compose(p: Script, q: Script) returns (s: Script)
    requires Target(p) == Source(q)
    ensures Source(s) == Source(p) && Target(s) == Target(q) && Cost(s) <= Cost(p) + Cost(q)
    decreases p, q
  {
    if p == Empty && q == Empty {
      s := Empty;
    } else if p != Empty && p.last.Delete? {
      var init := Compose(p.init, q);
      s := Then(init, p.last);
    } else if q != Empty && q.last.Insert? {
      var init := Compose(p, q.init);
      s := Then(init, q.last);
    } else {
      assert p != Empty && q != Empty;
      var e, f := p.last, q.last;
      var mid := Target(p);
      assert mid[..|mid| - 1] == Target(p.init) && [mid[|mid| - 1]] == Writes(e);
      assert mid[..|mid| - 1] == Source(q.init) && [mid[|mid| - 1]] == Reads(f);
      var init := Compose(p.init, q.init);
      if e.Insert? && f.Delete? {
        s := init;
      } else {
        var g := if e.Insert? then Insert(Writes(f)[0])
                 else if f.Delete? then Delete(Reads(e)[0])
                 else if e.Keep? && f.Keep? then e
                 else Substitute(Reads(e)[0], Writes(f)[0]);
        s := Then(init, g);
      }
    }
  }

  /** Edit distance is a metric on token lists. */
  lemma DistanceSymmetric(a: seq<Token>, b: seq<Token>)
    ensures Distance(a, b) == Distance(b, a)
  {
    var s := DistanceIsAttained(a, b);
    FlipSwapsEnds(s);
    DistanceIsLowerBound(Flip(s), b, a);
    var t := DistanceIsAttained(b, a);
    FlipSwapsEnds(t);
    DistanceIsLowerBound(Flip(t), a, b);
  }

  lemma DistanceTriangle(a: seq<Token>, b: seq<Token>, c: seq<Token>)
    ensures Distance(a, c) <= Distance(a, b) + Distance(b, c)
  {
    var p := DistanceIsAttained(a, b);
    var q := DistanceIsAttained(b, c);
    var s := Compose(p, q);
    DistanceIsLowerBound(s, a, c);
  }

  lemma {:induction false} FreeScriptChangesNothing(s: Script)
    requires Cost(s) == 0
    ensures Source(s) == Target(s)
  {
    if s != Empty {
      FreeScriptChangesNothing(s.init);
    }
  }

  lemma {:induction false} KeepAll(a: seq<Token>) returns (s: Script)
    ensures Rewrites(s, a, a) && Cost(s) == 0
  {
    if a == [] {
      s := Empty;
    } else {
      var init := KeepAll(a[..|a| - 1]);
      s := Then(init, Keep(a[|a| - 1]));
    }
  }

  lemma DistanceZeroIffEqual(a: seq<Token>, b: seq<Token>)
    ensures Distance(a, b) == 0 <==> a == b
  {
    if Distance(a, b) == 0 {
      var s := DistanceIsAttained(a, b);
      FreeScriptChangesNothing(s);
    }
    if a == b {
      var s := KeepAll(a);
      DistanceIsLowerBound(s, a, a);
    }
  }

  lemma {:induction false} ScriptCoversLengthGap(s: Script)
    ensures |Source(s)| - |Target(s)| <= Cost(s) && |Target(s)| - |Source(s)| <= Cost(s)
  {
    if s != Empty {
      ScriptCoversLengthGap(s.init);
    }
  }

  lemma {:induction false} EntryUpperBound(a: seq<Token>, b: seq<Token>, i: nat, j: nat)
    requires i <= |a| && j <= |b|
    ensures Entry(a, b, i, j) <= if i <= j then j else i
    decreases i + j
  {
    if i > 0 && j > 0 {
      EntryUpperBound(a, b, i - 1, j - 1);
      EntryStep(a, b, i, j, Substitute(a[i - 1], b[j - 1]));
    }
  }

  /** The distance lies between the length difference and the longer length. */
  lemma DistanceBounds(a: seq<Token>, b: seq<Token>)
    ensures |a| - |b| <= Distance(a, b) && |b| - |a| <= Distance(a, b)
    ensures Distance(a, b) <= if |a| <= |b| then |b| else |a|
  {
    var s := DistanceIsAttained(a, b);
    ScriptCoversLengthGap(s);
    EntryUpperBound(a, b, |a|, |b|);
  }

  // ---------------------------------------------------------------- the lab's loop

  datatype WerError = WerTokenBound | EmptyWerReference
  datatype WerReport = WerReport(distance: nat, referenceTokens: nat, hypothesisTokens: nat, wer: real)
  datatype WerResult = Ok(report: WerReport) | Err(error: WerError)

  const MAX_TOKENS := 2048

  /** `row` holds the first entries of table row `i`. */
  ghost predicate IsRow(row: seq<nat>, a: seq<Token>, b: seq<Token>, i: nat)
    requires i <= |a|
  {
    |row| <= |b| + 1 && forall j :: 0 <= j < |row| ==> row[j] == Entry(a, b, i, j)
  }

  function NextCell(previous: seq<nat>, current: seq<nat>, left: Token, right: Token): nat
    requires 0 < |current| < |previous|
  {
    var j := |current|;
    Min(Min(current[j - 1] + 1, previous[j] + 1), previous[j - 1] + if left != right then 1 else 0)
  }

  lemma NextCellIsEntry(previous: seq<nat>, current: seq<nat>, a: seq<Token>, b: seq<Token>, i: nat)
    requires 1 <= i <= |a| && 0 < |current| < |previous|
    requires IsRow(previous, a, b, i - 1) && IsRow(current, a, b, i)
    ensures IsRow(current + [NextCell(previous, current, a[i - 1], b[|current| - 1])], a, b, i)
  {
    var j := |current|;
    assert current[j - 1] == Entry(a, b, i, j - 1);
    assert previous[j] == Entry(a, b, i - 1, j);
    assert previous[j - 1] == Entry(a, b, i - 1, j - 1);
  }

  /** One pass of the outer loop: the row for `i` reference tokens from the row before it. */
  method NextRow(reference: seq<Token>, hypothesis: seq<Token>, i: nat, previous: seq<nat>) returns (current: seq<nat>)
    requires 1 <= i <= |reference|
    requires |previous| == |hypothesis| + 1 && IsRow(previous, reference, hypothesis, i - 1)
    ensures |current| == |hypothesis| + 1 && IsRow(current, reference, hypothesis, i)
  {
    var left := reference[i - 1];
    current := [i];
    var j := 1;
    while j <= |hypothesis|
      invariant 1 <= j <= |hypothesis| + 1
      invariant |current| == j && IsRow(current, reference, hypothesis, i)
    {
      var right := hypothesis[j - 1];
      NextCellIsEntry(previous, current, reference, hypothesis, i);
      current := current + [NextCell(previous, current, left, right)];
      j := j + 1;
    }
  }

  /** Word error rate of two already tokenised texts, keeping only two rows of the table. */
  method WordErrorRate(reference: seq<Token>, hypothesis: seq<Token>) returns (r: WerResult)
    ensures r == Err(WerTokenBound) <==> |reference| > MAX_TOKENS || |hypothesis| > MAX_TOKENS
    ensures r == Err(EmptyWerReference) <==> reference == [] && |hypothesis| <= MAX_TOKENS
    ensures r.Ok? ==>
              && IsLeastCost(r.report.distance, reference, hypothesis)
              && r.report.referenceTokens == |reference|
              && r.report.hypothesisTokens == |hypothesis|
              && r.report.wer == r.report.distance as real / |reference| as real
  {
    if |reference| > MAX_TOKENS || |hypothesis| > MAX_TOKENS {
      return Err(WerTokenBound);
    }
    if reference == [] {
      return Err(EmptyWerReference);
    }
    var previous: seq<nat> := seq(|hypothesis| + 1, j requires 0 <= j => j);
    var i := 1;
    while i <= |reference|
      invariant 1 <= i <= |reference| + 1
      invariant |previous| == |hypothesis| + 1 && IsRow(previous, reference, hypothesis, i - 1)
    {
      previous := NextRow(reference, hypothesis, i, previous);
      i := i + 1;
    }
    var distance := previous[|previous| - 1];
    DistanceIsLeastCost(reference, hypothesis);
    var wer := distance as real / |reference| as real;
    r := Ok(WerReport(distance, |reference|, |hypothesis|, wer));
  }
}
