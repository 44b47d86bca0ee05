/** The packing loop of the production-window script: statements into parts under a byte budget. */
module SqlPacking {

  import opened Encoding

  const BUDGET := 50_000

  /** One and a fifth of the budget: a whole migration this small stays in one part. */
  const UNDIVIDED := 60_000

  /** The bytes of the first `n` statements. */
  function Sum(body: seq<string>, n: nat): nat
    requires n <= |body|
  {
    if n == 0 then 0 else Sum(body, n - 1) + Utf8Bytes(body[n - 1])
  }

  function Size(body: seq<string>, i: nat, j: nat): int
    requires i <= |body| && j <= |body|
  {
    Sum(body, j) - Sum(body, i)
  }

  lemma {:induction false} SumGrows(body: seq<string>, i: nat, j: nat)
    requires i <= j <= |body|
    ensures Sum(body, i) <= Sum(body, j)
    decreases j
  {
    if i < j {
      SumGrows(body, i, j - 1);
    }
  }

  // ---------------------------------------------------------------- dividing a list of statements

  /** Cut points from 0 to `end`, with at least one statement between two of them. */
  predicate Cuts(cuts: seq<nat>, end: nat) {
    && cuts != [] && cuts[0] == 0 && cuts[|cuts| - 1] == end
    && (forall k :: 0 <= k < |cuts| ==> cuts[k] <= end)
    && (forall j, k :: 0 <= j < k < |cuts| ==> cuts[j] < cuts[k])
  }

  /** A part is within the budget or is one statement. */
  predicate Fits(body: seq<string>, i: nat, j: nat) {
    i < j <= |body| && (j == i + 1 || Size(body, i, j) <= BUDGET)
  }

  ghost predicate AllFit(body: seq<string>, cuts: seq<nat>) {
    forall j, k :: 0 <= j < k < |cuts| && k == j + 1 ==> Fits(body, cuts[j], cuts[k])
  }

  /** A part that would go over budget with the next statement added. */
  predicate Full(body: seq<string>, i: nat, j: nat) {
    i < j < |body| && Size(body, i, j + 1) > BUDGET
  }

  ghost predicate AllFull(body: seq<string>, cuts: seq<nat>) {
    forall j, k :: 0 <= j < k < |cuts| && k == j + 1 && cuts[k] < |body| ==> Full(body, cuts[j], cuts[k])
  }

  function Slice(body: seq<string>, i: nat, j: nat): seq<string> {
    if i <= j <= |body| then body[i..j] else []
  }

  function Parts(body: seq<string>, cuts: seq<nat>, n: nat): (r: seq<seq<string>>)
    requires n < |cuts|
    ensures |r| == n
  {
    if n == 0 then [] else Parts(body, cuts, n - 1) + [Slice(body, cuts[n - 1], cuts[n])]
  }

  function Flatten(parts: seq<seq<string>>): seq<string> {
    if parts == [] then [] else Flatten(parts[..|parts| - 1]) + parts[|parts| - 1]
  }

  lemma {:induction false} FlattenSnoc(parts: seq<seq<string>>, part: seq<string>)
    ensures Flatten(parts + [part]) == Flatten(parts) + part
  {
    assert (parts + [part])[..|parts|] == parts;
  }

  /** Cutting keeps every statement, once and in order. */
  lemma {:induction false} PartsKeepOrder(body: seq<string>, cuts: seq<nat>, n: nat)
    requires Cuts(cuts, |body|) && n < |cuts|
    ensures Flatten(Parts(body, cuts, n)) == body[..cuts[n]]
  {
    hide Flatten;
    if n == 0 {
      assert Flatten([]) == [] by { FlattenNothing(); }
    } else {
      PartsKeepOrder(body, cuts, n - 1);
      FlattenSnoc(Parts(body, cuts, n - 1), Slice(body, cuts[n - 1], cuts[n]));
      assert cuts[n - 1] < cuts[n];
      assert body[..cuts[n - 1]] + body[cuts[n - 1]..cuts[n]] == body[..cuts[n]];
    }
  }

  lemma {:induction false} FlattenNothing()
    ensures Flatten([]) == []
  {
  }

  lemma {:induction false} PartAt(body: seq<string>, cuts: seq<nat>, n: nat, k: nat)
    requires k < n < |cuts|
    ensures Parts(body, cuts, n)[k] == Slice(body, cuts[k], cuts[k + 1])
  {
    hide Slice;
    if k < n - 1 {
      PartAt(body, cuts, n - 1, k);
    }
  }

  lemma {:induction false} SumOfSlice(body: seq<string>, i: nat, j: nat, n: nat)
    requires i <= j <= |body| && n <= j - i
    ensures Sum(body[i..j], n) == Size(body, i, i + n)
  {
    hide Utf8Bytes;
    if n > 0 {
      SumOfSlice(body, i, j, n - 1);
      assert body[i..j][n - 1] == body[i + n - 1];
    }
  }

  // ---------------------------------------------------------------- as few parts as possible

  /** Whatever other division is tried, its kth cut never gets past the greedy one's. */
  lemma {:induction false} GreedyStaysAhead(body: seq<string>, greedy: seq<nat>, other: seq<nat>, k: nat)
    requires Cuts(greedy, |body|) && AllFull(body, greedy) && Cuts(other, |body|) && AllFit(body, other)
    requires k < |greedy| && k < |other|
    ensures other[k] <= greedy[k]
  {
    hide Fits, Full;
    if k > 0 {
      GreedyStaysAhead(body, greedy, other, k - 1);
      var i, j := greedy[k - 1], greedy[k];
      if j < |body| {
        assert Full(body, i, j);
        assert Fits(body, other[k - 1], other[k]);
        FitsIsNotPastFull(body, i, j, other[k - 1], other[k]);
      }
    }
  }

  lemma {:induction false} FitsIsNotPastFull(body: seq<string>, i: nat, j: nat, i': nat, j': nat)
    requires Full(body, i, j) && Fits(body, i', j') && i' <= i
    ensures j' <= j
  {
    hide Sum;
    if j' > j {
      SumGrows(body, i', i);
      SumGrows(body, j + 1, j');
    }
  }

  /** No division that keeps every part within the budget, oversized statements aside, has fewer parts. */
  ghost predicate Fewest(body: seq<string>, count: nat) {
    forall other :: Cuts(other, |body|) && AllFit(body, other) ==> count <= |other| - 1
  }

  lemma {:induction false} GreedyIsFewest(body: seq<string>, greedy: seq<nat>)
    requires Cuts(greedy, |body|) && AllFull(body, greedy)
    ensures Fewest(body, |greedy| - 1)
  {
    forall other | Cuts(other, |body|) && AllFit(body, other)
      ensures |greedy| <= |other|
    {
      hide AllFull, AllFit;
      if |other| < |greedy| {
        GreedyStaysAhead(body, greedy, other, |other| - 1);
      }
    }
  }

  // ---------------------------------------------------------------- the loop

  ghost predicate PartFits(part: seq<string>) {
    part != [] && (|part| == 1 || Sum(part, |part|) <= BUDGET)
  }

  /** Statements stay whole and in order. A migration of at most 60,000 bytes stays undivided; above that, a
      part goes over the budget only for a single oversized statement, and there are as few parts as such
      parts can be. */
  method Pack(body: seq<string>, header: string) returns (parts: seq<seq<string>>)
    ensures Flatten(parts) == body
    ensures Sum(body, |body|) + Utf8Bytes(header) <= UNDIVIDED ==> parts == [body]
    ensures Sum(body, |body|) + Utf8Bytes(header) > UNDIVIDED ==>
              (forall k :: 0 <= k < |parts| ==> PartFits(parts[k])) && Fewest(body, |parts|)
  {
    hide *;
    var total := TotalBytes(body);
    total := total + Utf8Bytes(header);
    if total <= UNDIVIDED {
      OnePart(body);
      return [body];
    }
    var cur, size, i := [], 0, 0;
    parts := [];
    ghost var cuts: seq<nat> := [0];
    LoopStart(body);
    while i < |body|
      invariant i <= |body|
      invariant Packing(body, cuts, parts, cur, size, i)
    {
      var sz := Utf8Bytes(body[i]);
      if cur != [] && size + sz > BUDGET {
        ClosePart(body, cuts, parts, cur, size, i);
        parts := parts + [cur];
        cuts := cuts + [i];
        cur, size := [], 0;
      }
      AddStatement(body, cuts, parts, cur, size, i);
      cur := cur + [body[i]];
      size := size + sz;
      i := i + 1;
    }
    if cur != [] {
      CloseLast(body, cuts, parts, cur, size);
      parts := parts + [cur];
      cuts := cuts + [i];
    } else {
      NothingLeft(body, cuts, parts, size);
    }
    Packed(body, cuts, parts);
  }

  method TotalBytes(body: seq<string>) returns (total: nat)
    ensures total == Sum(body, |body|)
  {
    total := 0;
    for i := 0 to |body|
      invariant total == Sum(body, i)
    {
      total := total + Utf8Bytes(body[i]);
    }
  }

  lemma {:induction false} OnePart(body: seq<string>)
    ensures Flatten([body]) == body
  {
    assert [body][..0] == [];
  }

  /** The parts cut so far, and the statements since the last cut gathered in `cur`. */
  ghost predicate Packing(body: seq<string>, cuts: seq<nat>, parts: seq<seq<string>>, cur: seq<string>, size: int, i: nat) {
    && cuts != []
    && var last := cuts[|cuts| - 1];
       && Cuts(cuts, last) && last <= i <= |body|
       && cur == body[last..i] && size == Size(body, last, i)
       && (cur == [] || Fits(body, last, i))
       && AllFit(body, cuts) && AllFull(body, cuts)
       && parts == Parts(body, cuts, |cuts| - 1)
  }

  lemma {:induction false} LoopStart(body: seq<string>)
    ensures Packing(body, [0], [], [], 0, 0)
  {
  }

  lemma {:induction false} PartsSnoc(body: seq<string>, cuts: seq<nat>, cut: nat, n: nat)
    requires n < |cuts|
    ensures Parts(body, cuts + [cut], n) == Parts(body, cuts, n)
  {
    hide Slice;
    if n > 0 {
      PartsSnoc(body, cuts, cut, n - 1);
    }
  }

  lemma {:induction false} CutsSnoc(cuts: seq<nat>, last: nat, i: nat)
    requires Cuts(cuts, last) && last < i
    ensures Cuts(cuts + [i], i)
  {
  }

  lemma {:induction false} FitAndFullSnoc(body: seq<string>, cuts: seq<nat>, i: nat)
    requires cuts != [] && AllFit(body, cuts) && AllFull(body, cuts)
    requires Fits(body, cuts[|cuts| - 1], i) && (i < |body| ==> Full(body, cuts[|cuts| - 1], i))
    ensures AllFit(body, cuts + [i]) && AllFull(body, cuts + [i])
  {
    hide Fits, Full;
  }

  /** Cutting at `i`. */
  lemma {:induction false} CutAt(body: seq<string>, cuts: seq<nat>, parts: seq<seq<string>>, cur: seq<string>, size: int, i: nat)
    requires Packing(body, cuts, parts, cur, size, i) && cur != []
    requires i < |body| ==> Full(body, cuts[|cuts| - 1], i)
    ensures Packing(body, cuts + [i], parts + [cur], [], 0, i)
  {
    hide AllFit, AllFull, Cuts, Fits, Full, Parts;
    var last := cuts[|cuts| - 1];
    assert last < i;
    CutsSnoc(cuts, last, i);
    FitAndFullSnoc(body, cuts, i);
    PartsSnoc(body, cuts, i, |cuts| - 1);
    NextPart(body, cuts + [i], |cuts|);
  }

  lemma {:induction false} NextPart(body: seq<string>, cuts: seq<nat>, n: nat)
    requires 0 < n < |cuts|
    ensures Parts(body, cuts, n) == Parts(body, cuts, n - 1) + [Slice(body, cuts[n - 1], cuts[n])]
  {
  }

  lemma {:induction false} ClosePart(body: seq<string>, cuts: seq<nat>, parts: seq<seq<string>>, cur: seq<string>, size: int, i: nat)
    requires i < |body| && Packing(body, cuts, parts, cur, size, i) && cur != [] && size + Utf8Bytes(body[i]) > BUDGET
    ensures Packing(body, cuts + [i], parts + [cur], [], 0, i)
  {
    assert Full(body, cuts[|cuts| - 1], i) by { hide AllFit, AllFull, Cuts, Fits, Parts; }
    hide *;
    CutAt(body, cuts, parts, cur, size, i);
  }

  lemma {:induction false} AddStatement(body: seq<string>, cuts: seq<nat>, parts: seq<seq<string>>, cur: seq<string>, size: int, i: nat)
    requires i < |body| && Packing(body, cuts, parts, cur, size, i) && (cur == [] || size + Utf8Bytes(body[i]) <= BUDGET)
    ensures Packing(body, cuts, parts, cur + [body[i]], size + Utf8Bytes(body[i]), i + 1)
  {
    hide AllFit, AllFull, Cuts, Parts, Utf8Bytes;
  }

  lemma {:induction false} CloseLast(body: seq<string>, cuts: seq<nat>, parts: seq<seq<string>>, cur: seq<string>, size: int)
    requires Packing(body, cuts, parts, cur, size, |body|) && cur != []
    ensures Divided(body, cuts + [|body|], parts + [cur])
  {
    CutAt(body, cuts, parts, cur, size, |body|);
    hide AllFit, AllFull, Cuts, Parts, Fits;
  }

  lemma {:induction false} NothingLeft(body: seq<string>, cuts: seq<nat>, parts: seq<seq<string>>, size: int)
    requires Packing(body, cuts, parts, [], size, |body|)
    ensures Divided(body, cuts, parts)
  {
    hide AllFit, AllFull, Cuts, Parts, Fits;
  }

  ghost predicate Divided(body: seq<string>, cuts: seq<nat>, parts: seq<seq<string>>) {
    Cuts(cuts, |body|) && AllFit(body, cuts) && AllFull(body, cuts) && cuts != [] && parts == Parts(body, cuts, |cuts| - 1)
  }

  lemma {:induction false} Packed(body: seq<string>, cuts: seq<nat>, parts: seq<seq<string>>)
    requires Divided(body, cuts, parts)
    ensures Flatten(parts) == body && Fewest(body, |parts|)
    ensures forall k :: 0 <= k < |parts| ==> PartFits(parts[k])
  {
    hide Parts, Flatten, AllFull, Fewest, Fits, Slice;
    PartsKeepOrder(body, cuts, |cuts| - 1);
    assert body[..|body|] == body;
    GreedyIsFewest(body, cuts);
    forall k | 0 <= k < |parts|
      ensures PartFits(parts[k])
    {
      PartAt(body, cuts, |cuts| - 1, k);
      assert Fits(body, cuts[k], cuts[k + 1]);
      SliceFits(body, cuts[k], cuts[k + 1]);
    }
  }

  lemma {:induction false} SliceFits(body: seq<string>, i: nat, j: nat)
    requires Fits(body, i, j)
    ensures PartFits(Slice(body, i, j))
  {
    SumOfSlice(body, i, j, j - i);
  }
}
