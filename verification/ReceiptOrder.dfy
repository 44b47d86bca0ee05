/** When the order of stored records matters to the receipt evidence projection, and when it does not. */
module ReceiptOrder {

  import opened ReceiptEvidence
  import opened Wrappers

  // ---------------------------------------------------------------- lists with the same records

  ghost predicate Same<T(!new)>(a: seq<T>, b: seq<T>) {
    forall x :: x in a <==> x in b
  }

  lemma {:induction false} PermutedIsSame<T(!new)>(a: seq<T>, b: seq<T>)
    requires multiset(a) == multiset(b)
    ensures Same(a, b) && |a| == |b|
  {
    forall x
      ensures x in a <==> x in b
    {
      assert x in a <==> x in multiset(a);
      assert x in b <==> x in multiset(b);
    }
    assert |multiset(a)| == |a| && |multiset(b)| == |b|;
  }

  lemma {:induction false} Occurrence<T>(s: seq<T>, x: T) returns (i: nat)
    requires x in s
    ensures i < |s| && s[i] == x
    ensures multiset(s[..i] + s[i + 1..]) == multiset(s) - multiset{x}
  {
    i :| 0 <= i < |s| && s[i] == x;
    assert s == s[..i] + [x] + s[i + 1..];
  }

  /** Any multiset can be listed. */
  lemma {:induction false} Listing<T>(m: multiset<T>) returns (s: seq<T>)
    ensures multiset(s) == m
    decreases |m|
  {
    if m == multiset{} {
      s := [];
    } else {
      var x :| x in m;
      var rest := Listing(m - multiset{x});
      s := [x] + rest;
    }
  }

  lemma {:induction false} TotalWithout<T>(items: seq<T>, size: T -> nat, i: nat)
    requires i < |items|
    ensures Total(items, size, |items|) == Total(items[..i] + items[i + 1..], size, |items| - 1) + size(items[i])
  {
    var n := |items| - 1;
    assert items == items[..n] + [items[n]];
    TotalOfPrefix(items[..n], items[n], size, n);
    if i == n {
      assert items[..i] + items[i + 1..] == items[..n];
    } else {
      TotalWithout(items[..n], size, i);
      var rest := items[..n][..i] + items[..n][i + 1..];
      assert items[..i] + items[i + 1..] == rest + [items[n]];
      TotalOfPrefix(rest, items[n], size, n - 1);
    }
  }

  lemma {:induction false} TotalOfPermuted<T>(a: seq<T>, b: seq<T>, size: T -> nat)
    requires multiset(a) == multiset(b)
    ensures |a| == |b| && Total(a, size, |a|) == Total(b, size, |b|)
    decreases |a|
  {
    assert |multiset(a)| == |a| && |multiset(b)| == |b|;
    if a != [] {
      var n := |a| - 1;
      assert a == a[..n] + [a[n]];
      assert a[n] in multiset(b);
      var i := Occurrence(b, a[n]);
      TotalWithout(b, size, i);
      TotalOfPermuted(a[..n], b[..i] + b[i + 1..], size);
      TotalOfPrefix(a[..n], a[n], size, n);
    }
  }

  /** Two lists without repeated records and with the same ones are permutations of each other. */
  lemma {:induction false} SameIsPermuted<T(!new)>(a: seq<T>, b: seq<T>)
    requires Same(a, b) && (forall i, j :: 0 <= i < j < |a| ==> a[i] != a[j]) && (forall i, j :: 0 <= i < j < |b| ==> b[i] != b[j])
    ensures multiset(a) == multiset(b)
  {
    forall x
      ensures multiset(a)[x] == multiset(b)[x]
    {
      OnceAtMost(a, x);
      OnceAtMost(b, x);
    }
  }

  lemma {:induction false} OnceAtMost<T>(s: seq<T>, x: T)
    requires forall i, j :: 0 <= i < j < |s| ==> s[i] != s[j]
    ensures multiset(s)[x] == if x in s then 1 else 0
  {
    if s != [] {
      var n := |s| - 1;
      assert s == s[..n] + [s[n]];
      OnceAtMost(s[..n], x);
    }
  }

  // ---------------------------------------------------------------- consents

  /** Two different consents of one type and purpose, captured at the same time. */
  predicate Tie(scope: Scope, a: Consent, b: Consent) {
    Consenting(scope, a) && Consenting(scope, b) && PurposeOf(a) == PurposeOf(b) && a.capturedAt == b.capturedAt && a != b
  }

  predicate HasTie(scope: Scope, cs: seq<Consent>) {
    exists i, j :: 0 <= i < |cs| && 0 <= j < |cs| && Tie(scope, cs[i], cs[j])
  }

  function Latest(scope: Scope, cs: seq<Consent>): Consents {
    Taken(scope, cs, |cs|)
  }

  /** The map holds a latest consent of each type and purpose of the consents. */
  ghost predicate IsLatest(scope: Scope, cs: seq<Consent>, latest: map<Purpose, Consent>) {
    && (forall key :: key in latest ==> latest[key] in cs && Consenting(scope, latest[key]) && PurposeOf(latest[key]) == key)
    && (forall c :: c in cs && Consenting(scope, c) ==>
                      PurposeOf(c) in latest && c.capturedAt <= latest[PurposeOf(c)].capturedAt)
  }

  lemma {:induction false} LatestSnoc(scope: Scope, cs: seq<Consent>, c: Consent)
    ensures Latest(scope, cs + [c]) == Take(scope, Latest(scope, cs), c)
  {
    TakenOfPrefix(scope, cs, c, |cs|);
    hide Take;
  }

  lemma {:induction false} TakenOfPrefix(scope: Scope, cs: seq<Consent>, c: Consent, n: nat)
    requires n <= |cs|
    ensures Taken(scope, cs + [c], n) == Taken(scope, cs, n)
  {
    hide Take;
    if n > 0 {
      TakenOfPrefix(scope, cs, c, n - 1);
    }
  }

  lemma {:induction false} LatestIsLatest(scope: Scope, cs: seq<Consent>)
    ensures IsLatest(scope, cs, Latest(scope, cs).latest)
  {
    hide Consenting, PurposeOf, Latest;
    if cs == [] {
      assert Latest(scope, cs) == Consents(map[], false) by { NothingTaken(scope); }
    } else {
      var n := |cs| - 1;
      assert cs == cs[..n] + [cs[n]];
      LatestIsLatest(scope, cs[..n]);
      LatestSnoc(scope, cs[..n], cs[n]);
    }
  }

  lemma {:induction false} NothingTaken(scope: Scope)
    ensures Latest(scope, []) == Consents(map[], false)
  {
  }

  /** Without ties, nothing clashes. */
  lemma {:induction false} NoTieNoClash(scope: Scope, cs: seq<Consent>)
    requires !HasTie(scope, cs)
    ensures !Latest(scope, cs).clash
  {
    if cs == [] {
      NothingTaken(scope);
    } else {
      var n := |cs| - 1;
      assert cs == cs[..n] + [cs[n]];
      FewerTies(scope, cs, n);
      NoTieNoClash(scope, cs[..n]);
      LatestIsLatest(scope, cs[..n]);
      LatestSnoc(scope, cs[..n], cs[n]);
      NoTieWithLast(scope, cs, Latest(scope, cs[..n]).latest);
      hide HasTie, Latest, Consenting, PurposeOf, IsLatest;
    }
  }

  lemma {:induction false} FewerTies(scope: Scope, cs: seq<Consent>, n: nat)
    requires n <= |cs| && !HasTie(scope, cs)
    ensures !HasTie(scope, cs[..n])
  {
    hide Tie;
  }

  lemma {:induction false} NoTieWithLast(scope: Scope, cs: seq<Consent>, latest: map<Purpose, Consent>)
    requires cs != [] && !HasTie(scope, cs) && IsLatest(scope, cs[..|cs| - 1], latest)
    ensures var c := cs[|cs| - 1];
            Consenting(scope, c) && PurposeOf(c) in latest && latest[PurposeOf(c)].capturedAt == c.capturedAt ==> latest[PurposeOf(c)] == c
  {
    hide Consenting, PurposeOf;
    var c := cs[|cs| - 1];
    if Consenting(scope, c) && PurposeOf(c) in latest && latest[PurposeOf(c)].capturedAt == c.capturedAt {
      var d := latest[PurposeOf(c)];
      assert d in cs[..|cs| - 1];
      var i :| 0 <= i < |cs| - 1 && cs[..|cs| - 1][i] == d;
      assert !Tie(scope, cs[i], cs[|cs| - 1]);
    }
  }

  /** Without ties the latest consents are determined by the records alone. */
  lemma {:induction false} LatestIsUnique(scope: Scope, a: seq<Consent>, b: seq<Consent>, x: map<Purpose, Consent>, y: map<Purpose, Consent>)
    requires Same(a, b) && !HasTie(scope, a) && IsLatest(scope, a, x) && IsLatest(scope, b, y)
    ensures x == y
  {
    hide Consenting, PurposeOf;
    forall key | key in x
      ensures key in y && x[key] == y[key]
    {
      assert x[key] in b && y[key] in a;
      var i :| 0 <= i < |a| && a[i] == x[key];
      var j :| 0 <= j < |a| && a[j] == y[key];
      assert !Tie(scope, a[i], a[j]);
    }
    assert forall key :: key in y ==> y[key] in a;
  }

  lemma {:induction false} TiesAreShared(scope: Scope, a: seq<Consent>, b: seq<Consent>)
    requires Same(a, b) && HasTie(scope, a)
    ensures HasTie(scope, b)
  {
    hide Tie;
    var i, j :| 0 <= i < |a| && 0 <= j < |a| && Tie(scope, a[i], a[j]);
    assert a[i] in b && a[j] in b;
    var k :| 0 <= k < |b| && b[k] == a[i];
    var l :| 0 <= l < |b| && b[l] == a[j];
  }

  lemma {:induction false} NoTieNoOrder(scope: Scope, a: seq<Consent>, b: seq<Consent>)
    requires Same(a, b) && !HasTie(scope, a)
    ensures Latest(scope, a) == Latest(scope, b)
  {
    hide HasTie, Latest, IsLatest;
    if HasTie(scope, b) {
      TiesAreShared(scope, b, a);
    }
    LatestIsLatest(scope, a);
    LatestIsLatest(scope, b);
    LatestIsUnique(scope, a, b, Latest(scope, a).latest, Latest(scope, b).latest);
    NoTieNoClash(scope, a);
    NoTieNoClash(scope, b);
  }

  // ---------------------------------------------------------------- a tie always shows in some order

  lemma {:induction false} ClashStays(scope: Scope, cs: seq<Consent>, m: nat, n: nat)
    requires m <= n <= |cs| && Taken(scope, cs, m).clash
    ensures Taken(scope, cs, n).clash
    decreases n
  {
    hide Consenting, PurposeOf;
    if m < n {
      ClashStays(scope, cs, m, n - 1);
    }
  }

  lemma {:induction false} TieFirstClashes(scope: Scope, a: Consent, b: Consent, rest: seq<Consent>)
    requires Tie(scope, a, b)
    ensures Latest(scope, [a, b] + rest).clash
  {
    var cs := [a, b] + rest;
    assert Taken(scope, cs, 0) == Consents(map[], false);
    assert Taken(scope, cs, 1) == Consents(map[PurposeOf(a) := a], false);
    assert Taken(scope, cs, 2).clash;
    hide Taken, Tie;
    ClashStays(scope, cs, 2, |cs|);
  }

  lemma {:induction false} WithoutTwo(cs: seq<Consent>, a: Consent, b: Consent) returns (rest: seq<Consent>)
    requires a in cs && b in cs && a != b
    ensures multiset(cs) == multiset{a, b} + multiset(rest)
  {
    assert multiset{a, b} <= multiset(cs);
    rest := Listing(multiset(cs) - multiset{a, b});
  }

  // ---------------------------------------------------------------- an order that hides lower ties

  /** One latest consent of each of the types and purposes, each once. */
  ghost predicate Tops(latest: map<Purpose, Consent>, tops: seq<Consent>) {
    && (forall i :: 0 <= i < |tops| ==> PurposeOf(tops[i]) in latest && latest[PurposeOf(tops[i])] == tops[i])
    && (forall i, j :: 0 <= i < j < |tops| ==> PurposeOf(tops[i]) != PurposeOf(tops[j]))
  }

  lemma {:induction false} ListTops(latest: map<Purpose, Consent>, keys: set<Purpose>) returns (tops: seq<Consent>)
    requires keys <= latest.Keys && forall key :: key in latest ==> PurposeOf(latest[key]) == key
    ensures Tops(latest, tops) && forall key :: key in keys <==> exists i :: 0 <= i < |tops| && PurposeOf(tops[i]) == key
    decreases |keys|
  {
    hide PurposeOf;
    if keys == {} {
      tops := [];
    } else {
      var key :| key in keys;
      var others := ListTops(latest, keys - {key});
      tops := others + [latest[key]];
      forall k
        ensures k in keys <==> exists i :: 0 <= i < |tops| && PurposeOf(tops[i]) == k
      {
        assert tops[|others|] == latest[key];
        if k in keys - {key} {
          var i :| 0 <= i < |others| && PurposeOf(others[i]) == k;
          assert tops[i] == others[i];
        }
        if i :| 0 <= i < |tops| && PurposeOf(tops[i]) == k {
          assert i < |others| ==> PurposeOf(others[i]) == k;
        }
      }
    }
  }

  /** Nothing ties with a latest consent. */
  ghost predicate TopsAreAlone(scope: Scope, cs: seq<Consent>, latest: map<Purpose, Consent>) {
    forall c :: c in cs && Consenting(scope, c) ==>
      PurposeOf(c) in latest && (c == latest[PurposeOf(c)] || c.capturedAt < latest[PurposeOf(c)].capturedAt)
  }

  /** After the first `n`: a clash only with a latest consent, and only latest consents are held. */
  ghost predicate Held(scope: Scope, cs: seq<Consent>, latest: map<Purpose, Consent>, tops: seq<Consent>, n: nat, taken: Consents) {
    && (taken.clash ==> !TopsAreAlone(scope, cs, latest))
    && (forall key :: key in taken.latest ==> key in latest && taken.latest[key] == latest[key])
    && (forall i :: 0 <= i < |tops| && i < n ==> PurposeOf(tops[i]) in taken.latest)
  }

  ghost predicate ListsAll(scope: Scope, latest: map<Purpose, Consent>, tops: seq<Consent>) {
    && Tops(latest, tops) && (forall i :: 0 <= i < |tops| ==> Consenting(scope, tops[i]))
    && forall key :: key in latest ==> exists i :: 0 <= i < |tops| && PurposeOf(tops[i]) == key
  }

  lemma {:induction false} TopsFirstAreHeld(scope: Scope, latest: map<Purpose, Consent>, tops: seq<Consent>, rest: seq<Consent>, n: nat)
    requires ListsAll(scope, latest, tops) && IsLatest(scope, tops + rest, latest) && n <= |tops + rest|
    ensures Held(scope, tops + rest, latest, tops, n, Taken(scope, tops + rest, n))
  {
    hide Consenting, PurposeOf, ListsAll, IsLatest, TopsAreAlone;
    if n > 0 {
      TopsFirstAreHeld(scope, latest, tops, rest, n - 1);
      hide Held;
      HeldStep(scope, latest, tops, rest, n - 1, Taken(scope, tops + rest, n - 1));
    }
  }

  lemma {:induction false} HeldStep(scope: Scope, latest: map<Purpose, Consent>, tops: seq<Consent>, rest: seq<Consent>, n: nat, taken: Consents)
    requires ListsAll(scope, latest, tops) && IsLatest(scope, tops + rest, latest) && n < |tops + rest|
    requires Held(scope, tops + rest, latest, tops, n, taken)
    ensures Held(scope, tops + rest, latest, tops, n + 1, Take(scope, taken, (tops + rest)[n]))
  {
    hide Consenting, PurposeOf, TopsAreAlone, IsLatest;
    var c := (tops + rest)[n];
    assert c in tops + rest;
    if n < |tops| {
      assert c == tops[n];
    } else if Consenting(scope, c) {
      var i :| 0 <= i < |tops| && PurposeOf(tops[i]) == PurposeOf(c) by { TopOf(scope, latest, tops, tops + rest, c); }
      assert PurposeOf(c) in taken.latest;
      NotBelow(scope, tops + rest, latest, c);
      hide ListsAll;
    }
  }

  lemma {:induction false} TopOf(scope: Scope, latest: map<Purpose, Consent>, tops: seq<Consent>, cs: seq<Consent>, c: Consent)
    requires ListsAll(scope, latest, tops) && IsLatest(scope, cs, latest) && c in cs && Consenting(scope, c)
    ensures exists i :: 0 <= i < |tops| && PurposeOf(tops[i]) == PurposeOf(c)
  {
    hide Consenting, PurposeOf, Tops;
  }

  /** A consent of the list is no later than the latest one, and the same one when that is alone on top. */
  lemma {:induction false} NotBelow(scope: Scope, cs: seq<Consent>, latest: map<Purpose, Consent>, c: Consent)
    requires IsLatest(scope, cs, latest) && c in cs && Consenting(scope, c)
    ensures PurposeOf(c) in latest && c.capturedAt <= latest[PurposeOf(c)].capturedAt
    ensures TopsAreAlone(scope, cs, latest) && c.capturedAt == latest[PurposeOf(c)].capturedAt ==> c == latest[PurposeOf(c)]
  {
    hide Consenting, PurposeOf;
  }

  lemma {:induction false} AllListed(scope: Scope, cs: seq<Consent>, latest: map<Purpose, Consent>) returns (tops: seq<Consent>)
    requires IsLatest(scope, cs, latest)
    ensures ListsAll(scope, latest, tops) && multiset(tops) <= multiset(cs)
  {
    hide Consenting, PurposeOf;
    tops := ListTops(latest, latest.Keys);
    TopsAreThere(cs, latest, tops);
    forall i | 0 <= i < |tops|
      ensures Consenting(scope, tops[i])
    {
      assert latest[PurposeOf(tops[i])] == tops[i];
    }
  }

  lemma {:induction false} LatestOfSame(scope: Scope, a: seq<Consent>, b: seq<Consent>, latest: map<Purpose, Consent>)
    requires Same(a, b)
    ensures IsLatest(scope, a, latest) ==> IsLatest(scope, b, latest)
    ensures TopsAreAlone(scope, a, latest) ==> TopsAreAlone(scope, b, latest)
  {
    hide Consenting, PurposeOf;
  }

  lemma {:induction false} HeldInTheEnd(scope: Scope, cs: seq<Consent>, latest: map<Purpose, Consent>, tops: seq<Consent>, taken: Consents)
    requires ListsAll(scope, latest, tops) && Held(scope, cs, latest, tops, |cs|, taken) && |tops| <= |cs|
    ensures taken.latest == latest && (TopsAreAlone(scope, cs, latest) ==> !taken.clash)
  {
    hide Consenting, PurposeOf, Tops, TopsAreAlone;
    forall key | key in latest
      ensures key in taken.latest
    {
      var i :| 0 <= i < |tops| && PurposeOf(tops[i]) == key;
    }
  }

  /** Any choice of latest consents is the one held in some order, and in that order only ties with them clash. */
  lemma {:induction false} OrderHolding(scope: Scope, cs: seq<Consent>, latest: map<Purpose, Consent>) returns (t: seq<Consent>)
    requires IsLatest(scope, cs, latest)
    ensures multiset(t) == multiset(cs) && Latest(scope, t).latest == latest
    ensures TopsAreAlone(scope, cs, latest) ==> !Latest(scope, t).clash
  {
    hide *;
    var tops := AllListed(scope, cs, latest);
    var rest := Listing(multiset(cs) - multiset(tops));
    t := tops + rest;
    PermutedIsSame(t, cs);
    LatestOfSame(scope, cs, t, latest) by { SameIsMutual(t, cs); }
    TopsFirstAreHeld(scope, latest, tops, rest, |t|);
    HeldInTheEnd(scope, t, latest, tops, Taken(scope, t, |t|));
    LatestIsTaken(scope, t);
  }

  lemma {:induction false} SameIsMutual<T(!new)>(a: seq<T>, b: seq<T>)
    requires Same(a, b)
    ensures Same(b, a)
  {
  }

  lemma {:induction false} LatestIsTaken(scope: Scope, cs: seq<Consent>)
    ensures Latest(scope, cs) == Taken(scope, cs, |cs|)
  {
  }

  lemma {:induction false} TopsAreThere(cs: seq<Consent>, latest: map<Purpose, Consent>, tops: seq<Consent>)
    requires Tops(latest, tops) && forall key :: key in latest ==> latest[key] in cs
    ensures multiset(tops) <= multiset(cs)
  {
    hide PurposeOf;
    forall c
      ensures multiset(tops)[c] <= multiset(cs)[c]
    {
      OnceAtMost(tops, c);
      if c in tops {
        var i :| 0 <= i < |tops| && tops[i] == c;
        assert latest[PurposeOf(tops[i])] in cs;
        assert c in multiset(cs);
      }
    }
  }

  /** The latest consents do not depend on the order of the records exactly when no two different ones of one
      type and purpose were captured at the same time. */
  lemma {:induction false} ConsentOrderIff(scope: Scope, cs: seq<Consent>)
    ensures (forall t :: multiset(t) == multiset(cs) ==> Latest(scope, t) == Latest(scope, cs)) <==> !HasTie(scope, cs)
  {
    if !HasTie(scope, cs) {
      forall t | multiset(t) == multiset(cs)
        ensures Latest(scope, t) == Latest(scope, cs)
      {
        PermutedIsSame(cs, t);
        NoTieNoOrder(scope, cs, t);
      }
    } else {
      var s, t := TieShows(scope, cs);
      assert Latest(scope, s) != Latest(scope, cs) || Latest(scope, t) != Latest(scope, cs);
    }
  }

  /** Every tie shows in the difference of two orders. */
  lemma {:induction false} TieShows(scope: Scope, cs: seq<Consent>) returns (s: seq<Consent>, t: seq<Consent>)
    requires HasTie(scope, cs)
    ensures multiset(s) == multiset(t) == multiset(cs) && Latest(scope, s) != Latest(scope, t)
  {
    var latest := Latest(scope, cs).latest;
    LatestIsLatest(scope, cs);
    hide Latest, Consenting, PurposeOf;
    t := OrderHolding(scope, cs, latest);
    if TopsAreAlone(scope, cs, latest) {
      s := TieFirst(scope, cs);
    } else {
      var c :| c in cs && Consenting(scope, c)
               && !(PurposeOf(c) in latest && (c == latest[PurposeOf(c)] || c.capturedAt < latest[PurposeOf(c)].capturedAt));
      s := OrderHolding(scope, cs, latest[PurposeOf(c) := c]);
    }
  }

  /** A tie that comes first clashes. */
  lemma {:induction false} TieFirst(scope: Scope, cs: seq<Consent>) returns (s: seq<Consent>)
    requires HasTie(scope, cs)
    ensures multiset(s) == multiset(cs) && Latest(scope, s).clash
  {
    hide Latest, Tie;
    var i, j :| 0 <= i < |cs| && 0 <= j < |cs| && Tie(scope, cs[i], cs[j]);
    var rest := WithoutTwo(cs, cs[i], cs[j]) by { TieDiffers(scope, cs[i], cs[j]); }
    s := [cs[i], cs[j]] + rest;
    assert multiset(s) == multiset{cs[i], cs[j]} + multiset(rest);
    TieFirstClashes(scope, cs[i], cs[j], rest);
  }

  lemma {:induction false} TieDiffers(scope: Scope, a: Consent, b: Consent)
    requires Tie(scope, a, b)
    ensures a != b
  {
  }

  // ---------------------------------------------------------------- ties that clash in every order

  /** A later consent of the same type and purpose. */
  predicate Above(scope: Scope, c: Consent, a: Consent) {
    Consenting(scope, c) && PurposeOf(c) == PurposeOf(a) && a.capturedAt < c.capturedAt
  }

  predicate Topped(scope: Scope, cs: seq<Consent>, a: Consent) {
    exists c :: c in cs && Above(scope, c, a)
  }

  /** Whatever ties lies below a later consent. */
  ghost predicate TiesLieLower(scope: Scope, cs: seq<Consent>) {
    forall a, b :: a in cs && b in cs && Tie(scope, a, b) ==> Topped(scope, cs, a)
  }

  lemma {:induction false} LowerTiesLeaveTopsAlone(scope: Scope, cs: seq<Consent>, latest: map<Purpose, Consent>)
    requires IsLatest(scope, cs, latest) && TiesLieLower(scope, cs)
    ensures TopsAreAlone(scope, cs, latest)
  {
    hide Consenting, PurposeOf;
    forall c | c in cs && Consenting(scope, c)
      ensures PurposeOf(c) in latest && (c == latest[PurposeOf(c)] || c.capturedAt < latest[PurposeOf(c)].capturedAt)
    {
      LatestIsNotTopped(scope, cs, latest, PurposeOf(c));
      assert !Tie(scope, latest[PurposeOf(c)], c);
    }
  }

  lemma {:induction false} LatestIsNotTopped(scope: Scope, cs: seq<Consent>, latest: map<Purpose, Consent>, key: Purpose)
    requires IsLatest(scope, cs, latest) && key in latest
    ensures !Topped(scope, cs, latest[key])
  {
    hide Consenting, PurposeOf;
  }

  /** Two that tie at the latest time clash in every order. */
  lemma {:induction false} TopTieClashes(scope: Scope, cs: seq<Consent>, a: Consent, b: Consent)
    requires a in cs && b in cs && Tie(scope, a, b) && !Topped(scope, cs, a)
    ensures Latest(scope, cs).clash
    decreases |cs|
  {
    hide Latest, Tie, Topped;
    var n := |cs| - 1;
    assert cs == cs[..n] + [cs[n]];
    LatestSnoc(scope, cs[..n], cs[n]);
    FewerTopped(scope, cs, n, a, b);
    if a in cs[..n] && b in cs[..n] {
      TopTieClashes(scope, cs[..n], a, b);
      hide Consenting, PurposeOf;
    } else if a in cs[..n] {
      LastClashes(scope, cs[..n], a, b);
    } else {
      TieDiffers(scope, a, b);
      LastClashes(scope, cs[..n], b, a);
    }
  }

  lemma {:induction false} FewerTopped(scope: Scope, cs: seq<Consent>, n: nat, a: Consent, b: Consent)
    requires n <= |cs| && Tie(scope, a, b) && !Topped(scope, cs, a)
    ensures !Topped(scope, cs[..n], a) && !Topped(scope, cs[..n], b) && Tie(scope, b, a)
  {
    hide Consenting, PurposeOf;
    assert forall c :: c in cs && Above(scope, c, b) ==> Above(scope, c, a);
  }

  lemma {:induction false} LastClashes(scope: Scope, front: seq<Consent>, a: Consent, b: Consent)
    requires a in front && b !in front && Tie(scope, a, b) && !Topped(scope, front, a)
    ensures Take(scope, Latest(scope, front), b).clash
  {
    LatestIsLatest(scope, front);
    hide Latest, Consenting, PurposeOf;
    var held := Latest(scope, front).latest[PurposeOf(a)];
    assert !Above(scope, held, a);
  }

  // ---------------------------------------------------------------- the whole projection

  predicate DistinctIds<T>(items: seq<T>, id: T -> string) {
    forall i, j :: 0 <= i < j < |items| ==> id(items[i]) != id(items[j])
  }

  /** Without conflicts, what is kept of permuted lists is permuted. */
  lemma {:induction false} FirstsArePermuted<T(!new)>(a: seq<T>, b: seq<T>, id: T -> string)
    requires Same(a, b) && !Conflicting(a, id)
    ensures !Conflicting(b, id)
    ensures multiset(Firsts(a, id, |a|)) == multiset(Firsts(b, id, |b|))
    ensures DistinctIds(Firsts(a, id, |a|), id) && forall x :: x in Firsts(a, id, |a|) <==> x in a
  {
    ConflictsAreShared(b, a, id);
    KeptIsSame(a, id);
    KeptIsSame(b, id);
    hide Conflicting, Firsts;
    SameIsPermuted(Firsts(a, id, |a|), Firsts(b, id, |b|));
  }

  lemma {:induction false} ConflictsAreShared<T(!new)>(a: seq<T>, b: seq<T>, id: T -> string)
    requires Same(a, b)
    ensures Conflicting(a, id) ==> Conflicting(b, id)
  {
    if Conflicting(a, id) {
      var i, j :| 0 <= i < |a| && 0 <= j < |a| && id(a[i]) == id(a[j]) && a[i] != a[j];
      assert a[i] in b && a[j] in b;
      var k :| 0 <= k < |b| && b[k] == a[i];
      var l :| 0 <= l < |b| && b[l] == a[j];
    }
  }

  lemma {:induction false} KeptIsSame<T(!new)>(items: seq<T>, id: T -> string)
    requires !Conflicting(items, id)
    ensures DistinctIds(Firsts(items, id, |items|), id) && Same(Firsts(items, id, |items|), items)
  {
    FirstsFacts(items, id, |items|);
    var kept := Firsts(items, id, |items|);
    hide Firsts;
    assert items[..|items|] == items;
    forall x | x in items
      ensures x in kept
    {
      var k :| 0 <= k < |items| && items[k] == x;
      assert Listed(kept, id, id(items[k]));
      var i :| 0 <= i < |kept| && id(kept[i]) == id(x);
      assert kept[i] in items;
      var j :| 0 <= j < |items| && items[j] == kept[i];
      NoConflict(items, id, j, k);
    }
  }

  lemma {:induction false} NoConflict<T>(items: seq<T>, id: T -> string, i: nat, j: nat)
    requires !Conflicting(items, id) && i < |items| && j < |items| && id(items[i]) == id(items[j])
    ensures items[i] == items[j]
  {
  }

  lemma {:induction false} ScopedIsSame(scope: Scope, a: seq<Intent>, b: seq<Intent>)
    requires Same(a, b)
    ensures Same(Scoped(scope, a, |a|), Scoped(scope, b, |b|))
  {
    ScopedFacts(scope, a, |a|);
    ScopedFacts(scope, b, |b|);
    assert a[..|a|] == a && b[..|b|] == b;
    hide Scoped, InScope;
  }

  lemma {:induction false} DeadlineIsMet(asOf: int, intents: seq<Intent>)
    ensures Deadline(asOf, intents) == asOf || exists i :: i in intents && i.requestedAt == Deadline(asOf, intents)
  {
    if intents != [] {
      var n := |intents| - 1;
      DeadlineIsMet(asOf, intents[..n]);
      assert intents == intents[..n] + [intents[n]];
      assert intents[n] in intents;
      if i :| i in intents[..n] && i.requestedAt == Deadline(asOf, intents[..n]) {
        assert i in intents;
      }
    }
  }

  lemma {:induction false} DeadlineIsSame(asOf: int, a: seq<Intent>, b: seq<Intent>)
    requires Same(a, b)
    ensures Deadline(asOf, a) == Deadline(asOf, b)
  {
    DeadlineBound(asOf, a);
    DeadlineBound(asOf, b);
    DeadlineIsMet(asOf, a);
    DeadlineIsMet(asOf, b);
    hide Deadline;
  }

  lemma {:induction false} FoundAmong(intents: seq<Intent>, i: Intent)
    requires i in intents && forall j :: j in intents && j.id == i.id ==> j == i
    ensures FindIntent(intents, i.id) == Some(i)
  {
    var n := |intents| - 1;
    assert intents == intents[..n] + [intents[n]];
    assert intents[n] in intents;
    if intents[n].id != i.id {
      FoundAmong(intents[..n], i);
    }
  }

  lemma {:induction false} FindIsSame(a: seq<Intent>, b: seq<Intent>, id: string)
    requires Same(a, b) && forall i, j :: i in a && j in a && i.id == j.id ==> i == j
    ensures FindIntent(a, id) == FindIntent(b, id)
  {
    FoundIntent(a, id);
    FoundIntent(b, id);
    if i :| i in a && i.id == id {
      FoundAmong(a, i);
      FoundAmong(b, i);
    }
    hide FindIntent;
  }

  ghost predicate SomeViolates(p: Platform, scope: Scope, intents: seq<Intent>, receipts: seq<Receipt>, v: Violation) {
    exists r :: r in receipts && v in JudgeReceipt(p, scope, intents, r).violations
  }

  ghost predicate SomeReaches(p: Platform, scope: Scope, intents: seq<Intent>, receipts: seq<Receipt>, m: Milestone) {
    exists r :: r in receipts && m in JudgeReceipt(p, scope, intents, r).milestones
  }

  /** What the receipts' judgements add up to. */
  lemma {:induction false} JudgedMembers(p: Platform, scope: Scope, intents: seq<Intent>, receipts: seq<Receipt>, n: nat)
    requires n <= |receipts|
    ensures forall v :: v in Judged(p, scope, intents, receipts, n).violations <==> SomeViolates(p, scope, intents, receipts[..n], v)
    ensures forall m :: m in Judged(p, scope, intents, receipts, n).milestones <==> SomeReaches(p, scope, intents, receipts[..n], m)
  {
    hide JudgeReceipt;
    if n > 0 {
      JudgedMembers(p, scope, intents, receipts, n - 1);
      assert receipts[..n] == receipts[..n - 1] + [receipts[n - 1]];
      assert receipts[n - 1] in receipts[..n];
    }
  }

  lemma {:induction false} JudgeIsSame(p: Platform, scope: Scope, a: seq<Intent>, b: seq<Intent>, r: Receipt)
    requires Same(a, b) && forall i, j :: i in a && j in a && i.id == j.id ==> i == j
    ensures JudgeReceipt(p, scope, a, r) == JudgeReceipt(p, scope, b, r)
  {
    FindIsSame(a, b, r.intentId);
    hide FindIntent, JudgeSuccess;
  }

  lemma {:induction false} JudgedIsSame(p: Platform, scope: Scope, a: seq<Intent>, b: seq<Intent>, r: seq<Receipt>, s: seq<Receipt>)
    requires Same(a, b) && (forall i, j :: i in a && j in a && i.id == j.id ==> i == j) && Same(r, s)
    ensures Judged(p, scope, a, r, |r|) == Judged(p, scope, b, s, |s|)
  {
    JudgedMembers(p, scope, a, r, |r|);
    JudgedMembers(p, scope, b, s, |s|);
    assert r[..|r|] == r && s[..|s|] == s;
    hide Judged, JudgeReceipt, SomeViolates, SomeReaches;
    JudgementsAreShared(p, scope, a, b, r, s);
  }

  lemma {:induction false} JudgementsAreShared(p: Platform, scope: Scope, a: seq<Intent>, b: seq<Intent>, r: seq<Receipt>, s: seq<Receipt>)
    requires Same(a, b) && (forall i, j :: i in a && j in a && i.id == j.id ==> i == j) && Same(r, s)
    ensures forall v :: SomeViolates(p, scope, a, r, v) <==> SomeViolates(p, scope, b, s, v)
    ensures forall m :: SomeReaches(p, scope, a, r, m) <==> SomeReaches(p, scope, b, s, m)
  {
    forall x: Receipt
      ensures JudgeReceipt(p, scope, a, x) == JudgeReceipt(p, scope, b, x)
    {
      JudgeIsSame(p, scope, a, b, x);
    }
    hide JudgeReceipt;
  }

  lemma {:induction false} MisplacedIntentMembers(scope: Scope, items: seq<Intent>, n: nat)
    requires n <= |items|
    ensures forall v :: v in MisplacedIntents(scope, items, n)
                        <==> exists x :: x in items[..n] && v in Misplaced(scope, x.tenantId, x.sessionId)
  {
    hide Misplaced;
    if n > 0 {
      MisplacedIntentMembers(scope, items, n - 1);
      assert items[..n] == items[..n - 1] + [items[n - 1]];
    }
  }

  lemma {:induction false} MisplacedDisclosureMembers(scope: Scope, items: seq<Disclosure>, n: nat)
    requires n <= |items|
    ensures forall v :: v in MisplacedDisclosures(scope, items, n)
                        <==> exists x :: x in items[..n] && v in Misplaced(scope, x.tenantId, x.sessionId)
  {
    hide Misplaced;
    if n > 0 {
      MisplacedDisclosureMembers(scope, items, n - 1);
      assert items[..n] == items[..n - 1] + [items[n - 1]];
    }
  }

  lemma {:induction false} MisplacedConsentMembers(scope: Scope, items: seq<Consent>, n: nat)
    requires n <= |items|
    ensures forall v :: v in MisplacedConsents(scope, items, n)
                        <==> exists x :: x in items[..n] && v in Misplaced(scope, x.tenantId, x.sessionId)
  {
    hide Misplaced;
    if n > 0 {
      MisplacedConsentMembers(scope, items, n - 1);
      assert items[..n] == items[..n - 1] + [items[n - 1]];
    }
  }

  lemma {:induction false} MisplacedIsSame(scope: Scope, k: Kept, l: Kept)
    requires Same(k.intents, l.intents) && Same(k.disclosures, l.disclosures) && Same(k.consents, l.consents)
    ensures MisplacedIntents(scope, k.intents, |k.intents|) == MisplacedIntents(scope, l.intents, |l.intents|)
    ensures MisplacedDisclosures(scope, k.disclosures, |k.disclosures|) == MisplacedDisclosures(scope, l.disclosures, |l.disclosures|)
    ensures MisplacedConsents(scope, k.consents, |k.consents|) == MisplacedConsents(scope, l.consents, |l.consents|)
  {
    MisplacedIntentMembers(scope, k.intents, |k.intents|);
    MisplacedIntentMembers(scope, l.intents, |l.intents|);
    MisplacedDisclosureMembers(scope, k.disclosures, |k.disclosures|);
    MisplacedDisclosureMembers(scope, l.disclosures, |l.disclosures|);
    MisplacedConsentMembers(scope, k.consents, |k.consents|);
    MisplacedConsentMembers(scope, l.consents, |l.consents|);
    hide Misplaced, MisplacedIntents, MisplacedDisclosures, MisplacedConsents;
    assert k.intents[..|k.intents|] == k.intents && l.intents[..|l.intents|] == l.intents;
    assert k.disclosures[..|k.disclosures|] == k.disclosures && l.disclosures[..|l.disclosures|] == l.disclosures;
    assert k.consents[..|k.consents|] == k.consents && l.consents[..|l.consents|] == l.consents;
  }

  lemma {:induction false} EffectsClashAlike(scope: Scope, r: seq<Receipt>, s: seq<Receipt>)
    requires Same(r, s) && EffectsClash(scope, r)
    ensures EffectsClash(scope, s)
  {
    hide EffectOf;
    var i, j :| 0 <= i < |r| && 0 <= j < |r| && r[i].tenantId == scope.tenantId && r[j].tenantId == scope.tenantId
                && r[i].intentId == r[j].intentId && EffectOf(r[i]) != EffectOf(r[j]);
    assert r[i] in s && r[j] in s;
    var k :| 0 <= k < |s| && s[k] == r[i];
    var l :| 0 <= l < |s| && s[l] == r[j];
  }

  /** A version's delivery is no later than any record of it. */
  lemma {:induction false} DeliveredBound(scope: Scope, deadline: int, ds: seq<Disclosure>, n: nat)
    requires n <= |ds|
    ensures forall d :: d in ds[..n] && Disclosing(scope, deadline, d) ==>
              d.version in Delivered(scope, deadline, ds, n) && Delivered(scope, deadline, ds, n)[d.version] <= d.deliveredAt
  {
    hide Disclosing;
    if n > 0 {
      DeliveredBound(scope, deadline, ds, n - 1);
      assert ds[..n] == ds[..n - 1] + [ds[n - 1]];
    }
  }

  lemma {:induction false} DeliveredNotLater(scope: Scope, deadline: int, a: seq<Disclosure>, b: seq<Disclosure>, version: string)
    requires Same(a, b) && version in Delivered(scope, deadline, a, |a|)
    ensures version in Delivered(scope, deadline, b, |b|)
    ensures Delivered(scope, deadline, b, |b|)[version] <= Delivered(scope, deadline, a, |a|)[version]
  {
    DeliveredFrom(scope, deadline, a, |a|, version);
    DeliveredBound(scope, deadline, b, |b|);
    hide Delivered, Disclosing;
    assert a[..|a|] == a && b[..|b|] == b;
  }

  lemma {:induction false} DeliveredIsSame(scope: Scope, deadline: int, a: seq<Disclosure>, b: seq<Disclosure>)
    requires Same(a, b)
    ensures Delivered(scope, deadline, a, |a|) == Delivered(scope, deadline, b, |b|)
  {
    hide Delivered;
    var x, y := Delivered(scope, deadline, a, |a|), Delivered(scope, deadline, b, |b|);
    forall version | version in x
      ensures version in y && y[version] <= x[version]
    {
      DeliveredNotLater(scope, deadline, a, b, version);
    }
    forall version | version in y
      ensures version in x && x[version] <= y[version]
    {
      DeliveredNotLater(scope, deadline, b, a, version);
    }
  }

  function AmbiguousSize(r: Receipt): nat {
    if Ambiguous(r) then 1 else 0
  }

  lemma {:induction false} AmbiguousIsTotal(receipts: seq<Receipt>, n: nat)
    requires n <= |receipts|
    ensures CountAmbiguous(receipts, n) == Total(receipts, AmbiguousSize, n)
  {
    if n > 0 {
      AmbiguousIsTotal(receipts, n - 1);
    }
  }

  ghost predicate PermutedKept(k: Kept, l: Kept) {
    && multiset(k.intents) == multiset(l.intents) && multiset(k.receipts) == multiset(l.receipts)
    && multiset(k.disclosures) == multiset(l.disclosures) && multiset(k.consents) == multiset(l.consents)
    && k.conflict == l.conflict
  }

  ghost predicate SameKept(k: Kept, l: Kept) {
    Same(k.intents, l.intents) && Same(k.receipts, l.receipts) && Same(k.disclosures, l.disclosures) && Same(k.consents, l.consents)
  }

  lemma {:induction false} PermutedKeptIsSame(k: Kept, l: Kept)
    requires PermutedKept(k, l)
    ensures SameKept(k, l) && |k.receipts| == |l.receipts|
  {
    hide Same;
    PermutedIsSame(k.intents, l.intents);
    PermutedIsSame(k.receipts, l.receipts);
    PermutedIsSame(k.disclosures, l.disclosures);
    PermutedIsSame(k.consents, l.consents);
  }

  lemma {:induction false} GoodIsSame(p: Platform, asOf: int, k: Kept, l: Kept)
    requires SameKept(k, l) && Good(p, asOf, k)
    ensures Good(p, asOf, l)
  {
    hide GoodIntent, GoodReceipt, GoodDisclosure, GoodConsent;
    assert forall x :: x in k.intents ==> GoodIntent(p, x);
    assert forall x :: x in k.receipts ==> GoodReceipt(p, asOf, x);
    assert forall x :: x in k.disclosures ==> GoodDisclosure(p, asOf, x);
    assert forall x :: x in k.consents ==> GoodConsent(p, x);
    assert forall i :: 0 <= i < |l.intents| ==> l.intents[i] in l.intents;
    assert forall i :: 0 <= i < |l.receipts| ==> l.receipts[i] in l.receipts;
    assert forall i :: 0 <= i < |l.disclosures| ==> l.disclosures[i] in l.disclosures;
    assert forall i :: 0 <= i < |l.consents| ==> l.consents[i] in l.consents;
  }

  // ---------------------------------------------------------------- what the order can change

  /** The consent types in force once the latest consents are known. */
  function InForce(scope: Scope, all: seq<Intent>, ds: seq<Disclosure>, latest: map<Purpose, Consent>): set<string> {
    var intents := Scoped(scope, all, |all|);
    var deadline := Deadline(scope.asOf, intents);
    var delivered := Delivered(scope, deadline, ds, |ds|);
    var essential := EssentialPurposes(scope, deadline, delivered, latest);
    var types := ActiveTypes(scope, deadline, delivered, latest);
    if exists i :: 0 <= i < |intents| && intents[i].purpose !in essential then types - {ESSENTIAL} else types
  }

  /** What makes the projection report a conflicting duplicate. */
  predicate Reports(scope: Scope, k: Kept) {
    k.conflict || Latest(scope, k.consents).clash || EffectsClash(scope, k.receipts)
  }

  lemma {:induction false} ConcludeInForce(p: Platform, scope: Scope, k: Kept)
    ensures Conclude(p, scope, k).activeConsentTypes == InForce(scope, k.intents, k.disclosures, Latest(scope, k.consents).latest)
  {
    ConcludeAssembles(p, scope, k);
    hide Conclude, InForce, Latest;
  }

  lemma {:induction false} ConcludeReports(p: Platform, scope: Scope, k: Kept)
    ensures ConflictingDuplicate in Conclude(p, scope, k).violations <==> Reports(scope, k)
  {
    hide Conclude, Scoped, InForce, Judged, Reports, MisplacedIntents, MisplacedDisclosures, MisplacedConsents;
    ConcludeAssembles(p, scope, k);
    JudgementsNeverReport(p, scope, Scoped(scope, k.intents, |k.intents|), k.receipts, |k.receipts|);
    MisplacedNeverReports(scope, k);
  }

  lemma {:induction false} MisplacedNeverReports(scope: Scope, k: Kept)
    ensures ConflictingDuplicate !in MisplacedIntents(scope, k.intents, |k.intents|)
    ensures ConflictingDuplicate !in MisplacedDisclosures(scope, k.disclosures, |k.disclosures|)
    ensures ConflictingDuplicate !in MisplacedConsents(scope, k.consents, |k.consents|)
  {
    MisplacedIntentMembers(scope, k.intents, |k.intents|);
    MisplacedDisclosureMembers(scope, k.disclosures, |k.disclosures|);
    MisplacedConsentMembers(scope, k.consents, |k.consents|);
    hide MisplacedIntents, MisplacedDisclosures, MisplacedConsents;
    assert forall t, u :: ConflictingDuplicate !in Misplaced(scope, t, u);
    hide Misplaced;
  }

  lemma {:induction false} JudgementsNeverReport(p: Platform, scope: Scope, intents: seq<Intent>, receipts: seq<Receipt>, n: nat)
    requires n <= |receipts|
    ensures ConflictingDuplicate !in Judged(p, scope, intents, receipts, n).violations
  {
    hide JudgeReceipt;
    if n > 0 {
      JudgementsNeverReport(p, scope, intents, receipts, n - 1);
      JudgementNeverReports(p, scope, intents, receipts[n - 1]);
    }
  }

  lemma {:induction false} JudgementNeverReports(p: Platform, scope: Scope, intents: seq<Intent>, r: Receipt)
    ensures ConflictingDuplicate !in JudgeReceipt(p, scope, intents, r).violations
  {
    hide FindIntent, RecognizeResult, KnownAction;
  }

  /** Records in another order give the same evidence when the same conflict is reported and the same consent types
      are in force. */
  lemma {:induction false} ConcludeIsSame(p: Platform, scope: Scope, k: Kept, l: Kept)
    requires PermutedKept(k, l) && DistinctIds(k.intents, IntentId) && (Reports(scope, k) <==> Reports(scope, l))
    requires InForce(scope, k.intents, k.disclosures, Latest(scope, k.consents).latest)
             == InForce(scope, l.intents, l.disclosures, Latest(scope, l.consents).latest)
    ensures Conclude(p, scope, k) == Conclude(p, scope, l)
  {
    hide *;
    PermutedKeptIsSame(k, l);
    SameParts(p, scope, k, l);
    ConcludeAssembles(p, scope, k);
    ConcludeAssembles(p, scope, l);
  }

  /** The evidence put together from the results of the stages. */
  function Assembled(reports: bool, strayIntents: set<Violation>, judged: Judgement, strayDisclosures: set<Violation>,
                     strayConsents: set<Violation>, delivered: map<string, int>, inForce: set<string>, ambiguous: nat, unique: nat): Evidence {
    var violations :=
      When(reports, ConflictingDuplicate) + strayIntents + judged.violations + strayDisclosures + strayConsents
      + When(delivered == map[], MissingDisclosure) + When(ESSENTIAL !in inForce, MissingEssentialConsent);
    Evidence(if violations == {} then judged.milestones else {}, ambiguous, violations, delivered != map[], inForce, unique)
  }

  lemma {:induction false} ConcludeAssembles(p: Platform, scope: Scope, k: Kept)
    ensures var intents := Scoped(scope, k.intents, |k.intents|);
            Conclude(p, scope, k)
            == Assembled(Reports(scope, k), MisplacedIntents(scope, k.intents, |k.intents|), Judged(p, scope, intents, k.receipts, |k.receipts|),
                         MisplacedDisclosures(scope, k.disclosures, |k.disclosures|), MisplacedConsents(scope, k.consents, |k.consents|),
                         Delivered(scope, Deadline(scope.asOf, intents), k.disclosures, |k.disclosures|),
                         InForce(scope, k.intents, k.disclosures, Latest(scope, k.consents).latest),
                         CountAmbiguous(k.receipts, |k.receipts|), |k.receipts|)
  {
    hide Scoped, Deadline, Judged, Delivered, Taken, EssentialPurposes, ActiveTypes, EffectsClash, MisplacedIntents,
      MisplacedDisclosures, MisplacedConsents, CountAmbiguous, When;
  }

  lemma {:induction false} SameParts(p: Platform, scope: Scope, k: Kept, l: Kept)
    requires SameKept(k, l) && PermutedKept(k, l) && DistinctIds(k.intents, IntentId)
    ensures var a, b := Scoped(scope, k.intents, |k.intents|), Scoped(scope, l.intents, |l.intents|);
            && Judged(p, scope, a, k.receipts, |k.receipts|) == Judged(p, scope, b, l.receipts, |l.receipts|)
            && Delivered(scope, Deadline(scope.asOf, a), k.disclosures, |k.disclosures|)
               == Delivered(scope, Deadline(scope.asOf, b), l.disclosures, |l.disclosures|)
    ensures MisplacedIntents(scope, k.intents, |k.intents|) == MisplacedIntents(scope, l.intents, |l.intents|)
    ensures MisplacedDisclosures(scope, k.disclosures, |k.disclosures|) == MisplacedDisclosures(scope, l.disclosures, |l.disclosures|)
    ensures MisplacedConsents(scope, k.consents, |k.consents|) == MisplacedConsents(scope, l.consents, |l.consents|)
    ensures CountAmbiguous(k.receipts, |k.receipts|) == CountAmbiguous(l.receipts, |l.receipts|)
  {
    hide Scoped, Deadline, Judged, Delivered, MisplacedIntents, MisplacedDisclosures, MisplacedConsents, CountAmbiguous, Same,
      Total, DistinctIds;
    AmbiguousIsTotal(k.receipts, |k.receipts|);
    AmbiguousIsTotal(l.receipts, |l.receipts|);
    TotalOfPermuted(k.receipts, l.receipts, AmbiguousSize);
    var a, b := Scoped(scope, k.intents, |k.intents|), Scoped(scope, l.intents, |l.intents|);
    ScopedIsSame(scope, k.intents, l.intents);
    ScopedIdsDiffer(scope, k.intents);
    DeadlineIsSame(scope.asOf, a, b);
    JudgedIsSame(p, scope, a, b, k.receipts, l.receipts);
    MisplacedIsSame(scope, k, l);
    DeliveredIsSame(scope, Deadline(scope.asOf, a), k.disclosures, l.disclosures);
  }

  lemma {:induction false} InForceIsSame(scope: Scope, a: seq<Intent>, b: seq<Intent>, ds: seq<Disclosure>, es: seq<Disclosure>,
                                         latest: map<Purpose, Consent>)
    requires Same(a, b) && Same(ds, es)
    ensures InForce(scope, a, ds, latest) == InForce(scope, b, es, latest)
  {
    var i, j := Scoped(scope, a, |a|), Scoped(scope, b, |b|);
    ScopedIsSame(scope, a, b);
    DeadlineIsSame(scope.asOf, i, j);
    var deadline := Deadline(scope.asOf, i);
    DeliveredIsSame(scope, deadline, ds, es);
    PurposesAreShared(i, j, EssentialPurposes(scope, deadline, Delivered(scope, deadline, ds, |ds|), latest));
    hide Scoped, Deadline, Delivered, EssentialPurposes, ActiveTypes, Same;
  }

  lemma {:induction false} EffectsClashIsSame(scope: Scope, r: seq<Receipt>, s: seq<Receipt>)
    requires Same(r, s)
    ensures EffectsClash(scope, r) <==> EffectsClash(scope, s)
  {
    if EffectsClash(scope, r) {
      EffectsClashAlike(scope, r, s);
    }
    if EffectsClash(scope, s) {
      EffectsClashAlike(scope, s, r);
    }
  }

  /** The report of a conflict is the same in every order when no consents tie, when some tie on top, or when the
      receipts clash anyway. */
  lemma {:induction false} ReportIsSame(scope: Scope, k: Kept, l: Kept)
    requires PermutedKept(k, l)
    requires !HasTie(scope, k.consents) || !TiesLieLower(scope, k.consents) || EffectsClash(scope, k.receipts)
    ensures Reports(scope, k) <==> Reports(scope, l)
  {
    PermutedKeptIsSame(k, l);
    EffectsClashIsSame(scope, k.receipts, l.receipts);
    hide EffectsClash, Latest, HasTie;
    if !HasTie(scope, k.consents) {
      NoTieNoOrder(scope, k.consents, l.consents);
    } else if !TiesLieLower(scope, k.consents) {
      TopTieReports(scope, k.consents, l.consents);
    }
  }

  lemma {:induction false} TopTieReports(scope: Scope, a: seq<Consent>, b: seq<Consent>)
    requires Same(a, b) && !TiesLieLower(scope, a)
    ensures Latest(scope, a).clash && Latest(scope, b).clash
  {
    hide Latest, Tie, Above;
    var c, d :| c in a && d in a && Tie(scope, c, d) && !Topped(scope, a, c);
    TopTieClashes(scope, a, c, d);
    TopTieClashes(scope, b, c, d);
  }

  lemma {:induction false} PurposesAreShared(a: seq<Intent>, b: seq<Intent>, purposes: set<string>)
    requires Same(a, b)
    ensures (exists i :: 0 <= i < |a| && a[i].purpose !in purposes) <==> (exists i :: 0 <= i < |b| && b[i].purpose !in purposes)
  {
    if i :| 0 <= i < |a| && a[i].purpose !in purposes {
      assert a[i] in b;
      var j :| 0 <= j < |b| && b[j] == a[i];
    }
    if i :| 0 <= i < |b| && b[i].purpose !in purposes {
      assert b[i] in a;
      var j :| 0 <= j < |a| && a[j] == b[i];
    }
  }

  lemma {:induction false} ScopedIdsDiffer(scope: Scope, intents: seq<Intent>)
    requires DistinctIds(intents, IntentId)
    ensures var a := Scoped(scope, intents, |intents|);
            forall i, j :: i in a && j in a && i.id == j.id ==> i == j
  {
    ScopedFacts(scope, intents, |intents|);
    assert intents[..|intents|] == intents;
    hide Scoped;
    forall i, j | i in intents && j in intents && i.id == j.id
      ensures i == j
    {
      var k :| 0 <= k < |intents| && intents[k] == i;
      var l :| 0 <= l < |intents| && intents[l] == j;
      assert IntentId(intents[k]) == IntentId(intents[l]);
    }
  }

  ghost predicate Permuted(a: Input, b: Input) {
    && a.scope == b.scope && multiset(a.intents) == multiset(b.intents) && multiset(a.receipts) == multiset(b.receipts)
    && multiset(a.disclosures) == multiset(b.disclosures) && multiset(a.consents) == multiset(b.consents)
  }

  /** No two different records of one list share an identifier. */
  predicate Unconflicting(input: Input) {
    && !Conflicting(input.intents, IntentId) && !Conflicting(input.receipts, ReceiptId)
    && !Conflicting(input.disclosures, DisclosureId) && !Conflicting(input.consents, ConsentId)
  }

  lemma {:induction false} KeptIsPermuted(a: Input, b: Input)
    requires Permuted(a, b) && Unconflicting(a)
    ensures PermutedKept(Keep(a), Keep(b)) && DistinctIds(Keep(a).intents, IntentId) && !Keep(a).conflict
  {
    hide Firsts, Conflicting, Same, DistinctIds;
    PermutedIsSame(a.intents, b.intents);
    PermutedIsSame(a.receipts, b.receipts);
    PermutedIsSame(a.disclosures, b.disclosures);
    PermutedIsSame(a.consents, b.consents);
    FirstsArePermuted(a.intents, b.intents, IntentId);
    FirstsArePermuted(a.receipts, b.receipts, ReceiptId);
    FirstsArePermuted(a.disclosures, b.disclosures, DisclosureId);
    FirstsArePermuted(a.consents, b.consents, ConsentId);
  }

  /** What is kept are the records themselves. */
  lemma {:induction false} KeptAreTheRecords(a: Input)
    requires Unconflicting(a)
    ensures Same(Keep(a).intents, a.intents) && Same(Keep(a).receipts, a.receipts)
    ensures Same(Keep(a).disclosures, a.disclosures) && Same(Keep(a).consents, a.consents)
  {
    hide Firsts, Conflicting, Same, DistinctIds;
    KeptIsSame(a.intents, IntentId);
    KeptIsSame(a.receipts, ReceiptId);
    KeptIsSame(a.disclosures, DisclosureId);
    KeptIsSame(a.consents, ConsentId);
  }

  lemma {:induction false} BoundedAlike<T(!new)>(a: seq<T>, b: seq<T>, size: T -> nat)
    requires multiset(a) == multiset(b)
    ensures (Bounded(a, size) <==> Bounded(b, size)) && Total(a, size, |a|) == Total(b, size, |b|)
  {
    TotalOfPermuted(a, b, size);
    PermutedIsSame(a, b);
    hide Total;
    if Bounded(a, size) {
      forall i | 0 <= i < |b|
        ensures size(b[i]) <= MOST_PER_RECORD
      {
        assert b[i] in a;
      }
    }
    if Bounded(b, size) {
      forall i | 0 <= i < |a|
        ensures size(a[i]) <= MOST_PER_RECORD
      {
        assert a[i] in b;
      }
    }
  }

  lemma {:induction false} BoundsAlike(p: Platform, a: Input, b: Input)
    requires Permuted(a, b)
    ensures WithinBounds(p, a) <==> WithinBounds(p, b)
  {
    hide Bounded, Total;
    BoundedAlike(a.intents, b.intents, p.intentSize);
    BoundedAlike(a.receipts, b.receipts, p.receiptSize);
    BoundedAlike(a.disclosures, b.disclosures, p.disclosureSize);
    BoundedAlike(a.consents, b.consents, p.consentSize);
  }

  lemma {:induction false} ProjectsAlike(p: Platform, a: Input, b: Input)
    requires Permuted(a, b) && Unconflicting(a)
    ensures Project(p, a).Some? <==> Project(p, b).Some?
    ensures Project(p, a).Some? ==> Project(p, a).value == Conclude(p, a.scope, Keep(a)) && Project(p, b).value == Conclude(p, a.scope, Keep(b))
  {
    hide Conclude, Keep, Good, WithinBounds;
    BoundsAlike(p, a, b);
    KeptIsPermuted(a, b);
    PermutedKeptIsSame(Keep(a), Keep(b));
    assert Good(p, a.scope.asOf, Keep(a)) <==> Good(p, b.scope.asOf, Keep(b)) by {
      if Good(p, a.scope.asOf, Keep(a)) {
        GoodIsSame(p, a.scope.asOf, Keep(a), Keep(b));
      }
      if Good(p, a.scope.asOf, Keep(b)) {
        GoodIsSame(p, a.scope.asOf, Keep(b), Keep(a));
      }
    }
  }

  // ---------------------------------------------------------------- exactly when the order matters

  /** Every order reports a conflict, or none does: no two consents tie, or two tie on top, or the receipts clash. */
  ghost predicate ReportIsStable(input: Input) {
    || !HasTie(input.scope, input.consents) || !TiesLieLower(input.scope, input.consents)
    || EffectsClash(input.scope, input.receipts)
  }

  /** Whichever latest consents are chosen, the same types are in force. */
  ghost predicate OneInForce(input: Input) {
    forall x, y :: IsLatest(input.scope, input.consents, x) && IsLatest(input.scope, input.consents, y) ==>
                     InForce(input.scope, input.intents, input.disclosures, x) == InForce(input.scope, input.intents, input.disclosures, y)
  }

  lemma {:induction false} StableKept(a: Input)
    requires Unconflicting(a) && ReportIsStable(a)
    ensures !HasTie(a.scope, Keep(a).consents) || !TiesLieLower(a.scope, Keep(a).consents) || EffectsClash(a.scope, Keep(a).receipts)
  {
    KeptAreTheRecords(a);
    hide Keep, EffectsClash, HasTie, TiesLieLower, Unconflicting;
    EffectsClashIsSame(a.scope, Keep(a).receipts, a.receipts);
    if HasTie(a.scope, Keep(a).consents) {
      TiesAreShared(a.scope, Keep(a).consents, a.consents);
    }
    LowerIsShared(a.scope, Keep(a).consents, a.consents);
  }

  lemma {:induction false} LowerIsShared(scope: Scope, a: seq<Consent>, b: seq<Consent>)
    requires Same(a, b)
    ensures TiesLieLower(scope, a) <==> TiesLieLower(scope, b)
  {
    hide Tie, Above;
    assert forall c :: Topped(scope, a, c) <==> Topped(scope, b, c);
  }

  /** What one of two permuted inputs has in force. */
  lemma {:induction false} KeptInForce(a: Input, b: Input)
    requires Permuted(a, b) && Unconflicting(a)
    ensures var latest := Latest(a.scope, Keep(b).consents).latest;
            && IsLatest(a.scope, a.consents, latest)
            && InForce(a.scope, Keep(b).intents, Keep(b).disclosures, latest) == InForce(a.scope, a.intents, a.disclosures, latest)
  {
    hide *;
    KeptAreTheRecords(a);
    KeptIsPermuted(a, b);
    PermutedKeptIsSame(Keep(a), Keep(b));
    var latest := Latest(a.scope, Keep(b).consents).latest;
    LatestIsLatest(a.scope, Keep(b).consents);
    SameByKept(a, b);
    LatestOfSame(a.scope, Keep(b).consents, a.consents, latest);
    InForceIsSame(a.scope, Keep(b).intents, a.intents, Keep(b).disclosures, a.disclosures, latest);
  }

  lemma {:induction false} SameByKept(a: Input, b: Input)
    requires SameKept(Keep(a), Keep(b))
    requires Same(Keep(a).intents, a.intents) && Same(Keep(a).disclosures, a.disclosures) && Same(Keep(a).consents, a.consents)
    ensures Same(Keep(b).intents, a.intents) && Same(Keep(b).disclosures, a.disclosures) && Same(Keep(b).consents, a.consents)
  {
    hide Keep;
  }

  lemma {:induction false} PermutedItself(a: Input)
    ensures Permuted(a, a)
  {
  }

  lemma {:induction false} StableOrder(p: Platform, a: Input, b: Input)
    requires Permuted(a, b) && Unconflicting(a) && ReportIsStable(a) && OneInForce(a)
    ensures Project(p, a) == Project(p, b)
  {
    hide *;
    ProjectsAlike(p, a, b);
    PermutedItself(a);
    KeptInForce(a, a);
    KeptInForce(a, b);
    SameInForce(a, Latest(a.scope, Keep(a).consents).latest, Latest(a.scope, Keep(b).consents).latest);
    KeptIsPermuted(a, b);
    StableKept(a);
    ReportIsSame(a.scope, Keep(a), Keep(b));
    ConcludeIsSame(p, a.scope, Keep(a), Keep(b));
  }

  lemma {:induction false} SameInForce(a: Input, x: map<Purpose, Consent>, y: map<Purpose, Consent>)
    requires OneInForce(a) && IsLatest(a.scope, a.consents, x) && IsLatest(a.scope, a.consents, y)
    ensures InForce(a.scope, a.intents, a.disclosures, x) == InForce(a.scope, a.intents, a.disclosures, y)
  {
    hide InForce, IsLatest;
  }

  /** The projection does not depend on the order of any of its lists when no two different records share an
      identifier and no two consents tie. */
  lemma {:induction false} OrderDoesNotMatter(p: Platform, a: Input, b: Input)
    requires Permuted(a, b) && Unconflicting(a) && !HasTie(a.scope, a.consents)
    ensures Project(p, a) == Project(p, b)
  {
    hide Project, Unconflicting, Permuted, HasTie, IsLatest, InForce;
    assert OneInForce(a) by { UntiedInForce(a); }
    StableOrder(p, a, b);
  }

  lemma {:induction false} UntiedInForce(a: Input)
    requires !HasTie(a.scope, a.consents)
    ensures OneInForce(a)
  {
    hide HasTie, IsLatest, InForce;
    assert Same(a.consents, a.consents);
    forall x, y | IsLatest(a.scope, a.consents, x) && IsLatest(a.scope, a.consents, y)
      ensures x == y
    {
      LatestIsUnique(a.scope, a.consents, a.consents, x, y);
    }
  }

  /** Distinct records followed by copies of them: the distinct ones are kept. */
  lemma {:induction false} FirstsOfCopies<T(!new)>(s: seq<T>, copies: seq<T>, id: T -> string)
    requires DistinctIds(s, id) && forall x :: x in copies ==> x in s
    ensures Firsts(s + copies, id, |s + copies|) == s
    decreases |s| + |copies|
  {
    hide Listed;
    if copies != [] {
      var n := |copies| - 1;
      FirstsOfCopies(s, copies[..n], id);
      assert s + copies == (s + copies[..n]) + [copies[n]];
      FirstsOfPrefix(s + copies[..n], id, copies[n], |s + copies[..n]|);
      assert copies[n] in copies;
      var i :| 0 <= i < |s| && s[i] == copies[n];
      assert Listed(s, id, id(copies[n])) by { IsListed(s, id, i); }
    } else {
      assert s + copies == s;
      if s != [] {
        var n := |s| - 1;
        assert s == s[..n] + [s[n]] && s[..n] + [] == s[..n];
        FirstsOfCopies(s[..n], [], id);
        FirstsOfPrefix(s[..n], id, s[n], n);
        assert !Listed(s[..n], id, id(s[n])) by { NotListedBefore(s, id); }
      }
    }
  }

  lemma {:induction false} IsListed<T>(s: seq<T>, id: T -> string, i: nat)
    requires i < |s|
    ensures Listed(s, id, id(s[i]))
  {
  }

  lemma {:induction false} NotListedBefore<T>(s: seq<T>, id: T -> string)
    requires s != [] && DistinctIds(s, id)
    ensures !Listed(s[..|s| - 1], id, id(s[|s| - 1]))
  {
  }

  /** Any order of the kept consents is kept from some order of all of them. */
  lemma {:induction false} Reordered(a: Input, s: seq<Consent>) returns (b: Input)
    requires Unconflicting(a) && multiset(s) == multiset(Keep(a).consents)
    ensures Permuted(a, b) && Keep(b) == Keep(a).(consents := s)
  {
    hide Conflicting, Firsts, DistinctIds, Same;
    var kept := Keep(a).consents;
    KeptIsSame(a.consents, ConsentId);
    KeptOnce(a.consents, kept, ConsentId);
    var copies := Listing(multiset(a.consents) - multiset(kept));
    DistinctWhenPermuted(kept, s, ConsentId);
    CopiesAreThere(a.consents, kept, s, copies);
    var t := s + copies;
    FirstsOfCopies(s, copies, ConsentId);
    b := a.(consents := t);
    PermutedIsSame(t, a.consents);
    ConflictsAreShared(t, a.consents, ConsentId);
  }

  lemma {:induction false} KeptOnce<T(!new)>(items: seq<T>, kept: seq<T>, id: T -> string)
    requires DistinctIds(kept, id) && Same(kept, items)
    ensures multiset(kept) <= multiset(items)
  {
    forall x
      ensures multiset(kept)[x] <= multiset(items)[x]
    {
      OnceAtMost(kept, x);
      assert x in items ==> x in multiset(items);
    }
  }

  lemma {:induction false} DistinctWhenPermuted<T(!new)>(a: seq<T>, b: seq<T>, id: T -> string)
    requires DistinctIds(a, id) && multiset(a) == multiset(b)
    ensures DistinctIds(b, id)
  {
    PermutedIsSame(a, b);
    forall i, j | 0 <= i < j < |b|
      ensures id(b[i]) != id(b[j])
    {
      assert b[i] in a && b[j] in a;
      var k :| 0 <= k < |a| && a[k] == b[i];
      var l :| 0 <= l < |a| && a[l] == b[j];
      if b[i] == b[j] {
        OnceAtMost(a, b[i]);
        TwiceCounts(b, i, j);
      }
    }
  }

  lemma {:induction false} TwiceCounts<T>(s: seq<T>, i: nat, j: nat)
    requires i < j < |s| && s[i] == s[j]
    ensures multiset(s)[s[i]] >= 2
  {
    var front, back := s[..j], s[j..];
    assert s == front + back && front[i] == s[i] && back[0] == s[j];
    assert s[i] in front && s[i] in back;
    assert s[i] in multiset(front) && s[i] in multiset(back);
  }

  lemma {:induction false} CopiesAreThere<T(!new)>(items: seq<T>, kept: seq<T>, s: seq<T>, copies: seq<T>)
    requires Same(kept, items) && multiset(s) == multiset(kept) && multiset(copies) == multiset(items) - multiset(kept)
    ensures forall x :: x in copies ==> x in s
  {
    forall x | x in copies
      ensures x in s
    {
      assert x in multiset(copies);
      assert x in multiset(items);
      assert x in items && x in kept;
      assert x in multiset(kept);
      assert x in multiset(s);
    }
  }

  ghost predicate AnyOrder(p: Platform, a: Input) {
    forall b :: Permuted(a, b) ==> Project(p, b) == Project(p, a)
  }

  /** Two reorderings that differ give an order in which the projection is another. */
  lemma {:induction false} TwoOrdersDiffer(p: Platform, a: Input, b: Input, c: Input)
    requires Permuted(a, b) && Permuted(a, c) && Project(p, b) != Project(p, c)
    ensures !AnyOrder(p, a)
  {
    hide Permuted, Project;
  }

  /** Ties that lie below later consents change what is reported. */
  lemma {:induction false} LowerTiesShow(p: Platform, a: Input)
    requires Unconflicting(a) && Project(p, a).Some? && !ReportIsStable(a)
    ensures !AnyOrder(p, a)
  {
    hide *;
    var kept, k := Keep(a).consents, Keep(a);
    UnstableKept(a);
    var s := TieFirst(a.scope, kept);
    var latest := Latest(a.scope, kept).latest;
    LatestIsLatest(a.scope, kept);
    LowerTiesLeaveTopsAlone(a.scope, kept, latest);
    var t := OrderHolding(a.scope, kept, latest);
    var b := Reordered(a, s);
    var c := Reordered(a, t);
    ProjectsAlike(p, a, b);
    ProjectsAlike(p, a, c);
    ConcludeReports(p, a.scope, Keep(b));
    ConcludeReports(p, a.scope, Keep(c));
    ReportsByClash(a.scope, k, s);
    ReportsByClash(a.scope, k, t);
    TwoOrdersDiffer(p, a, b, c);
  }

  lemma {:induction false} ReportsByClash(scope: Scope, k: Kept, s: seq<Consent>)
    requires !k.conflict && !EffectsClash(scope, k.receipts)
    ensures Reports(scope, k.(consents := s)) <==> Latest(scope, s).clash
  {
    hide Latest, EffectsClash;
  }

  lemma {:induction false} UnstableKept(a: Input)
    requires Unconflicting(a) && !ReportIsStable(a)
    ensures HasTie(a.scope, Keep(a).consents) && TiesLieLower(a.scope, Keep(a).consents)
    ensures !EffectsClash(a.scope, Keep(a).receipts) && !Keep(a).conflict
  {
    KeptAreTheRecords(a);
    assert !Keep(a).conflict;
    hide Keep, EffectsClash, HasTie, TiesLieLower, Unconflicting;
    EffectsClashIsSame(a.scope, Keep(a).receipts, a.receipts);
    assert Same(a.consents, Keep(a).consents);
    TiesAreShared(a.scope, a.consents, Keep(a).consents);
    LowerIsShared(a.scope, Keep(a).consents, a.consents);
  }

  /** Consents that tie on top and have different types in force change the projection. */
  lemma {:induction false} ChoiceShows(p: Platform, a: Input, x: map<Purpose, Consent>, y: map<Purpose, Consent>)
    requires Unconflicting(a) && Project(p, a).Some?
    requires IsLatest(a.scope, a.consents, x) && IsLatest(a.scope, a.consents, y)
    requires InForce(a.scope, a.intents, a.disclosures, x) != InForce(a.scope, a.intents, a.disclosures, y)
    ensures !AnyOrder(p, a)
  {
    hide *;
    var b := OrderChoosing(a, x);
    var c := OrderChoosing(a, y);
    ProjectsAlike(p, a, b);
    ProjectsAlike(p, a, c);
    KeptInForce(a, b);
    KeptInForce(a, c);
    ConcludeInForce(p, a.scope, Keep(b));
    ConcludeInForce(p, a.scope, Keep(c));
    TwoOrdersDiffer(p, a, b, c);
  }

  lemma {:induction false} OrderChoosing(a: Input, x: map<Purpose, Consent>) returns (b: Input)
    requires Unconflicting(a) && IsLatest(a.scope, a.consents, x)
    ensures Permuted(a, b) && Latest(a.scope, Keep(b).consents).latest == x
  {
    hide *;
    var kept := Keep(a).consents;
    KeptAreTheRecords(a);
    SameIsMutual(kept, a.consents);
    LatestOfSame(a.scope, a.consents, kept, x);
    var s := OrderHolding(a.scope, kept, x);
    b := Reordered(a, s);
  }

  /** Of records without conflicting identifiers, the whole projection is the same in every order exactly when
      every order reports a conflict or none does, and the consent types in force do not depend on the choice
      between consents that tie on top. */
  lemma {:induction false} ProjectionOrderIff(p: Platform, a: Input)
    requires Unconflicting(a) && Project(p, a).Some?
    ensures (forall b :: Permuted(a, b) ==> Project(p, b) == Project(p, a)) <==> ReportIsStable(a) && OneInForce(a)
  {
    hide Unconflicting, Project, Permuted, ReportIsStable, IsLatest, InForce;
    assert AnyOrder(p, a) <==> forall b :: Permuted(a, b) ==> Project(p, b) == Project(p, a);
    hide AnyOrder;
    if !ReportIsStable(a) {
      LowerTiesShow(p, a);
    } else if !OneInForce(a) {
      var x, y :| IsLatest(a.scope, a.consents, x) && IsLatest(a.scope, a.consents, y)
                  && InForce(a.scope, a.intents, a.disclosures, x) != InForce(a.scope, a.intents, a.disclosures, y);
      ChoiceShows(p, a, x, y);
    } else {
      forall b | Permuted(a, b)
        ensures Project(p, b) == Project(p, a)
      {
        StableOrder(p, a, b);
      }
    }
  }

  /** Where every tie lies below a later consent and the receipts do not clash, the whole projection is the same in
      every order exactly when nothing ties. */
  lemma {:induction false} LowerTiesIff(p: Platform, a: Input)
    requires Unconflicting(a) && Project(p, a).Some?
    requires TiesLieLower(a.scope, a.consents) && !EffectsClash(a.scope, a.receipts)
    ensures (forall b :: Permuted(a, b) ==> Project(p, b) == Project(p, a)) <==> !HasTie(a.scope, a.consents)
  {
    ProjectionOrderIff(p, a);
    assert ReportIsStable(a) <==> !HasTie(a.scope, a.consents);
    hide Unconflicting, Project, Permuted, ReportIsStable, OneInForce, HasTie;
    if !HasTie(a.scope, a.consents) {
      UntiedInForce(a);
    }
  }

  // ---------------------------------------------------------------- two orders with different results

  /** Two consents that tie below a later one are reported when they come first and not when they come last. */
  lemma {:induction false} TiesChangeTheProjection(p: Platform, scope: Scope, a: Consent, b: Consent, c: Consent)
    requires Tie(scope, a, b) && Consenting(scope, c) && PurposeOf(c) == PurposeOf(a) && a.capturedAt < c.capturedAt
    requires a.id != b.id && b.id != c.id && a.id != c.id && GoodConsent(p, a) && GoodConsent(p, b) && GoodConsent(p, c)
    requires WithinBounds(p, Input(scope, [], [], [], [a, b, c]))
    ensures var first, last := Input(scope, [], [], [], [a, b, c]), Input(scope, [], [], [], [c, a, b]);
            && Permuted(first, last) && Project(p, first).Some? && Project(p, last).Some?
            && ConflictingDuplicate in Project(p, first).value.violations
            && ConflictingDuplicate !in Project(p, last).value.violations
  {
    var first, last := Input(scope, [], [], [], [a, b, c]), Input(scope, [], [], [], [c, a, b]);
    RotatedIsPermuted(scope, a, b, c);
    BoundsAlike(p, first, last);
    hide WithinBounds, Keep, Conclude, GoodConsent, Permuted, Taken, Project;
    ProjectsThree(p, scope, a, b, c);
    ProjectsThree(p, scope, c, a, b);
    OrderOfTiesMatters(scope, a, b, c);
    OnlyConsents(p, scope, [a, b, c]);
    OnlyConsents(p, scope, [c, a, b]);
  }

  lemma {:induction false} RotatedIsPermuted(scope: Scope, a: Consent, b: Consent, c: Consent)
    ensures Permuted(Input(scope, [], [], [], [a, b, c]), Input(scope, [], [], [], [c, a, b]))
  {
    assert multiset([a, b, c]) == multiset{a, b, c} == multiset([c, a, b]);
  }

  lemma {:induction false} ProjectsThree(p: Platform, scope: Scope, a: Consent, b: Consent, c: Consent)
    requires a.id != b.id && b.id != c.id && a.id != c.id && GoodConsent(p, a) && GoodConsent(p, b) && GoodConsent(p, c)
    requires WithinBounds(p, Input(scope, [], [], [], [a, b, c]))
    ensures Project(p, Input(scope, [], [], [], [a, b, c])) == Some(Conclude(p, scope, Kept([], [], [], [a, b, c], false)))
  {
    KeepsThree(scope, a, b, c);
    hide WithinBounds, Keep, Conclude, GoodConsent;
  }

  lemma {:induction false} KeepsThree(scope: Scope, a: Consent, b: Consent, c: Consent)
    requires a.id != b.id && b.id != c.id && a.id != c.id
    ensures Keep(Input(scope, [], [], [], [a, b, c])) == Kept([], [], [], [a, b, c], false)
  {
    var cs := [a, b, c];
    hide Listed;
    assert Firsts(cs, ConsentId, 0) == [];
    assert Firsts(cs, ConsentId, 1) == [a] by { assert !Listed([], ConsentId, a.id) by { NothingListed(ConsentId); } }
    assert Firsts(cs, ConsentId, 2) == [a, b] by { ListedSnoc([], ConsentId, a); NothingListed(ConsentId); assert [] + [a] == [a]; }
    assert Firsts(cs, ConsentId, 3) == [a, b, c] by {
      ListedSnoc([], ConsentId, a);
      ListedSnoc([a], ConsentId, b);
      NothingListed(ConsentId);
      assert [] + [a] == [a] && [a] + [b] == [a, b];
    }
    assert !Conflicting(cs, ConsentId);
  }

  lemma {:induction false} OnlyConsents(p: Platform, scope: Scope, cs: seq<Consent>)
    ensures ConflictingDuplicate in Conclude(p, scope, Kept([], [], [], cs, false)).violations <==> Taken(scope, cs, |cs|).clash
  {
    hide Conclude, Taken;
    ConcludeReports(p, scope, Kept([], [], [], cs, false));
  }

  const ANYTHING: Platform :=
    Platform(_ => true, _ => true, _ => true, _ => true, _ => 0, _ => 0, _ => 0, _ => 0,
             _ => None, _ => "", _ => None, _ => true, _ => true)

  function ConsentAt(id: string, capturedAt: int): Consent {
    Consent(id, "t", "s", "who", "marketing", "news", Granted, "v1", capturedAt, None, None, "")
  }

  /** Two whole inputs with the same records and different projections. */
  lemma {:induction false} OrderCanMatter()
    ensures exists a, b :: Permuted(a, b) && Project(ANYTHING, a).Some? && Project(ANYTHING, b).Some? && Project(ANYTHING, a) != Project(ANYTHING, b)
  {
    hide *;
    var scope := Scope("t", "s", 10, "who");
    var a, b, c := ConsentAt("a", 1), ConsentAt("b", 1), ConsentAt("c", 2);
    ThreeConsents();
    AnythingIsWithinBounds(scope, a, b, c);
    TiesChangeTheProjection(ANYTHING, scope, a, b, c);
    var first, last := Input(scope, [], [], [], [a, b, c]), Input(scope, [], [], [], [c, a, b]);
    assert Project(ANYTHING, first) != Project(ANYTHING, last);
  }

  lemma {:induction false} ThreeConsents()
    ensures var scope := Scope("t", "s", 10, "who");
            var a, b, c := ConsentAt("a", 1), ConsentAt("b", 1), ConsentAt("c", 2);
            && Tie(scope, a, b) && Consenting(scope, c) && PurposeOf(c) == PurposeOf(a) && a.capturedAt < c.capturedAt
            && a.id != b.id && b.id != c.id && a.id != c.id
            && GoodConsent(ANYTHING, a) && GoodConsent(ANYTHING, b) && GoodConsent(ANYTHING, c)
  {
    assert "a"[0] != "b"[0] && "b"[0] != "c"[0] && "a"[0] != "c"[0];
  }

  lemma {:induction false} AnythingIsWithinBounds(scope: Scope, a: Consent, b: Consent, c: Consent)
    ensures WithinBounds(ANYTHING, Input(scope, [], [], [], [a, b, c]))
  {
    NothingWeighs([a, b, c], ANYTHING.consentSize);
  }

  lemma {:induction false} NothingWeighs<T>(items: seq<T>, size: T -> nat)
    requires forall x :: size(x) == 0
    ensures Total(items, size, |items|) == 0
  {
    if items != [] {
      NothingWeighs(items[..|items| - 1], size);
      assert items == items[..|items| - 1] + [items[|items| - 1]];
      TotalOfPrefix(items[..|items| - 1], items[|items| - 1], size, |items| - 1);
    }
  }
}
