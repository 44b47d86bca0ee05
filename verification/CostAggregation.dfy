/** Filtered aggregation of ledger entries: usage buckets, estimate reconciliation, and the
    operations console's totals. */
module CostAggregation {
  import opened CostLedger
  import opened FixedPoint
  import opened Wrappers

  datatype Filter = Filter(sessionId: Option<Id>, providerId: Option<string>, service: Option<string>)

  predicate Matches(w: CostWrite, f: Filter) {
    && (f.sessionId.None? || w.sessionId == f.sessionId)
    && (f.providerId.None? || w.providerId == f.providerId.value)
    && (f.service.None? || w.service == f.service.value)
  }

  predicate DistinctEvents(entries: seq<CostWrite>) {
    forall i, j :: 0 <= i < j < |entries| ==> entries[i].eventId != entries[j].eventId
  }

  /** `entries` lists, in some order and once each, the events of a tenant that pass the filter. */
  ghost predicate Lists(entries: seq<CostWrite>, events: Events, f: Filter) {
    && (forall w :: w in entries <==> w.eventId in events && events[w.eventId] == w && Matches(w, f))
    && DistinctEvents(entries)
  }

  predicate KeyedById(events: Events) {
    forall e :: e in events ==> events[e].eventId == e
  }

  /** Lists the matching entries in whatever order the map yields them. */
  method ListEntries(events: Events, f: Filter) returns (entries: seq<CostWrite>)
    requires KeyedById(events)
    ensures Lists(entries, events, f)
  {
    var pending := events.Keys;
    entries := [];
    while pending != {}
      invariant pending <= events.Keys
      invariant forall w :: w in entries <==>
                              w.eventId in events && w.eventId !in pending && events[w.eventId] == w && Matches(w, f)
      invariant DistinctEvents(entries)
      decreases |pending|
    {
      var e :| e in pending;
      pending := pending - {e};
      if Matches(events[e], f) {
        entries := entries + [events[e]];
      }
    }
  }

  /** A reconciling entry that passes a filter takes its estimate along. */
  lemma EstimateSurvivesFilter(events: Events, f: Filter, e: Id)
    requires TargetsStored(events) && e in events && events[e].reconciles.Some? && Matches(events[e], f)
    ensures events[e].reconciles.value in events
    ensures Matches(events[events[e].reconciles.value], f)
  {
    assert TargetAllowed(events, events[e]);
  }

  // ---------------------------------------------------------------- totals over entries

  datatype Field = CountField | QuantityField | AmountField

  function ValueIn(field: Field, w: CostWrite): int {
    match field
    case CountField => 1
    case QuantityField => w.quantity
    case AmountField => w.amount
  }

  datatype BucketKey = BucketKey(source: Source, providerId: string, service: string, unit: Unit)

  function BucketKeyOf(w: CostWrite): BucketKey {
    BucketKey(w.source, w.providerId, w.service, w.unit)
  }

  /** Which entries a total ranges over. */
  datatype Scope =
    | Everything
    | OfSource(source: Source)
    | OfKey(key: BucketKey)
    | LinkedTo(estimate: Id, linkSource: Source)

  predicate Covers(scope: Scope, w: CostWrite) {
    match scope
    case Everything => true
    case OfSource(source) => w.source == source
    case OfKey(key) => BucketKeyOf(w) == key
    case LinkedTo(estimate, source) => w.reconciles == Some(estimate) && w.source == source
  }

  function Weight(field: Field, scope: Scope, w: CostWrite): int {
    if Covers(scope, w) then ValueIn(field, w) else 0
  }

  function Total(field: Field, scope: Scope, entries: seq<CostWrite>): int {
    if entries == [] then 0
    else Total(field, scope, entries[..|entries| - 1]) + Weight(field, scope, entries[|entries| - 1])
  }

  lemma TotalSnoc(field: Field, scope: Scope, entries: seq<CostWrite>, w: CostWrite)
    ensures Total(field, scope, entries + [w]) == Total(field, scope, entries) + Weight(field, scope, w)
  {
    assert (entries + [w])[..|entries|] == entries;
  }

  lemma {:induction false} TotalWithout(field: Field, scope: Scope, entries: seq<CostWrite>, k: nat)
    requires k < |entries|
    ensures Total(field, scope, entries)
            == Total(field, scope, entries[..k] + entries[k + 1..]) + Weight(field, scope, entries[k])
  {
    var n := |entries| - 1;
    var init, last := entries[..n], entries[n];
    assert entries == init + [last];
    TotalSnoc(field, scope, init, last);
    hide Total, Weight;
    if k == n {
      assert entries[..k] + entries[k + 1..] == init;
    } else {
      TotalWithout(field, scope, init, k);
      var rest := init[..k] + init[k + 1..];
      assert entries[..k] + entries[k + 1..] == rest + [last];
      TotalSnoc(field, scope, rest, last);
    }
  }

  /** Totals do not depend on the order of the entries. */
  lemma {:induction false} TotalIgnoresOrder(field: Field, scope: Scope, a: seq<CostWrite>, b: seq<CostWrite>)
    requires multiset(a) == multiset(b)
    ensures Total(field, scope, a) == Total(field, scope, b)
    decreases |a|
  {
    assert |multiset(a)| == |a| && |multiset(b)| == |b|;
    if a != [] {
      hide Total;
      var n := |a| - 1;
      assert a[n] in multiset(b);
      var k :| 0 <= k < |b| && b[k] == a[n];
      MultisetWithout(a, n);
      MultisetWithout(b, k);
      var short, rest := a[..n] + a[n + 1..], b[..k] + b[k + 1..];
      assert multiset(short) == multiset(a) - multiset{a[n]} == multiset(rest);
      TotalIgnoresOrder(field, scope, short, rest);
      TotalWithout(field, scope, a, n);
      TotalWithout(field, scope, b, k);
    } else {
      assert b == [];
    }
  }

  lemma MultisetWithout(s: seq<CostWrite>, k: nat)
    requires k < |s|
    ensures multiset(s[..k] + s[k + 1..]) == multiset(s) - multiset{s[k]}
  {
    assert s == s[..k] + [s[k]] + s[k + 1..];
  }

  // ---------------------------------------------------------------- buckets

  datatype Bucket = Bucket(key: BucketKey, count: int, quantity: int, amount: int)

  function BucketValue(field: Field, b: Bucket): int {
    match field
    case CountField => b.count
    case QuantityField => b.quantity
    case AmountField => b.amount
  }

  /** The bucket of one key: what the entries with that key add up to. */
  function BucketFor(key: BucketKey, entries: seq<CostWrite>): Bucket {
    Bucket(key, Total(CountField, OfKey(key), entries), Total(QuantityField, OfKey(key), entries),
           Total(AmountField, OfKey(key), entries))
  }

  predicate DistinctKeys(buckets: seq<Bucket>) {
    forall i, j :: 0 <= i < j < |buckets| ==> buckets[i].key != buckets[j].key
  }

  predicate HasKey(buckets: seq<Bucket>, key: BucketKey) {
    exists i :: 0 <= i < |buckets| && buckets[i].key == key
  }

  predicate SomeEntryHasKey(entries: seq<CostWrite>, key: BucketKey) {
    exists i :: 0 <= i < |entries| && BucketKeyOf(entries[i]) == key
  }

  /** One bucket per key that occurs, holding that key's totals. */
  ghost predicate IsBucketing(buckets: seq<Bucket>, entries: seq<CostWrite>) {
    && DistinctKeys(buckets)
    && (forall i :: 0 <= i < |buckets| ==> buckets[i] == BucketFor(buckets[i].key, entries))
    && (forall key :: HasKey(buckets, key) <==> SomeEntryHasKey(entries, key))
  }

  function FindBucket(buckets: seq<Bucket>, key: BucketKey): (r: Option<nat>)
    ensures r.Some? ==> r.value < |buckets| && buckets[r.value].key == key
    ensures r.None? ==> !HasKey(buckets, key)
  {
    if buckets == [] then None
    else if buckets[|buckets| - 1].key == key then Some(|buckets| - 1)
    else FindBucket(buckets[..|buckets| - 1], key)
  }

  lemma BucketForSnoc(key: BucketKey, entries: seq<CostWrite>, w: CostWrite)
    ensures BucketKeyOf(w) != key ==> BucketFor(key, entries + [w]) == BucketFor(key, entries)
    ensures BucketKeyOf(w) == key ==>
              var b := BucketFor(key, entries);
              BucketFor(key, entries + [w]) == Bucket(key, b.count + 1, b.quantity + w.quantity, b.amount + w.amount)
  {
    TotalSnoc(CountField, OfKey(key), entries, w);
    TotalSnoc(QuantityField, OfKey(key), entries, w);
    TotalSnoc(AmountField, OfKey(key), entries, w);
  }

  lemma {:induction false} AbsentKeyTotalsZero(field: Field, key: BucketKey, entries: seq<CostWrite>)
    requires !SomeEntryHasKey(entries, key)
    ensures Total(field, OfKey(key), entries) == 0
  {
    if entries != [] {
      var n := |entries| - 1;
      assert BucketKeyOf(entries[n]) != key;
      assert forall i :: 0 <= i < n ==> entries[..n][i] == entries[i];
      AbsentKeyTotalsZero(field, key, entries[..n]);
    }
  }

  lemma KeysAfter(entries: seq<CostWrite>, w: CostWrite, key: BucketKey)
    ensures SomeEntryHasKey(entries + [w], key) <==> SomeEntryHasKey(entries, key) || BucketKeyOf(w) == key
  {
    var all := entries + [w];
    if SomeEntryHasKey(entries, key) {
      var i :| 0 <= i < |entries| && BucketKeyOf(entries[i]) == key;
      assert all[i] == entries[i];
    }
    assert all[|entries|] == w;
  }

  /** Adding to the bucket already there. */
  lemma BumpKeepsBucketing(buckets: seq<Bucket>, entries: seq<CostWrite>, w: CostWrite, k: nat)
    requires IsBucketing(buckets, entries) && k < |buckets| && buckets[k].key == BucketKeyOf(w)
    ensures var b := buckets[k];
            IsBucketing(buckets[k := b.(count := b.count + 1, quantity := b.quantity + w.quantity,
                                        amount := b.amount + w.amount)], entries + [w])
  {
    hide Total, BucketFor;
    var b := buckets[k];
    var after := buckets[k := b.(count := b.count + 1, quantity := b.quantity + w.quantity, amount := b.amount + w.amount)];
    forall i | 0 <= i < |after|
      ensures after[i] == BucketFor(after[i].key, entries + [w])
    {
      BucketForSnoc(buckets[i].key, entries, w);
    }
    forall key
      ensures HasKey(after, key) <==> SomeEntryHasKey(entries + [w], key)
    {
      KeysAfter(entries, w, key);
      if HasKey(buckets, key) {
        var i :| 0 <= i < |buckets| && buckets[i].key == key;
        assert after[i].key == key;
      }
      if HasKey(after, key) {
        var i :| 0 <= i < |after| && after[i].key == key;
        assert buckets[i].key == key;
      }
    }
  }

  /** Opening a bucket for a key not seen before. */
  lemma OpenKeepsBucketing(buckets: seq<Bucket>, entries: seq<CostWrite>, w: CostWrite)
    requires IsBucketing(buckets, entries) && !HasKey(buckets, BucketKeyOf(w))
    ensures IsBucketing(buckets + [Bucket(BucketKeyOf(w), 1, w.quantity, w.amount)], entries + [w])
  {
    var k := BucketKeyOf(w);
    AbsentKeyTotalsZero(CountField, k, entries);
    AbsentKeyTotalsZero(QuantityField, k, entries);
    AbsentKeyTotalsZero(AmountField, k, entries);
    assert BucketFor(k, entries) == Bucket(k, 0, 0, 0);
    hide Total, BucketFor;
    var after := buckets + [Bucket(k, 1, w.quantity, w.amount)];
    forall i | 0 <= i < |after|
      ensures after[i] == BucketFor(after[i].key, entries + [w])
    {
      BucketForSnoc(after[i].key, entries, w);
      if i < |buckets| {
        assert after[i] == buckets[i];
      }
    }
    forall key
      ensures HasKey(after, key) <==> SomeEntryHasKey(entries + [w], key)
    {
      KeysAfter(entries, w, key);
      if HasKey(buckets, key) {
        var i :| 0 <= i < |buckets| && buckets[i].key == key;
        assert after[i].key == key;
      }
      assert after[|buckets|].key == k;
    }
  }

  method AggregateBuckets(entries: seq<CostWrite>) returns (totals: seq<Bucket>)
    ensures IsBucketing(totals, entries)
  {
    totals := [];
    for i := 0 to |entries|
      invariant IsBucketing(totals, entries[..i])
    {
      var w := entries[i];
      var found := FindBucket(totals, BucketKeyOf(w));
      assert entries[..i + 1] == entries[..i] + [w];
      if found.None? {
        OpenKeepsBucketing(totals, entries[..i], w);
        totals := totals + [Bucket(BucketKeyOf(w), 1, w.quantity, w.amount)];
      } else {
        BumpKeepsBucketing(totals, entries[..i], w, found.value);
        var b := totals[found.value];
        totals := totals[found.value := b.(count := b.count + 1, quantity := b.quantity + w.quantity,
                                           amount := b.amount + w.amount)];
      }
    }
    assert entries[..|entries|] == entries;
  }

  /** The same entries in any other order give the same buckets. */
  lemma BucketsIgnoreOrder(a: seq<CostWrite>, b: seq<CostWrite>, x: seq<Bucket>, y: seq<Bucket>)
    requires multiset(a) == multiset(b) && IsBucketing(x, a) && IsBucketing(y, b)
    ensures forall bucket :: bucket in x <==> bucket in y
  {
    BucketsIncluded(a, b, x, y);
    BucketsIncluded(b, a, y, x);
  }

  lemma BucketsIncluded(a: seq<CostWrite>, b: seq<CostWrite>, x: seq<Bucket>, y: seq<Bucket>)
    requires multiset(a) == multiset(b) && IsBucketing(x, a) && IsBucketing(y, b)
    ensures forall bucket :: bucket in x ==> bucket in y
  {
    hide Total;
    forall i | 0 <= i < |x|
      ensures x[i] in y
    {
      var key := x[i].key;
      assert HasKey(x, key);
      var m :| 0 <= m < |a| && BucketKeyOf(a[m]) == key;
      assert a[m] in multiset(b);
      assert SomeEntryHasKey(b, key);
      var j :| 0 <= j < |y| && y[j].key == key;
      TotalIgnoresOrder(CountField, OfKey(key), a, b);
      TotalIgnoresOrder(QuantityField, OfKey(key), a, b);
      TotalIgnoresOrder(AmountField, OfKey(key), a, b);
    }
  }

  // ---------------------------------------------------------------- conservation

  function SourceScope(source: Option<Source>): Scope {
    if source.None? then Everything else OfSource(source.value)
  }

  predicate KeyIn(source: Option<Source>, key: BucketKey) {
    source.None? || key.source == source.value
  }

  /** What the buckets of one source (or of all sources) add up to. */
  function BucketSum(field: Field, source: Option<Source>, buckets: seq<Bucket>): int {
    if buckets == [] then 0
    else
      BucketSum(field, source, buckets[..|buckets| - 1])
      + if KeyIn(source, buckets[|buckets| - 1].key) then BucketValue(field, buckets[|buckets| - 1]) else 0
  }

  function BucketsFor(keys: seq<BucketKey>, entries: seq<CostWrite>): (r: seq<Bucket>)
    ensures |r| == |keys| && forall i :: 0 <= i < |keys| ==> r[i] == BucketFor(keys[i], entries)
  {
    seq(|keys|, i requires 0 <= i < |keys| => BucketFor(keys[i], entries))
  }

  /** One more entry adds its value to the bucket sum exactly once, if its key is among the keys. */
  lemma {:induction false} OneEntryCountsOnce(field: Field, source: Option<Source>, keys: seq<BucketKey>,
                                              entries: seq<CostWrite>, w: CostWrite)
    requires forall i, j :: 0 <= i < j < |keys| ==> keys[i] != keys[j]
    ensures BucketSum(field, source, BucketsFor(keys, entries + [w]))
            == BucketSum(field, source, BucketsFor(keys, entries))
               + if BucketKeyOf(w) in keys && KeyIn(source, BucketKeyOf(w)) then ValueIn(field, w) else 0
  {
    if keys != [] {
      var n := |keys| - 1;
      var init, last := keys[..n], keys[n];
      OneEntryCountsOnce(field, source, init, entries, w);
      hide Total, BucketFor;
      assert BucketsFor(keys, entries)[..n] == BucketsFor(init, entries);
      assert BucketsFor(keys, entries + [w])[..n] == BucketsFor(init, entries + [w]);
      BucketForSnoc(last, entries, w);
      assert keys == init + [last];
      assert last !in init;
    }
  }

  lemma {:induction false} BucketSumIsTotal(field: Field, source: Option<Source>, keys: seq<BucketKey>, entries: seq<CostWrite>)
    requires forall i, j :: 0 <= i < j < |keys| ==> keys[i] != keys[j]
    requires forall i :: 0 <= i < |entries| ==> BucketKeyOf(entries[i]) in keys
    ensures BucketSum(field, source, BucketsFor(keys, entries)) == Total(field, SourceScope(source), entries)
    decreases |entries|
  {
    hide BucketSum, BucketFor, BucketsFor, Total, BucketKeyOf, Weight, SourceScope;
    if entries == [] {
      NoEntriesSumToZero(field, source, keys);
    } else {
      var n := |entries| - 1;
      var init, last := entries[..n], entries[n];
      assert entries == init + [last];
      assert forall i :: 0 <= i < n ==> init[i] == entries[i];
      BucketSumIsTotal(field, source, keys, init);
      OneEntryCountsOnce(field, source, keys, init, last);
      TotalSnoc(field, SourceScope(source), init, last);
      SourceWeight(field, source, last);
    }
  }

  lemma SourceWeight(field: Field, source: Option<Source>, w: CostWrite)
    ensures Weight(field, SourceScope(source), w) == if KeyIn(source, BucketKeyOf(w)) then ValueIn(field, w) else 0
  {
  }

  lemma {:induction false} NoEntriesSumToZero(field: Field, source: Option<Source>, keys: seq<BucketKey>)
    ensures BucketSum(field, source, BucketsFor(keys, [])) == 0 == Total(field, SourceScope(source), [])
  {
    if keys != [] {
      assert BucketsFor(keys, [])[..|keys| - 1] == BucketsFor(keys[..|keys| - 1], []);
      NoEntriesSumToZero(field, source, keys[..|keys| - 1]);
    }
  }

  /** Nothing is lost or counted twice: bucket counts, quantities and amounts, per source and overall,
      add up to the entries' own. */
  lemma BucketsConserveTotals(field: Field, source: Option<Source>, buckets: seq<Bucket>, entries: seq<CostWrite>)
    requires IsBucketing(buckets, entries)
    ensures BucketSum(field, source, buckets) == Total(field, SourceScope(source), entries)
  {
    hide Total, BucketFor, BucketSum;
    var keys := seq(|buckets|, i requires 0 <= i < |buckets| => buckets[i].key);
    forall i | 0 <= i < |entries|
      ensures BucketKeyOf(entries[i]) in keys
    {
      assert SomeEntryHasKey(entries, BucketKeyOf(entries[i]));
      var j :| 0 <= j < |buckets| && buckets[j].key == BucketKeyOf(entries[i]);
      assert keys[j] == buckets[j].key;
    }
    BucketSumIsTotal(field, source, keys, entries);
    assert buckets == BucketsFor(keys, entries);
  }

  // ---------------------------------------------------------------- reconciliation

  /** What has been linked to one estimate so far. */
  datatype Link = Link(measured: int, providerReported: int, hasMeasured: bool, hasProviderReported: bool)

  function LinkFor(estimate: Id, entries: seq<CostWrite>): Link {
    Link(Total(AmountField, LinkedTo(estimate, Measured), entries),
         Total(AmountField, LinkedTo(estimate, ProviderReported), entries),
         Total(CountField, LinkedTo(estimate, Measured), entries) > 0,
         Total(CountField, LinkedTo(estimate, ProviderReported), entries) > 0)
  }

  function AddToLink(link: Link, w: CostWrite): Link {
    match w.source
    case Estimated => link
    case Measured => link.(measured := link.measured + w.amount, hasMeasured := true)
    case ProviderReported => link.(providerReported := link.providerReported + w.amount, hasProviderReported := true)
  }

  lemma {:induction false} TotalIsNonNegative(field: Field, scope: Scope, entries: seq<CostWrite>)
    ensures Total(field, scope, entries) >= 0
  {
    if entries != [] {
      TotalIsNonNegative(field, scope, entries[..|entries| - 1]);
    }
  }

  lemma LinkForSnoc(estimate: Id, entries: seq<CostWrite>, w: CostWrite)
    ensures LinkFor(estimate, entries + [w])
            == if w.reconciles == Some(estimate) then AddToLink(LinkFor(estimate, entries), w) else LinkFor(estimate, entries)
  {
    hide Total;
    TotalSnoc(AmountField, LinkedTo(estimate, Measured), entries, w);
    TotalSnoc(AmountField, LinkedTo(estimate, ProviderReported), entries, w);
    TotalSnoc(CountField, LinkedTo(estimate, Measured), entries, w);
    TotalSnoc(CountField, LinkedTo(estimate, ProviderReported), entries, w);
    TotalIsNonNegative(CountField, LinkedTo(estimate, Measured), entries);
    TotalIsNonNegative(CountField, LinkedTo(estimate, ProviderReported), entries);
  }

  datatype Reconciled = Reconciled(
    estimated: int,
    measured: Option<int>,
    providerReported: Option<int>,
    measuredVariance: Option<int>,
    providerReportedVariance: Option<int>)

  function Reconcile(estimate: CostWrite, link: Link): Reconciled {
    Reconciled(estimate.amount,
               if link.hasMeasured then Some(link.measured) else None,
               if link.hasProviderReported then Some(link.providerReported) else None,
               if link.hasMeasured then Some(link.measured - estimate.amount) else None,
               if link.hasProviderReported then Some(link.providerReported - estimate.amount) else None)
  }

  predicate IsLinkTarget(entries: seq<CostWrite>, id: Id) {
    exists i :: 0 <= i < |entries| && entries[i].reconciles == Some(id)
  }

  ghost predicate LinksAreRight(linked: map<Id, Link>, entries: seq<CostWrite>) {
    && (forall id :: id in linked <==> IsLinkTarget(entries, id))
    && (forall id :: id in linked ==> linked[id] == LinkFor(id, entries))
  }

  lemma {:induction false} UntargetedLinkIsEmpty(id: Id, entries: seq<CostWrite>)
    requires !IsLinkTarget(entries, id)
    ensures LinkFor(id, entries) == Link(0, 0, false, false)
  {
    if entries != [] {
      var n := |entries| - 1;
      assert entries[n].reconciles != Some(id);
      assert forall i :: 0 <= i < n ==> entries[..n][i] == entries[i];
      UntargetedLinkIsEmpty(id, entries[..n]);
      assert entries == entries[..n] + [entries[n]];
      hide Total;
      LinkForSnoc(id, entries[..n], entries[n]);
    }
  }

  lemma LinkStep(linked: map<Id, Link>, entries: seq<CostWrite>, w: CostWrite)
    requires LinksAreRight(linked, entries)
    ensures w.reconciles.None? ==> LinksAreRight(linked, entries + [w])
    ensures w.reconciles.Some? ==>
              var id := w.reconciles.value;
              var current := if id in linked then linked[id] else Link(0, 0, false, false);
              LinksAreRight(linked[id := AddToLink(current, w)], entries + [w])
  {
    hide Total, LinkFor;
    var all := entries + [w];
    forall id
      ensures IsLinkTarget(all, id) <==> IsLinkTarget(entries, id) || w.reconciles == Some(id)
      ensures LinkFor(id, all) == if w.reconciles == Some(id) then AddToLink(LinkFor(id, entries), w) else LinkFor(id, entries)
    {
      if IsLinkTarget(entries, id) {
        var i :| 0 <= i < |entries| && entries[i].reconciles == Some(id);
        assert all[i] == entries[i];
      }
      assert all[|entries|] == w;
      LinkForSnoc(id, entries, w);
    }
    if w.reconciles.Some? && w.reconciles.value !in linked {
      UntargetedLinkIsEmpty(w.reconciles.value, entries);
    }
  }

  /** The estimates among the entries, by identifier. */
  ghost predicate EstimatesAreRight(estimates: map<Id, CostWrite>, entries: seq<CostWrite>) {
    && (forall id :: id in estimates ==> estimates[id] in entries && estimates[id].eventId == id && estimates[id].source == Estimated)
    && (forall i :: 0 <= i < |entries| && entries[i].source == Estimated ==> entries[i].eventId in estimates)
  }

  lemma EstimateStep(estimates: map<Id, CostWrite>, entries: seq<CostWrite>, w: CostWrite)
    requires EstimatesAreRight(estimates, entries)
    ensures EstimatesAreRight(if w.source == Estimated then estimates[w.eventId := w] else estimates, entries + [w])
  {
  }

  predicate HasEstimate(entries: seq<CostWrite>, id: Id) {
    exists i :: 0 <= i < |entries| && entries[i].source == Estimated && entries[i].eventId == id
  }

  /** One row per estimate that some entry reconciles, comparing it with what was linked to it. */
  ghost predicate IsReconciliation(r: map<Id, Reconciled>, entries: seq<CostWrite>) {
    && (forall id :: id in r <==> IsLinkTarget(entries, id) && HasEstimate(entries, id))
    && (forall i :: 0 <= i < |entries| && entries[i].eventId in r ==>
                      r[entries[i].eventId] == Reconcile(entries[i], LinkFor(entries[i].eventId, entries)))
  }

  lemma JoinIsReconciliation(estimates: map<Id, CostWrite>, linked: map<Id, Link>, entries: seq<CostWrite>)
    requires DistinctEvents(entries) && EstimatesAreRight(estimates, entries) && LinksAreRight(linked, entries)
    ensures IsReconciliation(map id | id in linked && id in estimates :: Reconcile(estimates[id], linked[id]), entries)
  {
    hide LinkFor, Reconcile;
    forall id
      ensures id in estimates <==> HasEstimate(entries, id)
    {
      if id in estimates {
        var i :| 0 <= i < |entries| && entries[i] == estimates[id];
      }
    }
    forall i | 0 <= i < |entries| && entries[i].eventId in estimates
      ensures estimates[entries[i].eventId] == entries[i]
    {
      var j :| 0 <= j < |entries| && entries[j] == estimates[entries[i].eventId];
      assert i == j;
    }
  }

  method AggregateReconciliations(entries: seq<CostWrite>) returns (r: map<Id, Reconciled>)
    requires DistinctEvents(entries)
    ensures IsReconciliation(r, entries)
  {
    hide LinkFor, AddToLink, Reconcile, LinksAreRight, EstimatesAreRight, IsReconciliation, DistinctEvents;
    var estimates: map<Id, CostWrite> := map[];
    var linked: map<Id, Link> := map[];
    assert EstimatesAreRight(estimates, []) && LinksAreRight(linked, []) by { NothingYet(); }
    assert entries[..0] == [];
    for i := 0 to |entries|
      invariant EstimatesAreRight(estimates, entries[..i])
      invariant LinksAreRight(linked, entries[..i])
    {
      var w := entries[i];
      assert entries[..i + 1] == entries[..i] + [w];
      LinkStep(linked, entries[..i], w);
      EstimateStep(estimates, entries[..i], w);
      if w.source == Estimated {
        estimates := estimates[w.eventId := w];
      }
      if w.reconciles.Some? {
        var id := w.reconciles.value;
        var current := if id in linked then linked[id] else Link(0, 0, false, false);
        linked := linked[id := AddToLink(current, w)];
      }
    }
    assert entries[..|entries|] == entries;
    JoinIsReconciliation(estimates, linked, entries);
    r := map id | id in linked && id in estimates :: Reconcile(estimates[id], linked[id]);
  }

  lemma NothingYet()
    ensures EstimatesAreRight(map[], []) && LinksAreRight(map[], [])
  {
  }

  /** On the entries of any consistent tenant, under any filter, every link target is a listed
      estimate: dropping links without an estimate drops nothing. */
  lemma NoLinkIsDropped(events: Events, f: Filter, entries: seq<CostWrite>, id: Id)
    requires TargetsStored(events) && KeyedById(events) && Lists(entries, events, f)
    requires IsLinkTarget(entries, id)
    ensures HasEstimate(entries, id) && id in events && events[id] in entries
  {
    var i :| 0 <= i < |entries| && entries[i].reconciles == Some(id);
    assert entries[i] in entries;
    EstimateSurvivesFilter(events, f, entries[i].eventId);
    assert events[id].source == Estimated by {
      assert TargetAllowed(events, events[entries[i].eventId]);
    }
    assert events[id] in entries;
  }

  /** The whole aggregation of one tenant of a valid ledger under a filter: the reconciled estimates are
      exactly the estimates some listed event reconciles, each variance is the linked total minus the
      estimate, and the buckets conserve the listed totals. */
  method Aggregate(store: LedgerStore, tenant: Id, f: Filter)
      returns (entries: seq<CostWrite>, buckets: seq<Bucket>, reconciliations: map<Id, Reconciled>)
    requires store.Valid()
    ensures var events := EventsOf(store.Contents(), tenant);
            && Lists(entries, events, f)
            && IsBucketing(buckets, entries)
            && (forall id :: id in reconciliations <==> IsLinkTarget(entries, id))
            && (forall id :: id in reconciliations ==>
                               id in events && reconciliations[id] == Reconcile(events[id], LinkFor(id, entries)))
  {
    var events := if tenant in store.records then store.records[tenant].entries else map[];
    assert TenantConsistent(store.Contents(), tenant);
    entries := ListEntries(events, f);
    buckets := AggregateBuckets(entries);
    reconciliations := AggregateReconciliations(entries);
    forall id | IsLinkTarget(entries, id)
      ensures id in reconciliations && id in events
      ensures reconciliations[id] == Reconcile(events[id], LinkFor(id, entries))
    {
      NoLinkIsDropped(events, f, entries, id);
      var i :| 0 <= i < |entries| && entries[i] == events[id];
      assert entries[i].eventId == id;
    }
  }

  /** Reconciliation of one estimate does not depend on the order of the entries. */
  lemma LinkIgnoresOrder(id: Id, a: seq<CostWrite>, b: seq<CostWrite>)
    requires multiset(a) == multiset(b)
    ensures LinkFor(id, a) == LinkFor(id, b)
  {
    hide Total;
    TotalIgnoresOrder(AmountField, LinkedTo(id, Measured), a, b);
    TotalIgnoresOrder(AmountField, LinkedTo(id, ProviderReported), a, b);
    TotalIgnoresOrder(CountField, LinkedTo(id, Measured), a, b);
    TotalIgnoresOrder(CountField, LinkedTo(id, ProviderReported), a, b);
  }

  // ---------------------------------------------------------------- the operations console

  const MAX_PAGE_ITEMS := 100

  /** The console's decimals have at most twelve whole digits. */
  predicate Showable(scaled: int) {
    scaled < Pow10(CONSOLE_INTEGER_DIGITS + CONSOLE_SCALE)
  }

  ghost predicate BucketsShowable(buckets: seq<Bucket>) {
    forall i :: 0 <= i < |buckets| ==> Showable(buckets[i].quantity) && Showable(buckets[i].amount)
  }

  ghost predicate TotalsShowable(buckets: seq<Bucket>) {
    forall source :: Showable(BucketSum(AmountField, Some(source), buckets))
  }

  predicate NonNegative(buckets: seq<Bucket>) {
    forall i :: 0 <= i < |buckets| ==> buckets[i].quantity >= 0 && buckets[i].amount >= 0
  }

  /** The text shows the total. */
  predicate Shows(text: string, total: int) {
    DecimalToScaled(text).Some? && DecimalToScaled(text).value == total
  }

  /** The console's totals per source, accumulated from the decimal text of every bucket and written as text;
      `None` is its refusal of too many rows, of a quantity or amount its pattern does not cover, and of a total
      with too many digits. */
  method ReadCostTotals(buckets: seq<Bucket>, reconciliations: nat) returns (r: Option<map<Source, string>>)
    requires NonNegative(buckets)
    ensures r.Some? <==> |buckets| <= MAX_PAGE_ITEMS && reconciliations <= MAX_PAGE_ITEMS && BucketsShowable(buckets) && TotalsShowable(buckets)
    ensures r.Some? ==> forall source :: source in r.value && Shows(r.value[source], BucketSum(AmountField, Some(source), buckets))
  {
    hide Pow10, NormalizeFixedEight, DecimalToScaled, FormatScaled, FormatFixedEight;
    if |buckets| > MAX_PAGE_ITEMS || reconciliations > MAX_PAGE_ITEMS {
      return None;
    }
    var sums := SumBuckets(buckets);
    if sums.None? {
      return None;
    }
    var totals := sums.value;
    ConsoleFormatRoundTrip(totals[Estimated]);
    ConsoleFormatRoundTrip(totals[Measured]);
    ConsoleFormatRoundTrip(totals[ProviderReported]);
    var estimated, measured := FormatFixedEight(totals[Estimated]), FormatFixedEight(totals[Measured]);
    var reported := FormatFixedEight(totals[ProviderReported]);
    if estimated.None? || measured.None? || reported.None? {
      return None;
    }
    r := Some(map[Estimated := estimated.value, Measured := measured.value, ProviderReported := reported.value]);
    forall source: Source
      ensures source in r.value && Shows(r.value[source], BucketSum(AmountField, Some(source), buckets))
    {
      assert source == Estimated || source == Measured || source == ProviderReported;
    }
  }

  /** The sum of each source's amounts, read back from their text. */
  method SumBuckets(buckets: seq<Bucket>) returns (r: Option<map<Source, nat>>)
    requires NonNegative(buckets)
    ensures r.Some? <==> BucketsShowable(buckets)
    ensures r.Some? ==> forall source :: source in r.value && r.value[source] == BucketSum(AmountField, Some(source), buckets)
  {
    hide Pow10, NormalizeFixedEight, DecimalToScaled, FormatScaled;
    var totals: map<Source, nat> := map[Estimated := 0, Measured := 0, ProviderReported := 0];
    forall source: Source
      ensures source in totals && totals[source] == 0
    {
      assert source == Estimated || source == Measured || source == ProviderReported;
    }
    for i := 0 to |buckets|
      invariant forall k :: 0 <= k < i ==> Showable(buckets[k].quantity) && Showable(buckets[k].amount)
      invariant forall source :: source in totals && totals[source] == BucketSum(AmountField, Some(source), buckets[..i])
    {
      var b := buckets[i];
      ConsoleReadsTheLedger(b.amount);
      ConsoleReadsTheLedger(b.quantity);
      var quantity := NormalizeFixedEight(FormatScaled(b.quantity, CONSOLE_SCALE));
      var fixed := NormalizeFixedEight(FormatScaled(b.amount, CONSOLE_SCALE));
      if quantity.None? || fixed.None? {
        return None;
      }
      var scaled := DecimalToScaled(fixed.value);
      assert buckets[..i + 1][..i] == buckets[..i];
      totals := totals[b.key.source := totals[b.key.source] + scaled.value];
    }
    assert buckets[..|buckets|] == buckets;
    r := Some(totals);
  }

  lemma {:induction false} BucketsAreNonNegative(buckets: seq<Bucket>, entries: seq<CostWrite>)
    requires IsBucketing(buckets, entries)
    ensures NonNegative(buckets)
  {
    hide Total;
    forall i | 0 <= i < |buckets|
      ensures buckets[i].quantity >= 0 && buckets[i].amount >= 0
    {
      TotalIsNonNegative(QuantityField, OfKey(buckets[i].key), entries);
      TotalIsNonNegative(AmountField, OfKey(buckets[i].key), entries);
    }
  }

  /** From the ledger to the console: what is shown per source is the exact total of the ledger's listed events of
      that source. */
  method ReadCosts(store: LedgerStore, tenant: Id, f: Filter) returns (entries: seq<CostWrite>, r: Option<map<Source, string>>)
    requires store.Valid()
    ensures Lists(entries, EventsOf(store.Contents(), tenant), f)
    ensures r.Some? ==> forall source :: source in r.value && Shows(r.value[source], Total(AmountField, OfSource(source), entries))
    ensures r.None? ==>
              || (exists buckets :: IsBucketing(buckets, entries) && (|buckets| > MAX_PAGE_ITEMS || !BucketsShowable(buckets)))
              || (exists source :: !Showable(Total(AmountField, OfSource(source), entries)))
              || (exists estimates: set<Id> :: |estimates| > MAX_PAGE_ITEMS && forall id :: id in estimates <==> IsLinkTarget(entries, id))
  {
    var buckets: seq<Bucket>;
    var reconciliations: map<Id, Reconciled>;
    entries, buckets, reconciliations := Aggregate(store, tenant, f);
    BucketsAreNonNegative(buckets, entries);
    r := ReadCostTotals(buckets, |reconciliations|);
    hide Showable, Shows, Total, BucketSum, BucketFor, IsLinkTarget, IsBucketing, BucketsShowable;
    forall source: Source
      ensures BucketSum(AmountField, Some(source), buckets) == Total(AmountField, OfSource(source), entries)
    {
      BucketsConserveTotals(AmountField, Some(source), buckets, entries);
    }
    assert |reconciliations.Keys| == |reconciliations|;
  }
}
