/** The bounded context composer: collecting candidates, packing them under a byte budget, and repairing;
    and the strict reader that checks every composition again. */
module ContextComposer {

  import opened ContextEntries
  import opened Encoding
  import opened TextOrder
  import opened Wrappers

  // ---------------------------------------------------------------- sources

  datatype Stamp = Stamp(value: string, ms: int)

  datatype FactKind =
    | ExplicitUserStatement | ToolVerified | KnowledgeSource | DerivedHypothesis | OperatorInput | SystemObservation

  datatype Fact = Fact(kind: FactKind, evidenceId: string, summary: string, confidence: Confidence,
                       observedAt: string, expiresAt: Option<string>)

  datatype State = State(stateVersion: nat, rolePackId: string, rolePackVersion: string, summary: string, updatedAt: string,
                         facts: seq<Fact>)

  datatype Knowledge = Knowledge(id: string, tenantId: string, rolePackId: string, rolePackVersion: string,
                                 classification: Classification, content: string, sourceVersion: string, checksum: string,
                                 receipt: string, approved: bool, observedAt: Stamp, expiresAt: Option<Stamp>)

  datatype Consent = Granted | NotRequired | Missing

  datatype Idea = Idea(id: string, tenantId: string, sessionId: string, contextVersion: nat, isHypothesis: bool,
                       content: string, confidence: Confidence, evidenceRefs: seq<string>, sourceVersion: string,
                       classification: Classification, createdAt: Stamp, expiresAt: Stamp, forPresenter: bool, consent: Consent)

  datatype Input = Input(state: State, tenantId: string, sessionId: string, maxBytes: nat)

  datatype Candidate = Candidate(entry: Entry, rank: nat, observedMs: int, expiresMs: Option<int>)

  // ---------------------------------------------------------------- collecting candidates

  function NatText(n: nat): (s: string)
    ensures |s| == Digits(n) && forall k :: 0 <= k < |s| ==> '0' <= s[k] <= '9'
  {
    if n < 10 then [n as char + '0'] else NatText(n / 10) + [(n % 10) as char + '0']
  }

  function SummaryCandidate(cal: Calendar, state: State, now: int): Option<Candidate> {
    var observed := cal.parse(state.updatedAt);
    if observed.None? || observed.value > now || !NormalContent(state.summary) then None
    else
      Some(Candidate(Entry(ConversationSummary, Untrusted, state.summary, Restricted, None,
                           Provenance(InteractionState, "conversation-summary", NatText(state.stateVersion), None, [],
                                      state.updatedAt, None)),
                     0, observed.value, None))
  }

  datatype Offer = Skip | Unidentified | Offer(candidate: Candidate)

  /** A fact whose expiry cannot be read counts as one that never expires. */
  function FactCandidate(cal: Calendar, state: State, now: int, fact: Fact): Offer {
    if fact.kind.DerivedHypothesis? || fact.kind.SystemObservation? then Skip
    else
      var observed := cal.parse(fact.observedAt);
      var expires := if fact.expiresAt.None? then None else cal.parse(fact.expiresAt.value);
      if observed.None? || observed.value > now || !NormalContent(fact.summary) then Skip
      else if expires.Some? && (expires.value <= now || observed.value > expires.value) then Skip
      else if !UuidText(fact.evidenceId) then Unidentified
      else
        Offer(Candidate(Entry(ConfirmedFact, Confirmed, fact.summary, Restricted, Some(fact.confidence),
                              Provenance(InteractionState, fact.evidenceId, NatText(state.stateVersion), None, [fact.evidenceId],
                                         fact.observedAt, if expires.None? then None else fact.expiresAt)),
                        1, observed.value, expires))
  }

  function KnowledgeCandidate(input: Input, now: int, k: Knowledge): Option<Candidate> {
    if k.tenantId != input.tenantId || k.rolePackId != input.state.rolePackId || k.rolePackVersion != input.state.rolePackVersion
       || !k.approved || k.observedAt.ms > now
       || (k.expiresAt.Some? && (k.expiresAt.value.ms <= now || k.observedAt.ms > k.expiresAt.value.ms)) then None
    else
      Some(Candidate(Entry(ApprovedKnowledge, Untrusted, k.content, k.classification, None,
                           Provenance(KnowledgeCatalog, k.id, k.sourceVersion, Some(k.checksum), [k.receipt], k.observedAt.value,
                                      if k.expiresAt.None? then None else Some(k.expiresAt.value.value))),
                     2, k.observedAt.ms, if k.expiresAt.None? then None else Some(k.expiresAt.value.ms)))
  }

  function IdeaCandidate(input: Input, now: int, i: Idea): Option<Candidate> {
    if i.tenantId != input.tenantId || i.sessionId != input.sessionId || i.contextVersion != input.state.stateVersion
       || i.createdAt.ms > now || i.createdAt.ms > i.expiresAt.ms || i.expiresAt.ms <= now
       || !i.forPresenter || i.consent.Missing? || (i.isHypothesis && i.evidenceRefs == []) then None
    else
      Some(Candidate(Entry(if i.isHypothesis then Hypothesis else Suggestion, Uncertain, i.content, i.classification,
                           Some(i.confidence),
                           Provenance(SuggestionSnapshot, i.id, i.sourceVersion, None, i.evidenceRefs, i.createdAt.value,
                                      Some(i.expiresAt.value))),
                     if i.isHypothesis then 4 else 3, i.createdAt.ms, Some(i.expiresAt.ms)))
  }

  function ListOf(c: Option<Candidate>): seq<Candidate> {
    if c.None? then [] else [c.value]
  }

  /** The candidates of the first `n` facts, or nothing when one of them carries no valid evidence id. */
  function FactCandidates(cal: Calendar, state: State, now: int, n: nat): Option<seq<Candidate>>
    requires n <= |state.facts|
  {
    if n == 0 then Some([])
    else
      var before := FactCandidates(cal, state, now, n - 1);
      var offer := FactCandidate(cal, state, now, state.facts[n - 1]);
      if before.None? || offer.Unidentified? then None
      else Some(before.value + if offer.Skip? then [] else [offer.candidate])
  }

  function KnowledgeCandidates(input: Input, now: int, catalog: seq<Knowledge>, n: nat): seq<Candidate>
    requires n <= |catalog|
  {
    if n == 0 then [] else KnowledgeCandidates(input, now, catalog, n - 1) + ListOf(KnowledgeCandidate(input, now, catalog[n - 1]))
  }

  function IdeaCandidates(input: Input, now: int, ideas: seq<Idea>, n: nat): seq<Candidate>
    requires n <= |ideas|
  {
    if n == 0 then [] else IdeaCandidates(input, now, ideas, n - 1) + ListOf(IdeaCandidate(input, now, ideas[n - 1]))
  }

  function Candidates(cal: Calendar, input: Input, catalog: seq<Knowledge>, ideas: seq<Idea>, now: int): Option<seq<Candidate>> {
    var facts := FactCandidates(cal, input.state, now, |input.state.facts|);
    if facts.None? then None
    else
      Some(ListOf(SummaryCandidate(cal, input.state, now)) + facts.value
           + KnowledgeCandidates(input, now, catalog, |catalog|) + IdeaCandidates(input, now, ideas, |ideas|))
  }

  method BuildCandidates(cal: Calendar, input: Input, catalog: seq<Knowledge>, ideas: seq<Idea>, now: int)
      returns (r: Option<seq<Candidate>>)
    ensures r == Candidates(cal, input, catalog, ideas, now)
  {
    hide SummaryCandidate, FactCandidate, KnowledgeCandidate, IdeaCandidate;
    var candidates := ListOf(SummaryCandidate(cal, input.state, now));
    var facts := CollectFacts(cal, input.state, now);
    if facts.None? {
      return None;
    }
    candidates := candidates + facts.value;
    ghost var withFacts := candidates;
    var i := 0;
    while i < |catalog|
      invariant i <= |catalog| && candidates == withFacts + KnowledgeCandidates(input, now, catalog, i)
    {
      candidates := candidates + ListOf(KnowledgeCandidate(input, now, catalog[i]));
      i := i + 1;
    }
    ghost var withKnowledge := candidates;
    i := 0;
    while i < |ideas|
      invariant i <= |ideas| && candidates == withKnowledge + IdeaCandidates(input, now, ideas, i)
    {
      candidates := candidates + ListOf(IdeaCandidate(input, now, ideas[i]));
      i := i + 1;
    }
    return Some(candidates);
  }

  method CollectFacts(cal: Calendar, state: State, now: int) returns (r: Option<seq<Candidate>>)
    ensures r == FactCandidates(cal, state, now, |state.facts|)
  {
    hide FactCandidate;
    var candidates: seq<Candidate> := [];
    var i := 0;
    while i < |state.facts|
      invariant i <= |state.facts| && FactCandidates(cal, state, now, i) == Some(candidates)
    {
      var offer := FactCandidate(cal, state, now, state.facts[i]);
      assert candidates + [] == candidates;
      if offer.Unidentified? {
        NoFactsAfterFailure(cal, state, now, i + 1, |state.facts|);
        return None;
      }
      if offer.Offer? {
        candidates := candidates + [offer.candidate];
      }
      i := i + 1;
    }
    return Some(candidates);
  }

  lemma {:induction false} NoFactsAfterFailure(cal: Calendar, state: State, now: int, i: nat, n: nat)
    requires i <= n <= |state.facts| && FactCandidates(cal, state, now, i).None?
    ensures FactCandidates(cal, state, now, n).None?
    decreases n
  {
    hide FactCandidate;
    if i < n {
      NoFactsAfterFailure(cal, state, now, i, n - 1);
    }
  }

  // ---------------------------------------------------------------- sorting and dropping duplicates

  function KeyOf(c: Candidate): SortKey {
    SortKey(c.rank, c.observedMs, c.entry.provenance.sourceId, c.entry.provenance.sourceVersion, c.entry.content)
  }

  /** What makes two entries the same one. */
  datatype Identity = Identity(kind: Kind, source: SourceKind, sourceId: string)

  function IdentityOf(e: Entry): Identity {
    Identity(e.kind, e.provenance.sourceKind, e.provenance.sourceId)
  }

  /** Puts a candidate after every one that does not have to follow it. */
  function Insert(sorted: seq<Candidate>, c: Candidate): seq<Candidate> {
    if sorted == [] then [c]
    else
      var last := sorted[|sorted| - 1];
      if Precedes(KeyOf(last), KeyOf(c)) then sorted + [c] else Insert(sorted[..|sorted| - 1], c) + [last]
  }

  /** The stable sort of the first `n` candidates. */
  function Sorted(candidates: seq<Candidate>, n: nat): seq<Candidate>
    requires n <= |candidates|
  {
    if n == 0 then [] else Insert(Sorted(candidates, n - 1), candidates[n - 1])
  }

  ghost predicate InOrder(s: seq<Candidate>) {
    forall i, j :: 0 <= i < j < |s| ==> Precedes(KeyOf(s[i]), KeyOf(s[j]))
  }

  lemma {:induction false} InsertKeepsOrder(sorted: seq<Candidate>, c: Candidate)
    requires InOrder(sorted)
    ensures InOrder(Insert(sorted, c)) && multiset(Insert(sorted, c)) == multiset(sorted) + multiset{c}
  {
    hide Precedes;
    if sorted != [] {
      var n := |sorted| - 1;
      var last := sorted[n];
      assert sorted == sorted[..n] + [last];
      if Precedes(KeyOf(last), KeyOf(c)) {
        AppendInOrder(sorted, last, c);
      } else {
        assert InOrder(sorted[..n]);
        InsertKeepsOrder(sorted[..n], c);
        PrecedesIsTotal(KeyOf(last), KeyOf(c));
        var front := Insert(sorted[..n], c);
        forall x | x in front
          ensures Precedes(KeyOf(x), KeyOf(last))
        {
          assert x in multiset(front);
        }
        hide Insert;
      }
    }
  }

  lemma {:induction false} AppendInOrder(sorted: seq<Candidate>, last: Candidate, c: Candidate)
    requires InOrder(sorted) && sorted != [] && last == sorted[|sorted| - 1] && Precedes(KeyOf(last), KeyOf(c))
    ensures InOrder(sorted + [c])
  {
    hide Precedes, KeyOf;
    forall i | 0 <= i < |sorted|
      ensures Precedes(KeyOf(sorted[i]), KeyOf(c))
    {
      if i < |sorted| - 1 {
        PrecedesIsTransitive(KeyOf(sorted[i]), KeyOf(last), KeyOf(c));
      }
    }
  }

  lemma {:induction false} SortedIsInOrder(candidates: seq<Candidate>, n: nat)
    requires n <= |candidates|
    ensures InOrder(Sorted(candidates, n)) && multiset(Sorted(candidates, n)) == multiset(candidates[..n])
  {
    hide Insert, InOrder;
    if n == 0 {
      assert InOrder([]) by { EmptyInOrder(); }
    } else {
      SortedIsInOrder(candidates, n - 1);
      InsertKeepsOrder(Sorted(candidates, n - 1), candidates[n - 1]);
      assert candidates[..n] == candidates[..n - 1] + [candidates[n - 1]];
    }
  }

  lemma {:induction false} EmptyInOrder()
    ensures InOrder([])
  {
  }

  predicate HasIdentity(s: seq<Candidate>, id: Identity) {
    exists i :: 0 <= i < |s| && IdentityOf(s[i].entry) == id
  }

  /** The first candidate of each identity among the first `n`. */
  function Unique(sorted: seq<Candidate>, n: nat): seq<Candidate>
    requires n <= |sorted|
  {
    if n == 0 then []
    else
      var before := Unique(sorted, n - 1);
      if HasIdentity(before, IdentityOf(sorted[n - 1].entry)) then before else before + [sorted[n - 1]]
  }

  function UniqueSorted(candidates: seq<Candidate>): seq<Candidate> {
    var sorted := Sorted(candidates, |candidates|);
    Unique(sorted, |sorted|)
  }

  method UniqueSortedCandidates(candidates: seq<Candidate>) returns (unique: seq<Candidate>)
    ensures unique == UniqueSorted(candidates)
    ensures InOrder(unique) && OneEach(unique)
    ensures forall c :: c in unique ==> c in candidates
    ensures forall c :: c in candidates ==> HasIdentity(unique, IdentityOf(c.entry))
  {
    var sorted := Sorted(candidates, |candidates|);
    hide HasIdentity;
    var keys: set<Identity> := {};
    unique := [];
    var i := 0;
    assert forall id :: !HasIdentity([], id) by { NoIdentity(); }
    while i < |sorted|
      invariant i <= |sorted| && unique == Unique(sorted, i)
      invariant forall id :: id in keys <==> HasIdentity(unique, id)
    {
      var key := IdentityOf(sorted[i].entry);
      if key !in keys {
        keys := keys + {key};
        IdentitySnoc(unique, sorted[i]);
        unique := unique + [sorted[i]];
      }
      i := i + 1;
    }
    UniqueFacts(candidates);
  }

  lemma {:induction false} NoIdentity()
    ensures forall id :: !HasIdentity([], id)
  {
  }

  lemma {:induction false} IdentitySnoc(s: seq<Candidate>, c: Candidate)
    ensures forall id :: HasIdentity(s + [c], id) <==> HasIdentity(s, id) || id == IdentityOf(c.entry)
  {
    hide IdentityOf;
    forall id
      ensures HasIdentity(s + [c], id) <==> HasIdentity(s, id) || id == IdentityOf(c.entry)
    {
      if HasIdentity(s, id) {
        var i :| 0 <= i < |s| && IdentityOf(s[i].entry) == id;
        assert (s + [c])[i] == s[i];
      }
      assert (s + [c])[|s|] == c;
    }
  }

  lemma {:induction false} SortedSize(candidates: seq<Candidate>, n: nat)
    requires n <= |candidates|
    ensures |Sorted(candidates, n)| == n
  {
    hide Sorted;
    SortedIsInOrder(candidates, n);
    assert |multiset(Sorted(candidates, n))| == |multiset(candidates[..n])|;
  }

  ghost predicate OneEach(s: seq<Candidate>) {
    forall i, j :: 0 <= i < j < |s| ==> IdentityOf(s[i].entry) != IdentityOf(s[j].entry)
  }

  lemma {:induction false} UniqueInOrder(sorted: seq<Candidate>, n: nat)
    requires n <= |sorted| && InOrder(sorted)
    ensures var u := Unique(sorted, n);
            && InOrder(u) && OneEach(u)
            && (forall c :: c in u ==> c in sorted[..n])
            && (forall i :: 0 <= i < n ==> HasIdentity(u, IdentityOf(sorted[i].entry)))
  {
    hide Precedes, KeyOf, HasIdentity;
    if n > 0 {
      UniqueInOrder(sorted, n - 1);
      var u, c := Unique(sorted, n - 1), sorted[n - 1];
      assert sorted[..n] == sorted[..n - 1] + [c];
      if !HasIdentity(u, IdentityOf(c.entry)) {
        IdentitySnoc(u, c);
        AppendUnique(u, c, sorted, n);
      }
    }
  }

  lemma {:induction false} AppendUnique(u: seq<Candidate>, c: Candidate, sorted: seq<Candidate>, n: nat)
    requires 0 < n <= |sorted| && c == sorted[n - 1] && InOrder(sorted) && InOrder(u) && OneEach(u)
    requires (forall x :: x in u ==> x in sorted[..n - 1]) && !HasIdentity(u, IdentityOf(c.entry))
    ensures InOrder(u + [c]) && OneEach(u + [c])
  {
    hide Precedes, KeyOf, IdentityOf;
    forall i | 0 <= i < |u|
      ensures Precedes(KeyOf(u[i]), KeyOf(c)) && IdentityOf(u[i].entry) != IdentityOf(c.entry)
    {
      assert u[i] in u;
    }
  }

  lemma {:induction false} UniqueFacts(candidates: seq<Candidate>)
    ensures var u := UniqueSorted(candidates);
            && InOrder(u) && OneEach(u)
            && (forall c :: c in u ==> c in candidates)
            && (forall c :: c in candidates ==> HasIdentity(u, IdentityOf(c.entry)))
  {
    hide Sorted, Unique, HasIdentity, InOrder, OneEach, IdentityOf;
    var sorted := Sorted(candidates, |candidates|);
    SortedIsInOrder(candidates, |candidates|);
    UniqueInOrder(sorted, |sorted|);
    assert candidates[..|candidates|] == candidates && sorted[..|sorted|] == sorted;
    assert forall c :: c in sorted <==> c in multiset(sorted);
    assert forall c :: c in candidates <==> c in multiset(candidates);
    forall c | c in candidates
      ensures HasIdentity(Unique(sorted, |sorted|), IdentityOf(c.entry))
    {
      assert c in sorted;
      var i :| 0 <= i < |sorted| && sorted[i] == c;
    }
  }

  // ---------------------------------------------------------------- building a composition

  function Earlier(a: Option<int>, b: Option<int>): Option<int> {
    if a.None? then b else if b.None? then a else if b.value < a.value then b else a
  }

  /** The first expiry among the selected candidates. */
  function FirstExpiry(selected: seq<Candidate>): Option<int> {
    if selected == [] then None else Earlier(FirstExpiry(selected[..|selected| - 1]), selected[|selected| - 1].expiresMs)
  }

  function Entries(selected: seq<Candidate>): (r: seq<Entry>)
    ensures |r| == |selected| && forall i :: 0 <= i < |r| ==> r[i] == selected[i].entry
  {
    if selected == [] then [] else Entries(selected[..|selected| - 1]) + [selected[|selected| - 1].entry]
  }

  function Build(cal: Calendar, input: Input, selected: seq<Candidate>, omitted: nat, now: int): Composition {
    var entries, expiry := Entries(selected), FirstExpiry(selected);
    Composition(SCHEMA_VERSION, input.tenantId, input.sessionId, input.state.stateVersion, input.maxBytes,
                ContentBytes(entries), omitted, cal.format(now),
                if expiry.None? then None else Some(cal.format(expiry.value)), entries)
  }

  function BytesOf(cal: Calendar, input: Input, selected: seq<Candidate>, omitted: nat, now: int): nat {
    SerializedBytes(Build(cal, input, selected, omitted, now))
  }

  /** The parts of the byte count that change while packing. */
  function VariableBytes(cal: Calendar, selected: seq<Candidate>, omitted: nat): nat {
    var expiry := FirstExpiry(selected);
    Digits(ContentBytes(Entries(selected))) + Digits(omitted)
    + OptionalStringBytes(if expiry.None? then None else Some(cal.format(expiry.value)))
    + EntriesBytes(Entries(selected)) + Commas(|selected|)
  }

  function FixedBytes(cal: Calendar, input: Input, now: int): nat {
    BytesOf(cal, input, [], 0, now) - VariableBytes(cal, [], 0)
  }

  lemma BytesSplit(cal: Calendar, input: Input, selected: seq<Candidate>, omitted: nat, now: int)
    ensures BytesOf(cal, input, selected, omitted, now) == FixedBytes(cal, input, now) + VariableBytes(cal, selected, omitted)
  {
    hide Digits, StringBytes, EntriesBytes, ContentBytes, FirstExpiry, Entries;
  }

  // ---------------------------------------------------------------- how the byte count moves

  /** Expiries lie after the composition's own time, so they can be written. */
  predicate Expiring(selected: seq<Candidate>) {
    forall c :: c in selected && c.expiresMs.Some? ==> Writable(c.expiresMs.value)
  }

  lemma {:induction false} FirstExpiryIsListed(selected: seq<Candidate>)
    ensures FirstExpiry(selected).Some? ==> exists c :: c in selected && c.expiresMs == FirstExpiry(selected)
    ensures forall c :: c in selected && c.expiresMs.Some? ==>
                          FirstExpiry(selected).Some? && FirstExpiry(selected).value <= c.expiresMs.value
  {
    if selected != [] {
      var n := |selected| - 1;
      FirstExpiryIsListed(selected[..n]);
      assert selected == selected[..n] + [selected[n]];
      if FirstExpiry(selected) == FirstExpiry(selected[..n]) && FirstExpiry(selected).Some? {
        var c :| c in selected[..n] && c.expiresMs == FirstExpiry(selected[..n]);
        assert c in selected;
      } else {
        assert selected[n] in selected;
      }
    }
  }

  function ExpiryBytes(cal: Calendar, expiry: Option<int>): nat {
    OptionalStringBytes(if expiry.None? then None else Some(cal.format(expiry.value)))
  }

  lemma {:induction false} ExpiryBytesRange(cal: Calendar, expiry: Option<int>)
    requires Faithful(cal) && (expiry.Some? ==> Writable(expiry.value))
    ensures if expiry.None? then ExpiryBytes(cal, expiry) == 4 else 26 <= ExpiryBytes(cal, expiry) <= 29
  {
    if expiry.Some? {
      PlainTextBytes(cal.format(expiry.value));
    }
  }

  lemma {:induction false} OneMoreEntry(selected: seq<Candidate>, c: Candidate)
    ensures Entries(selected + [c]) == Entries(selected) + [c.entry]
    ensures EntriesBytes(Entries(selected + [c])) == EntriesBytes(Entries(selected)) + EntryBytes(c.entry)
    ensures ContentBytes(Entries(selected + [c])) == ContentBytes(Entries(selected)) + Utf8Bytes(c.entry.content)
    ensures FirstExpiry(selected + [c]) == Earlier(FirstExpiry(selected), c.expiresMs)
  {
    hide EntryBytes, Utf8Bytes;
    assert (selected + [c])[..|selected|] == selected;
    assert (Entries(selected) + [c.entry])[..|selected|] == Entries(selected);
  }

  /** One entry less saves most of a hundred bytes. */
  lemma {:induction false} EntryCosts(cal: Calendar, selected: seq<Candidate>, c: Candidate, omitted: nat)
    requires Faithful(cal) && Expiring(selected + [c])
    ensures VariableBytes(cal, selected, omitted) + 97 <= VariableBytes(cal, selected + [c], omitted)
  {
    hide EntryBytes, Utf8Bytes, Digits, FirstExpiry, Entries, EntriesBytes, ContentBytes;
    OneMoreEntry(selected, c);
    EntryIsLarge(c.entry);
    DigitsAreMonotone(ContentBytes(Entries(selected)), ContentBytes(Entries(selected + [c])));
    ExpiriesAreWritable(selected + [c]);
    assert Expiring(selected);
    ExpiriesAreWritable(selected);
    var before, after := FirstExpiry(selected), FirstExpiry(selected + [c]);
    ExpiryBytesRange(cal, before);
    ExpiryBytesRange(cal, after);
    assert before.Some? ==> after.Some?;
  }

  lemma {:induction false} ExpiriesAreWritable(selected: seq<Candidate>)
    requires Expiring(selected)
    ensures FirstExpiry(selected).Some? ==> Writable(FirstExpiry(selected).value)
  {
    FirstExpiryIsListed(selected);
  }

  lemma {:induction false} OmissionsCostLittle(cal: Calendar, selected: seq<Candidate>, a: nat, b: nat)
    requires a <= b < 1_000
    ensures VariableBytes(cal, selected, a) <= VariableBytes(cal, selected, b) <= VariableBytes(cal, selected, a) + 2
  {
    DigitsAreMonotone(a, b);
    DigitsAreMonotone(b, 999);
    SixteenDigits();
    hide Digits, FirstExpiry, Entries, EntriesBytes, ContentBytes;
  }

  // ---------------------------------------------------------------- packing and repair

  datatype Progress = Progress(selected: seq<Candidate>, omitted: nat)

  predicate Fits(cal: Calendar, input: Input, p: Progress, now: int) {
    BytesOf(cal, input, p.selected, p.omitted, now) <= input.maxBytes
  }

  /** After considering the first `n` candidates: each is taken while it fits with what is selected and omitted
      so far. */
  function Greedy(cal: Calendar, input: Input, candidates: seq<Candidate>, now: int, n: nat): Progress
    requires n <= |candidates|
  {
    if n == 0 then Progress([], 0)
    else
      var p, c := Greedy(cal, input, candidates, now, n - 1), candidates[n - 1];
      if |p.selected| < MAX_OUTPUT_ENTRIES && Fits(cal, input, Progress(p.selected + [c], p.omitted), now) then
        Progress(p.selected + [c], p.omitted)
      else Progress(p.selected, p.omitted + 1)
  }

  function Drop(p: Progress): Progress
    requires p.selected != []
  {
    Progress(p.selected[..|p.selected| - 1], p.omitted + 1)
  }

  function Repair(cal: Calendar, input: Input, p: Progress, now: int): Progress
    decreases |p.selected|
  {
    if !Fits(cal, input, p, now) && p.selected != [] then Repair(cal, input, Drop(p), now) else p
  }

  /** The composition, or nothing when its own time cannot be written or even the last repair stays over budget. */
  function Compose(cal: Calendar, input: Input, candidates: seq<Candidate>, now: int): Option<Composition> {
    if !Writable(now) then None
    else ComposeWritable(cal, input, candidates, now)
  }

  function ComposeWritable(cal: Calendar, input: Input, candidates: seq<Candidate>, now: int): Option<Composition> {
    var p := Repair(cal, input, Greedy(cal, input, candidates, now, |candidates|), now);
    if Fits(cal, input, p, now) then Some(Build(cal, input, p.selected, p.omitted, now)) else None
  }

  method ComposeBounded(cal: Calendar, input: Input, candidates: seq<Candidate>, now: int) returns (r: Option<Composition>)
    ensures r == Compose(cal, input, candidates, now)
  {
    hide BytesOf, Build;
    if !Writable(now) {
      return None;
    }
    var selected: seq<Candidate>, omitted := [], 0;
    var i := 0;
    while i < |candidates|
      invariant i <= |candidates| && Progress(selected, omitted) == Greedy(cal, input, candidates, now, i)
    {
      if |selected| >= MAX_OUTPUT_ENTRIES {
        omitted := omitted + 1;
      } else if BytesOf(cal, input, selected + [candidates[i]], omitted, now) <= input.maxBytes {
        selected := selected + [candidates[i]];
      } else {
        omitted := omitted + 1;
      }
      i := i + 1;
    }
    ghost var packed := Progress(selected, omitted);
    hide Greedy;
    while BytesOf(cal, input, selected, omitted, now) > input.maxBytes && selected != []
      invariant Repair(cal, input, Progress(selected, omitted), now) == Repair(cal, input, packed, now)
      decreases |selected|
    {
      selected := selected[..|selected| - 1];
      omitted := omitted + 1;
    }
    if BytesOf(cal, input, selected, omitted, now) > input.maxBytes {
      return None;
    }
    return Some(Build(cal, input, selected, omitted, now));
  }

  /** Every considered candidate was selected or counted as omitted, and what is selected fitted when the last
      of it was taken. */
  ghost predicate PackedSoFar(cal: Calendar, input: Input, p: Progress, now: int, n: nat) {
    && |p.selected| + p.omitted == n && |p.selected| <= MAX_OUTPUT_ENTRIES
    && (p.selected != [] ==> exists o: nat :: o <= p.omitted && Fits(cal, input, Progress(p.selected, o), now))
  }

  lemma {:induction false} GreedyPacks(cal: Calendar, input: Input, candidates: seq<Candidate>, now: int, n: nat)
    requires n <= |candidates|
    ensures PackedSoFar(cal, input, Greedy(cal, input, candidates, now, n), now, n)
  {
    hide Fits;
    if n > 0 {
      GreedyPacks(cal, input, candidates, now, n - 1);
      var p := Greedy(cal, input, candidates, now, n - 1);
      if p.selected != [] {
        var o: nat :| o <= p.omitted && Fits(cal, input, Progress(p.selected, o), now);
        assert o <= p.omitted + 1;
      }
    }
  }

  /** What the domain guarantees of the values every composition repeats. */
  predicate WellFormed(input: Input) {
    && UuidText(input.tenantId) && UuidText(input.sessionId) && input.state.stateVersion <= MAX_SAFE_INTEGER
    && MIN_CONTEXT_BYTES <= input.maxBytes <= MAX_CONTEXT_BYTES
  }

  /** A composition without entries fits every permitted budget. */
  lemma {:induction false} NothingFits(cal: Calendar, input: Input, omitted: nat, now: int)
    requires Faithful(cal) && WellFormed(input) && omitted < 1_000 && Writable(now)
    ensures Fits(cal, input, Progress([], omitted), now)
  {
    UuidIsPlain(input.tenantId);
    UuidIsPlain(input.sessionId);
    PlainTextBytes(input.tenantId);
    PlainTextBytes(input.sessionId);
    PlainTextBytes(cal.format(now));
    PlainTextBytes(SCHEMA_VERSION);
    DigitsAreMonotone(input.state.stateVersion, MAX_SAFE_INTEGER);
    DigitsAreMonotone(input.maxBytes, MAX_CONTEXT_BYTES);
    DigitsAreMonotone(omitted, 999);
    SixteenDigits();
    hide Digits, InnerBytes, UuidText, PlainText, Faithful;
  }

  lemma {:induction false} SixteenDigits()
    ensures Digits(MAX_SAFE_INTEGER) == 16 && Digits(MAX_CONTEXT_BYTES) == 5 && Digits(999) == 3 && Digits(0) == 1
  {
    assert Digits(9_007_199_254) == 10 by {
      assert Digits(90_071) == 5;
    }
  }

  /** The repair gives up at most one entry and always ends within the budget. */
  lemma {:induction false} RepairDropsAtMostOne(cal: Calendar, input: Input, p: Progress, now: int, n: nat)
    requires Faithful(cal) && WellFormed(input) && Writable(now) && n < 999
    requires PackedSoFar(cal, input, p, now, n) && Expiring(p.selected)
    ensures Repair(cal, input, p, now) == p || (p.selected != [] && Repair(cal, input, p, now) == Drop(p))
    ensures Fits(cal, input, Repair(cal, input, p, now), now)
  {
    hide Fits, Expiring, Faithful, WellFormed, Writable;
    if p.selected == [] {
      NothingFits(cal, input, p.omitted, now);
      assert p == Progress([], p.omitted);
    } else if !Fits(cal, input, p, now) {
      var o: nat :| o <= p.omitted && Fits(cal, input, Progress(p.selected, o), now);
      DropFits(cal, input, p, now, o);
    }
  }

  lemma {:induction false} DropFits(cal: Calendar, input: Input, p: Progress, now: int, o: nat)
    requires Faithful(cal) && p.selected != [] && Expiring(p.selected)
    requires o <= p.omitted < 999 && Fits(cal, input, Progress(p.selected, o), now)
    ensures Fits(cal, input, Drop(p), now)
  {
    hide BytesOf, FixedBytes, VariableBytes, Expiring, Faithful;
    var n := |p.selected| - 1;
    var rest, c := p.selected[..n], p.selected[n];
    assert rest + [c] == p.selected;
    EntryCosts(cal, rest, c, o);
    OmissionsCostLittle(cal, rest, o, p.omitted + 1);
    BytesSplit(cal, input, rest, p.omitted + 1, now);
    BytesSplit(cal, input, p.selected, o, now);
  }

  // ---------------------------------------------------------------- what a composition selects

  /** `s` is `t` with some elements left out. */
  predicate Subsequence(s: seq<Candidate>, t: seq<Candidate>)
    decreases |t|
  {
    || s == []
    || (t != [] && (Subsequence(s, t[..|t| - 1])
                    || (s[|s| - 1] == t[|t| - 1] && Subsequence(s[..|s| - 1], t[..|t| - 1]))))
  }

  lemma {:induction false} GreedyIsSubsequence(cal: Calendar, input: Input, candidates: seq<Candidate>, now: int, n: nat)
    requires n <= |candidates|
    ensures Subsequence(Greedy(cal, input, candidates, now, n).selected, candidates[..n])
  {
    hide Fits;
    if n > 0 {
      GreedyIsSubsequence(cal, input, candidates, now, n - 1);
      assert candidates[..n][..n - 1] == candidates[..n - 1];
      var p := Greedy(cal, input, candidates, now, n - 1);
      assert (p.selected + [candidates[n - 1]])[..|p.selected|] == p.selected;
    }
  }

  lemma {:induction false} DropIsSubsequence(s: seq<Candidate>, t: seq<Candidate>)
    requires Subsequence(s, t) && s != []
    ensures Subsequence(s[..|s| - 1], t)
    decreases |t|
  {
    if t != [] {
      if Subsequence(s, t[..|t| - 1]) {
        DropIsSubsequence(s, t[..|t| - 1]);
      }
    }
  }

  lemma {:induction false} SubsequenceMembers(s: seq<Candidate>, t: seq<Candidate>)
    requires Subsequence(s, t)
    ensures forall c :: c in s ==> c in t
    decreases |t|
  {
    if s != [] {
      var r := t[..|t| - 1];
      assert t == r + [t[|t| - 1]];
      if Subsequence(s, r) {
        SubsequenceMembers(s, r);
      } else {
        SubsequenceMembers(s[..|s| - 1], r);
        assert s == s[..|s| - 1] + [s[|s| - 1]];
      }
    }
  }

  lemma {:induction false} SubsequenceKeepsOrder(s: seq<Candidate>, t: seq<Candidate>)
    requires Subsequence(s, t) && InOrder(t) && OneEach(t)
    ensures InOrder(s) && OneEach(s)
    decreases |t|
  {
    hide Precedes, KeyOf, IdentityOf;
    if s != [] {
      var r := t[..|t| - 1];
      if Subsequence(s, r) {
        SubsequenceKeepsOrder(s, r);
      } else {
        var front, last := s[..|s| - 1], s[|s| - 1];
        SubsequenceKeepsOrder(front, r);
        SubsequenceMembers(front, r);
        forall i | 0 <= i < |front|
          ensures Precedes(KeyOf(s[i]), KeyOf(last)) && IdentityOf(s[i].entry) != IdentityOf(last.entry)
        {
          assert front[i] in r;
        }
      }
    }
  }

  /** The budget error cannot happen, whatever the candidates: a composition is always returned, it is within
      its budget, its entries are an ordered part of the candidates, and selected and omitted ones add up. The
      only failure is a clock beyond the last date. */
  lemma {:induction false} CompositionFits(cal: Calendar, input: Input, candidates: seq<Candidate>, now: int)
      returns (p: Progress)
    requires Faithful(cal) && WellFormed(input) && now >= 0 && |candidates| < 999 && Expiring(candidates)
    ensures Compose(cal, input, candidates, now)
            == if now <= LAST_DATE then Some(Build(cal, input, p.selected, p.omitted, now)) else None
    ensures now <= LAST_DATE ==> BytesOf(cal, input, p.selected, p.omitted, now) <= input.maxBytes
    ensures Subsequence(p.selected, candidates) && |p.selected| + p.omitted == |candidates| && |p.selected| <= MAX_OUTPUT_ENTRIES
  {
    if now <= LAST_DATE {
      hide *;
      p := WritableFits(cal, input, candidates, now) by { IsWritable(now); }
    } else {
      p := Progress([], |candidates|);
    }
  }

  lemma {:induction false} IsWritable(ms: int)
    requires 0 <= ms <= LAST_DATE
    ensures Writable(ms)
  {
  }

  lemma {:induction false} WritableFits(cal: Calendar, input: Input, candidates: seq<Candidate>, now: int)
      returns (p: Progress)
    requires Faithful(cal) && WellFormed(input) && Writable(now) && |candidates| < 999 && Expiring(candidates)
    ensures Compose(cal, input, candidates, now) == Some(Build(cal, input, p.selected, p.omitted, now))
    ensures BytesOf(cal, input, p.selected, p.omitted, now) <= input.maxBytes
    ensures Subsequence(p.selected, candidates) && |p.selected| + p.omitted == |candidates| && |p.selected| <= MAX_OUTPUT_ENTRIES
  {
    hide *;
    var n := |candidates|;
    var packed := Greedy(cal, input, candidates, now, n);
    GreedyPacks(cal, input, candidates, now, n);
    GreedyIsSubsequence(cal, input, candidates, now, n);
    assert candidates[..n] == candidates;
    ExpiringPart(packed.selected, candidates);
    RepairDropsAtMostOne(cal, input, packed, now, n);
    p := Repair(cal, input, packed, now);
    if packed.selected != [] {
      DropIsSubsequence(packed.selected, candidates);
    }
    Composed(cal, input, candidates, now, packed, p);
  }

  lemma {:induction false} Composed(cal: Calendar, input: Input, candidates: seq<Candidate>, now: int, packed: Progress, p: Progress)
    requires packed == Greedy(cal, input, candidates, now, |candidates|) && p == Repair(cal, input, packed, now)
    requires p == packed || (packed.selected != [] && p == Drop(packed))
    requires Writable(now) && Fits(cal, input, p, now) && PackedSoFar(cal, input, packed, now, |candidates|)
    ensures Compose(cal, input, candidates, now) == Some(Build(cal, input, p.selected, p.omitted, now))
    ensures BytesOf(cal, input, p.selected, p.omitted, now) <= input.maxBytes
    ensures |p.selected| + p.omitted == |candidates| && |p.selected| <= MAX_OUTPUT_ENTRIES
    ensures packed.selected != [] ==> Drop(packed).selected == packed.selected[..|packed.selected| - 1]
  {
    hide Greedy, BytesOf, Build, Repair;
  }

  lemma {:induction false} ExpiringPart(s: seq<Candidate>, t: seq<Candidate>)
    requires Subsequence(s, t) && Expiring(t)
    ensures Expiring(s)
  {
    hide Subsequence;
    SubsequenceMembers(s, t);
  }

  // ---------------------------------------------------------------- the strict reader

  predicate DistinctRefs(refs: seq<string>) {
    forall i, j :: 0 <= i < j < |refs| ==> refs[i] != refs[j]
  }

  predicate ValidRefs(refs: seq<string>) {
    |refs| <= 100 && (forall i :: 0 <= i < |refs| ==> OpaqueId(refs[i])) && DistinctRefs(refs)
  }

  /** Which trust, confidence and provenance each kind of entry carries. */
  predicate Bound(e: Entry) {
    var p := e.provenance;
    match e.kind
    case ConversationSummary =>
      e.trust.Untrusted? && e.confidence.None? && p.sourceKind.InteractionState? && p.checksum.None? && p.expiresAt.None?
    case ConfirmedFact =>
      e.trust.Confirmed? && e.confidence.Some? && p.sourceKind.InteractionState? && p.checksum.None?
    case ApprovedKnowledge =>
      e.trust.Untrusted? && e.confidence.None? && p.sourceKind.KnowledgeCatalog? && p.checksum.Some? && p.evidenceRefs != []
      && !e.classification.Restricted?
    case _ =>
      e.trust.Uncertain? && e.confidence.Some? && p.sourceKind.SuggestionSnapshot? && p.checksum.None? && p.expiresAt.Some?
      && !e.classification.Restricted? && (e.kind.Hypothesis? ==> p.evidenceRefs != [])
  }

  predicate ValidEntry(cal: Calendar, e: Entry) {
    var p := e.provenance;
    && NormalContent(e.content) && OpaqueId(p.sourceId) && BoundedText(p.sourceVersion, 1, 120)
    && (p.checksum.Some? ==> Sha256Text(p.checksum.value)) && ValidRefs(p.evidenceRefs)
    && cal.parse(p.observedAt).Some? && (p.expiresAt.Some? ==> cal.parse(p.expiresAt.value).Some?)
    && Bound(e)
  }

  function ObservedMs(cal: Calendar, e: Entry): int {
    var t := cal.parse(e.provenance.observedAt);
    if t.Some? then t.value else 0
  }

  function ExpiresMs(cal: Calendar, e: Entry): Option<int> {
    if e.provenance.expiresAt.None? then None else cal.parse(e.provenance.expiresAt.value)
  }

  function EntryKey(cal: Calendar, e: Entry): SortKey {
    SortKey(Rank(e.kind), ObservedMs(cal, e), e.provenance.sourceId, e.provenance.sourceVersion, e.content)
  }

  ghost predicate EntriesOrdered(cal: Calendar, entries: seq<Entry>) {
    && (forall i, j :: 0 <= i < j < |entries| ==> IdentityOf(entries[i]) != IdentityOf(entries[j]))
    && (forall i, j :: 0 <= i < j < |entries| && j == i + 1 ==> Precedes(EntryKey(cal, entries[i]), EntryKey(cal, entries[j])))
  }

  predicate Alive(cal: Calendar, e: Entry, composedAt: int) {
    && ObservedMs(cal, e) <= composedAt
    && (ExpiresMs(cal, e).Some? ==> ObservedMs(cal, e) <= ExpiresMs(cal, e).value && composedAt < ExpiresMs(cal, e).value)
  }

  function EarliestExpiry(cal: Calendar, entries: seq<Entry>): Option<int> {
    if entries == [] then None
    else Earlier(EarliestExpiry(cal, entries[..|entries| - 1]), ExpiresMs(cal, entries[|entries| - 1]))
  }

  /** Everything the reader checks before it hands a composition on. */
  ghost predicate Accepts(cal: Calendar, c: Composition) {
    && c.schemaVersion == SCHEMA_VERSION && UuidText(c.tenantId) && UuidText(c.sessionId)
    && c.contextVersion <= MAX_SAFE_INTEGER && MIN_CONTEXT_BYTES <= c.maxContextBytes <= MAX_CONTEXT_BYTES
    && c.contentBytesUsed <= MAX_CONTEXT_BYTES && c.omittedEntryCount <= 512
    && cal.parse(c.composedAt).Some? && (c.expiresAt.Some? ==> cal.parse(c.expiresAt.value).Some?)
    && |c.entries| <= MAX_OUTPUT_ENTRIES && (forall e :: e in c.entries ==> ValidEntry(cal, e))
    && EntriesOrdered(cal, c.entries)
    && (forall e :: e in c.entries ==> Alive(cal, e, cal.parse(c.composedAt).value))
    && EarliestExpiry(cal, c.entries) == (if c.expiresAt.None? then None else cal.parse(c.expiresAt.value))
    && ContentBytes(c.entries) == c.contentBytesUsed && SerializedBytes(c) <= c.maxContextBytes
  }

  // ---------------------------------------------------------------- producer and reader agree

  /** What the collecting step guarantees of a candidate. */
  predicate ValidCandidate(cal: Calendar, now: int, c: Candidate) {
    && ValidEntry(cal, c.entry) && Alive(cal, c.entry, now)
    && c.rank == Rank(c.entry.kind) && c.observedMs == ObservedMs(cal, c.entry) && c.expiresMs == ExpiresMs(cal, c.entry)
  }

  ghost predicate AllValid(cal: Calendar, now: int, s: seq<Candidate>) {
    forall c :: c in s ==> ValidCandidate(cal, now, c)
  }

  lemma {:induction false} SameExpiry(cal: Calendar, now: int, s: seq<Candidate>)
    requires AllValid(cal, now, s)
    ensures EarliestExpiry(cal, Entries(s)) == FirstExpiry(s)
  {
    hide ValidEntry, Alive, ExpiresMs, ObservedMs;
    if s != [] {
      var n := |s| - 1;
      assert AllValid(cal, now, s[..n]);
      SameExpiry(cal, now, s[..n]);
      assert s[n] in s;
      assert Entries(s)[..n] == Entries(s[..n]);
    }
  }

  lemma {:induction false} EntriesInOrder(cal: Calendar, now: int, s: seq<Candidate>)
    requires AllValid(cal, now, s) && InOrder(s) && OneEach(s)
    ensures EntriesOrdered(cal, Entries(s))
    ensures forall e :: e in Entries(s) ==> ValidEntry(cal, e) && Alive(cal, e, now)
  {
    hide Precedes, ValidEntry, Alive, ObservedMs, ExpiresMs, IdentityOf, Entries;
    forall i | 0 <= i < |s|
      ensures EntryKey(cal, s[i].entry) == KeyOf(s[i]) && ValidEntry(cal, s[i].entry) && Alive(cal, s[i].entry, now)
    {
      assert s[i] in s;
    }
    hide EntryKey, KeyOf;
  }

  /** A composition of valid, ordered candidates is accepted exactly when its two written times stay within
      the year 9999. */
  lemma {:induction false} ReaderAccepts(cal: Calendar, input: Input, s: seq<Candidate>, omitted: nat, now: int)
    requires Faithful(cal) && WellFormed(input) && Writable(now) && omitted <= 512 && |s| <= MAX_OUTPUT_ENTRIES
    requires AllValid(cal, now, s) && InOrder(s) && OneEach(s) && Expiring(s)
    requires BytesOf(cal, input, s, omitted, now) <= input.maxBytes
    ensures Accepts(cal, Build(cal, input, s, omitted, now))
            <==> now <= LAST_MILLISECOND && (FirstExpiry(s).Some? ==> FirstExpiry(s).value <= LAST_MILLISECOND)
  {
    hide UuidText, FirstExpiry, Entries, ContentBytes, Expiring, AllValid, InOrder, OneEach, SerializedBytes,
      EarliestExpiry, ValidEntry, Alive, EntriesOrdered;
    SameExpiry(cal, now, s);
    EntriesInOrder(cal, now, s);
    ExpiriesAreWritable(s);
    ContentIsWithinBudget(cal, input, s, omitted, now);
  }

  lemma {:induction false} ContentIsWithinBudget(cal: Calendar, input: Input, s: seq<Candidate>, omitted: nat, now: int)
    ensures ContentBytes(Entries(s)) <= BytesOf(cal, input, s, omitted, now)
  {
    ContentFitsEntries(Entries(s));
    hide Digits, StringBytes, EntriesBytes, ContentBytes, FirstExpiry, Entries;
  }

  // ---------------------------------------------------------------- every collected candidate is valid

  predicate Read(cal: Calendar, t: Stamp) {
    cal.parse(t.value) == Some(t.ms)
  }

  /** What the catalog and snapshot factories guarantee of their records. */
  predicate NormalKnowledge(cal: Calendar, k: Knowledge) {
    && OpaqueId(k.id) && NormalContent(k.content) && BoundedText(k.sourceVersion, 1, 120) && Sha256Text(k.checksum)
    && OpaqueId(k.receipt) && !k.classification.Restricted? && Read(cal, k.observedAt)
    && (k.expiresAt.Some? ==> Read(cal, k.expiresAt.value))
  }

  predicate NormalIdea(cal: Calendar, i: Idea) {
    && OpaqueId(i.id) && NormalContent(i.content) && BoundedText(i.sourceVersion, 1, 120) && ValidRefs(i.evidenceRefs)
    && !i.classification.Restricted? && Read(cal, i.createdAt) && Read(cal, i.expiresAt)
  }

  lemma {:induction false} PlainUnits(s: string)
    requires forall k :: 0 <= k < |s| ==> '0' <= s[k] <= '9'
    ensures Units(s) == |s| && NoNul(s)
  {
    if s != [] {
      PlainUnits(s[..|s| - 1]);
      assert s == s[..|s| - 1] + [s[|s| - 1]];
    }
  }

  lemma {:induction false} VersionText(n: nat)
    requires n <= MAX_SAFE_INTEGER
    ensures BoundedText(NatText(n), 1, 120)
  {
    PlainUnits(NatText(n));
    DigitsAreMonotone(n, MAX_SAFE_INTEGER);
    SixteenDigits();
    hide NatText, Digits;
  }

  lemma {:induction false} SummaryId()
    ensures OpaqueId("conversation-summary")
  {
  }

  lemma {:induction false} SummaryIsValid(cal: Calendar, state: State, now: int)
    requires state.stateVersion <= MAX_SAFE_INTEGER
    ensures var c := SummaryCandidate(cal, state, now); c.Some? ==> ValidCandidate(cal, now, c.value)
  {
    VersionText(state.stateVersion);
    SummaryId();
    hide NatText, NormalContent, OpaqueId, BoundedText;
  }

  lemma {:induction false} FactIsValid(cal: Calendar, state: State, now: int, fact: Fact)
    requires state.stateVersion <= MAX_SAFE_INTEGER
    ensures var o := FactCandidate(cal, state, now, fact); o.Offer? ==> ValidCandidate(cal, now, o.candidate)
  {
    VersionText(state.stateVersion);
    if UuidText(fact.evidenceId) {
      UuidIsPlain(fact.evidenceId);
    }
    hide NatText, NormalContent, OpaqueId, BoundedText, UuidText;
  }

  lemma {:induction false} KnowledgeIsValid(cal: Calendar, input: Input, now: int, k: Knowledge)
    requires NormalKnowledge(cal, k)
    ensures var c := KnowledgeCandidate(input, now, k); c.Some? ==> ValidCandidate(cal, now, c.value)
  {
    hide NormalContent, OpaqueId, BoundedText, Sha256Text;
  }

  lemma {:induction false} IdeaIsValid(cal: Calendar, input: Input, now: int, i: Idea)
    requires NormalIdea(cal, i)
    ensures var c := IdeaCandidate(input, now, i); c.Some? ==> ValidCandidate(cal, now, c.value)
  {
    hide NormalContent, OpaqueId, BoundedText, ValidRefs;
  }

  lemma {:induction false} FactsAreValid(cal: Calendar, state: State, now: int, n: nat)
    requires n <= |state.facts| && state.stateVersion <= MAX_SAFE_INTEGER && FactCandidates(cal, state, now, n).Some?
    ensures AllValid(cal, now, FactCandidates(cal, state, now, n).value) && |FactCandidates(cal, state, now, n).value| <= n
  {
    hide FactCandidate, ValidCandidate;
    if n > 0 {
      FactsAreValid(cal, state, now, n - 1);
      FactIsValid(cal, state, now, state.facts[n - 1]);
    }
  }

  lemma {:induction false} CatalogIsValid(cal: Calendar, input: Input, now: int, catalog: seq<Knowledge>, n: nat)
    requires n <= |catalog| && forall i :: 0 <= i < |catalog| ==> NormalKnowledge(cal, catalog[i])
    ensures AllValid(cal, now, KnowledgeCandidates(input, now, catalog, n)) && |KnowledgeCandidates(input, now, catalog, n)| <= n
  {
    hide KnowledgeCandidate, ValidCandidate, NormalKnowledge;
    if n > 0 {
      CatalogIsValid(cal, input, now, catalog, n - 1);
      KnowledgeIsValid(cal, input, now, catalog[n - 1]);
    }
  }

  lemma {:induction false} IdeasAreValid(cal: Calendar, input: Input, now: int, ideas: seq<Idea>, n: nat)
    requires n <= |ideas| && forall i :: 0 <= i < |ideas| ==> NormalIdea(cal, ideas[i])
    ensures AllValid(cal, now, IdeaCandidates(input, now, ideas, n)) && |IdeaCandidates(input, now, ideas, n)| <= n
  {
    hide IdeaCandidate, ValidCandidate, NormalIdea;
    if n > 0 {
      IdeasAreValid(cal, input, now, ideas, n - 1);
      IdeaIsValid(cal, input, now, ideas[n - 1]);
    }
  }

  /** The bounds of the domain and the factories: at most 200 facts and 64 records of either kind. */
  ghost predicate NormalSources(cal: Calendar, input: Input, catalog: seq<Knowledge>, ideas: seq<Idea>) {
    && WellFormed(input) && |input.state.facts| <= 200 && |catalog| <= 64 && |ideas| <= 64
    && (forall i :: 0 <= i < |catalog| ==> NormalKnowledge(cal, catalog[i]))
    && (forall i :: 0 <= i < |ideas| ==> NormalIdea(cal, ideas[i]))
  }

  lemma {:induction false} CandidatesAreValid(cal: Calendar, input: Input, catalog: seq<Knowledge>, ideas: seq<Idea>, now: int)
    requires NormalSources(cal, input, catalog, ideas) && Candidates(cal, input, catalog, ideas, now).Some?
    ensures AllValid(cal, now, Candidates(cal, input, catalog, ideas, now).value)
    ensures |Candidates(cal, input, catalog, ideas, now).value| <= 329
  {
    hide SummaryCandidate, ValidCandidate, FactCandidates, KnowledgeCandidates, IdeaCandidates;
    SummaryIsValid(cal, input.state, now);
    FactsAreValid(cal, input.state, now, |input.state.facts|);
    CatalogIsValid(cal, input, now, catalog, |catalog|);
    IdeasAreValid(cal, input, now, ideas, |ideas|);
  }

  lemma {:induction false} UniqueIsNoLonger(sorted: seq<Candidate>, n: nat)
    requires n <= |sorted|
    ensures |Unique(sorted, n)| <= n
  {
    hide HasIdentity;
    if n > 0 {
      UniqueIsNoLonger(sorted, n - 1);
    }
  }

  lemma {:induction false} ValidExpire(cal: Calendar, now: int, s: seq<Candidate>)
    requires Faithful(cal) && AllValid(cal, now, s) && now >= 0
    ensures Expiring(s)
  {
    hide ValidEntry, ObservedMs;
  }

  /** A whole composition: it fails only for a clock beyond the last date; it is within its byte budget; its
      entries are an ordered part of the de-duplicated candidates, every one of which is selected or counted; and
      the strict reader accepts it, unchanged, exactly when its own time and its first expiry lie within the
      year 9999. */
  lemma {:induction false} CompositionIsAccepted(cal: Calendar, input: Input, catalog: seq<Knowledge>, ideas: seq<Idea>, now: int)
      returns (p: Progress)
    requires Faithful(cal) && NormalSources(cal, input, catalog, ideas) && now >= 0
    requires Candidates(cal, input, catalog, ideas, now).Some?
    ensures var unique := UniqueSorted(Candidates(cal, input, catalog, ideas, now).value);
            var composition := Build(cal, input, p.selected, p.omitted, now);
            && Compose(cal, input, unique, now) == (if now <= LAST_DATE then Some(composition) else None)
            && Subsequence(p.selected, unique) && |p.selected| + p.omitted == |unique|
            && (now <= LAST_DATE ==>
                  && SerializedBytes(composition) <= input.maxBytes
                  && (Accepts(cal, composition)
                      <==> now <= LAST_MILLISECOND
                           && (FirstExpiry(p.selected).Some? ==> FirstExpiry(p.selected).value <= LAST_MILLISECOND)))
  {
    hide *;
    var candidates := Candidates(cal, input, catalog, ideas, now).value;
    var unique := UniqueSorted(candidates);
    CandidatesAreValid(cal, input, catalog, ideas, now);
    UniqueSortedFacts(cal, now, candidates);
    assert WellFormed(input) by { SourcesAreWellFormed(cal, input, catalog, ideas); }
    ValidExpire(cal, now, unique);
    p := CompositionFits(cal, input, unique, now);
    SelectedFacts(cal, now, p.selected, unique);
    if now <= LAST_DATE {
      assert Writable(now) by { IsWritable(now); }
      ReaderAccepts(cal, input, p.selected, p.omitted, now);
      assert BytesOf(cal, input, p.selected, p.omitted, now) == SerializedBytes(Build(cal, input, p.selected, p.omitted, now)) by {
        BytesAreSerialized(cal, input, p, now);
      }
    }
  }

  // ---------------------------------------------------------------- what the caller can tell beforehand

  /** No source expires after the year 9999. */
  predicate ExpireInTime(cal: Calendar, input: Input, catalog: seq<Knowledge>, ideas: seq<Idea>) {
    && (forall i :: 0 <= i < |input.state.facts| && input.state.facts[i].expiresAt.Some? ==>
          var t := cal.parse(input.state.facts[i].expiresAt.value); t.Some? ==> t.value <= LAST_MILLISECOND)
    && (forall i :: 0 <= i < |catalog| && catalog[i].expiresAt.Some? ==> catalog[i].expiresAt.value.ms <= LAST_MILLISECOND)
    && (forall i :: 0 <= i < |ideas| ==> ideas[i].expiresAt.ms <= LAST_MILLISECOND)
  }

  lemma {:induction false} LastDateIsLater()
    ensures LAST_MILLISECOND < LAST_DATE
  {
  }

  predicate InTime(c: Candidate) {
    c.expiresMs.Some? ==> c.expiresMs.value <= LAST_MILLISECOND
  }

  lemma {:induction false} FactsInTime(cal: Calendar, input: Input, catalog: seq<Knowledge>, ideas: seq<Idea>, now: int, n: nat)
    requires ExpireInTime(cal, input, catalog, ideas) && n <= |input.state.facts| && FactCandidates(cal, input.state, now, n).Some?
    ensures forall c :: c in FactCandidates(cal, input.state, now, n).value ==> InTime(c)
  {
    hide NormalContent, UuidText, NatText;
    if n > 0 {
      FactsInTime(cal, input, catalog, ideas, now, n - 1);
    }
  }

  lemma {:induction false} CatalogInTime(cal: Calendar, input: Input, catalog: seq<Knowledge>, ideas: seq<Idea>, now: int, n: nat)
    requires ExpireInTime(cal, input, catalog, ideas) && n <= |catalog|
    ensures forall c :: c in KnowledgeCandidates(input, now, catalog, n) ==> InTime(c)
  {
    if n > 0 {
      CatalogInTime(cal, input, catalog, ideas, now, n - 1);
    }
  }

  lemma {:induction false} IdeasInTime(cal: Calendar, input: Input, catalog: seq<Knowledge>, ideas: seq<Idea>, now: int, n: nat)
    requires ExpireInTime(cal, input, catalog, ideas) && n <= |ideas|
    ensures forall c :: c in IdeaCandidates(input, now, ideas, n) ==> InTime(c)
  {
    if n > 0 {
      IdeasInTime(cal, input, catalog, ideas, now, n - 1);
    }
  }

  ghost predicate AllInTime(s: seq<Candidate>) {
    forall c :: c in s ==> InTime(c)
  }

  lemma {:induction false} CandidatesInTime(cal: Calendar, input: Input, catalog: seq<Knowledge>, ideas: seq<Idea>, now: int)
    requires ExpireInTime(cal, input, catalog, ideas) && Candidates(cal, input, catalog, ideas, now).Some?
    ensures AllInTime(Candidates(cal, input, catalog, ideas, now).value)
  {
    FactsInTime(cal, input, catalog, ideas, now, |input.state.facts|);
    CatalogInTime(cal, input, catalog, ideas, now, |catalog|);
    IdeasInTime(cal, input, catalog, ideas, now, |ideas|);
    hide FactCandidates, KnowledgeCandidates, IdeaCandidates, ExpireInTime, NormalContent;
  }

  lemma {:induction false} UniqueInTime(candidates: seq<Candidate>)
    requires AllInTime(candidates)
    ensures AllInTime(UniqueSorted(candidates))
  {
    UniqueFacts(candidates);
    hide UniqueSorted, InTime, InOrder, OneEach, HasIdentity, IdentityOf;
  }

  lemma {:induction false} FirstExpiryInTime(s: seq<Candidate>, t: seq<Candidate>)
    requires Subsequence(s, t) && AllInTime(t)
    ensures FirstExpiry(s).Some? ==> FirstExpiry(s).value <= LAST_MILLISECOND
  {
    SubsequenceMembers(s, t);
    FirstExpiryIsListed(s);
    hide Subsequence, FirstExpiry;
  }

  lemma {:induction false} SelectedInTime(cal: Calendar, input: Input, catalog: seq<Knowledge>, ideas: seq<Idea>, now: int, s: seq<Candidate>)
    requires ExpireInTime(cal, input, catalog, ideas) && Candidates(cal, input, catalog, ideas, now).Some?
    requires Subsequence(s, UniqueSorted(Candidates(cal, input, catalog, ideas, now).value))
    ensures FirstExpiry(s).Some? ==> FirstExpiry(s).value <= LAST_MILLISECOND
  {
    hide *;
    CandidatesInTime(cal, input, catalog, ideas, now);
    UniqueInTime(Candidates(cal, input, catalog, ideas, now).value);
    FirstExpiryInTime(s, UniqueSorted(Candidates(cal, input, catalog, ideas, now).value));
  }

  /** When no source expires after the year 9999, a composition is produced and accepted exactly when the clock
      stands within that year. */
  lemma {:induction false} InTimeIsAccepted(cal: Calendar, input: Input, catalog: seq<Knowledge>, ideas: seq<Idea>, now: int)
    requires Faithful(cal) && NormalSources(cal, input, catalog, ideas) && now >= 0
    requires Candidates(cal, input, catalog, ideas, now).Some? && ExpireInTime(cal, input, catalog, ideas)
    ensures var r := Compose(cal, input, UniqueSorted(Candidates(cal, input, catalog, ideas, now).value), now);
            (r.Some? && Accepts(cal, r.value)) <==> now <= LAST_MILLISECOND
  {
    hide *;
    LastDateIsLater();
    var p := CompositionIsAccepted(cal, input, catalog, ideas, now);
    SelectedInTime(cal, input, catalog, ideas, now, p.selected);
  }

  /** What a part of the list needs, the whole list needs too. */
  lemma {:induction false} PartNeedsNoMore(cal: Calendar, input: Input, s: seq<Candidate>, now: int, n: nat)
    requires Faithful(cal) && Expiring(s) && n <= |s|
    ensures BytesOf(cal, input, s[..n], 0, now) <= BytesOf(cal, input, s, 0, now)
    decreases |s|
  {
    hide BytesOf, FixedBytes, VariableBytes, Faithful;
    if n == |s| {
      assert s[..n] == s;
    } else {
      var rest, c := s[..|s| - 1], s[|s| - 1];
      assert rest + [c] == s && rest[..n] == s[..n];
      PartNeedsNoMore(cal, input, rest, now, n);
      hide Expiring;
      EntryCosts(cal, rest, c, 0);
      BytesSplit(cal, input, rest, 0, now);
      BytesSplit(cal, input, s, 0, now);
    }
  }

  lemma {:induction false} GreedyTakesAll(cal: Calendar, input: Input, s: seq<Candidate>, now: int, n: nat)
    requires Faithful(cal) && Expiring(s) && n <= |s| <= MAX_OUTPUT_ENTRIES
    requires BytesOf(cal, input, s, 0, now) <= input.maxBytes
    ensures Greedy(cal, input, s, now, n) == Progress(s[..n], 0)
  {
    hide BytesOf, Faithful, Expiring;
    if n > 0 {
      GreedyTakesAll(cal, input, s, now, n - 1);
      assert s[..n - 1] + [s[n - 1]] == s[..n];
      PartNeedsNoMore(cal, input, s, now, n);
    }
  }

  /** A list that fits as a whole is composed as a whole. */
  lemma {:induction false} WholeListIsComposed(cal: Calendar, input: Input, s: seq<Candidate>, now: int)
    requires Faithful(cal) && Expiring(s) && |s| <= MAX_OUTPUT_ENTRIES && 0 <= now <= LAST_DATE
    requires BytesOf(cal, input, s, 0, now) <= input.maxBytes
    ensures Compose(cal, input, s, now) == Some(Build(cal, input, s, 0, now))
  {
    hide BytesOf, Faithful, Expiring, Build, Greedy;
    GreedyTakesAll(cal, input, s, now, |s|);
    assert s[..|s|] == s;
    assert Repair(cal, input, Progress(s, 0), now) == Progress(s, 0);
  }

  /** No candidate of the list expires, or one does within the year 9999. */
  ghost predicate SomeInTime(s: seq<Candidate>) {
    (exists c :: c in s && c.expiresMs.Some?) ==> exists c :: c in s && c.expiresMs.Some? && InTime(c)
  }

  lemma {:induction false} FirstExpiryDecides(s: seq<Candidate>)
    ensures (FirstExpiry(s).Some? ==> FirstExpiry(s).value <= LAST_MILLISECOND) <==> SomeInTime(s)
  {
    FirstExpiryIsListed(s);
    hide FirstExpiry;
    if FirstExpiry(s).Some? {
      if FirstExpiry(s).value <= LAST_MILLISECOND {
        var c :| c in s && c.expiresMs == FirstExpiry(s);
        assert InTime(c);
      } else if SomeInTime(s) {
        var c :| c in s && c.expiresMs.Some? && InTime(c);
      }
    }
  }

  /** When the de-duplicated candidates fit the budget together, all of them are selected, and the composition is
      accepted exactly when the clock stands within the year 9999 and so does the first of their expiries: none of
      them expires, or one does by then. */
  lemma {:induction false} WholeListIsAccepted(cal: Calendar, input: Input, catalog: seq<Knowledge>, ideas: seq<Idea>, now: int)
    requires Faithful(cal) && NormalSources(cal, input, catalog, ideas) && now >= 0
    requires Candidates(cal, input, catalog, ideas, now).Some?
    requires var unique := UniqueSorted(Candidates(cal, input, catalog, ideas, now).value);
             |unique| <= MAX_OUTPUT_ENTRIES && BytesOf(cal, input, unique, 0, now) <= input.maxBytes
    ensures var unique := UniqueSorted(Candidates(cal, input, catalog, ideas, now).value);
            var r := Compose(cal, input, unique, now);
            && (r == if now <= LAST_DATE then Some(Build(cal, input, unique, 0, now)) else None)
            && ((r.Some? && Accepts(cal, r.value)) <==> now <= LAST_MILLISECOND && SomeInTime(unique))
  {
    hide *;
    LastDateIsLater();
    var candidates := Candidates(cal, input, catalog, ideas, now).value;
    var unique := UniqueSorted(candidates);
    CandidatesAreValid(cal, input, catalog, ideas, now);
    UniqueSortedFacts(cal, now, candidates);
    SourcesAreWellFormed(cal, input, catalog, ideas);
    ValidExpire(cal, now, unique);
    if now <= LAST_DATE {
      IsWritable(now);
      WholeListIsComposed(cal, input, unique, now);
      ReaderAccepts(cal, input, unique, 0, now);
      FirstExpiryDecides(unique);
    } else {
      var p := CompositionFits(cal, input, unique, now);
    }
  }

  /** A source that expires after the year 9999, as one does at 9999-12-31T23:59:59-14:00, alone among the
      candidates: at an ordinary time its composition is produced and then refused. */
  lemma {:induction false} LateExpiryIsRefused(cal: Calendar, input: Input, idea: Idea, now: int)
    requires Faithful(cal) && NormalSources(cal, input, [], [idea]) && input.state.facts == [] && 0 <= now <= LAST_MILLISECOND
    requires SummaryCandidate(cal, input.state, now).None? && IdeaCandidate(input, now, idea).Some?
    requires idea.expiresAt.ms > LAST_MILLISECOND
    requires BytesOf(cal, input, [IdeaCandidate(input, now, idea).value], 0, now) <= input.maxBytes
    ensures Candidates(cal, input, [], [idea], now) == Some([IdeaCandidate(input, now, idea).value])
    ensures var r := Compose(cal, input, UniqueSorted([IdeaCandidate(input, now, idea).value]), now);
            r.Some? && r.value.entries != [] && !Accepts(cal, r.value)
  {
    hide *;
    LastDateIsLater();
    var c := IdeaCandidate(input, now, idea).value;
    IdeaExpires(input, now, idea);
    OnlyIdea(cal, input, idea, now);
    OneCandidate(c);
    WholeListIsAccepted(cal, input, [], [idea], now) by { OneIsFew(c); }
    LateAlone(cal, input, c, now);
  }

  lemma {:induction false} OneIsFew(c: Candidate)
    ensures |[c]| <= MAX_OUTPUT_ENTRIES
  {
  }

  lemma {:induction false} LateAlone(cal: Calendar, input: Input, c: Candidate, now: int)
    requires c.expiresMs.Some? && c.expiresMs.value > LAST_MILLISECOND
    ensures !SomeInTime([c]) && Build(cal, input, [c], 0, now).entries != []
  {
    hide Entries, FirstExpiry, ContentBytes;
    assert c in [c];
  }

  lemma {:induction false} IdeaExpires(input: Input, now: int, idea: Idea)
    ensures var c := IdeaCandidate(input, now, idea); c.Some? ==> c.value.expiresMs == Some(idea.expiresAt.ms)
  {
  }

  lemma {:induction false} OnlyIdea(cal: Calendar, input: Input, idea: Idea, now: int)
    requires input.state.facts == [] && SummaryCandidate(cal, input.state, now).None? && IdeaCandidate(input, now, idea).Some?
    ensures Candidates(cal, input, [], [idea], now) == Some([IdeaCandidate(input, now, idea).value])
  {
    hide SummaryCandidate, IdeaCandidate;
    assert IdeaCandidates(input, now, [idea], 0) == [];
    var c := IdeaCandidate(input, now, idea).value;
    assert [] + [c] == [c];
    assert IdeaCandidates(input, now, [idea], 1) == [c];
    assert [] + [] + [] + [c] == [c];
    assert KnowledgeCandidates(input, now, [], 0) == [] && FactCandidates(cal, input.state, now, 0) == Some([]);
  }

  lemma {:induction false} OneCandidate(c: Candidate)
    ensures UniqueSorted([c]) == [c]
  {
    assert Sorted([c], 0) == [] && Sorted([c], 1) == [c];
    assert Unique([c], 0) == [] && !HasIdentity([], IdentityOf(c.entry));
  }

  lemma {:induction false} BytesAreSerialized(cal: Calendar, input: Input, p: Progress, now: int)
    ensures BytesOf(cal, input, p.selected, p.omitted, now) == SerializedBytes(Build(cal, input, p.selected, p.omitted, now))
  {
    hide SerializedBytes, Build;
  }

  lemma {:induction false} SourcesAreWellFormed(cal: Calendar, input: Input, catalog: seq<Knowledge>, ideas: seq<Idea>)
    requires NormalSources(cal, input, catalog, ideas)
    ensures WellFormed(input)
  {
    hide WellFormed, NormalKnowledge, NormalIdea;
  }

  lemma {:induction false} UniqueSortedFacts(cal: Calendar, now: int, candidates: seq<Candidate>)
    requires AllValid(cal, now, candidates)
    ensures var u := UniqueSorted(candidates);
            AllValid(cal, now, u) && InOrder(u) && OneEach(u) && |u| <= |candidates|
  {
    hide ValidCandidate, InOrder, OneEach, Sorted, Unique, HasIdentity;
    UniqueFacts(candidates);
    SortedSize(candidates, |candidates|);
    UniqueIsNoLonger(Sorted(candidates, |candidates|), |candidates|);
  }

  lemma {:induction false} SelectedFacts(cal: Calendar, now: int, s: seq<Candidate>, unique: seq<Candidate>)
    requires Subsequence(s, unique) && AllValid(cal, now, unique) && InOrder(unique) && OneEach(unique) && Expiring(unique)
    ensures AllValid(cal, now, s) && InOrder(s) && OneEach(s) && Expiring(s)
  {
    hide Subsequence, ValidCandidate, InOrder, OneEach;
    SubsequenceMembers(s, unique);
    SubsequenceKeepsOrder(s, unique);
  }

  /** Past the year 9999 even a composition without entries is refused by the reader it was made for, and past
      the last date none is made. */
  lemma {:induction false} LateClockIsRefused(cal: Calendar, input: Input, now: int)
    requires Faithful(cal) && WellFormed(input) && input.state.facts == [] && now > LAST_MILLISECOND
    ensures var r := Compose(cal, input, UniqueSorted(ListOf(SummaryCandidate(cal, input.state, now))), now);
            (r.Some? <==> now <= LAST_DATE) && (r.Some? ==> !Accepts(cal, r.value))
  {
    hide Accepts, Compose, UniqueSorted, SummaryCandidate;
    assert NormalSources(cal, input, [], []);
    var summary := ListOf(SummaryCandidate(cal, input.state, now));
    assert Candidates(cal, input, [], [], now) == Some(summary) by { assert summary + [] + [] + [] == summary; }
    var p := CompositionIsAccepted(cal, input, [], [], now);
  }

  // ---------------------------------------------------------------- the reader's loops

  method CheckEntries(cal: Calendar, entries: seq<Entry>, composedAt: int) returns (ok: bool)
    ensures ok <==> forall e :: e in entries ==> ValidEntry(cal, e) && Alive(cal, e, composedAt)
  {
    hide ValidEntry, Alive;
    var i := 0;
    while i < |entries|
      invariant i <= |entries|
      invariant forall k :: 0 <= k < i ==> ValidEntry(cal, entries[k]) && Alive(cal, entries[k], composedAt)
    {
      if !ValidEntry(cal, entries[i]) || !Alive(cal, entries[i], composedAt) {
        return false;
      }
      i := i + 1;
    }
    return true;
  }

  method CheckOrder(cal: Calendar, entries: seq<Entry>) returns (ok: bool)
    ensures ok <==> EntriesOrdered(cal, entries)
  {
    hide Precedes, IdentityOf, EntryKey;
    var seen: set<Identity> := {};
    var i := 0;
    while i < |entries|
      invariant i <= |entries|
      invariant forall id :: id in seen <==> exists k :: 0 <= k < i && IdentityOf(entries[k]) == id
      invariant forall j, k :: 0 <= j < k < i ==> IdentityOf(entries[j]) != IdentityOf(entries[k])
      invariant forall j, k :: 0 <= j < k < i && k == j + 1 ==> Precedes(EntryKey(cal, entries[j]), EntryKey(cal, entries[k]))
    {
      var key := IdentityOf(entries[i]);
      if key in seen {
        return false;
      }
      seen := seen + {key};
      if i > 0 && !Precedes(EntryKey(cal, entries[i - 1]), EntryKey(cal, entries[i])) {
        return false;
      }
      i := i + 1;
    }
    return true;
  }

  /** Returns what it was given, or nothing. */
  method ParseContextComposition(cal: Calendar, c: Composition) returns (r: Option<Composition>)
    ensures r == if Accepts(cal, c) then Some(c) else None
  {
    hide UuidText, ValidEntry, Alive, EntriesOrdered, EarliestExpiry, ContentBytes, SerializedBytes;
    if c.schemaVersion != SCHEMA_VERSION || !UuidText(c.tenantId) || !UuidText(c.sessionId)
       || c.contextVersion > MAX_SAFE_INTEGER || c.maxContextBytes < MIN_CONTEXT_BYTES || c.maxContextBytes > MAX_CONTEXT_BYTES
       || c.contentBytesUsed > MAX_CONTEXT_BYTES || c.omittedEntryCount > 512 {
      return None;
    }
    var composedAt := cal.parse(c.composedAt);
    var expiresAt := if c.expiresAt.None? then None else cal.parse(c.expiresAt.value);
    if composedAt.None? || (c.expiresAt.Some? && expiresAt.None?) || |c.entries| > MAX_OUTPUT_ENTRIES {
      return None;
    }
    var valid := CheckEntries(cal, c.entries, composedAt.value);
    var ordered := CheckOrder(cal, c.entries);
    if !valid || !ordered || EarliestExpiry(cal, c.entries) != expiresAt {
      return None;
    }
    var composition := Composition(SCHEMA_VERSION, c.tenantId, c.sessionId, c.contextVersion, c.maxContextBytes,
                                   c.contentBytesUsed, c.omittedEntryCount, c.composedAt, c.expiresAt, c.entries);
    if ContentBytes(c.entries) != composition.contentBytesUsed || SerializedBytes(composition) > composition.maxContextBytes {
      return None;
    }
    return Some(composition);
  }
}
