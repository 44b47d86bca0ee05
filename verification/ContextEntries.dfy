/** Context entries: their validity, their order, and the bytes their JSON takes. */
module ContextEntries {

  import opened Encoding
  import opened TextOrder
  import opened Wrappers

  datatype Kind = ConversationSummary | ConfirmedFact | ApprovedKnowledge | Suggestion | Hypothesis
  datatype Trust = Confirmed | Uncertain | Untrusted
  datatype SourceKind = InteractionState | KnowledgeCatalog | SuggestionSnapshot
  datatype Classification = PublicData | Internal | Confidential | Restricted

  /** A confidence between 0 and 1, by the text JSON writes for it. */
  datatype Confidence = Confidence(text: string)

  datatype Provenance = Provenance(sourceKind: SourceKind, sourceId: string, sourceVersion: string, checksum: Option<string>,
                                   evidenceRefs: seq<string>, observedAt: string, expiresAt: Option<string>)

  datatype Entry = Entry(kind: Kind, trust: Trust, content: string, classification: Classification,
                         confidence: Option<Confidence>, provenance: Provenance)

  datatype Composition = Composition(schemaVersion: string, tenantId: string, sessionId: string, contextVersion: nat,
                                     maxContextBytes: nat, contentBytesUsed: nat, omittedEntryCount: nat,
                                     composedAt: string, expiresAt: Option<string>, entries: seq<Entry>)

  const SCHEMA_VERSION := "2.0.0"
  const MIN_CONTEXT_BYTES := 1_024
  const MAX_CONTEXT_BYTES := 12_000
  const MAX_OUTPUT_ENTRIES := 128
  const MAX_CONTENT := 5_000
  const MAX_SAFE_INTEGER := 9_007_199_254_740_991

  /** The last millisecond of the year 9999. */
  const LAST_MILLISECOND := 253_402_300_799_999

  // ---------------------------------------------------------------- time

  /** Reading a timestamp (`Date.parse` behind the RFC 3339 checks) and writing one (`toISOString`). */
  datatype Calendar = Calendar(parse: string -> Option<int>, format: int -> string)

  /** The last instant a date can hold; writing a later one is a range error. */
  const LAST_DATE := 8_640_000_000_000_000

  predicate Writable(ms: int) {
    0 <= ms <= LAST_DATE
  }

  /** Writing from 1970 on is read back up to the year 9999; later years are written with a sign and more
      digits, which the reader refuses. What is read is a date. */
  ghost predicate Faithful(cal: Calendar) {
    && (forall ms :: Writable(ms) ==>
          && 24 <= |cal.format(ms)| <= 27 && PlainText(cal.format(ms))
          && cal.parse(cal.format(ms)) == if ms <= LAST_MILLISECOND then Some(ms) else None)
    && (forall text :: cal.parse(text).Some? ==> cal.parse(text).value <= LAST_DATE)
  }

  // ---------------------------------------------------------------- text

  /** The bytes one character takes inside a JSON string. */
  function EscapedBytes(c: char): (n: nat)
    ensures CharBytes(c) <= n <= 6
  {
    if c == '"' || c == '\\' then 2
    else if c == '\U{8}' || c == '\t' || c == '\n' || c == '\U{C}' || c == '\r' then 2
    else if c < ' ' then 6
    else CharBytes(c)
  }

  function InnerBytes(s: string): nat {
    if s == [] then 0 else InnerBytes(s[..|s| - 1]) + EscapedBytes(s[|s| - 1])
  }

  function StringBytes(s: string): nat {
    2 + InnerBytes(s)
  }

  lemma {:induction false} InnerCoversUtf8(s: string)
    ensures Utf8Bytes(s) <= InnerBytes(s)
  {
    if s != [] {
      InnerCoversUtf8(s[..|s| - 1]);
    }
  }

  /** Printable ASCII without quote or backslash: no character is escaped. */
  predicate PlainText(s: string) {
    forall k :: 0 <= k < |s| ==> ' ' <= s[k] <= '~' && s[k] != '"' && s[k] != '\\'
  }

  lemma {:induction false} PlainTextBytes(s: string)
    requires PlainText(s)
    ensures InnerBytes(s) == |s|
  {
    if s != [] {
      PlainTextBytes(s[..|s| - 1]);
    }
  }

  lemma {:induction false} AtMostSixPerCharacter(s: string)
    ensures InnerBytes(s) <= 6 * |s|
  {
    if s != [] {
      AtMostSixPerCharacter(s[..|s| - 1]);
    }
  }

  predicate NoNul(s: string) {
    '\U{0}' !in s
  }

  predicate NormalContent(s: string) {
    1 <= Units(s) <= MAX_CONTENT && NoNul(s) && Utf8Bytes(s) <= MAX_CONTENT
  }

  predicate BoundedText(s: string, low: nat, high: nat) {
    low <= Units(s) <= high && NoNul(s)
  }

  predicate OpaqueChar(c: char) {
    'A' <= c <= 'Z' || 'a' <= c <= 'z' || '0' <= c <= '9' || c == '.' || c == '_' || c == ':' || c == '-'
  }

  predicate OpaqueId(s: string) {
    1 <= |s| <= 200 && forall k :: 0 <= k < |s| ==> OpaqueChar(s[k])
  }

  predicate Sha256Text(s: string) {
    |s| == 64 && forall k :: 0 <= k < |s| ==> IsHexDigit(s[k])
  }

  /** The canonical 36-character form of an identifier. */
  predicate UuidText(s: string) {
    |s| == 36 && forall k :: 0 <= k < 36 ==> if k == 8 || k == 13 || k == 18 || k == 23 then s[k] == '-' else IsHexDigit(s[k])
  }

  lemma {:induction false} UuidIsPlain(s: string)
    requires UuidText(s)
    ensures OpaqueId(s) && PlainText(s)
  {
  }

  // ---------------------------------------------------------------- bytes of a composition

  function Digits(n: nat): (d: nat)
    ensures d >= 1
  {
    if n < 10 then 1 else 1 + Digits(n / 10)
  }

  lemma {:induction false} DigitsAreMonotone(a: nat, b: nat)
    requires a <= b
    ensures Digits(a) <= Digits(b)
  {
    if a >= 10 {
      DigitsAreMonotone(a / 10, b / 10);
    }
  }

  /** `"key":value,` without the comma. */
  function MemberBytes(key: string, value: nat): nat {
    |key| + 3 + value
  }

  function OptionalStringBytes(s: Option<string>): nat {
    if s.None? then 4 else StringBytes(s.value)
  }

  function RefsBytes(refs: seq<string>): nat {
    if refs == [] then 0 else RefsBytes(refs[..|refs| - 1]) + StringBytes(refs[|refs| - 1])
  }

  function Commas(n: nat): nat {
    if n == 0 then 0 else n - 1
  }

  function KindText(k: Kind): string {
    match k
    case ConversationSummary => "conversation_summary"
    case ConfirmedFact => "confirmed_fact"
    case ApprovedKnowledge => "approved_knowledge"
    case Suggestion => "suggestion"
    case Hypothesis => "hypothesis"
  }

  function TrustText(t: Trust): string {
    match t case Confirmed => "confirmed" case Uncertain => "uncertain" case Untrusted => "untrusted"
  }

  function SourceText(s: SourceKind): string {
    match s
    case InteractionState => "interaction_state"
    case KnowledgeCatalog => "approved_knowledge_catalog"
    case SuggestionSnapshot => "server_owned_suggestion_snapshot"
  }

  function ClassificationText(c: Classification): string {
    match c
    case PublicData => "public"
    case Internal => "internal"
    case Confidential => "confidential"
    case Restricted => "restricted"
  }

  function ProvenanceBytes(p: Provenance): nat {
    2 + 6 + MemberBytes("source_kind", 2 + |SourceText(p.sourceKind)|) + MemberBytes("source_id", StringBytes(p.sourceId))
    + MemberBytes("source_version", StringBytes(p.sourceVersion)) + MemberBytes("checksum_sha256", OptionalStringBytes(p.checksum))
    + MemberBytes("evidence_refs", 2 + RefsBytes(p.evidenceRefs) + Commas(|p.evidenceRefs|))
    + MemberBytes("observed_at", StringBytes(p.observedAt)) + MemberBytes("expires_at", OptionalStringBytes(p.expiresAt))
  }

  function EntryBytes(e: Entry): nat {
    2 + 5 + MemberBytes("kind", 2 + |KindText(e.kind)|) + MemberBytes("trust_level", 2 + |TrustText(e.trust)|)
    + MemberBytes("content", StringBytes(e.content))
    + MemberBytes("data_classification", 2 + |ClassificationText(e.classification)|)
    + MemberBytes("confidence", if e.confidence.None? then 4 else |e.confidence.value.text|)
    + MemberBytes("provenance", ProvenanceBytes(e.provenance))
  }

  function EntriesBytes(entries: seq<Entry>): nat {
    if entries == [] then 0 else EntriesBytes(entries[..|entries| - 1]) + EntryBytes(entries[|entries| - 1])
  }

  function ContentBytes(entries: seq<Entry>): nat {
    if entries == [] then 0 else ContentBytes(entries[..|entries| - 1]) + Utf8Bytes(entries[|entries| - 1].content)
  }

  /** The length of the composition's JSON text in UTF-8. */
  function SerializedBytes(c: Composition): nat {
    2 + 9 + MemberBytes("schema_version", StringBytes(c.schemaVersion)) + MemberBytes("tenant_id", StringBytes(c.tenantId))
    + MemberBytes("session_id", StringBytes(c.sessionId)) + MemberBytes("context_version", Digits(c.contextVersion))
    + MemberBytes("max_context_bytes", Digits(c.maxContextBytes)) + MemberBytes("content_bytes_used", Digits(c.contentBytesUsed))
    + MemberBytes("omitted_entry_count", Digits(c.omittedEntryCount)) + MemberBytes("composed_at", StringBytes(c.composedAt))
    + MemberBytes("expires_at", OptionalStringBytes(c.expiresAt))
    + MemberBytes("entries", 2 + EntriesBytes(c.entries) + Commas(|c.entries|))
  }

  /** Any entry takes a hundred bytes and more. */
  lemma EntryIsLarge(e: Entry)
    ensures EntryBytes(e) >= 100 && EntryBytes(e) >= Utf8Bytes(e.content)
  {
    InnerCoversUtf8(e.content);
    hide InnerBytes, Utf8Bytes, KindText, TrustText, SourceText, ClassificationText, RefsBytes;
  }

  lemma {:induction false} ContentFitsEntries(entries: seq<Entry>)
    ensures ContentBytes(entries) <= EntriesBytes(entries)
  {
    hide EntryBytes, Utf8Bytes;
    if entries != [] {
      ContentFitsEntries(entries[..|entries| - 1]);
      EntryIsLarge(entries[|entries| - 1]);
    }
  }

  // ---------------------------------------------------------------- order

  function Rank(k: Kind): nat {
    match k
    case ConversationSummary => 0
    case ConfirmedFact => 1
    case ApprovedKnowledge => 2
    case Suggestion => 3
    case Hypothesis => 4
  }

  /** What entries are sorted by: kind, then latest first, then three texts. */
  datatype SortKey = SortKey(rank: nat, observed: int, sourceId: string, sourceVersion: string, content: string)

  predicate ThreeTextsLeq(a: SortKey, b: SortKey) {
    || TextLess(a.sourceId, b.sourceId)
    || (TextLeq(a.sourceId, b.sourceId) && TextLess(a.sourceVersion, b.sourceVersion))
    || (TextLeq(a.sourceId, b.sourceId) && TextLeq(a.sourceVersion, b.sourceVersion) && TextLeq(a.content, b.content))
  }

  predicate Precedes(a: SortKey, b: SortKey) {
    || a.rank < b.rank
    || (a.rank == b.rank && (a.observed > b.observed || (a.observed == b.observed && ThreeTextsLeq(a, b))))
  }

  lemma {:induction false} PrecedesIsTotal(a: SortKey, b: SortKey)
    ensures Precedes(a, b) || Precedes(b, a)
  {
    hide TextLeq;
    TextOrderIsTotal(a.sourceId, b.sourceId);
    TextOrderIsTotal(a.sourceVersion, b.sourceVersion);
    TextOrderIsTotal(a.content, b.content);
  }

  lemma {:induction false} PrecedesIsTransitive(a: SortKey, b: SortKey, c: SortKey)
    requires Precedes(a, b) && Precedes(b, c)
    ensures Precedes(a, c)
  {
    hide TextLeq, TextLess;
    TextsAreTransitive(a.sourceId, b.sourceId, c.sourceId);
    TextsAreTransitive(a.sourceVersion, b.sourceVersion, c.sourceVersion);
    TextsAreTransitive(a.content, b.content, c.content);
  }
}
