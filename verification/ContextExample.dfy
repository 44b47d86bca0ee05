/** A composition that is produced and refused, with everything spelled out: the conditions on composer and reader
    can be met, and the one on expiries is needed. */
module ContextExample {

  import opened ContextComposer
  import opened ContextEntries
  import opened Encoding
  import opened TextOrder
  import opened Wrappers
  import FixedPoint

  const WIDTH := 24

  /** The last second of the year 9999 where clocks are fourteen hours behind. */
  const LATE_TEXT := "9999-12-31T23:59:59-14:00"
  const LATE_MS := 253_402_351_199_000

  /** A calendar that writes instants as 24 digits. */
  function WriteInstant(ms: int): string {
    if ms < 0 then "" else FixedPoint.PadStart(FixedPoint.ToDecimal(ms), WIDTH)
  }

  function ReadInstant(text: string): Option<int> {
    if text == LATE_TEXT then Some(LATE_MS)
    else if |text| == WIDTH && FixedPoint.AllDigits(text) && FixedPoint.ValueOf(text) <= LAST_MILLISECOND then
      Some(FixedPoint.ValueOf(text))
    else None
  }

  const CALENDAR := Calendar(text => ReadInstant(text), ms => WriteInstant(ms))

  lemma {:induction false} WrittenInstant(ms: nat)
    requires ms <= LAST_DATE
    ensures var text := WriteInstant(ms);
            |text| == WIDTH && FixedPoint.AllDigits(text) && FixedPoint.ValueOf(text) == ms && PlainText(text) && text != LATE_TEXT
  {
    DatesAreShort();
    assert !FixedPoint.IsDigit(LATE_TEXT[4]);
    hide FixedPoint.Pow10, FixedPoint.ValueOf, FixedPoint.ToDecimal, FixedPoint.PadStart;
    FixedPoint.StrippedLength(FixedPoint.ToDecimal(ms), WIDTH);
  }

  lemma {:induction false} DatesAreShort()
    ensures LAST_DATE < FixedPoint.Pow10(WIDTH)
  {
    assert FixedPoint.Pow10(8) == 100_000_000;
    FixedPoint.Pow10Sum(8, 8);
    FixedPoint.Pow10Monotone(16, WIDTH);
  }

  lemma {:induction false} CalendarIsFaithful()
    ensures Faithful(CALENDAR)
  {
    forall ms | Writable(ms)
      ensures 24 <= |CALENDAR.format(ms)| <= 27 && PlainText(CALENDAR.format(ms))
      ensures CALENDAR.parse(CALENDAR.format(ms)) == if ms <= LAST_MILLISECOND then Some(ms) else None
    {
      WrittenInstant(ms);
      hide WriteInstant;
    }
  }

  const SOMEONE := "00000000-0000-7000-8000-000000000000"

  const QUESTION := Input(State(1, "role", "1", "", "", []), SOMEONE, SOMEONE, MAX_CONTEXT_BYTES)

  /** A suggestion that expires at the late instant. */
  const SUGGESTION := Idea("idea", SOMEONE, SOMEONE, 1, false, "Hello", Confidence("0.5"), [], "1", Internal,
                           Stamp(WriteInstant(0), 0), Stamp(LATE_TEXT, LATE_MS), true, Granted)

  lemma {:induction false} ShortText(s: string)
    requires 1 <= |s| <= 100 && forall k :: 0 <= k < |s| ==> ' ' <= s[k] <= '~'
    ensures NormalContent(s) && BoundedText(s, 1, 120)
  {
    PrintableSize(s);
  }

  lemma {:induction false} PrintableSize(s: string)
    requires forall k :: 0 <= k < |s| ==> ' ' <= s[k] <= '~'
    ensures Units(s) == |s| && Utf8Bytes(s) == |s| && NoNul(s)
  {
    if s != [] {
      PrintableSize(s[..|s| - 1]);
      assert s == s[..|s| - 1] + [s[|s| - 1]];
    }
  }

  lemma {:induction false} Texts()
    ensures NormalContent("Hello") && BoundedText("1", 1, 120) && OpaqueId("idea") && !NormalContent("")
  {
    ShortText("Hello");
    ShortText("1");
    hide NormalContent, BoundedText;
    assert !NormalContent("") by { EmptyIsNotNormal(); }
  }

  lemma {:induction false} EmptyIsNotNormal()
    ensures !NormalContent("")
  {
  }

  lemma {:induction false} SomeoneIsUuid()
    ensures UuidText(SOMEONE)
  {
    assert |SOMEONE| == 36;
  }

  lemma {:induction false} Instants()
    ensures CALENDAR.parse(LATE_TEXT) == Some(LATE_MS) && CALENDAR.parse(WriteInstant(0)) == Some(0)
    ensures |WriteInstant(0)| == WIDTH && |LATE_TEXT| == 25
  {
    WrittenInstant(0);
    hide WriteInstant;
  }

  lemma {:induction false} SuggestionIsNormal()
    ensures NormalIdea(CALENDAR, SUGGESTION)
  {
    Texts();
    Instants();
    hide CALENDAR, LATE_TEXT, NormalContent, BoundedText, OpaqueId, WriteInstant, ReadInstant, SOMEONE;
    assert ValidRefs([]);
    hide ValidRefs;
  }

  lemma {:induction false} SourcesAreNormal()
    ensures NormalSources(CALENDAR, QUESTION, [], [SUGGESTION])
  {
    SomeoneIsUuid();
    SuggestionIsNormal();
    hide CALENDAR, SUGGESTION, NormalIdea, UuidText, SOMEONE;
  }

  /** The suggestion as an entry. */
  const OFFERED: Entry :=
    Entry(Suggestion, Uncertain, "Hello", Internal, Some(Confidence("0.5")),
          Provenance(SuggestionSnapshot, "idea", "1", None, [], WriteInstant(0), Some(LATE_TEXT)))

  lemma {:induction false} SuggestionIsOffered()
    ensures IdeaCandidate(QUESTION, 1_000, SUGGESTION) == Some(Candidate(OFFERED, 3, 0, Some(LATE_MS)))
  {
    hide WriteInstant, LATE_TEXT, SOMEONE;
  }

  lemma {:induction false} NoSummary()
    ensures SummaryCandidate(CALENDAR, QUESTION.state, 1_000).None?
  {
    assert !NormalContent(QUESTION.state.summary) by { EmptyIsNotNormal(); }
    hide NormalContent, CALENDAR;
  }

  lemma {:induction false} OfferedIsSmall()
    ensures EntryBytes(OFFERED) <= 1_000 && Utf8Bytes(OFFERED.content) <= 100
  {
    Instants();
    hide WriteInstant, InnerBytes, CALENDAR, LATE_TEXT, Utf8Bytes;
    AtMostSixPerCharacter("Hello");
    InnerCoversUtf8("Hello");
    AtMostSixPerCharacter("idea");
    AtMostSixPerCharacter("1");
    AtMostSixPerCharacter(LATE_TEXT);
    AtMostSixPerCharacter(WriteInstant(0));
    assert RefsBytes([]) == 0;
  }

  /** How little one small entry adds to a composition without entries. */
  lemma {:induction false} SmallEntryAdds(cal: Calendar, c: Candidate)
    requires Faithful(cal) && (c.expiresMs.Some? ==> Writable(c.expiresMs.value))
    requires EntryBytes(c.entry) <= 1_000 && Utf8Bytes(c.entry.content) <= 100
    ensures VariableBytes(cal, [c], 0) <= VariableBytes(cal, [], 0) + 1_100
  {
    OneMoreEntry([], c);
    assert [] + [c] == [c];
    DigitsAreMonotone(Utf8Bytes(c.entry.content), 100);
    assert Digits(100) == 3;
    ExpiryBytesRange(cal, c.expiresMs);
    hide EntryBytes, Utf8Bytes, Faithful, Digits, StringBytes, OptionalStringBytes;
    assert FirstExpiry([]) == None && Entries([]) == [] && EntriesBytes([]) == 0 && ContentBytes([]) == 0;
    assert FirstExpiry([c]) == c.expiresMs;
    SmallSum(cal, c);
  }

  lemma {:induction false} SmallSum(cal: Calendar, c: Candidate)
    requires EntriesBytes(Entries([c])) <= 1_000 && Digits(ContentBytes(Entries([c]))) <= 3
    requires FirstExpiry([c]) == c.expiresMs && ExpiryBytes(cal, c.expiresMs) <= 29
    ensures VariableBytes(cal, [c], 0) <= VariableBytes(cal, [], 0) + 1_100
  {
    hide EntriesBytes, Entries, Digits, ContentBytes, FirstExpiry, StringBytes, OptionalStringBytes;
  }

  lemma {:induction false} BudgetDigits(cal: Calendar, input: Input, s: seq<Candidate>, now: int)
    ensures BytesOf(cal, input.(maxBytes := MAX_CONTEXT_BYTES), s, 0, now)
            <= BytesOf(cal, input.(maxBytes := MIN_CONTEXT_BYTES), s, 0, now) + 5
  {
    SixteenDigits();
    hide Digits, StringBytes, EntriesBytes, ContentBytes, FirstExpiry, Entries;
  }

  lemma {:induction false} SmallEntryFits(cal: Calendar, input: Input, c: Candidate, now: int)
    requires Faithful(cal) && WellFormed(input) && Writable(now) && input.maxBytes == MAX_CONTEXT_BYTES
    requires EntryBytes(c.entry) <= 1_000 && Utf8Bytes(c.entry.content) <= 100 && (c.expiresMs.Some? ==> Writable(c.expiresMs.value))
    ensures BytesOf(cal, input, [c], 0, now) <= MAX_CONTEXT_BYTES
  {
    var small := input.(maxBytes := MIN_CONTEXT_BYTES);
    assert WellFormed(small) && input.(maxBytes := MAX_CONTEXT_BYTES) == input;
    hide BytesOf, FixedBytes, VariableBytes, EntryBytes, Utf8Bytes, Faithful, WellFormed;
    NothingFits(cal, small, 0, now);
    SmallEntryAdds(cal, c);
    BytesSplit(cal, small, [], 0, now);
    BytesSplit(cal, small, [c], 0, now);
    BudgetDigits(cal, input, [c], now);
  }

  lemma {:induction false} QuestionIsWellFormed()
    ensures WellFormed(QUESTION) && QUESTION.maxBytes == MAX_CONTEXT_BYTES && QUESTION.state.facts == []
  {
    SourcesAreNormal();
    SourcesAreWellFormed(CALENDAR, QUESTION, [], [SUGGESTION]);
    hide WellFormed, SOMEONE;
  }

  lemma {:induction false} SuggestionExpiresLate()
    ensures SUGGESTION.expiresAt.ms == LATE_MS && Writable(1_000) && Writable(LATE_MS) && 1_000 <= LAST_MILLISECOND < LATE_MS
  {
    hide WriteInstant, LATE_TEXT, SOMEONE;
  }

  /** At an ordinary time this composition is produced and then refused. */
  lemma {:induction false} LateExpiryHappens()
    ensures Faithful(CALENDAR) && NormalSources(CALENDAR, QUESTION, [], [SUGGESTION])
    ensures Candidates(CALENDAR, QUESTION, [], [SUGGESTION], 1_000).Some?
    ensures var r := Compose(CALENDAR, QUESTION, UniqueSorted(Candidates(CALENDAR, QUESTION, [], [SUGGESTION], 1_000).value), 1_000);
            r.Some? && r.value.entries != [] && !Accepts(CALENDAR, r.value)
  {
    hide *;
    CalendarIsFaithful();
    SourcesAreNormal();
    SuggestionIsOffered();
    OfferedIsSmall();
    NoSummary();
    QuestionIsWellFormed();
    SuggestionExpiresLate();
    SmallEntryFits(CALENDAR, QUESTION, Candidate(OFFERED, 3, 0, Some(LATE_MS)), 1_000);
    LateExpiryIsRefused(CALENDAR, QUESTION, SUGGESTION, 1_000);
  }
}
