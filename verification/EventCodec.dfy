/** The event codec: events with a canonical payload text inside a contract envelope. */
module EventCodec {

  import opened CanonicalJson
  import opened JsonText
  import opened TextOrder
  import opened Wrappers

  // ---------------------------------------------------------------- payload shapes

  /** How a payload is checked and rebuilt: scalars by a predicate, lists item by item within bounds, records
      with exactly the listed members, rebuilt in the listed order and then checked as a whole. */
  datatype Shape =
    | Scalar(accepts: Value -> bool)
    | ListOf(element: Shape, least: nat, most: nat)
    | RecordOf(members: Members, check: Fields -> bool)

  datatype Members = NoMembers | MemberShape(name: string, shape: Shape, rest: Members)

  predicate Named(ms: Members, name: string) {
    ms.MemberShape? && (ms.name == name || Named(ms.rest, name))
  }

  predicate AllNamed(f: Fields, ms: Members) {
    f.Field? ==> Named(ms, f.key) && AllNamed(f.rest, ms)
  }

  predicate AllPresent(ms: Members, f: Fields) {
    ms.MemberShape? ==> Has(f, ms.name) && AllPresent(ms.rest, f)
  }

  function Count(t: Items): nat {
    if t.NoItems? then 0 else 1 + Count(t.tail)
  }

  function Normalize(shape: Shape, v: Value): Option<Value>
    decreases shape, v
  {
    match shape
    case Scalar(accepts) => if !v.List? && !v.Record? && accepts(v) then Some(v) else None
    case ListOf(element, least, most) =>
      if !v.List? || Count(v.items) < least || Count(v.items) > most then None
      else
        var items := NormalizeItems(element, v.items);
        if items.None? then None else Some(List(items.value))
    case RecordOf(members, check) =>
      if !v.Record? || !AllPresent(members, v.fields) || !AllNamed(v.fields, members) then None
      else
        var fields := NormalizeMembers(members, v.fields);
        if fields.None? || !check(fields.value) then None else Some(Record(fields.value))
  }

  function NormalizeItems(element: Shape, t: Items): Option<Items>
    decreases element, t
  {
    if t.NoItems? then Some(NoItems)
    else
      var head, tail := Normalize(element, t.head), NormalizeItems(element, t.tail);
      if head.None? || tail.None? then None else Some(Item(head.value, tail.value))
  }

  /** The listed members taken from the fields, in the listed order. */
  function NormalizeMembers(ms: Members, f: Fields): Option<Fields>
    requires AllPresent(ms, f)
    decreases ms, f
  {
    if ms.NoMembers? then Some(NoFields)
    else
      var value, rest := Normalize(ms.shape, Get(f, ms.name)), NormalizeMembers(ms.rest, f);
      if value.None? || rest.None? then None else Some(Field(ms.name, value.value, rest.value))
  }

  /** No record names a member twice or lists `__proto__`, and what scalars accept has a text. */
  ghost predicate Proper(shape: Shape) {
    match shape
    case Scalar(accepts) => forall v :: accepts(v) && v.Number? ==> Numeral(v.numeral)
    case ListOf(element, _, _) => Proper(element)
    case RecordOf(members, _) => ProperMembers(members)
  }

  ghost predicate ProperMembers(ms: Members) {
    ms.MemberShape? ==> ms.name != PROTO && !Named(ms.rest, ms.name) && Proper(ms.shape) && ProperMembers(ms.rest)
  }

  // ---------------------------------------------------------------- what normalizing gives

  lemma {:induction false} NormalHas(ms: Members, f: Fields, name: string)
    requires AllPresent(ms, f) && NormalizeMembers(ms, f).Some?
    ensures Has(NormalizeMembers(ms, f).value, name) <==> Named(ms, name)
  {
    hide Normalize;
    if ms.MemberShape? {
      NormalHas(ms.rest, f, name);
    }
  }

  lemma {:induction false} NormalIsWellFormed(shape: Shape, v: Value)
    requires Proper(shape) && Normalize(shape, v).Some?
    ensures WellFormed(Normalize(shape, v).value) && AllVisible(Normalize(shape, v).value)
    decreases shape, v
  {
    match shape
    case Scalar(accepts) =>
    case ListOf(element, _, _) => NormalItemsAreWellFormed(element, v.items);
    case RecordOf(members, _) => NormalMembersAreWellFormed(members, v.fields);
  }

  lemma {:induction false} NormalItemsAreWellFormed(element: Shape, t: Items)
    requires Proper(element) && NormalizeItems(element, t).Some?
    ensures WellFormedItems(NormalizeItems(element, t).value) && AllVisibleItems(NormalizeItems(element, t).value)
    decreases element, t
  {
    hide Normalize, WellFormed, AllVisible, Proper;
    if t.Item? {
      NormalIsWellFormed(element, t.head);
      NormalItemsAreWellFormed(element, t.tail);
    }
  }

  lemma {:induction false} NormalMembersAreWellFormed(ms: Members, f: Fields)
    requires ProperMembers(ms) && AllPresent(ms, f) && NormalizeMembers(ms, f).Some?
    ensures WellFormedFields(NormalizeMembers(ms, f).value) && AllVisibleFields(NormalizeMembers(ms, f).value)
    decreases ms, f
  {
    hide Normalize, WellFormed, AllVisible, Proper;
    if ms.MemberShape? {
      NormalIsWellFormed(ms.shape, Get(f, ms.name));
      NormalMembersAreWellFormed(ms.rest, f);
      NormalHas(ms.rest, f, ms.name);
    }
  }

  // ---------------------------------------------------------------- only the meaning counts

  lemma {:induction false} MeaningGet(f: Fields, k: string)
    requires WellFormedFields(f) && Has(f, k)
    ensures k in MeaningOfFields(f) && MeaningOfFields(f)[k] == MeaningOf(Get(f, k)) && WellFormed(Get(f, k))
  {
    hide MeaningOf, WellFormed;
    if f.key != k {
      MeaningGet(f.rest, k);
    }
  }

  lemma {:induction false} PresentByHas(ms: Members, f: Fields, g: Fields)
    requires forall k :: Has(f, k) <==> Has(g, k)
    ensures AllPresent(ms, f) <==> AllPresent(ms, g)
  {
    hide Has;
    if ms.MemberShape? {
      PresentByHas(ms.rest, f, g);
    }
  }

  lemma {:induction false} NamedWhenHas(f: Fields, ms: Members, k: string)
    requires AllNamed(f, ms) && Has(f, k)
    ensures Named(ms, k)
  {
    if f.key != k {
      NamedWhenHas(f.rest, ms, k);
    }
  }

  lemma {:induction false} AllNamedWhenHas(f: Fields, ms: Members)
    requires forall k :: Has(f, k) ==> Named(ms, k)
    ensures AllNamed(f, ms)
  {
    hide Named;
    if f.Field? {
      assert Has(f, f.key);
      forall k | Has(f.rest, k)
        ensures Named(ms, k)
      {
        assert Has(f, k);
      }
      AllNamedWhenHas(f.rest, ms);
    }
  }

  ghost predicate EachNamed(f: Fields, ms: Members) {
    forall k :: Has(f, k) ==> Named(ms, k)
  }

  lemma {:induction false} NamedByHas(f: Fields, ms: Members)
    ensures AllNamed(f, ms) <==> EachNamed(f, ms)
  {
    if AllNamed(f, ms) {
      forall k | Has(f, k)
        ensures Named(ms, k)
      {
        NamedWhenHas(f, ms, k);
      }
    }
    if EachNamed(f, ms) {
      AllNamedWhenHas(f, ms);
    }
  }

  lemma {:induction false} SameMembers(f: Fields, g: Fields, ms: Members)
    requires MeaningOfFields(f) == MeaningOfFields(g)
    ensures forall k :: Has(f, k) <==> Has(g, k)
    ensures (AllPresent(ms, f) <==> AllPresent(ms, g)) && (AllNamed(f, ms) <==> AllNamed(g, ms))
  {
    hide Has, Named, AllPresent, AllNamed, MeaningOfFields;
    forall k
      ensures Has(f, k) <==> Has(g, k)
    {
      MeaningHas(f, k);
      MeaningHas(g, k);
    }
    PresentByHas(ms, f, g);
    NamedByHas(f, ms);
    NamedByHas(g, ms);
  }

  /** Normalizing depends on a value only up to the order of members. */
  lemma {:induction false} NormalizeByMeaning(shape: Shape, a: Value, b: Value)
    requires WellFormed(a) && WellFormed(b) && MeaningOf(a) == MeaningOf(b)
    ensures Normalize(shape, a) == Normalize(shape, b)
    decreases shape, a
  {
    match shape
    case Scalar(accepts) => ScalarByMeaning(a, b);
    case ListOf(element, _, _) =>
      if a.List? {
        ItemsByMeaning(element, a.items, b.items);
      }
    case RecordOf(members, _) =>
      if a.Record? {
        SameMembers(a.fields, b.fields, members);
        if AllPresent(members, a.fields) {
          MembersByMeaning(members, a.fields, b.fields);
        }
      }
  }

  lemma {:induction false} ScalarByMeaning(a: Value, b: Value)
    requires MeaningOf(a) == MeaningOf(b)
    ensures (a.List? <==> b.List?) && (a.Record? <==> b.Record?)
    ensures !a.List? && !a.Record? ==> a == b
  {
  }

  lemma {:induction false} ItemsByMeaning(element: Shape, s: Items, t: Items)
    requires WellFormedItems(s) && WellFormedItems(t) && MeaningOfItems(s) == MeaningOfItems(t)
    ensures Count(s) == Count(t) && NormalizeItems(element, s) == NormalizeItems(element, t)
    decreases element, s
  {
    hide Normalize, MeaningOf, WellFormed;
    if s.Item? && t.Item? {
      var a, b := MeaningOfItems(s), MeaningOfItems(t);
      assert a[0] == MeaningOf(s.head) && b[0] == MeaningOf(t.head);
      assert a[1..] == MeaningOfItems(s.tail) && b[1..] == MeaningOfItems(t.tail);
      NormalizeByMeaning(element, s.head, t.head);
      ItemsByMeaning(element, s.tail, t.tail);
    }
  }

  lemma {:induction false} MembersByMeaning(ms: Members, f: Fields, g: Fields)
    requires WellFormedFields(f) && WellFormedFields(g) && MeaningOfFields(f) == MeaningOfFields(g)
    requires AllPresent(ms, f) && AllPresent(ms, g)
    ensures NormalizeMembers(ms, f) == NormalizeMembers(ms, g)
    decreases ms, f
  {
    hide Normalize, MeaningOf, WellFormed, WellFormedFields, MeaningOfFields, Get, Has;
    if ms.MemberShape? {
      MeaningGet(f, ms.name);
      MeaningGet(g, ms.name);
      NormalizeByMeaning(ms.shape, Get(f, ms.name), Get(g, ms.name));
      MembersByMeaning(ms.rest, f, g);
    }
  }

  // ---------------------------------------------------------------- normal values stay as they are

  lemma {:induction false} NormalIsStable(shape: Shape, v: Value)
    requires Proper(shape) && Normalize(shape, v).Some?
    ensures Normalize(shape, Normalize(shape, v).value) == Normalize(shape, v)
    decreases shape, v
  {
    match shape
    case Scalar(accepts) =>
    case ListOf(element, _, _) => NormalItemsAreStable(element, v.items);
    case RecordOf(members, _) =>
      var n := NormalizeMembers(members, v.fields).value;
      NormalKeysMatch(members, v.fields);
      AgreeOnMembers(members, n, v.fields);
      NormalMembersAreStable(members, v.fields, n);
  }

  lemma {:induction false} NormalItemsAreStable(element: Shape, t: Items)
    requires Proper(element) && NormalizeItems(element, t).Some?
    ensures var n := NormalizeItems(element, t).value;
            Count(n) == Count(t) && NormalizeItems(element, n) == Some(n)
    decreases element, t
  {
    hide Normalize, Proper;
    if t.Item? {
      NormalIsStable(element, t.head);
      NormalItemsAreStable(element, t.tail);
    }
  }

  lemma {:induction false} NormalKeysMatch(ms: Members, f: Fields)
    requires AllPresent(ms, f) && NormalizeMembers(ms, f).Some?
    ensures AllPresent(ms, NormalizeMembers(ms, f).value) && AllNamed(NormalizeMembers(ms, f).value, ms)
  {
    hide Normalize, NormalizeMembers, AllPresent, AllNamed;
    var n := NormalizeMembers(ms, f).value;
    forall k
      ensures Has(n, k) <==> Named(ms, k)
    {
      NormalHas(ms, f, k);
    }
    NamedByHas(n, ms);
    PresentByNames(ms, n);
  }

  lemma {:induction false} PresentByNames(ms: Members, f: Fields)
    requires forall k :: Named(ms, k) ==> Has(f, k)
    ensures AllPresent(ms, f)
  {
    hide Has;
    if ms.MemberShape? {
      assert forall k :: Named(ms.rest, k) ==> Named(ms, k);
      assert Named(ms, ms.name);
      PresentByNames(ms.rest, f);
    }
  }

  /** In `n`, each member of `ms` holds its normalized value from `f`. */
  ghost predicate HoldsNormal(ms: Members, n: Fields, f: Fields) {
    ms.MemberShape? ==>
      && Has(n, ms.name) && Has(f, ms.name) && Normalize(ms.shape, Get(f, ms.name)) == Some(Get(n, ms.name))
      && HoldsNormal(ms.rest, n, f)
  }

  lemma {:induction false} AgreeOnMembers(ms: Members, n: Fields, f: Fields)
    requires ProperMembers(ms) && AllPresent(ms, f) && NormalizeMembers(ms, f) == Some(n)
    ensures HoldsNormal(ms, n, f)
  {
    hide Normalize, Proper;
    if ms.MemberShape? {
      AgreeOnMembers(ms.rest, n.rest, f);
      HoldsBehind(ms.rest, n.rest, f, ms.name, n.value);
    }
  }

  lemma {:induction false} HoldsBehind(ms: Members, n: Fields, f: Fields, name: string, value: Value)
    requires HoldsNormal(ms, n, f) && !Named(ms, name)
    ensures HoldsNormal(ms, Field(name, value, n), f)
  {
    hide Normalize;
    if ms.MemberShape? {
      HoldsBehind(ms.rest, n, f, name, value);
    }
  }

  lemma {:induction false} NormalMembersAreStable(ms: Members, f: Fields, n: Fields)
    requires ProperMembers(ms) && AllPresent(ms, f) && AllPresent(ms, n) && HoldsNormal(ms, n, f)
    requires NormalizeMembers(ms, f).Some?
    ensures NormalizeMembers(ms, n) == NormalizeMembers(ms, f)
    decreases ms, f
  {
    hide Normalize, Proper, Get, Has;
    if ms.MemberShape? {
      NormalIsStable(ms.shape, Get(f, ms.name));
      NormalMembersAreStable(ms.rest, f, n);
    }
  }

  // ---------------------------------------------------------------- events

  datatype Header = Header(schemaVersion: string, eventId: string, eventType: string, eventVersion: nat, aggregateType: string,
                           aggregateId: string, aggregateVersion: nat, tenantId: string, sessionId: string, producer: string,
                           traceId: string, correlationId: string, causationId: Option<string>, classification: string,
                           occurredAt: string)

  datatype Event = Event(header: Header, payload: Value)
  datatype Envelope = Envelope(header: Header, payloadJson: string)

  /** The field-by-field header checks, and the payload shape of each kind of event. */
  datatype Rules = Rules(headerOk: Header -> bool, shapeFor: Header -> Option<Shape>)

  ghost predicate ProperRules(rules: Rules) {
    forall h :: rules.shapeFor(h).Some? ==> rules.shapeFor(h).value.RecordOf? && Proper(rules.shapeFor(h).value)
  }

  predicate ValidHeader(rules: Rules, h: Header) {
    && rules.headerOk(h) && h.eventVersion == 1 && h.aggregateVersion >= 1
    && h.aggregateType == "interaction_session" && h.aggregateId == h.sessionId
    && (h.eventType == "turn.committed" ==> h.classification == "restricted")
    && (h.eventType == "turn.outcome_recorded" ==> h.classification == "internal")
  }

  /** Checks an event and rebuilds its payload. */
  function ParseEvent(rules: Rules, e: Event): Option<Event> {
    var shape := rules.shapeFor(e.header);
    if !ValidHeader(rules, e.header) || shape.None? then None
    else
      var payload := Normalize(shape.value, e.payload);
      if payload.None? then None else Some(Event(e.header, payload.value))
  }

  const LONGEST_PAYLOAD := 250_000

  function Encode(rules: Rules, e: Event): Option<Envelope> {
    var parsed := ParseEvent(rules, e);
    if parsed.None? then None else Some(Envelope(parsed.value.header, CanonicalText(parsed.value.payload)))
  }

  function Decode(rules: Rules, envelope: Envelope): Option<Event> {
    if Units(envelope.payloadJson) < 2 || Units(envelope.payloadJson) > LONGEST_PAYLOAD then None
    else
      var payload := Parse(envelope.payloadJson);
      if payload.None? then None else ParseEvent(rules, Event(envelope.header, payload.value))
  }

  lemma {:induction false} UnitsAtLeastLength(s: string)
    ensures Units(s) >= |s|
  {
    if s != [] {
      UnitsAtLeastLength(s[..|s| - 1]);
    }
  }

  lemma {:induction false} RecordTextIsLong(f: Fields)
    ensures Units(CanonicalText(Record(f))) >= 2
  {
    hide WriteFields, WriteMember, CanonFields;
    UnitsAtLeastLength(CanonicalText(Record(f)));
    hide Units;
    var g := CanonFields(f);
    if g.Field? {
      WritesClose(g.rest);
    }
  }

  lemma {:induction false} WritesClose(f: Fields)
    ensures |WriteFields(f)| >= 1
  {
    hide WriteMember;
  }

  /** Normalized payloads survive the canonical text. */
  lemma {:induction false} PayloadSurvives(shape: Shape, v: Value)
    requires Proper(shape) && Normalize(shape, v).Some?
    ensures var n := Normalize(shape, v).value;
            Parse(CanonicalText(n)).Some? && Normalize(shape, Parse(CanonicalText(n)).value) == Some(n)
  {
    hide Normalize, Proper, CanonicalText, Parse, Canon, MeaningOf, WellFormed, AllVisible;
    var n := Normalize(shape, v).value;
    NormalIsWellFormed(shape, v);
    NormalIsStable(shape, v);
    ParseCanonicalText(n);
    AllVisibleIsVisible(n);
    CanonIsCanonical(n);
    NormalizeByMeaning(shape, Canon(n), n);
  }

  /** Decoding an encoded event gives the normalized event exactly when its payload text is no longer than the
      decoder allows; a longer one is encoded all the same, and then refused. */
  lemma {:induction false} DecodeInvertsEncode(rules: Rules, e: Event)
    requires ProperRules(rules) && Encode(rules, e).Some?
    ensures ParseEvent(rules, e).Some?
    ensures Units(Encode(rules, e).value.payloadJson) <= LONGEST_PAYLOAD ==> Decode(rules, Encode(rules, e).value) == ParseEvent(rules, e)
    ensures Units(Encode(rules, e).value.payloadJson) > LONGEST_PAYLOAD ==> Decode(rules, Encode(rules, e).value) == None
  {
    hide Normalize, Proper, CanonicalText, Parse, Units, ValidHeader;
    var shape := rules.shapeFor(e.header).value;
    assert Proper(shape) && shape.RecordOf?;
    PayloadSurvives(shape, e.payload);
    var n := Normalize(shape, e.payload).value;
    assert n.Record? by { NormalOfRecord(shape, e.payload); }
    RecordTextIsLong(n.fields);
  }

  lemma {:induction false} NormalOfRecord(shape: Shape, v: Value)
    requires shape.RecordOf? && Normalize(shape, v).Some?
    ensures Normalize(shape, v).value.Record?
  {
  }

  /** Payloads equal up to the order of members are encoded alike, and different ones differently. */
  lemma {:induction false} EncodingsAreEqual(rules: Rules, a: Event, b: Event)
    requires ProperRules(rules) && a.header == b.header && WellFormed(a.payload) && WellFormed(b.payload)
    ensures MeaningOf(a.payload) == MeaningOf(b.payload) ==> Encode(rules, a) == Encode(rules, b)
    ensures Encode(rules, a).Some? && Encode(rules, a) == Encode(rules, b) ==> ParseEvent(rules, a) == ParseEvent(rules, b)
  {
    hide Normalize, Proper, CanonicalText, MeaningOf, WellFormed, ValidHeader, AllVisible, Canon;
    var shape := rules.shapeFor(a.header);
    if shape.Some? {
      if MeaningOf(a.payload) == MeaningOf(b.payload) {
        NormalizeByMeaning(shape.value, a.payload, b.payload);
      }
      if Encode(rules, a).Some? && Encode(rules, a) == Encode(rules, b) {
        assert Proper(shape.value);
        PayloadSurvives(shape.value, a.payload);
        PayloadSurvives(shape.value, b.payload);
      }
    }
  }

  // ---------------------------------------------------------------- logs

  function ParseAll(rules: Rules, log: seq<Event>): Option<seq<Event>> {
    if log == [] then Some([])
    else
      var before, last := ParseAll(rules, log[..|log| - 1]), ParseEvent(rules, log[|log| - 1]);
      if before.None? || last.None? then None else Some(before.value + [last.value])
  }

  function EncodeAll(rules: Rules, log: seq<Event>): Option<seq<Envelope>> {
    if log == [] then Some([])
    else
      var before, last := EncodeAll(rules, log[..|log| - 1]), Encode(rules, log[|log| - 1]);
      if before.None? || last.None? then None else Some(before.value + [last.value])
  }

  function DecodeAll(rules: Rules, envelopes: seq<Envelope>): Option<seq<Event>> {
    if envelopes == [] then Some([])
    else
      var before, last := DecodeAll(rules, envelopes[..|envelopes| - 1]), Decode(rules, envelopes[|envelopes| - 1]);
      if before.None? || last.None? then None else Some(before.value + [last.value])
  }

  ghost predicate AllShort(envelopes: seq<Envelope>) {
    forall i :: 0 <= i < |envelopes| ==> Units(envelopes[i].payloadJson) <= LONGEST_PAYLOAD
  }

  /** A stored log decodes to the very events that were validated when it was written, in order; it decodes at all
      exactly when every payload is short enough. */
  lemma {:induction false} LogSurvives(rules: Rules, log: seq<Event>)
    requires ProperRules(rules) && EncodeAll(rules, log).Some?
    ensures AllShort(EncodeAll(rules, log).value) ==>
              DecodeAll(rules, EncodeAll(rules, log).value) == ParseAll(rules, log)
    ensures DecodeAll(rules, EncodeAll(rules, log).value).Some? <==> AllShort(EncodeAll(rules, log).value)
    ensures ParseAll(rules, log).Some?
  {
    hide ParseEvent, Encode, Decode, ProperRules, Units;
    if log != [] {
      var n := |log| - 1;
      LogSurvives(rules, log[..n]);
      DecodeInvertsEncode(rules, log[n]);
      var before, last := EncodeAll(rules, log[..n]).value, Encode(rules, log[n]).value;
      assert (before + [last])[..|before|] == before;
      ShortSnoc(before, last);
    }
  }

  lemma {:induction false} ShortSnoc(before: seq<Envelope>, last: Envelope)
    ensures AllShort(before + [last]) <==> AllShort(before) && Units(last.payloadJson) <= LONGEST_PAYLOAD
  {
    hide Units;
    assert (before + [last])[|before|] == last;
    assert forall i :: 0 <= i < |before| ==> (before + [last])[i] == before[i];
  }
}
