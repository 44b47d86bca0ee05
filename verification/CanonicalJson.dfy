/** Canonical JSON: records written with their members in one fixed order. */
module CanonicalJson {

  import opened JsonText
  import opened TextOrder
  import opened Wrappers

  // ---------------------------------------------------------------- the order of members

  function DigitsValue(s: string): nat {
    if s == [] || !('0' <= s[|s| - 1] <= '9') then 0 else DigitsValue(s[..|s| - 1]) * 10 + (s[|s| - 1] as int - '0' as int)
  }

  const LAST_INDEX := 4_294_967_294

  /** Member names that are array indices, which objects list first and in numeric order. */
  function IndexOf(key: string): Option<nat> {
    if key == [] || |key| > 10 || exists i :: 0 <= i < |key| && !('0' <= key[i] <= '9') then None
    else if |key| > 1 && key[0] == '0' then None
    else if DigitsValue(key) > LAST_INDEX then None
    else Some(DigitsValue(key))
  }

  /** Array indices by number, then all other names by their text. */
  predicate Before(a: string, b: string) {
    var i, j := IndexOf(a), IndexOf(b);
    if i.Some? && j.Some? then i.value < j.value || (i.value == j.value && TextLess(a, b))
    else if i.Some? || j.Some? then i.Some?
    else TextLess(a, b)
  }

  lemma {:induction false} BeforeIsTotal(a: string, b: string)
    ensures a != b ==> Before(a, b) || Before(b, a)
    ensures !(Before(a, b) && Before(b, a))
  {
    hide IndexOf, TextLeq;
    TextOrderIsTotal(a, b);
    if TextLeq(a, b) && TextLeq(b, a) {
      TextOrderIsAntisymmetric(a, b);
    }
  }

  lemma {:induction false} BeforeIsTransitive(a: string, b: string, c: string)
    requires Before(a, b) && Before(b, c)
    ensures Before(a, c)
  {
    hide IndexOf, TextLeq, TextLess;
    TextsAreTransitive(a, b, c);
  }

  // ---------------------------------------------------------------- canonical form

  /** The one name that assigning to sets the prototype instead of a member. */
  const PROTO := "__proto__"

  function Insert(sorted: Fields, key: string, value: Value): Fields {
    if sorted.NoFields? || Before(key, sorted.key) then Field(key, value, sorted)
    else Field(sorted.key, sorted.value, Insert(sorted.rest, key, value))
  }

  function Canon(v: Value): Value {
    match v
    case List(items) => List(CanonItems(items))
    case Record(fields) => Record(CanonFields(fields))
    case _ => v
  }

  function CanonItems(t: Items): Items {
    if t.NoItems? then NoItems else Item(Canon(t.head), CanonItems(t.tail))
  }

  function CanonFields(f: Fields): Fields {
    if f.NoFields? then NoFields
    else if f.key == PROTO then CanonFields(f.rest)
    else Insert(CanonFields(f.rest), f.key, Canon(f.value))
  }

  function CanonicalText(v: Value): string {
    Write(Canon(v))
  }

  // ---------------------------------------------------------------- meaning

  /** A value up to the order of members. */
  datatype Meaning =
    | MNull
    | MBool(flag: bool)
    | MNumber(numeral: string)
    | MText(text: string)
    | MList(items: seq<Meaning>)
    | MRecord(members: map<string, Meaning>)

  function MeaningOf(v: Value): Meaning {
    match v
    case Null => MNull
    case Bool(flag) => MBool(flag)
    case Number(n) => MNumber(n)
    case Text(s) => MText(s)
    case List(items) => MList(MeaningOfItems(items))
    case Record(fields) => MRecord(MeaningOfFields(fields))
  }

  function MeaningOfItems(t: Items): seq<Meaning> {
    if t.NoItems? then [] else [MeaningOf(t.head)] + MeaningOfItems(t.tail)
  }

  function MeaningOfFields(f: Fields): map<string, Meaning> {
    if f.NoFields? then map[] else MeaningOfFields(f.rest)[f.key := MeaningOf(f.value)]
  }

  /** The value without the members that canonical text leaves out, at any depth. */
  function Visible(v: Value): Value {
    match v
    case List(items) => List(VisibleItems(items))
    case Record(fields) => Record(VisibleFields(fields))
    case _ => v
  }

  function VisibleItems(t: Items): Items {
    if t.NoItems? then NoItems else Item(Visible(t.head), VisibleItems(t.tail))
  }

  function VisibleFields(f: Fields): Fields {
    if f.NoFields? then NoFields
    else if f.key == PROTO then VisibleFields(f.rest)
    else Field(f.key, Visible(f.value), VisibleFields(f.rest))
  }

  predicate AllVisible(v: Value) {
    match v
    case List(items) => AllVisibleItems(items)
    case Record(fields) => AllVisibleFields(fields)
    case _ => true
  }

  predicate AllVisibleItems(t: Items) {
    t.Item? ==> AllVisible(t.head) && AllVisibleItems(t.tail)
  }

  predicate AllVisibleFields(f: Fields) {
    f.Field? ==> f.key != PROTO && AllVisible(f.value) && AllVisibleFields(f.rest)
  }

  lemma {:induction false} AllVisibleIsVisible(v: Value)
    requires AllVisible(v)
    ensures Visible(v) == v
  {
    match v
    case List(items) => AllVisibleItemsAre(items);
    case Record(fields) => AllVisibleFieldsAre(fields);
    case _ =>
  }

  lemma {:induction false} AllVisibleItemsAre(t: Items)
    requires AllVisibleItems(t)
    ensures VisibleItems(t) == t
  {
    if t.Item? {
      AllVisibleIsVisible(t.head);
      AllVisibleItemsAre(t.tail);
    }
  }

  lemma {:induction false} AllVisibleFieldsAre(f: Fields)
    requires AllVisibleFields(f)
    ensures VisibleFields(f) == f
  {
    if f.Field? {
      AllVisibleIsVisible(f.value);
      AllVisibleFieldsAre(f.rest);
    }
  }

  // ---------------------------------------------------------------- sorting keeps the meaning

  lemma {:induction false} InsertHas(sorted: Fields, key: string, value: Value, k: string)
    ensures Has(Insert(sorted, key, value), k) <==> k == key || Has(sorted, k)
  {
    hide Before;
    if sorted.Field? && !Before(key, sorted.key) {
      InsertHas(sorted.rest, key, value, k);
    }
  }

  lemma {:induction false} InsertMeaning(sorted: Fields, key: string, value: Value)
    requires !Has(sorted, key)
    ensures MeaningOfFields(Insert(sorted, key, value)) == MeaningOfFields(sorted)[key := MeaningOf(value)]
  {
    hide Before;
    if sorted.Field? && !Before(key, sorted.key) {
      InsertMeaning(sorted.rest, key, value);
    }
  }

  lemma {:induction false} CanonHas(f: Fields, k: string)
    ensures Has(CanonFields(f), k) <==> k != PROTO && Has(f, k)
  {
    hide Insert, Canon;
    if f.Field? {
      CanonHas(f.rest, k);
      if f.key != PROTO {
        InsertHas(CanonFields(f.rest), f.key, Canon(f.value), k);
      }
    }
  }

  /** The canonical form means what is visible of the value. */
  lemma {:induction false} CanonMeaning(v: Value)
    requires WellFormed(v)
    ensures MeaningOf(Canon(v)) == MeaningOf(Visible(v))
  {
    match v
    case List(items) => CanonItemsMeaning(items);
    case Record(fields) => CanonFieldsMeaning(fields);
    case _ =>
  }

  lemma {:induction false} CanonItemsMeaning(t: Items)
    requires WellFormedItems(t)
    ensures MeaningOfItems(CanonItems(t)) == MeaningOfItems(VisibleItems(t))
  {
    if t.Item? {
      CanonMeaning(t.head);
      CanonItemsMeaning(t.tail);
    }
  }

  lemma {:induction false} CanonFieldsMeaning(f: Fields)
    requires WellFormedFields(f)
    ensures MeaningOfFields(CanonFields(f)) == MeaningOfFields(VisibleFields(f))
  {
    hide Insert;
    if f.Field? {
      CanonFieldsMeaning(f.rest);
      if f.key != PROTO {
        CanonMeaning(f.value);
        CanonHas(f.rest, f.key);
        InsertMeaning(CanonFields(f.rest), f.key, Canon(f.value));
      }
    }
  }

  // ---------------------------------------------------------------- the canonical form is determined by the meaning

  /** Members in order, which also means none twice. */
  predicate Sorted(f: Fields) {
    f.Field? ==> Sorted(f.rest) && (f.rest.Field? ==> Before(f.key, f.rest.key))
  }

  predicate Canonical(v: Value) {
    match v
    case List(items) => CanonicalItems(items)
    case Record(fields) => Sorted(fields) && CanonicalFields(fields)
    case _ => true
  }

  predicate CanonicalItems(t: Items) {
    t.Item? ==> Canonical(t.head) && CanonicalItems(t.tail)
  }

  predicate CanonicalFields(f: Fields) {
    f.Field? ==> Canonical(f.value) && CanonicalFields(f.rest)
  }

  lemma {:induction false} InsertSorted(sorted: Fields, key: string, value: Value)
    requires Sorted(sorted) && !Has(sorted, key)
    ensures Sorted(Insert(sorted, key, value))
    ensures Insert(sorted, key, value).key == key || (sorted.Field? && Insert(sorted, key, value).key == sorted.key)
  {
    hide Before;
    if sorted.Field? && !Before(key, sorted.key) {
      BeforeIsTotal(key, sorted.key);
      InsertSorted(sorted.rest, key, value);
    }
  }

  lemma {:induction false} InsertCanonical(sorted: Fields, key: string, value: Value)
    requires CanonicalFields(sorted) && Canonical(value)
    ensures CanonicalFields(Insert(sorted, key, value))
  {
    hide Before, Canonical;
    if sorted.Field? && !Before(key, sorted.key) {
      InsertCanonical(sorted.rest, key, value);
    }
  }

  lemma {:induction false} InsertWellFormed(sorted: Fields, key: string, value: Value)
    requires WellFormedFields(sorted) && WellFormed(value) && !Has(sorted, key)
    ensures WellFormedFields(Insert(sorted, key, value))
  {
    hide Before, WellFormed;
    if sorted.Field? && !Before(key, sorted.key) {
      InsertWellFormed(sorted.rest, key, value);
      InsertHas(sorted.rest, key, value, sorted.key);
    }
  }

  lemma {:induction false} CanonIsCanonical(v: Value)
    requires WellFormed(v)
    ensures Canonical(Canon(v)) && WellFormed(Canon(v))
  {
    match v
    case List(items) => CanonItemsAreCanonical(items);
    case Record(fields) => CanonFieldsAreCanonical(fields);
    case _ =>
  }

  lemma {:induction false} CanonItemsAreCanonical(t: Items)
    requires WellFormedItems(t)
    ensures CanonicalItems(CanonItems(t)) && WellFormedItems(CanonItems(t))
  {
    if t.Item? {
      CanonIsCanonical(t.head);
      CanonItemsAreCanonical(t.tail);
    }
  }

  lemma {:induction false} CanonFieldsAreCanonical(f: Fields)
    requires WellFormedFields(f)
    ensures Sorted(CanonFields(f)) && CanonicalFields(CanonFields(f)) && WellFormedFields(CanonFields(f))
  {
    hide Insert, Canonical, WellFormed;
    if f.Field? {
      CanonFieldsAreCanonical(f.rest);
      if f.key != PROTO {
        CanonIsCanonical(f.value);
        CanonHas(f.rest, f.key);
        InsertSorted(CanonFields(f.rest), f.key, Canon(f.value));
        InsertCanonical(CanonFields(f.rest), f.key, Canon(f.value));
        InsertWellFormed(CanonFields(f.rest), f.key, Canon(f.value));
      }
    }
  }

  lemma {:induction false} FirstIsLeast(f: Fields, k: string)
    requires f.Field? && Sorted(f) && Has(f.rest, k)
    ensures Before(f.key, k)
    decreases f
  {
    hide Before;
    if f.rest.key != k {
      FirstIsLeast(f.rest, k);
      BeforeIsTransitive(f.key, f.rest.key, k);
    }
  }

  lemma {:induction false} MeaningHas(f: Fields, k: string)
    ensures k in MeaningOfFields(f) <==> Has(f, k)
  {
    if f.Field? {
      MeaningHas(f.rest, k);
    }
  }

  /** Canonical values with one meaning are one value. */
  lemma {:induction false} CanonicalIsUnique(a: Value, b: Value)
    requires Canonical(a) && Canonical(b) && MeaningOf(a) == MeaningOf(b)
    ensures a == b
    decreases a
  {
    match a
    case List(items) => CanonicalItemsAreUnique(items, b.items);
    case Record(fields) => CanonicalFieldsAreUnique(fields, b.fields);
    case _ =>
  }

  lemma {:induction false} CanonicalItemsAreUnique(s: Items, t: Items)
    requires CanonicalItems(s) && CanonicalItems(t) && MeaningOfItems(s) == MeaningOfItems(t)
    ensures s == t
    decreases s
  {
    hide MeaningOf, Canonical;
    if s.Item? && t.Item? {
      var a, b := MeaningOfItems(s), MeaningOfItems(t);
      assert a[0] == MeaningOf(s.head) && b[0] == MeaningOf(t.head);
      assert a[1..] == MeaningOfItems(s.tail) && b[1..] == MeaningOfItems(t.tail);
      CanonicalIsUnique(s.head, t.head);
      CanonicalItemsAreUnique(s.tail, t.tail);
    }
  }

  lemma {:induction false} CanonicalFieldsAreUnique(f: Fields, g: Fields)
    requires Sorted(f) && Sorted(g) && CanonicalFields(f) && CanonicalFields(g) && MeaningOfFields(f) == MeaningOfFields(g)
    ensures f == g
    decreases f
  {
    hide MeaningOf, Canonical, Before;
    FirstIsIn(f);
    FirstIsIn(g);
    if f.Field? && g.Field? {
      SameFirstKey(f, g);
      RestMeaning(f);
      RestMeaning(g);
      assert MeaningOfFields(f)[f.key] == MeaningOf(f.value) && MeaningOfFields(g)[g.key] == MeaningOf(g.value);
      CanonicalIsUnique(f.value, g.value);
      CanonicalFieldsAreUnique(f.rest, g.rest);
    }
  }

  lemma {:induction false} FirstIsIn(f: Fields)
    ensures f.Field? ==> f.key in MeaningOfFields(f)
  {
  }

  lemma {:induction false} SameFirstKey(f: Fields, g: Fields)
    requires f.Field? && g.Field? && Sorted(f) && Sorted(g) && MeaningOfFields(f) == MeaningOfFields(g)
    ensures f.key == g.key
  {
    hide Before, MeaningOf;
    MeaningHas(f, f.key);
    MeaningHas(g, f.key);
    MeaningHas(g, g.key);
    MeaningHas(f, g.key);
    if f.key != g.key {
      FirstIsLeast(f, g.key);
      FirstIsLeast(g, f.key);
      BeforeIsTotal(f.key, g.key);
    }
  }

  lemma {:induction false} RestMeaning(f: Fields)
    requires f.Field? && Sorted(f)
    ensures MeaningOfFields(f.rest) == MeaningOfFields(f) - {f.key}
  {
    hide Before, MeaningOf;
    MeaningHas(f.rest, f.key);
    if Has(f.rest, f.key) {
      FirstIsLeast(f, f.key);
      BeforeIsTotal(f.key, f.key);
    }
  }

  // ---------------------------------------------------------------- equal texts

  /** Two values are written alike exactly when they agree up to the order of members, members named
      `__proto__` aside. */
  lemma {:induction false} EqualTexts(a: Value, b: Value)
    requires WellFormed(a) && WellFormed(b)
    ensures CanonicalText(a) == CanonicalText(b) <==> MeaningOf(Visible(a)) == MeaningOf(Visible(b))
  {
    hide Canon, Write, MeaningOf, Visible, Canonical, WellFormed;
    CanonIsCanonical(a);
    CanonIsCanonical(b);
    CanonMeaning(a);
    CanonMeaning(b);
    if CanonicalText(a) == CanonicalText(b) {
      ParseInvertsWrite(Canon(a));
      ParseInvertsWrite(Canon(b));
    }
    if MeaningOf(Visible(a)) == MeaningOf(Visible(b)) {
      CanonicalIsUnique(Canon(a), Canon(b));
    }
  }

  /** Without such members: equal texts exactly for values equal up to the order of members. */
  lemma {:induction false} EqualTextsOfVisibleValues(a: Value, b: Value)
    requires WellFormed(a) && WellFormed(b) && AllVisible(a) && AllVisible(b)
    ensures CanonicalText(a) == CanonicalText(b) <==> MeaningOf(a) == MeaningOf(b)
  {
    hide CanonicalText, MeaningOf, Visible, WellFormed, AllVisible;
    EqualTexts(a, b);
    AllVisibleIsVisible(a);
    AllVisibleIsVisible(b);
  }

  /** Reading canonical text gives the canonical form, and with it what is visible of the value. */
  lemma {:induction false} ParseCanonicalText(v: Value)
    requires WellFormed(v)
    ensures Parse(CanonicalText(v)) == Some(Canon(v)) && MeaningOf(Canon(v)) == MeaningOf(Visible(v))
  {
    hide Canon, Write, MeaningOf, Visible, Canonical, WellFormed, Parse;
    CanonIsCanonical(v);
    CanonMeaning(v);
    ParseInvertsWrite(Canon(v));
  }

  /** A member named `__proto__` is lost: a record that has one is written like the record without it. */
  lemma {:induction false} ProtoIsLost(value: Value, f: Fields)
    requires WellFormedFields(f) && WellFormed(value) && !Has(f, PROTO)
    ensures CanonicalText(Record(Field(PROTO, value, f))) == CanonicalText(Record(f))
    ensures MeaningOf(Record(Field(PROTO, value, f))) != MeaningOf(Record(f))
  {
    hide Insert, Write, MeaningOf;
    assert CanonFields(Field(PROTO, value, f)) == CanonFields(f);
    assert MeaningOf(Record(Field(PROTO, value, f))) != MeaningOf(Record(f)) by { MemberMatters(PROTO, value, f); }
  }

  lemma {:induction false} MemberMatters(key: string, value: Value, f: Fields)
    requires !Has(f, key)
    ensures MeaningOf(Record(Field(key, value, f))) != MeaningOf(Record(f))
  {
    MeaningHas(f, key);
    assert key in MeaningOfFields(Field(key, value, f));
  }

  // ---------------------------------------------------------------- the loop that builds a canonical record

  function Keys(f: Fields): seq<string> {
    if f.NoFields? then [] else [f.key] + Keys(f.rest)
  }

  function InsertKey(sorted: seq<string>, key: string): seq<string> {
    if sorted == [] || TextLeq(key, sorted[0]) then [key] + sorted else [sorted[0]] + InsertKey(sorted[1..], key)
  }

  /** The member names in the order `sort` puts them. */
  function SortedKeys(f: Fields): seq<string> {
    if f.NoFields? then [] else InsertKey(SortedKeys(f.rest), f.key)
  }

  function Append(f: Fields, key: string, value: Value): Fields {
    if f.NoFields? then Field(key, value, NoFields) else Field(f.key, f.value, Append(f.rest, key, value))
  }

  /** Assigning a new member of a plain object: array indices go to their numeric place, other names to the
      end, and `__proto__` nowhere. */
  function Assign(f: Fields, key: string, value: Value): Fields {
    if key == PROTO then f
    else if IndexOf(key).Some? then Insert(f, key, value)
    else Append(f, key, value)
  }

  /** The object after the first `n` of the keys are assigned. */
  function Assigned(f: Fields, keys: seq<string>, n: nat): Fields
    requires n <= |keys| && forall i :: 0 <= i < |keys| ==> Has(f, keys[i])
  {
    if n == 0 then NoFields else Assign(Assigned(f, keys, n - 1), keys[n - 1], Canon(Get(f, keys[n - 1])))
  }

  ghost predicate Increasing(keys: seq<string>) {
    forall i, j :: 0 <= i < j < |keys| ==> TextLess(keys[i], keys[j])
  }

  lemma {:induction false} InsertKeyFacts(sorted: seq<string>, key: string)
    requires Increasing(sorted) && key !in sorted
    ensures Increasing(InsertKey(sorted, key)) && forall k :: k in InsertKey(sorted, key) <==> k in sorted || k == key
  {
    hide TextLess, TextLeq;
    if sorted == [] {
      PrependKey(key, []);
    } else {
      assert sorted == [sorted[0]] + sorted[1..];
      if TextLeq(key, sorted[0]) {
        forall k | k in sorted
          ensures TextLess(key, k)
        {
          KeyIsLess(key, sorted, k);
        }
        PrependKey(key, sorted);
      } else {
        assert TextLess(sorted[0], key) by { LessWhenNotLeq(sorted[0], key); }
        assert Increasing(sorted[1..]);
        InsertKeyFacts(sorted[1..], key);
        PrependKey(sorted[0], InsertKey(sorted[1..], key));
      }
    }
  }

  lemma {:induction false} LessWhenNotLeq(a: string, b: string)
    requires !TextLeq(b, a)
    ensures TextLess(a, b)
  {
    hide TextLeq;
  }

  lemma {:induction false} PrependKey(key: string, keys: seq<string>)
    requires Increasing(keys) && forall k :: k in keys ==> TextLess(key, k)
    ensures Increasing([key] + keys)
  {
    hide TextLess;
  }

  lemma {:induction false} KeyIsLess(key: string, sorted: seq<string>, k: string)
    requires Increasing(sorted) && key !in sorted && sorted != [] && k in sorted && TextLeq(key, sorted[0])
    ensures TextLess(key, k)
  {
    hide TextLeq;
    TextsAreTransitive(key, sorted[0], k);
    if k == sorted[0] && TextLeq(k, key) {
      TextOrderIsAntisymmetric(key, k);
    }
  }

  lemma {:induction false} SortedKeysFacts(f: Fields)
    requires WellFormedFields(f)
    ensures Increasing(SortedKeys(f)) && forall k :: k in SortedKeys(f) <==> Has(f, k)
  {
    hide Increasing, WellFormed;
    if f.NoFields? {
      assert Increasing([]) by { NoKeys(); }
    } else {
      SortedKeysFacts(f.rest);
      InsertKeyFacts(SortedKeys(f.rest), f.key);
    }
  }

  lemma {:induction false} NoKeys()
    ensures Increasing([])
  {
  }

  lemma {:induction false} AppendFacts(f: Fields, key: string, value: Value)
    requires Sorted(f) && (forall k :: Has(f, k) ==> Before(k, key)) && CanonicalFields(f) && Canonical(value)
    ensures Sorted(Append(f, key, value)) && CanonicalFields(Append(f, key, value))
    ensures f.Field? ==> Append(f, key, value).key == f.key
    ensures f.NoFields? ==> Append(f, key, value).key == key
  {
    hide Before, Canonical;
    if f.Field? {
      assert forall k :: Has(f.rest, k) ==> Has(f, k);
      AppendFacts(f.rest, key, value);
    }
  }

  lemma {:induction false} AppendMeaning(f: Fields, key: string, value: Value)
    requires !Has(f, key)
    ensures MeaningOfFields(Append(f, key, value)) == MeaningOfFields(f)[key := MeaningOf(value)]
  {
    hide MeaningOf;
    if f.Field? {
      AppendMeaning(f.rest, key, value);
    }
  }

  /** Assigning a key that sorts after all that are there keeps the canonical order. */
  lemma {:induction false} AssignFacts(f: Fields, key: string, value: Value)
    requires Sorted(f) && CanonicalFields(f) && Canonical(value) && !Has(f, key)
    requires forall k :: Has(f, k) ==> TextLess(k, key)
    ensures Sorted(Assign(f, key, value)) && CanonicalFields(Assign(f, key, value))
    ensures MeaningOfFields(Assign(f, key, value))
            == if key == PROTO then MeaningOfFields(f) else MeaningOfFields(f)[key := MeaningOf(value)]
  {
    hide Canonical, MeaningOf, TextLess, Insert, Append;
    if key != PROTO {
      if IndexOf(key).Some? {
        InsertSorted(f, key, value);
        InsertCanonical(f, key, value);
        InsertMeaning(f, key, value);
      } else {
        AppendFacts(f, key, value);
        AppendMeaning(f, key, value);
      }
    }
  }

  /** The members of `f` among `keys`, as the canonical record means them. */
  ghost predicate AgreesOn(f: Fields, keys: seq<string>, n: nat, m: map<string, Meaning>)
    requires n <= |keys|
  {
    forall k :: (k in m <==> k != PROTO && k in keys[..n] && Has(f, k)) && (k in m && Has(f, k) ==> m[k] == MeaningOf(Canon(Get(f, k))))
  }

  lemma {:induction false} AssignedFacts(f: Fields, keys: seq<string>, n: nat)
    requires n <= |keys| && (forall i :: 0 <= i < |keys| ==> Has(f, keys[i])) && Increasing(keys) && WellFormedFields(f)
    ensures Sorted(Assigned(f, keys, n)) && CanonicalFields(Assigned(f, keys, n))
    ensures AgreesOn(f, keys, n, MeaningOfFields(Assigned(f, keys, n)))
  {
    hide Canonical, MeaningOf, TextLess, Assign, Canon, WellFormed, AgreesOn, Increasing, MeaningOfFields;
    if n == 0 {
      assert AgreesOn(f, keys, 0, MeaningOfFields(NoFields)) by { NothingAgreed(f, keys); }
    } else {
      AssignedFacts(f, keys, n - 1);
      var before, key := Assigned(f, keys, n - 1), keys[n - 1];
      EarlierKeysAreLess(f, keys, n, before);
      assert !Has(before, key) by { NotLessThanItself(key); }
      GetIsWellFormed(f, key);
      CanonIsCanonical(Get(f, key));
      AssignFacts(before, key, Canon(Get(f, key)));
      AgreesNext(f, keys, n, MeaningOfFields(before));
    }
  }

  lemma {:induction false} NothingAgreed(f: Fields, keys: seq<string>)
    ensures AgreesOn(f, keys, 0, MeaningOfFields(NoFields))
  {
  }

  lemma {:induction false} AgreesNext(f: Fields, keys: seq<string>, n: nat, m: map<string, Meaning>)
    requires 0 < n <= |keys| && Has(f, keys[n - 1]) && AgreesOn(f, keys, n - 1, m)
    ensures var key := keys[n - 1];
            AgreesOn(f, keys, n, if key == PROTO then m else m[key := MeaningOf(Canon(Get(f, key)))])
  {
    hide MeaningOf, Canon, Has, Get;
    assert keys[..n] == keys[..n - 1] + [keys[n - 1]];
  }

  lemma {:induction false} EarlierKeysAreLess(f: Fields, keys: seq<string>, n: nat, before: Fields)
    requires 0 < n <= |keys| && Increasing(keys) && AgreesOn(f, keys, n - 1, MeaningOfFields(before))
    ensures forall k :: Has(before, k) ==> TextLess(k, keys[n - 1])
  {
    hide TextLess, MeaningOf, Canon, MeaningOfFields;
    forall k | Has(before, k)
      ensures TextLess(k, keys[n - 1])
    {
      MeaningHas(before, k);
      var i :| 0 <= i < n - 1 && keys[..n - 1][i] == k;
    }
  }

  lemma {:induction false} NotLessThanItself(key: string)
    ensures !TextLess(key, key)
  {
    hide TextLeq;
    TextOrderIsTotal(key, key);
  }

  lemma {:induction false} GetIsWellFormed(f: Fields, key: string)
    requires WellFormedFields(f) && Has(f, key)
    ensures WellFormed(Get(f, key)) && Get(f, key) < f
    decreases f
  {
    hide WellFormed;
    if f.key != key {
      GetIsWellFormed(f.rest, key);
    }
  }

  lemma {:induction false} CanonAgrees(f: Fields)
    requires WellFormedFields(f)
    ensures forall k :: (k in MeaningOfFields(CanonFields(f)) <==> k != PROTO && Has(f, k))
                        && (k != PROTO && Has(f, k) ==> MeaningOfFields(CanonFields(f))[k] == MeaningOf(Canon(Get(f, k))))
  {
    hide MeaningOf, Canon, WellFormed, Insert;
    if f.Field? {
      CanonAgrees(f.rest);
      if f.key != PROTO {
        CanonHas(f.rest, f.key);
        InsertMeaning(CanonFields(f.rest), f.key, Canon(f.value));
      }
    }
  }

  /** Assigning the sorted keys one by one builds the canonical record. */
  lemma {:induction false} AssigningBuildsCanon(f: Fields)
    requires WellFormedFields(f)
    ensures forall i :: 0 <= i < |SortedKeys(f)| ==> Has(f, SortedKeys(f)[i])
    ensures Assigned(f, SortedKeys(f), |SortedKeys(f)|) == CanonFields(f)
  {
    hide Canonical, MeaningOf, Canon, WellFormed, Increasing, Assigned, SortedKeys, CanonFields, Sorted;
    var keys := SortedKeys(f);
    SortedKeysFacts(f);
    assert keys[..|keys|] == keys;
    AssignedFacts(f, keys, |keys|);
    CanonAgrees(f);
    CanonFieldsAreCanonical(f);
    var built := Assigned(f, keys, |keys|);
    assert MeaningOfFields(built) == MeaningOfFields(CanonFields(f));
    CanonicalFieldsAreUnique(built, CanonFields(f));
  }

  method Canonicalize(v: Value) returns (r: Value)
    requires WellFormed(v)
    ensures r == Canon(v)
    decreases v
  {
    match v {
      case List(items) =>
        var canonical := CanonicalizeItems(items);
        return List(canonical);
      case Record(fields) =>
        var keys := SortedKeys(fields);
        AssigningBuildsCanon(fields);
        var normalized := NoFields;
        hide Canon, CanonFields, SortedKeys, Assign, WellFormed;
        var i := 0;
        while i < |keys|
          invariant i <= |keys| && normalized == Assigned(fields, keys, i)
        {
          GetIsWellFormed(fields, keys[i]);
          var child := Canonicalize(Get(fields, keys[i]));
          normalized := Assign(normalized, keys[i], child);
          i := i + 1;
        }
        assert Canon(v) == Record(CanonFields(fields)) by { CanonOfRecord(fields); }
        return Record(normalized);
      case _ =>
        return v;
    }
  }

  lemma {:induction false} CanonOfRecord(f: Fields)
    ensures Canon(Record(f)) == Record(CanonFields(f))
  {
    hide CanonFields;
  }

  method CanonicalizeItems(t: Items) returns (r: Items)
    requires WellFormedItems(t)
    ensures r == CanonItems(t)
    decreases t
  {
    if t.NoItems? {
      return NoItems;
    }
    var head := Canonicalize(t.head);
    var tail := CanonicalizeItems(t.tail);
    return Item(head, tail);
  }
}
