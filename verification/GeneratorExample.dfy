/** Two contracts that refer to each other's types and branch on a discriminator: together they meet every condition
    under which the generated file is sound. */
module GeneratorExample {

  import opened GeneratorRuns
  import opened JsonSchema
  import opened TypeGenerator
  import opened Wrappers

  const FROZEN := Name("payload_frozen")
  const SUBJECT := Name("subject")
  const ORIGIN := Name("origin")

  /** Where the other contract is kept. */
  const FILE := "linked.schema.json"

  const ABSENT := JObj(map[Type := JStr("null")])
  const FLAG := JObj(map[Type := JStr("boolean")])
  const MAYBE_TEXT := JObj(map[OneOf := JArr([TEXT, ABSENT])])

  /** What the subject is, once the payload is frozen and before. */
  function SubjectFor(frozen: bool): Json {
    if frozen then TEXT else ABSENT
  }

  function ConditionFor(frozen: bool): Json {
    JObj(map[Properties := JObj(map[FROZEN := JObj(map[Const := JBool(frozen)])]), Required := JArr([JStr("payload_frozen")])])
  }

  function ClauseFor(frozen: bool): Json {
    JObj(map[If := ConditionFor(frozen), Then := JObj(map[Properties := JObj(map[SUBJECT := SubjectFor(frozen)])])])
  }

  const PROPERTIES: map<Key, Json> := map[FROZEN := FLAG, SUBJECT := MAYBE_TEXT, ORIGIN := RefTo(FILE)]

  /** A command with a frozen and an unfrozen form, and a reference to the other contract. */
  const COMMAND := JObj(map[Type := JStr("object"), Discriminator := JStr("payload_frozen"),
                            Required := JArr([JStr("payload_frozen")]), Properties := JObj(PROPERTIES),
                            AllOf := JArr([ClauseFor(true), ClauseFor(false)])])

  const BOTH: World := map[FILE := Contract("Linked", LINKED), "command.schema.json" := Contract("Command", COMMAND)]

  function ParsedFor(frozen: bool): Clause {
    Clause(FROZEN, JBool(frozen), map[SUBJECT := SubjectFor(frozen)])
  }

  // ---------------------------------------------------------------- the branches are read

  lemma {:induction false} NamesDiffer()
    ensures FROZEN != SUBJECT && FROZEN != ORIGIN && SUBJECT != ORIGIN
    ensures KeyOf("payload_frozen") == FROZEN
  {
    assert |"payload_frozen"| == 14 && |"subject"| == 7 && |"origin"| == 6;
  }

  lemma {:induction false} CommandMembers()
    ensures COMMAND.JObj? && COMMAND.members.Keys == {Type, Discriminator, Required, Properties, AllOf}
    ensures var m := COMMAND.members;
            && m[Type] == JStr("object") && m[Discriminator] == JStr("payload_frozen")
            && m[Required] == JArr([JStr("payload_frozen")])
            && m[Properties] == JObj(PROPERTIES) && m[AllOf] == JArr([ClauseFor(true), ClauseFor(false)])
  {
    hide PROPERTIES, ClauseFor;
  }

  lemma {:induction false} Listed()
    ensures PROPERTIES.Keys == {FROZEN, SUBJECT, ORIGIN}
    ensures PROPERTIES[FROZEN] == FLAG && PROPERTIES[SUBJECT] == MAYBE_TEXT && PROPERTIES[ORIGIN] == RefTo(FILE)
  {
    NamesDiffer();
    hide FROZEN, SUBJECT, ORIGIN, FLAG, MAYBE_TEXT, RefTo;
  }

  lemma {:induction false} OneName(m: map<Key, Json>)
    requires Required in m && m[Required] == JArr([JStr("payload_frozen")])
    ensures RequiredNames(m) == {FROZEN}
  {
    NamesDiffer();
    hide KeyOf;
    assert [JStr("payload_frozen")][0] == JStr("payload_frozen");
  }

  lemma {:induction false} ParsedBy(clause: Json, condition: Json, consequence: Json, d: Key, value: Json, refinements: map<Key, Json>)
    requires clause == JObj(map[If := condition, Then := consequence]) && condition.JObj? && consequence.JObj?
    requires MembersOf(Member(condition, Properties)) == Some(map[d := JObj(map[Const := value])])
    requires MembersOf(Member(consequence, Properties)) == Some(refinements)
    ensures ParseClause({d}, clause) == Some(Clause(d, value, refinements))
  {
    var tested := map[d := JObj(map[Const := value])];
    assert tested.Keys == {d};
    assert |tested| == 1;
    assert SoleKey(tested) in {d};
    hide SoleKey;
  }

  lemma {:induction false} ClauseIsParsed(frozen: bool)
    ensures ParseClause({FROZEN}, ClauseFor(frozen)) == Some(ParsedFor(frozen))
  {
    var refinements := map[SUBJECT := SubjectFor(frozen)];
    hide ParseClause, SubjectFor, FROZEN, SUBJECT;
    ParsedBy(ClauseFor(frozen), ConditionFor(frozen), JObj(map[Properties := JObj(refinements)]), FROZEN, JBool(frozen), refinements);
  }

  lemma {:induction false} BothAreParsed()
    ensures ParseClauses({FROZEN}, [ClauseFor(true), ClauseFor(false)], 2) == Some([ParsedFor(true), ParsedFor(false)])
  {
    ClauseIsParsed(true);
    ClauseIsParsed(false);
    hide ParseClause, ClauseFor, ParsedFor, FROZEN;
    var nodes := [ClauseFor(true), ClauseFor(false)];
    assert ParseClauses({FROZEN}, nodes, 0) == Some([]);
    assert [] + [ParsedFor(true)] == [ParsedFor(true)];
    assert ParseClauses({FROZEN}, nodes, 1) == Some([ParsedFor(true)]);
    assert [ParsedFor(true)] + [ParsedFor(false)] == [ParsedFor(true), ParsedFor(false)];
  }

  lemma {:induction false} BothValuesAreTested()
    ensures ValuesTested([ParsedFor(true), ParsedFor(false)]) == SetOf([JBool(false), JBool(true)])
    ensures |ValuesTested([ParsedFor(true), ParsedFor(false)])| == 2
  {
    var clauses, values := [ParsedFor(true), ParsedFor(false)], [JBool(false), JBool(true)];
    assert clauses[0].value == JBool(true) && clauses[1].value == JBool(false);
    assert values[0] == JBool(false) && values[1] == JBool(true);
    assert ValuesTested(clauses) == {JBool(true), JBool(false)};
    assert SetOf(values) == {JBool(true), JBool(false)};
  }

  lemma {:induction false} FlagValues()
    ensures ExpectedValues(FLAG) == Some([JBool(false), JBool(true)])
  {
  }

  lemma {:induction false} BranchingOf(document: Json, d: string, nodes: seq<Json>, clauses: seq<Clause>, values: seq<Json>)
    requires document.JObj? && Discriminator in document.members && document.members[Discriminator] == JStr(d) && d != []
    requires AllOf in document.members && document.members[AllOf] == JArr(nodes) && nodes != []
    requires ParseClauses(RequiredNames(document.members), nodes, |nodes|) == Some(clauses)
    requires forall i :: 0 <= i < |clauses| ==> clauses[i].discriminator == KeyOf(d)
    requires Properties in document.members && document.members[Properties].JObj?
    requires KeyOf(d) in document.members[Properties].members
    requires ExpectedValues(document.members[Properties].members[KeyOf(d)]) == Some(values)
    requires |ValuesTested(clauses)| == |clauses| && ValuesTested(clauses) == SetOf(values)
    ensures Branching(document) == Some(clauses)
  {
    hide ParseClauses, RequiredNames, KeyOf, ExpectedValues, ValuesTested, SetOf;
  }

  lemma {:induction false} CommandIsBranching()
    ensures Branching(COMMAND) == Some([ParsedFor(true), ParsedFor(false)])
  {
    hide *;
    CommandMembers();
    Listed();
    NamesDiffer();
    OneName(COMMAND.members);
    BothAreParsed();
    BothValuesAreTested();
    FlagValues();
    ParsedFields();
    assert "payload_frozen" != [] by { assert |"payload_frozen"| == 14; }
    BranchingOf(COMMAND, "payload_frozen", [ClauseFor(true), ClauseFor(false)], [ParsedFor(true), ParsedFor(false)],
                [JBool(false), JBool(true)]);
  }

  lemma {:induction false} CommandVariants()
    ensures DiscriminatedVariants(COMMAND).Some? && |DiscriminatedVariants(COMMAND).value| == 2
    ensures forall i :: 0 <= i < 2 ==> DiscriminatedVariants(COMMAND).value[i] == VariantFor(i == 0)
  {
    CommandIsBranching();
    CommandMembers();
    hide COMMAND, Branching, Refined, ParsedFor, PROPERTIES;
    assert PropertiesOf(COMMAND) == PROPERTIES;
    assert ParsedFor(true).value == JBool(true) && ParsedFor(false).value == JBool(false) by { ParsedFields(); }
  }

  lemma {:induction false} ParsedFields()
    ensures forall frozen :: ParsedFor(frozen).value == JBool(frozen) && ParsedFor(frozen).discriminator == FROZEN
  {
  }

  function VariantFor(frozen: bool): Variant {
    Variant(JBool(frozen), Refined(PROPERTIES, ParsedFor(frozen)))
  }

  lemma {:induction false} ConditionIsPlain(frozen: bool)
    ensures PlainCondition(ConditionFor(frozen), FROZEN)
  {
    OneName(ConditionFor(frozen).members);
    hide RequiredNames, FROZEN;
  }

  lemma {:induction false} PlainBy(document: Json, d: string, nodes: seq<Json>)
    requires document.JObj? && Type in document.members && document.members[Type] == JStr("object")
    requires Discriminator in document.members && document.members[Discriminator] == JStr(d)
    requires AllOf in document.members && document.members[AllOf] == JArr(nodes)
    requires forall i :: 0 <= i < |nodes| ==> Member(nodes[i], If).Some? && PlainCondition(Member(nodes[i], If).value, KeyOf(d))
    ensures PlainlyConditioned(document)
  {
    hide PlainCondition, Member, KeyOf;
  }

  lemma {:induction false} ConditionOfClause(frozen: bool)
    ensures Member(ClauseFor(frozen), If) == Some(ConditionFor(frozen))
  {
    hide ConditionFor, FROZEN, SUBJECT, SubjectFor;
  }

  lemma {:induction false} CommandIsPlain()
    ensures PlainlyConditioned(COMMAND)
  {
    hide *;
    CommandMembers();
    NamesDiffer();
    ConditionIsPlain(true);
    ConditionIsPlain(false);
    ConditionOfClause(true);
    ConditionOfClause(false);
    PlainBy(COMMAND, "payload_frozen", [ClauseFor(true), ClauseFor(false)]);
  }

  // ---------------------------------------------------------------- the variants are supported

  lemma {:induction false} RefinedProperties(frozen: bool)
    ensures var r := VariantFor(frozen).properties;
            && r.Keys == {FROZEN, SUBJECT, ORIGIN} && r[FROZEN] == JObj(map[Const := JBool(frozen)])
            && r[SUBJECT] == SubjectFor(frozen) && r[ORIGIN] == RefTo(FILE)
  {
    Listed();
    NamesDiffer();
    MergedSubject(frozen);
    hide PROPERTIES, Merge, MAYBE_TEXT, SubjectFor, FLAG, RefTo, FROZEN, SUBJECT, ORIGIN;
    MergedReference(FILE);
  }

  lemma {:induction false} MergedSubject(frozen: bool)
    ensures Merge(MAYBE_TEXT, SubjectFor(frozen)) == SubjectFor(frozen)
  {
    assert OneOf in MAYBE_TEXT.members.Keys * {OneOf, AnyOf};
  }

  lemma {:induction false} MergedReference(reference: string)
    ensures Merge(RefTo(reference), RefTo(reference)) == RefTo(reference)
  {
    assert Ref in RefTo(reference).members.Keys * {Const, Ref, OneOf, AnyOf, Enum};
  }

  lemma {:induction false} NoSeparator(s: string, c: char)
    requires c !in s
    ensures SplitOn(s, c) == [s]
  {
    FirstAt(s, c, 0, |s|);
  }

  lemma {:induction false} FileStem()
    ensures StemOf(FILE) == "linked"
  {
    NoSeparator(FILE, '/');
    hide SplitOn;
    assert [FILE][0] == FILE;
  }

  lemma {:induction false} FileType()
    ensures PascalCase("linked") == "Linked"
  {
    NoSeparator("linked", '_');
    hide SplitOn;
    assert ["linked"][0] == "linked" && ["linked"][1..] == [];
    assert Capitalized([]) == [];
  }

  lemma {:induction false} FileIsWhole()
    ensures IndexOf(FILE, '#', 0) == |FILE|
  {
    FirstAt(FILE, '#', 0, |FILE|);
  }

  /** The reference names the other contract's type. */
  lemma {:induction false} OriginIsSupported()
    ensures Supported(1, BOTH, COMMAND, RefTo(FILE))
  {
    FileStem();
    FileType();
    FileIsWhole();
    hide StemOf, PascalCase, IndexOf, COMMAND, LINKED, SplitOn, Follow;
    assert ShapeOf(BOTH, COMMAND, RefTo(FILE)) == ByName("Linked");
  }

  lemma {:induction false} SubjectIsSupported(w: World, document: Json, frozen: bool)
    ensures Supported(1, w, document, SubjectFor(frozen))
  {
    assert ShapeOf(w, document, SubjectFor(frozen)).Simple?;
  }

  lemma {:induction false} ConstantIsSupported(w: World, document: Json, value: Json)
    ensures Supported(1, w, document, JObj(map[Const := value]))
  {
  }

  lemma {:induction false} VariantIsSupported(frozen: bool)
    ensures Supported(2, BOTH, COMMAND, VariantSchema(COMMAND, VariantFor(frozen)))
  {
    var variant := VariantFor(frozen);
    RefinedProperties(frozen);
    OriginIsSupported();
    SubjectIsSupported(BOTH, COMMAND, frozen);
    ConstantIsSupported(BOTH, COMMAND, JBool(frozen));
    hide VariantFor, SubjectFor, RefTo, COMMAND, BOTH, FROZEN, SUBJECT, ORIGIN;
    assert forall name :: name in variant.properties ==> Supported(1, BOTH, COMMAND, variant.properties[name]);
    VariantShape(BOTH, COMMAND, variant);
    SupportedVariant(BOTH, COMMAND, variant);
  }

  lemma {:induction false} SupportedVariant(w: World, document: Json, variant: Variant)
    requires variant.properties != map[] && forall name :: name in variant.properties ==> Supported(1, w, document, variant.properties[name])
    ensures Supported(2, w, document, VariantSchema(document, variant))
  {
    VariantShape(w, document, variant);
    assert Type in VariantSchema(document, variant).members;
    hide ShapeOf, RequiredNames;
  }

  // ---------------------------------------------------------------- every condition is met

  lemma {:induction false} RootIsSupported(p: Place) returns (depth: nat)
    requires p in RootPlaces(BOTH)
    ensures Supported(depth, BOTH, p.document, p.node)
  {
    CommandVariants();
    LinkedHasNoVariants();
    LinkedIsSupported(BOTH);
    VariantIsSupported(true);
    VariantIsSupported(false);
    hide Supported, LINKED, COMMAND, DiscriminatedVariants, VariantFor, VariantSchema;
    if p.document == LINKED && p.node == LINKED {
      depth := 5;
    } else {
      depth := 2;
    }
  }

  /** A branching contract and one with a chain of references, the one naming the other's type, meet every
      condition of soundness. */
  lemma {:induction false} BothAreGenerable()
    ensures Generable(BOTH) && Branching(COMMAND) == Some([ParsedFor(true), ParsedFor(false)])
  {
    hide DiscriminatedVariants, LINKED, COMMAND, Supported, AdmissibleFrom, Loops, PlainlyConditioned, Ends, RootPlaces, Branching;
    CommandIsBranching();
    CommandIsPlain();
    LinkedHasNoVariants();
    forall p | p in RootPlaces(BOTH)
      ensures !Loops(BOTH, p) && AdmissibleFrom(BOTH, p)
    {
      var depth := RootIsSupported(p);
      SupportedIsAdmissible(depth, BOTH, p);
      EndingHasNoLoop(depth, BOTH, p);
    }
  }
}
