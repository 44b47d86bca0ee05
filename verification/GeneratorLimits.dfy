/** Where emitted types hold exactly the instances they should, and where they are too narrow. */
module GeneratorLimits {

  import opened JsonSchema
  import opened TypeGenerator
  import opened Wrappers

  // ---------------------------------------------------------------- one variant

  /** Every member the variant lists is of its refined schema's type, or may be missing and is. */
  ghost predicate HasRefinedMembers(k: nat, depth: nat, w: World, env: Declarations, document: Json, variant: Variant, v: Json) {
    v.JObj? && forall name :: name in variant.properties ==> MemberFits(k, depth, w, env, document, variant, name, v.members)
  }

  ghost predicate MemberFits(k: nat, depth: nat, w: World, env: Declarations, document: Json, variant: Variant, name: Key,
                             members: map<Key, Json>)
    requires name in variant.properties
  {
    if name in members then
      Ends(depth, w, document, variant.properties[name])
      && Inhabits(k, env, TypeOf(depth, w, document, variant.properties[name]), members[name])
    else name !in RequiredNames(VariantSchema(document, variant).members)
  }

  /** A value is of a variant's type exactly when its members are of the refined schemas' types. */
  lemma {:induction false} VariantTypeMembers(k: nat, depth: nat, w: World, env: Declarations, document: Json, variant: Variant, v: Json)
    requires Ends(depth, w, document, VariantSchema(document, variant)) && variant.properties != map[]
    ensures depth > 0
    ensures Inhabits(k, env, TypeOf(depth, w, document, VariantSchema(document, variant)), v)
            <==> HasRefinedMembers(k, depth - 1, w, env, document, variant, v)
  {
    var schema := VariantSchema(document, variant);
    assert schema.JObj?;
    hide RequiredNames, ShapeOf, VariantSchema, Ends, TypeOf, Inhabits, FieldsOf;
    VariantShape(w, document, variant);
    RecordType(depth, w, document, schema);
    var properties, required := variant.properties, RequiredNames(schema.members);
    var fields := FieldsOf(depth - 1, w, document, properties, required);
    ObjectMembers(k, env, fields, v);
    forall name | name in fields && v.JObj?
      ensures HasField(k, env, fields[name], name, v.members)
              <==> MemberFits(k, depth - 1, w, env, document, variant, name, v.members)
    {
      FieldAt(depth - 1, w, document, properties, required, name);
    }
    hide HasField, MemberFits;
  }

  lemma {:induction false} ObjectMembers(k: nat, env: Declarations, fields: map<Key, Field>, v: Json)
    ensures Inhabits(k, env, ObjectType(fields), v)
            <==> v.JObj? && forall name :: name in fields ==> HasField(k, env, fields[name], name, v.members)
  {
    hide HasField;
  }

  // ---------------------------------------------------------------- one branching document

  ghost predicate AllVariantsEnd(depth: nat, w: World, document: Json) {
    var variants := DiscriminatedVariants(document);
    variants.Some? && forall i :: 0 <= i < |variants.value| ==> Ends(depth, w, document, VariantSchema(document, variants.value[i]))
  }

  ghost predicate OfVariant(k: nat, depth: nat, w: World, env: Declarations, document: Json, i: nat, v: Json) {
    var variants := DiscriminatedVariants(document);
    && variants.Some? && i < |variants.value|
    && var schema := VariantSchema(document, variants.value[i]);
       Ends(depth, w, document, schema) && Inhabits(k, env, TypeOf(depth, w, document, schema), v)
  }

  /** Of any branching document, a valid instance is of one of the variants' types exactly when its members are
      of the types its own clause refines them to, whatever the clause's condition says. */
  lemma {:induction false} SomeVariantIffRefined(k: nat, depth: nat, w: World, env: Declarations, valid: Validity, document: Json, v: Json)
      returns (i: nat)
    requires Obeys(valid, w) && Meets(valid, w, document, document, v) && SaysObject(document)
    requires Branching(document).Some? && ToldApart(Branching(document).value) && AllVariantsEnd(depth, w, document)
    ensures v.JObj? && DiscriminatorOf(document) in v.members && i < |Branching(document).value|
    ensures Branching(document).value[i].value == v.members[DiscriminatorOf(document)]
    ensures depth > 0 && i < |DiscriminatedVariants(document).value|
    ensures (exists j :: OfVariant(k, depth, w, env, document, j, v))
            <==> HasRefinedMembers(k, depth - 1, w, env, document, DiscriminatedVariants(document).value[i], v)
  {
    hide *;
    i := SomeClauseApplies(valid, w, document, v);
    var clauses := Branching(document).value;
    OwnVariant(k, depth, w, env, document, i, v);
    forall j: nat | OfVariant(k, depth, w, env, document, j, v)
      ensures j == i
    {
      if j != i {
        OfVariantPins(k, depth, w, env, document, j, v);
        NotAllowed(clauses, i, j);
      }
    }
  }

  lemma {:induction false} OwnVariant(k: nat, depth: nat, w: World, env: Declarations, document: Json, i: nat, v: Json)
    requires Branching(document).Some? && i < |Branching(document).value| && AllVariantsEnd(depth, w, document)
    ensures depth > 0 && i < |DiscriminatedVariants(document).value|
    ensures OfVariant(k, depth, w, env, document, i, v)
            <==> HasRefinedMembers(k, depth - 1, w, env, document, DiscriminatedVariants(document).value[i], v)
  {
    hide Branching, VariantSchema, Ends, TypeOf, Inhabits, HasRefinedMembers, Refined;
    var variant := DiscriminatedVariants(document).value[i];
    VariantIsNotEmpty(document, i);
    hide DiscriminatedVariants;
    assert Ends(depth, w, document, VariantSchema(document, variant));
    VariantTypeMembers(k, depth, w, env, document, variant, v);
  }

  lemma {:induction false} VariantIsNotEmpty(document: Json, i: nat)
    requires DiscriminatedVariants(document).Some? && i < |DiscriminatedVariants(document).value|
    ensures DiscriminatedVariants(document).value[i].properties != map[]
  {
    VariantOfClause(document, i);
    var clause := Branching(document).value[i];
    hide Branching, Merge, PropertiesOf;
    assert clause.discriminator in Refined(PropertiesOf(document), clause);
  }

  lemma {:induction false} OfVariantPins(k: nat, depth: nat, w: World, env: Declarations, document: Json, j: nat, v: Json)
    requires OfVariant(k, depth, w, env, document, j, v)
    ensures Branching(document).Some? && j < |Branching(document).value| && v.JObj? && DiscriminatorOf(document) in v.members
    ensures LiteralAllows(Branching(document).value[j].value, v.members[DiscriminatorOf(document)])
  {
    hide Branching, VariantSchema, Ends, TypeOf, Inhabits, Refined, LiteralAllows;
    VariantOfClause(document, j);
    hide DiscriminatedVariants;
    VariantPinsItsValue(k, depth, w, env, document, Branching(document).value[j], v);
  }

  /** Exactly when a valid instance of any branching document is of one of the emitted variants' types: it meets
      its clause's condition, or its members have the refined types although the clause does not apply. */
  lemma {:induction false} BranchIsSoundIff(k: nat, depth: nat, limit: nat, w: World, env: Declarations, valid: Validity,
                                            document: Json, v: Json) returns (i: nat)
    requires IsValidity(valid, w) && Generated(limit, w, env)
    requires Meets(valid, w, document, document, v) && SaysObject(document)
    requires Branching(document).Some? && ToldApart(Branching(document).value)
    requires VariantsReady(depth, w, document, DiscriminatedVariants(document).value)
    ensures v.JObj? && DiscriminatorOf(document) in v.members && i < |Branching(document).value|
    ensures Branching(document).value[i].value == v.members[DiscriminatorOf(document)]
    ensures depth > 0 && i < |DiscriminatedVariants(document).value|
    ensures (exists j :: OfVariant(k, depth, w, env, document, j, v))
            <==> Satisfies(ConditionOf(document, i), v)
                 || HasRefinedMembers(k, depth - 1, w, env, document, DiscriminatedVariants(document).value[i], v)
  {
    hide *;
    ReadyVariantsEnd(depth, w, document);
    ObeysByValidity(valid, w);
    i := SomeVariantIffRefined(k, depth, w, env, valid, document, v);
    if Satisfies(ConditionOf(document, i), v) {
      AppliedClauseIsSound(k, depth, limit, w, env, valid, document, v, i);
    }
  }

  lemma {:induction false} ObeysByValidity(valid: Validity, w: World)
    requires IsValidity(valid, w)
    ensures Obeys(valid, w)
  {
    hide Obeys, Branches;
  }

  lemma {:induction false} ReadyVariantsEnd(depth: nat, w: World, document: Json)
    requires Branching(document).Some? && VariantsReady(depth, w, document, DiscriminatedVariants(document).value)
    ensures AllVariantsEnd(depth, w, document)
  {
    hide Branching, Ends, Supported, VariantSchema;
  }

  /** An instance its clause applies to is of that clause's variant. */
  lemma {:induction false} AppliedClauseIsSound(k: nat, depth: nat, limit: nat, w: World, env: Declarations, valid: Validity,
                                                document: Json, v: Json, i: nat)
    requires IsValidity(valid, w) && Generated(limit, w, env)
    requires Meets(valid, w, document, document, v) && SaysObject(document)
    requires Branching(document).Some? && i < |Branching(document).value|
    requires VariantsReady(depth, w, document, DiscriminatedVariants(document).value)
    requires v.JObj? && DiscriminatorOf(document) in v.members
    requires Branching(document).value[i].value == v.members[DiscriminatorOf(document)] && Satisfies(ConditionOf(document, i), v)
    ensures OfVariant(k, depth, w, env, document, i, v)
  {
    hide *;
    VariantIsMet(valid, w, document, v, i);
    ReadyVariant(depth, w, document, i);
    var schema := VariantSchema(document, DiscriminatedVariants(document).value[i]);
    ReachedFrom(w, valid, depth, document, schema, v);
    NodeIsSound(k, limit, w, env, valid, depth, document, schema, v);
    IsOfVariant(k, depth, w, env, document, i, v);
  }

  lemma {:induction false} ReadyVariant(depth: nat, w: World, document: Json, i: nat)
    requires Branching(document).Some? && i < |Branching(document).value|
    requires VariantsReady(depth, w, document, DiscriminatedVariants(document).value)
    ensures DiscriminatedVariants(document).Some? && i < |DiscriminatedVariants(document).value|
    ensures var clause := Branching(document).value[i];
            DiscriminatedVariants(document).value[i] == Variant(clause.value, Refined(PropertiesOf(document), clause))
    ensures var schema := VariantSchema(document, DiscriminatedVariants(document).value[i]);
            Ends(depth, w, document, schema) && Supported(depth, w, document, schema)
  {
    hide Branching, Ends, Supported, VariantSchema, Refined, PropertiesOf;
  }

  lemma {:induction false} IsOfVariant(k: nat, depth: nat, w: World, env: Declarations, document: Json, i: nat, v: Json)
    requires DiscriminatedVariants(document).Some? && i < |DiscriminatedVariants(document).value|
    requires var schema := VariantSchema(document, DiscriminatedVariants(document).value[i]);
             Ends(depth, w, document, schema) && Inhabits(k, env, TypeOf(depth, w, document, schema), v)
    ensures OfVariant(k, depth, w, env, document, i, v)
  {
    hide DiscriminatedVariants, VariantSchema, Ends, TypeOf, Inhabits;
  }

  // ---------------------------------------------------------------- where the types are too narrow

  /** The keywords of a node that describes an object's members and does not say it is an object. */
  predicate OnlyDescribesMembers(m: map<Key, Json>) {
    && Properties in m
    && forall key :: key in m ==> key == Properties || key == Required || key.Name?
  }

  /** Such a schema accepts null, which the emitted type leaves out: soundness needs the node's type. */
  lemma {:induction false} UntypedPropertiesAreTooNarrow(k: nat, depth: nat, w: World, env: Declarations, document: Json, m: map<Key, Json>)
    requires OnlyDescribesMembers(m) && Ends(depth, w, document, JObj(m))
    ensures exists valid: Validity :: IsValidity(valid, w) && valid(document, JObj(m), JNull)
    ensures !Inhabits(k, env, TypeOf(depth, w, document, JObj(m)), JNull)
  {
    var valid: Validity := (d: Json, n: Json, v: Json) => d == document && n == JObj(m) && v == JNull;
    assert IsValidity(valid, w) by {
      hide Resolve, RequiredNames, TypeAllows;
      assert Meets(valid, w, document, JObj(m), JNull);
    }
    MembersOnlyShape(w, document, m);
    hide ShapeOf, FieldsOf, IsValidity;
    assert valid(document, JObj(m), JNull);
  }

  lemma {:induction false} MembersOnlyShape(w: World, document: Json, m: map<Key, Json>)
    requires OnlyDescribesMembers(m)
    ensures ShapeOf(w, document, JObj(m)) == Simple(AnyRecord) || ShapeOf(w, document, JObj(m)).Record?
  {
    hide RequiredNames;
    assert TypeText(m) == "";
  }

  const KIND := Name("kind")
  const NOTE := Name("note")

  /** A document whose single branch asks for one more property than the discriminator. */
  function Guarded(extra: string): Json {
    JObj(map[Type := JStr("object"), Discriminator := JStr("kind"), Required := JArr([JStr("kind")]),
             Properties := JObj(map[KIND := JObj(map[Enum := JArr([JStr("a")])]), NOTE := JObj(map[Type := JStr("string")])]),
             AllOf := JArr([GuardedClause(extra)])])
  }

  function GuardedCondition(extra: string): Json {
    JObj(map[Properties := JObj(map[KIND := JObj(map[Const := JStr("a")])]), Required := JArr([JStr(extra)])])
  }

  function GuardedClause(extra: string): Json {
    JObj(map[If := GuardedCondition(extra), Then := JObj(map[Properties := JObj(map[NOTE := JObj(map[Const := JNull])])])])
  }

  const NOTED: Json := JObj(map[KIND := JStr("a"), NOTE := JStr("x")])

  lemma {:induction false} GuardedIsBranching(extra: string)
    ensures Branching(Guarded(extra)) == Some([Clause(KIND, JStr("a"), map[NOTE := JObj(map[Const := JNull])])])
  {
    var clause := Clause(KIND, JStr("a"), map[NOTE := JObj(map[Const := JNull])]);
    GuardedRequired(extra);
    GuardedParses(extra);
    OneClause({KIND}, GuardedClause(extra), clause);
    OneValue(clause);
    GuardedMembers(extra);
    assert KeyOf("kind") == KIND;
    assert [clause][0] == clause;
    hide ParseClauses, ParseClause, RequiredNames, Guarded, GuardedClause, ValuesTested, SetOf, KeyOf;
  }

  lemma {:induction false} GuardedMembers(extra: string)
    ensures var m := Guarded(extra).members;
            && m[Discriminator] == JStr("kind") && m[AllOf] == JArr([GuardedClause(extra)])
            && m[Properties] == JObj(map[KIND := JObj(map[Enum := JArr([JStr("a")])]), NOTE := JObj(map[Type := JStr("string")])])
    ensures ExpectedValues(JObj(map[Enum := JArr([JStr("a")])])) == Some([JStr("a")])
  {
  }

  lemma {:induction false} OneClause(required: set<Key>, node: Json, clause: Clause)
    requires ParseClause(required, node) == Some(clause)
    ensures ParseClauses(required, [node], 1) == Some([clause])
  {
    hide ParseClause;
    assert [node][0] == node;
    assert ParseClauses(required, [node], 0) == Some([]);
    assert [] + [clause] == [clause];
  }

  lemma {:induction false} OneValue(clause: Clause)
    ensures ValuesTested([clause]) == {clause.value} == SetOf([clause.value]) && |ValuesTested([clause])| == 1
  {
    assert [clause][0] == clause && [clause.value][0] == clause.value;
  }

  lemma {:induction false} GuardedRequired(extra: string)
    ensures RequiredNames(Guarded(extra).members) == {KIND}
  {
    assert [JStr("kind")][0] == JStr("kind");
  }

  lemma {:induction false} GuardedParses(extra: string)
    ensures ParseClause({KIND}, GuardedClause(extra)) == Some(Clause(KIND, JStr("a"), map[NOTE := JObj(map[Const := JNull])]))
  {
    var tested := map[KIND := JObj(map[Const := JStr("a")])];
    assert tested.Keys == {KIND};
    assert |tested| == 1;
    assert SoleKey(tested) in {KIND};
    hide SoleKey;
  }

  /** The judgement that calls `NOTED` valid for the guarded document, and what that takes. */
  ghost function NotedIsValid(extra: string): Validity {
    (d: Json, n: Json, v: Json) =>
      && d == Guarded(extra)
      && ((v == NOTED && (n == Guarded(extra) || n == GuardedClause(extra)))
          || (v == JStr("a") && n == JObj(map[Enum := JArr([JStr("a")])]))
          || (v == JStr("x") && n == JObj(map[Type := JStr("string")])))
  }

  lemma {:induction false} NotedMeets(extra: string, w: World)
    ensures Meets(NotedIsValid(extra), w, Guarded(extra), Guarded(extra), NOTED)
  {
    NotedValues(extra);
    NotedChildren(extra);
    NotedClauses(extra);
    hide ValueRules, ChildRules, CombinedRules;
  }

  lemma {:induction false} NotedValues(extra: string)
    ensures ValueRules(Guarded(extra).members, NOTED)
  {
    GuardedRequired(extra);
    assert TypeAllows(JStr("object"), NOTED);
    hide RequiredNames;
  }

  lemma {:induction false} NotedChildren(extra: string)
    ensures ChildRules(NotedIsValid(extra), Guarded(extra), Guarded(extra).members, NOTED)
  {
    hide GuardedClause;
  }

  lemma {:induction false} NotedClauses(extra: string)
    ensures CombinedRules(NotedIsValid(extra), Guarded(extra), Guarded(extra).members, NOTED)
  {
    hide GuardedClause;
  }

  lemma {:induction false} ClauseMeets(valid: Validity, extra: string, w: World, document: Json)
    ensures Meets(valid, w, document, GuardedClause(extra), NOTED)
  {
    hide NOTED;
    NoValueRules(extra);
    hide ValueRules, GuardedCondition;
  }

  lemma {:induction false} SchemasMeet(valid: Validity, w: World, document: Json)
    ensures Meets(valid, w, document, JObj(map[Enum := JArr([JStr("a")])]), JStr("a"))
    ensures Meets(valid, w, document, JObj(map[Type := JStr("string")]), JStr("x"))
  {
    OneOfOne(JStr("a"));
    StringIsString("x");
    hide ValueRules;
  }

  lemma {:induction false} OneOfOne(v: Json)
    ensures ValueRules(map[Enum := JArr([v])], v)
  {
    assert [v][0] == v;
  }

  lemma {:induction false} StringIsString(text: string)
    ensures ValueRules(map[Type := JStr("string")], JStr(text))
  {
  }

  lemma {:induction false} NoValueRules(extra: string)
    ensures ValueRules(GuardedClause(extra).members, NOTED)
  {
  }

  lemma {:induction false} GuardedIsNotSatisfied(extra: string)
    requires KeyOf(extra) != KIND && KeyOf(extra) != NOTE
    ensures !Satisfies(GuardedCondition(extra), NOTED)
  {
    hide KeyOf;
    assert [JStr(extra)][0] == JStr(extra);
    assert KeyOf(extra) in RequiredNames(GuardedCondition(extra).members);
  }

  lemma {:induction false} NotedValidity(extra: string, w: World)
    requires KeyOf(extra) != KIND && KeyOf(extra) != NOTE
    ensures IsValidity(NotedIsValid(extra), w) && NotedIsValid(extra)(Guarded(extra), Guarded(extra), NOTED)
  {
    hide Meets, Satisfies, KeyOf;
    NotedMeets(extra, w);
    ClauseMeets(NotedIsValid(extra), extra, w, Guarded(extra));
    SchemasMeet(NotedIsValid(extra), w, Guarded(extra));
    GuardedIsNotSatisfied(extra);
  }

  /** The only variant of the guarded document, and its note. */
  lemma {:induction false} GuardedVariant(extra: string)
    ensures var variants := DiscriminatedVariants(Guarded(extra));
            && variants.Some? && |variants.value| == 1
            && NOTE in variants.value[0].properties && variants.value[0].properties[NOTE] == JObj(map[Const := JNull])
  {
    GuardedIsBranching(extra);
    hide Branching;
    var clause := Clause(KIND, JStr("a"), map[NOTE := JObj(map[Const := JNull])]);
    var variants := DiscriminatedVariants(Guarded(extra)).value;
    assert variants[0] == Variant(clause.value, Refined(PropertiesOf(Guarded(extra)), clause));
    assert Const in JObj(map[Const := JNull]).members.Keys * {Const, Ref, OneOf, AnyOf, Enum};
    assert Merge(JObj(map[Type := JStr("string")]), JObj(map[Const := JNull])) == JObj(map[Const := JNull]);
    assert PropertiesOf(Guarded(extra))[NOTE] == JObj(map[Type := JStr("string")]);
    hide DiscriminatedVariants, VariantsOf;
  }

  /** A condition that asks for any further property is dropped by the generator, which applies its
      consequence regardless: an instance without that property is valid and of no variant's type. */
  lemma {:induction false} GuardedConditionIsTooNarrow(k: nat, depth: nat, w: World, env: Declarations, extra: string)
    requires KeyOf(extra) != KIND && KeyOf(extra) != NOTE
    ensures exists valid: Validity :: IsValidity(valid, w) && valid(Guarded(extra), Guarded(extra), NOTED)
    ensures Branching(Guarded(extra)).Some? && !exists i :: OfVariant(k, depth, w, env, Guarded(extra), i, NOTED)
  {
    hide *;
    NotedValidity(extra, w);
    GuardedVariant(extra);
    GuardedSaysObject(extra);
    ObeysByValidity(NotedIsValid(extra), w);
    NotedMeets(extra, w);
    var document := Guarded(extra);
    assert Branching(document).Some? && ToldApart(Branching(document).value) by { OneClauseIsToldApart(extra); }
    if j: nat :| OfVariant(k, depth, w, env, document, j, NOTED) {
      OnlyVariantEnds(k, depth, w, env, document, j, NOTED);
      var i := SomeVariantIffRefined(k, depth, w, env, NotedIsValid(extra), document, NOTED);
      NoteDoesNotFit(k, depth - 1, w, env, document, DiscriminatedVariants(document).value[i]);
    }
  }

  lemma {:induction false} OnlyVariantEnds(k: nat, depth: nat, w: World, env: Declarations, document: Json, j: nat, v: Json)
    requires OfVariant(k, depth, w, env, document, j, v) && |DiscriminatedVariants(document).value| == 1
    ensures AllVariantsEnd(depth, w, document)
  {
    hide DiscriminatedVariants, VariantSchema, Ends, TypeOf, Inhabits;
  }

  lemma {:induction false} OneClauseIsToldApart(extra: string)
    ensures Branching(Guarded(extra)).Some? && ToldApart(Branching(Guarded(extra)).value)
  {
    GuardedIsBranching(extra);
    hide Branching;
  }

  lemma {:induction false} GuardedSaysObject(extra: string)
    ensures SaysObject(Guarded(extra))
  {
  }

  lemma {:induction false} NoteDoesNotFit(k: nat, depth: nat, w: World, env: Declarations, document: Json, variant: Variant)
    requires NOTE in variant.properties && variant.properties[NOTE] == JObj(map[Const := JNull])
    ensures !HasRefinedMembers(k, depth, w, env, document, variant, NOTED)
  {
    assert NOTED.members[NOTE] == JStr("x");
    if Ends(depth, w, document, variant.properties[NOTE]) {
      ConstantType(depth, w, document, JNull);
      assert !Inhabits(k, env, Literal(JNull), JStr("x"));
    }
    assert !MemberFits(k, depth, w, env, document, variant, NOTE, NOTED.members);
    hide MemberFits;
  }
}
