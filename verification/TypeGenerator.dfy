/** The schema-to-TypeScript generator: the types it emits, what values they hold, and why every instance
    valid for a schema is one of them. */
module TypeGenerator {

  import opened JsonSchema
  import opened Wrappers

  // ---------------------------------------------------------------- types

  datatype TsType =
    | Unknown
    | Primitive(name: string)
    | Literal(value: Json)
    | ArrayType(element: TsType)
    | AnyRecord
    | ObjectType(fields: map<Key, Field>)
    | Union(options: seq<TsType>)
    | Intersection(parts: seq<TsType>)
    | Named(name: string)

  datatype Field = Field(isOptional: bool, fieldType: TsType)

  /** The declared types by name. */
  type Declarations = map<string, TsType>

  /** A JSON literal written as a type: objects are open, arrays are tuples. */
  predicate LiteralAllows(value: Json, v: Json) {
    match value
    case JObj(m) => v.JObj? && forall key :: key in m ==> key in v.members && LiteralAllows(m[key], v.members[key])
    case JArr(items) => v.JArr? && |v.items| == |items| && forall i :: 0 <= i < |items| ==> LiteralAllows(items[i], v.items[i])
    case _ => v == value
  }

  lemma {:induction false} LiteralAllowsItself(value: Json)
    ensures LiteralAllows(value, value)
  {
    match value
    case JObj(m) =>
      forall key | key in m
        ensures LiteralAllows(m[key], m[key])
      {
        LiteralAllowsItself(m[key]);
      }
    case JArr(items) =>
      forall i | 0 <= i < |items|
        ensures LiteralAllows(items[i], items[i])
      {
        LiteralAllowsItself(items[i]);
      }
    case _ =>
  }

  /** A value is of a type, looking through at most `depth` declared names. Object types are open: members
      they do not mention are allowed. */
  ghost predicate Inhabits(depth: nat, env: Declarations, t: TsType, v: Json)
    decreases depth, t
  {
    match t
    case Unknown => true
    case Primitive(name) => Matches(name, v)
    case Literal(value) => LiteralAllows(value, v)
    case ArrayType(element) => v.JArr? && forall i :: 0 <= i < |v.items| ==> Inhabits(depth, env, element, v.items[i])
    case AnyRecord => v.JObj?
    case ObjectType(fields) =>
      v.JObj? && forall name :: name in fields ==> HasField(depth, env, fields[name], name, v.members)
    case Union(options) => exists i :: 0 <= i < |options| && Inhabits(depth, env, options[i], v)
    case Intersection(parts) => forall i :: 0 <= i < |parts| ==> Inhabits(depth, env, parts[i], v)
    case Named(name) => name in env && (depth == 0 || Inhabits(depth - 1, env, env[name], v))
  }

  ghost predicate HasField(depth: nat, env: Declarations, field: Field, name: Key, members: map<Key, Json>)
    decreases depth, field
  {
    if name in members then Inhabits(depth, env, field.fieldType, members[name]) else field.isOptional
  }

  // ---------------------------------------------------------------- one node

  function Capital(c: char): char {
    if 'a' <= c <= 'z' then (c as int - 'a' as int + 'A' as int) as char else c
  }

  function Capitalized(parts: seq<string>): string {
    if parts == [] then []
    else (if parts[0] == [] then [] else [Capital(parts[0][0])] + parts[0][1..]) + Capitalized(parts[1..])
  }

  function PascalCase(name: string): string {
    Capitalized(SplitOn(name, '_'))
  }

  const SUFFIX := ".schema.json"

  function LastSegment(reference: string): string {
    var segments := SplitOn(reference, '/');
    if segments == [] then [] else segments[|segments| - 1]
  }

  /** The file stem a reference that is not followed ends in; its type name is made from that. */
  function StemOf(reference: string): string {
    var last := LastSegment(reference);
    if |last| >= |SUFFIX| && last[|last| - |SUFFIX|..] == SUFFIX then last[..|last| - |SUFFIX|] else last
  }

  /** Which branch of the generator handles a node, with the nodes it goes on to. */
  datatype Shape =
    | Opaque
    | Goto(place: Place)
    | ByName(name: string)
    | Constant(value: Json)
    | Values(values: seq<Json>)
    | Alternatives(nodes: seq<Json>)
    | Simple(t: TsType)
    | ListOf(node: Json)
    | Record(properties: map<Key, Json>, required: set<Key>)
    | AllParts(nodes: seq<Json>)

  function Retyped(m: map<Key, Json>, t: Json): Json {
    JObj(m[Type := t])
  }

  function Retypings(m: map<Key, Json>, types: seq<Json>): (r: seq<Json>)
    ensures |r| == |types| && forall i :: 0 <= i < |r| ==> r[i] == Retyped(m, types[i])
  {
    seq(|types|, i requires 0 <= i < |types| => Retyped(m, types[i]))
  }

  function TypeText(m: map<Key, Json>): string {
    if Type in m && m[Type].JStr? then m[Type].text else ""
  }

  function Untyped(m: map<Key, Json>): Shape {
    if AllOf in m && m[AllOf].JArr? then AllParts(m[AllOf].items) else Opaque
  }

  function ByType(m: map<Key, Json>): Shape {
    if Type in m && m[Type].JArr? then Alternatives(Retypings(m, m[Type].items))
    else
      match TypeText(m)
      case "string" => Simple(Primitive("string"))
      case "integer" => Simple(Primitive("number"))
      case "number" => Simple(Primitive("number"))
      case "boolean" => Simple(Primitive("boolean"))
      case "null" => Simple(Primitive("null"))
      case "array" => ListOf(if Items in m then m[Items] else JObj(map[]))
      case _ =>
        if TypeText(m) == "object" || Properties in m then
          if Properties in m && m[Properties].JObj? && m[Properties].members != map[] then
            Record(m[Properties].members, RequiredNames(m))
          else Simple(AnyRecord)
        else Untyped(m)
  }

  function ByReference(w: World, document: Json, reference: string): Shape {
    var place := Resolve(w, document, reference);
    if place.Some? then Goto(place.value)
    else if StemOf(reference) == [] then Opaque
    else ByName(PascalCase(StemOf(reference)))
  }

  function ShapeOf(w: World, document: Json, node: Json): Shape {
    if !node.JObj? then Opaque
    else
      var m := node.members;
      if Ref in m && m[Ref].JStr? then ByReference(w, document, m[Ref].text)
      else if Const in m then Constant(m[Const])
      else if Enum in m && m[Enum].JArr? then Values(m[Enum].items)
      else if OneOf in m && m[OneOf].JArr? then Alternatives(m[OneOf].items)
      else if AnyOf in m && m[AnyOf].JArr? then Alternatives(m[AnyOf].items)
      else ByType(m)
  }

  // ---------------------------------------------------------------- the recursion

  /** The recursion from this node ends within `depth` calls. */
  predicate Ends(depth: nat, w: World, document: Json, node: Json)
    decreases depth
  {
    depth > 0 &&
    match ShapeOf(w, document, node)
    case Goto(place) => Ends(depth - 1, w, place.document, place.node)
    case Alternatives(nodes) => forall i :: 0 <= i < |nodes| ==> Ends(depth - 1, w, document, nodes[i])
    case ListOf(item) => Ends(depth - 1, w, document, item)
    case Record(properties, _) => forall name :: name in properties ==> Ends(depth - 1, w, document, properties[name])
    case AllParts(nodes) => forall i :: 0 <= i < |nodes| ==> Ends(depth - 1, w, document, nodes[i])
    case _ => true
  }

  function TypeOf(depth: nat, w: World, document: Json, node: Json): TsType
    requires Ends(depth, w, document, node)
    decreases depth, 0
  {
    hide ShapeOf;
    match ShapeOf(w, document, node)
    case Opaque => Unknown
    case Goto(place) => TypeOf(depth - 1, w, place.document, place.node)
    case ByName(name) => Named(name)
    case Constant(value) => Literal(value)
    case Values(values) => Union(Literals(values))
    case Alternatives(nodes) => Union(TypesOf(depth - 1, w, document, nodes))
    case Simple(t) => t
    case ListOf(item) => ArrayType(TypeOf(depth - 1, w, document, item))
    case Record(properties, required) => ObjectType(FieldsOf(depth - 1, w, document, properties, required))
    case AllParts(nodes) => Intersection(TypesOf(depth - 1, w, document, nodes))
  }

  function TypesOf(depth: nat, w: World, document: Json, nodes: seq<Json>): (r: seq<TsType>)
    requires forall i :: 0 <= i < |nodes| ==> Ends(depth, w, document, nodes[i])
    ensures |r| == |nodes|
    decreases depth, 1
  {
    seq(|nodes|, i requires 0 <= i < |nodes| => TypeOf(depth, w, document, nodes[i]))
  }

  function FieldsOf(depth: nat, w: World, document: Json, properties: map<Key, Json>, required: set<Key>): (r: map<Key, Field>)
    requires forall name :: name in properties ==> Ends(depth, w, document, properties[name])
    ensures r.Keys == properties.Keys
    decreases depth, 1
  {
    map name | name in properties :: Field(name !in required, TypeOf(depth, w, document, properties[name]))
  }

  function Literals(values: seq<Json>): (r: seq<TsType>)
    ensures |r| == |values| && forall i :: 0 <= i < |r| ==> r[i] == Literal(values[i])
  {
    seq(|values|, i requires 0 <= i < |values| => Literal(values[i]))
  }

  // ---------------------------------------------------------------- the fragment it is sound for

  /** A reference that is not followed must name a contract whose type carries the name made from it; a node
      with `properties` must say its type; an array node has no `prefixItems`. */
  predicate Admissible(w: World, document: Json, node: Json) {
    node.JObj? ==>
      var m := node.members;
      match ShapeOf(w, document, node)
      case ByName(name) => m[Ref].text in w && w[m[Ref].text].typeName == name
      case Simple(AnyRecord) => Type in m && m[Type].JStr?
      case Record(_, _) => Type in m && m[Type].JStr?
      case ListOf(_) => PrefixItems !in m
      case _ => true
  }

  /** Every node the recursion visits is admissible. */
  predicate Supported(depth: nat, w: World, document: Json, node: Json)
    decreases depth
  {
    depth > 0 && Admissible(w, document, node) &&
    match ShapeOf(w, document, node)
    case Goto(place) => Supported(depth - 1, w, place.document, place.node)
    case Alternatives(nodes) => forall i :: 0 <= i < |nodes| ==> Supported(depth - 1, w, document, nodes[i])
    case ListOf(item) => Supported(depth - 1, w, document, item)
    case Record(properties, _) => forall name :: name in properties ==> Supported(depth - 1, w, document, properties[name])
    case AllParts(nodes) => forall i :: 0 <= i < |nodes| ==> Supported(depth - 1, w, document, nodes[i])
    case _ => true
  }

  // ---------------------------------------------------------------- one node is sound

  /** What an instance satisfies when the judgement holds for the nodes a shape goes on to. */
  ghost predicate Fits(valid: Validity, w: World, document: Json, shape: Shape, v: Json) {
    match shape
    case Opaque => true
    case Goto(place) => Meets(valid, w, place.document, place.node, v)
    case ByName(name) => exists id :: id in w && w[id].typeName == name && valid(w[id].document, w[id].document, v)
    case Constant(value) => v == value
    case Values(values) => v in values
    case Alternatives(nodes) => exists i :: 0 <= i < |nodes| && Meets(valid, w, document, nodes[i], v)
    case Simple(t) => (t.Primitive? && Matches(t.name, v)) || (t.AnyRecord? && v.JObj?)
    case ListOf(item) => v.JArr? && forall i :: 0 <= i < |v.items| ==> Meets(valid, w, document, item, v.items[i])
    case Record(properties, required) =>
      && v.JObj? && required <= v.members.Keys
      && forall name :: name in properties && name in v.members ==> Meets(valid, w, document, properties[name], v.members[name])
    case AllParts(nodes) => forall i :: 0 <= i < |nodes| ==> Meets(valid, w, document, nodes[i], v)
  }

  lemma {:induction false} ReferenceFits(valid: Validity, w: World, document: Json, node: Json, v: Json)
    requires Obeys(valid, w) && Meets(valid, w, document, node, v) && Admissible(w, document, node)
    requires node.JObj? && Ref in node.members && node.members[Ref].JStr?
    ensures Fits(valid, w, document, ShapeOf(w, document, node), v)
  {
    hide Resolve, ValueRules, CombinedRules, ChildRules, StemOf, PascalCase;
    var m := node.members;
    assert RefRule(valid, w, document, m, v);
    assert ShapeOf(w, document, node) == ByReference(w, document, m[Ref].text);
    hide Meets;
  }

  lemma {:induction false} ValueFits(valid: Validity, w: World, document: Json, node: Json, v: Json)
    requires Obeys(valid, w) && Meets(valid, w, document, node, v)
    requires node.JObj? && !(Ref in node.members && node.members[Ref].JStr?)
    requires ShapeOf(w, document, node) != ByType(node.members)
    ensures Fits(valid, w, document, ShapeOf(w, document, node), v)
  {
    hide TypeAllows, RequiredNames, RefRule, ChildRules, ByType;
    assert ValueRules(node.members, v) && CombinedRules(valid, document, node.members, v);
    hide Meets;
  }

  /** One of the alternatives of a list of types is met when the whole list is. */
  lemma {:induction false} RetypedIsMet(valid: Validity, w: World, document: Json, m: map<Key, Json>, v: Json)
    requires Meets(valid, w, document, JObj(m), v) && Type in m && m[Type].JArr?
    ensures exists i :: 0 <= i < |m[Type].items| && Meets(valid, w, document, Retyped(m, m[Type].items[i]), v)
  {
    var types := m[Type].items;
    assert ValueRules(m, v);
    assert TypeAllows(m[Type], v);
    var i :| 0 <= i < |types| && types[i].JStr? && Matches(types[i].text, v);
    RetypeKeeps(valid, w, document, m, types[i], v);
  }

  lemma {:induction false} RetypeKeeps(valid: Validity, w: World, document: Json, m: map<Key, Json>, t: Json, v: Json)
    requires Meets(valid, w, document, JObj(m), v) && TypeAllows(t, v)
    ensures Meets(valid, w, document, Retyped(m, t), v)
  {
    hide TypeAllows, Resolve;
    var n := m[Type := t];
    assert RefRule(valid, w, document, n, v);
    assert CombinedRules(valid, document, n, v);
    assert ChildRules(valid, document, n, v);
    hide RefRule, CombinedRules, ChildRules;
    assert ValueRules(n, v);
  }

  lemma {:induction false} TypeFits(valid: Validity, w: World, document: Json, node: Json, v: Json)
    requires Obeys(valid, w) && Meets(valid, w, document, node, v) && Admissible(w, document, node)
    requires node.JObj? && ShapeOf(w, document, node) == ByType(node.members)
    ensures Fits(valid, w, document, ShapeOf(w, document, node), v)
  {
    var m := node.members;
    hide Obeys, ShapeOf;
    if Type in m && m[Type].JArr? {
      hide Admissible;
      RetypedFits(valid, w, document, m, v);
    } else {
      hide Fits, ByType, ValueRules, ChildRules, CombinedRules;
      assert ValueRules(m, v) && ChildRules(valid, document, m, v) && CombinedRules(valid, document, m, v) by {
        hide RefRule, Admissible;
      }
      hide Meets;
      match ByType(m) {
        case ListOf(item) => ListFits(valid, w, document, m, v);
        case Record(_, _) => RecordFits(valid, w, document, m, v);
        case Simple(t) => SimpleFits(valid, w, document, m, v);
        case _ =>
          NoOtherType(m);
          UntypedFits(valid, w, document, m, v);
      }
    }
  }

  lemma {:induction false} NoOtherType(m: map<Key, Json>)
    requires !(Type in m && m[Type].JArr?)
    ensures ByType(m).ListOf? || ByType(m).Record? || ByType(m).Simple? || ByType(m).Opaque? || ByType(m).AllParts?
  {
    hide RequiredNames;
  }

  lemma {:induction false} RetypedFits(valid: Validity, w: World, document: Json, m: map<Key, Json>, v: Json)
    requires Meets(valid, w, document, JObj(m), v) && Type in m && m[Type].JArr?
    ensures Fits(valid, w, document, ByType(m), v)
  {
    RetypedIsMet(valid, w, document, m, v);
    hide Meets, Retyped;
  }

  lemma {:induction false} ListFits(valid: Validity, w: World, document: Json, m: map<Key, Json>, v: Json)
    requires Obeys(valid, w) && ByType(m).ListOf? && PrefixItems !in m
    requires ValueRules(m, v) && ChildRules(valid, document, m, v)
    ensures Fits(valid, w, document, ByType(m), v)
  {
    assert TypeText(m) == "array";
    assert v.JArr?;
    hide ByType, ValueRules;
    if Items in m {
      assert ItemsRule(valid, document, m[Items], v);
    } else {
      EmptySchemaIsMet(valid, w, document);
    }
  }

  lemma {:induction false} EmptySchemaIsMet(valid: Validity, w: World, document: Json)
    ensures forall v :: Meets(valid, w, document, JObj(map[]), v)
  {
  }

  lemma {:induction false} RecordFits(valid: Validity, w: World, document: Json, m: map<Key, Json>, v: Json)
    requires Obeys(valid, w) && ByType(m).Record? && Type in m && m[Type].JStr?
    requires ValueRules(m, v) && ChildRules(valid, document, m, v)
    ensures Fits(valid, w, document, ByType(m), v)
  {
    hide RequiredNames, Meets;
    assert v.JObj?;
    assert PropertiesRule(valid, document, m[Properties], v);
  }

  lemma {:induction false} SimpleFits(valid: Validity, w: World, document: Json, m: map<Key, Json>, v: Json)
    requires ByType(m).Simple? && ValueRules(m, v) && (ByType(m) == Simple(AnyRecord) ==> Type in m && m[Type].JStr?)
    ensures Fits(valid, w, document, ByType(m), v)
  {
    hide RequiredNames, Meets;
    assert Type in m && m[Type].JStr? && Matches(m[Type].text, v);
  }

  lemma {:induction false} UntypedFits(valid: Validity, w: World, document: Json, m: map<Key, Json>, v: Json)
    requires Obeys(valid, w) && CombinedRules(valid, document, m, v)
    requires ByType(m).Opaque? || ByType(m).AllParts?
    ensures Fits(valid, w, document, ByType(m), v)
  {
    hide RequiredNames, Meets;
  }

  lemma {:induction false} NodeFits(valid: Validity, w: World, document: Json, node: Json, v: Json)
    requires Obeys(valid, w) && Meets(valid, w, document, node, v) && Admissible(w, document, node)
    ensures Fits(valid, w, document, ShapeOf(w, document, node), v)
  {
    hide Meets, Obeys, Admissible;
    if node.JObj? {
      hide Fits;
      if Ref in node.members && node.members[Ref].JStr? {
        ReferenceFits(valid, w, document, node, v);
      } else if ShapeOf(w, document, node) == ByType(node.members) {
        TypeFits(valid, w, document, node, v);
      } else {
        ValueFits(valid, w, document, node, v);
      }
    }
  }

  // ---------------------------------------------------------------- merging a branch into the base

  function Merge(base: Json, refinement: Json): Json {
    if !base.JObj? || !refinement.JObj? then refinement
    else if refinement.members.Keys * {Const, Ref, OneOf, AnyOf, Enum} != {} then refinement
    else if base.members.Keys * {OneOf, AnyOf} != {} && Type in refinement.members then refinement
    else JObj(base.members + refinement.members)
  }

  /** What meets a property's schema and its branch's refinement meets the two merged. */
  lemma {:induction false} MergeIsMet(valid: Validity, w: World, document: Json, base: Json, refinement: Json, v: Json)
    requires Meets(valid, w, document, base, v) && Meets(valid, w, document, refinement, v)
    ensures Meets(valid, w, document, Merge(base, refinement), v)
  {
    if base.JObj? && refinement.JObj? {
      UnionIsMet(valid, w, document, base.members, refinement.members, v);
      hide Meets;
    }
  }

  lemma {:induction false} UnionIsMet(valid: Validity, w: World, document: Json, m: map<Key, Json>, n: map<Key, Json>, v: Json)
    requires Meets(valid, w, document, JObj(m), v) && Meets(valid, w, document, JObj(n), v)
    ensures Meets(valid, w, document, JObj(m + n), v)
  {
    var u := m + n;
    hide RefRule, CombinedRules, ChildRules, ValueRules;
    UnionRefs(valid, w, document, m, n, v);
    UnionCombinations(valid, document, m, n, v);
    UnionChildren(valid, document, m, n, v);
    UnionValues(m, n, v);
  }

  lemma {:induction false} UnionRefs(valid: Validity, w: World, document: Json, m: map<Key, Json>, n: map<Key, Json>, v: Json)
    requires RefRule(valid, w, document, m, v) && RefRule(valid, w, document, n, v)
    ensures RefRule(valid, w, document, m + n, v)
  {
    hide Resolve;
  }

  lemma {:induction false} UnionCombinations(valid: Validity, document: Json, m: map<Key, Json>, n: map<Key, Json>, v: Json)
    requires CombinedRules(valid, document, m, v) && CombinedRules(valid, document, n, v)
    ensures CombinedRules(valid, document, m + n, v)
  {
    hide SomeOf, EachOf;
  }

  lemma {:induction false} UnionChildren(valid: Validity, document: Json, m: map<Key, Json>, n: map<Key, Json>, v: Json)
    requires ChildRules(valid, document, m, v) && ChildRules(valid, document, n, v)
    ensures ChildRules(valid, document, m + n, v)
  {
    hide ItemsRule, PropertiesRule;
  }

  lemma {:induction false} UnionValues(m: map<Key, Json>, n: map<Key, Json>, v: Json)
    requires ValueRules(m, v) && ValueRules(n, v)
    ensures ValueRules(m + n, v)
  {
    hide TypeAllows;
  }

  // ---------------------------------------------------------------- discriminated contracts

  /** One `if`/`then` clause: the discriminating property, the constant it is compared with, and the
      refinements that then apply. */
  datatype Clause = Clause(discriminator: Key, value: Json, refinements: map<Key, Json>)

  datatype Variant = Variant(value: Json, properties: map<Key, Json>)

  function SoleKey(m: map<Key, Json>): (k: Key)
    requires |m| == 1
    ensures m.Keys == {k}
  {
    SoleKeyIsUnique(m);
    var k :| k in m;
    k
  }

  lemma {:induction false} SoleKeyIsUnique(m: map<Key, Json>)
    requires |m| == 1
    ensures exists k :: m.Keys == {k}
  {
    var k :| k in m;
    assert |m.Keys - {k}| == 0;
    assert m.Keys == {k};
  }

  function Member(node: Json, key: Key): Option<Json> {
    if node.JObj? && key in node.members then Some(node.members[key]) else None
  }

  function MembersOf(node: Option<Json>): Option<map<Key, Json>> {
    if node.Some? && node.value.JObj? then Some(node.value.members) else None
  }

  function ParseClause(required: set<Key>, clause: Json): Option<Clause> {
    if !clause.JObj? || Else in clause.members then None
    else
      var condition, consequence := Member(clause, If), Member(clause, Then);
      if condition.None? || !condition.value.JObj? || consequence.None? || !consequence.value.JObj? then None
      else
        var tested, refinements := MembersOf(Member(condition.value, Properties)), MembersOf(Member(consequence.value, Properties));
        if tested.None? || |tested.value| != 1 || refinements.None? then None
        else
          var d := SoleKey(tested.value);
          var constant := Member(tested.value[d], Const);
          if constant.None? || d !in required then None else Some(Clause(d, constant.value, refinements.value))
  }

  /** The first `n` clauses, when every one of them has the expected form. */
  function ParseClauses(required: set<Key>, clauses: seq<Json>, n: nat): (r: Option<seq<Clause>>)
    requires n <= |clauses|
    ensures r.Some? ==> |r.value| == n && forall i :: 0 <= i < n ==> ParseClause(required, clauses[i]) == Some(r.value[i])
  {
    if n == 0 then Some([])
    else
      var before, clause := ParseClauses(required, clauses, n - 1), ParseClause(required, clauses[n - 1]);
      if before.None? || clause.None? then None else Some(before.value + [clause.value])
  }

  /** The values the discriminating property may have, as its own schema lists them. */
  function ExpectedValues(node: Json): Option<seq<Json>> {
    if !node.JObj? then None
    else if TypeText(node.members) == "boolean" then Some([JBool(false), JBool(true)])
    else if Enum in node.members && node.members[Enum].JArr? then Some(node.members[Enum].items)
    else if Const in node.members then Some([node.members[Const]])
    else None
  }

  function ValuesTested(clauses: seq<Clause>): set<Json> {
    set i | 0 <= i < |clauses| :: clauses[i].value
  }

  function SetOf(values: seq<Json>): set<Json> {
    set i | 0 <= i < |values| :: values[i]
  }

  /** The clauses of a document whose branches are declared, provably exhaustive and distinct. */
  function Branching(document: Json): Option<seq<Clause>> {
    if !document.JObj? then None
    else
      var m := document.members;
      if !(Discriminator in m && m[Discriminator].JStr? && m[Discriminator].text != []) then None
      else if !(Properties in m && m[Properties].JObj? && AllOf in m && m[AllOf].JArr? && m[AllOf].items != []) then None
      else
        var parsed := ParseClauses(RequiredNames(m), m[AllOf].items, |m[AllOf].items|);
        var d := KeyOf(m[Discriminator].text);
        if parsed.None? || exists i :: 0 <= i < |parsed.value| && parsed.value[i].discriminator != d then None
        else if d !in m[Properties].members then None
        else
          var expected := ExpectedValues(m[Properties].members[d]);
          if expected.None? then None
          else if |ValuesTested(parsed.value)| != |parsed.value| || ValuesTested(parsed.value) != SetOf(expected.value) then None
          else parsed
  }

  function DiscriminatorOf(document: Json): Key {
    if document.JObj? && Discriminator in document.members && document.members[Discriminator].JStr? then
      KeyOf(document.members[Discriminator].text)
    else Discriminator
  }

  function PropertiesOf(document: Json): map<Key, Json> {
    if document.JObj? && Properties in document.members && document.members[Properties].JObj? then
      document.members[Properties].members
    else map[]
  }

  /** The document's properties as one clause refines them, the discriminator pinned to the clause's value. */
  function Refined(properties: map<Key, Json>, clause: Clause): map<Key, Json> {
    (map name | name in properties ::
       Merge(properties[name], if name in clause.refinements then clause.refinements[name] else properties[name]))
    [clause.discriminator := JObj(map[Const := clause.value])]
  }

  function VariantsOf(properties: map<Key, Json>, clauses: seq<Clause>, n: nat): (r: seq<Variant>)
    requires n <= |clauses|
    ensures |r| == n && forall i :: 0 <= i < n ==> r[i] == Variant(clauses[i].value, Refined(properties, clauses[i]))
  {
    if n == 0 then []
    else VariantsOf(properties, clauses, n - 1) + [Variant(clauses[n - 1].value, Refined(properties, clauses[n - 1]))]
  }

  function DiscriminatedVariants(document: Json): Option<seq<Variant>> {
    var clauses := Branching(document);
    if clauses.None? then None else Some(VariantsOf(PropertiesOf(document), clauses.value, |clauses.value|))
  }

  /** The schema a variant is rendered from. */
  function VariantSchema(document: Json, variant: Variant): Json {
    var required := Member(document, Required);
    JObj(map[Type := JStr("object"), Properties := JObj(variant.properties),
             Required := if required.Some? then required.value else JArr([])])
  }

  /** A clause's condition says no more than that the discriminator has the clause's value. */
  predicate PlainCondition(condition: Json, d: Key) {
    && condition.JObj? && condition.members.Keys <= {Type, Properties, Required}
    && (Type in condition.members ==> condition.members[Type] == JStr("object"))
    && RequiredNames(condition.members) <= {d}
    && MembersOf(Member(condition, Properties)).Some?
    && var tested := MembersOf(Member(condition, Properties)).value;
       tested.Keys == {d} && tested[d].JObj? && tested[d].members.Keys == {Const}
  }

  predicate SaysObject(document: Json) {
    document.JObj? && TypeText(document.members) == "object"
  }

  /** The condition of a document's `i`th clause. */
  function ConditionOf(document: Json, i: nat): Json {
    var clauses := Member(document, AllOf);
    if clauses.None? || !clauses.value.JArr? || i >= |clauses.value.items| then JNull
    else
      var condition := Member(clauses.value.items[i], If);
      if condition.None? then JNull else condition.value
  }

  predicate PlainlyConditioned(document: Json) {
    && SaysObject(document)
    && (AllOf in document.members && document.members[AllOf].JArr? ==>
          forall i :: 0 <= i < |document.members[AllOf].items| ==>
            var condition := Member(document.members[AllOf].items[i], If);
            condition.Some? && PlainCondition(condition.value, DiscriminatorOf(document)))
  }

  lemma {:induction false} PlainIsSatisfied(condition: Json, d: Key, v: Json)
    requires PlainCondition(condition, d) && v.JObj? && d in v.members
    requires v.members[d] == MembersOf(Member(condition, Properties)).value[d].members[Const]
    ensures Satisfies(condition, v)
  {
    var m := condition.members;
    var constraint := MembersOf(Member(condition, Properties)).value[d];
    assert Satisfies(constraint, v.members[d]);
    assert TypeAllows(JStr("object"), v);
    hide RequiredNames, TypeAllows;
  }

  /** An instance of a branching document carries the value of one of the clauses. */
  lemma {:induction false} SomeClauseApplies(valid: Validity, w: World, document: Json, v: Json) returns (i: nat)
    requires Obeys(valid, w) && Meets(valid, w, document, document, v) && SaysObject(document)
    requires Branching(document).Some?
    ensures v.JObj? && DiscriminatorOf(document) in v.members
    ensures i < |Branching(document).value| && Branching(document).value[i].value == v.members[DiscriminatorOf(document)]
  {
    hide Meets, Obeys, Branching, ValuesTested;
    DiscriminatorIsPresent(valid, w, document, v);
    var x := v.members[DiscriminatorOf(document)];
    var schema := document.members[Properties].members[DiscriminatorOf(document)];
    ExpectedIsListed(valid, w, document, schema, x);
    i := ClauseOfValue(document, x);
  }

  lemma {:induction false} DiscriminatorIsPresent(valid: Validity, w: World, document: Json, v: Json)
    requires Obeys(valid, w) && Meets(valid, w, document, document, v) && SaysObject(document)
    requires Branching(document).Some?
    ensures v.JObj? && DiscriminatorOf(document) in v.members
    ensures document.JObj? && Properties in document.members && document.members[Properties].JObj?
    ensures DiscriminatorOf(document) in document.members[Properties].members
    ensures var schema := document.members[Properties].members[DiscriminatorOf(document)];
            && ExpectedValues(schema).Some?
            && Meets(valid, w, document, schema, v.members[DiscriminatorOf(document)])
  {
    hide RefRule, CombinedRules, ExpectedValues;
    var m, d := document.members, DiscriminatorOf(document);
    assert ValueRules(m, v) && ChildRules(valid, document, m, v);
    hide Meets;
    assert v.JObj?;
    assert d in RequiredNames(m) by { ClauseFacts(document, 0); }
    assert d in v.members;
    assert PropertiesRule(valid, document, m[Properties], v);
    assert valid(document, m[Properties].members[d], v.members[d]);
  }

  lemma {:induction false} ClauseOfValue(document: Json, x: Json) returns (i: nat)
    requires Branching(document).Some? && DiscriminatorOf(document) in PropertiesOf(document)
    requires ExpectedValues(PropertiesOf(document)[DiscriminatorOf(document)]).Some?
    requires x in SetOf(ExpectedValues(PropertiesOf(document)[DiscriminatorOf(document)]).value)
    ensures i < |Branching(document).value| && Branching(document).value[i].value == x
  {
    hide ParseClauses, ExpectedValues, SetOf, RequiredNames;
    var clauses := Branching(document).value;
    assert x in ValuesTested(clauses);
    i :| 0 <= i < |clauses| && clauses[i].value == x;
  }

  lemma {:induction false} ExpectedIsListed(valid: Validity, w: World, document: Json, schema: Json, x: Json)
    requires Meets(valid, w, document, schema, x) && ExpectedValues(schema).Some?
    ensures x in SetOf(ExpectedValues(schema).value)
  {
    hide RefRule, CombinedRules, ChildRules, RequiredNames;
    assert ValueRules(schema.members, x);
    var values := ExpectedValues(schema).value;
    if TypeText(schema.members) == "boolean" {
      assert TypeAllows(schema.members[Type], x);
      assert x == values[if x.flag then 1 else 0];
    } else if !(Enum in schema.members && schema.members[Enum].JArr?) {
      assert x == values[0];
    }
  }

  /** What branching says about the `i`th clause. */
  lemma {:induction false} ClauseFacts(document: Json, i: nat)
    requires Branching(document).Some? && (i < |Branching(document).value| || i == 0)
    ensures var clauses := Branching(document).value;
            && clauses != [] && |clauses| == |document.members[AllOf].items|
            && clauses[i].discriminator == DiscriminatorOf(document) && DiscriminatorOf(document) in RequiredNames(document.members)
            && ParseClause(RequiredNames(document.members), document.members[AllOf].items[i]) == Some(clauses[i])
  {
    hide ParseClauses, ExpectedValues, RequiredNames, ValuesTested, SetOf, SoleKey;
  }

  /** Under a plain condition the clause of the instance's value applies. */
  lemma {:induction false} PlainClauseApplies(document: Json, v: Json, i: nat)
    requires PlainlyConditioned(document) && Branching(document).Some? && i < |Branching(document).value|
    requires v.JObj? && DiscriminatorOf(document) in v.members
    requires Branching(document).value[i].value == v.members[DiscriminatorOf(document)]
    ensures Satisfies(ConditionOf(document, i), v)
  {
    hide Satisfies, PlainCondition, RequiredNames, Branching;
    ClauseFacts(document, i);
    BranchingHasClauses(document);
    var m, d := document.members, DiscriminatorOf(document);
    var clause := m[AllOf].items[i];
    assert PlainCondition(clause.members[If], d);
    PlainConstant(RequiredNames(m), clause, d);
    PlainIsSatisfied(clause.members[If], d, v);
  }

  /** The consequence of an applying clause holds of the instance. */
  lemma {:induction false} ConsequenceHolds(valid: Validity, w: World, document: Json, v: Json, i: nat)
    requires IsValidity(valid, w) && Meets(valid, w, document, document, v)
    requires Branching(document).Some? && i < |Branching(document).value| && Satisfies(ConditionOf(document, i), v)
    ensures PropertiesRule(valid, document, JObj(Branching(document).value[i].refinements), v)
  {
    hide RefRule, ValueRules, Satisfies, RequiredNames, Branching;
    ClauseFacts(document, i);
    BranchingHasClauses(document);
    var m := document.members;
    var clause := m[AllOf].items[i];
    assert CombinedRules(valid, document, m, v);
    assert valid(document, clause, v);
    assert Branches(valid, document, clause, v);
    assert clause.members[If] == ConditionOf(document, i);
    assert valid(document, clause.members[Then], v);
    assert Meets(valid, w, document, clause.members[Then], v);
  }

  lemma {:induction false} BranchingHasClauses(document: Json)
    requires Branching(document).Some?
    ensures document.JObj? && AllOf in document.members && document.members[AllOf].JArr?
    ensures Properties in document.members && document.members[Properties].JObj?
  {
  }

  lemma {:induction false} PlainConstant(required: set<Key>, clause: Json, d: Key)
    requires ParseClause(required, clause).Some? && PlainCondition(clause.members[If], d)
    ensures MembersOf(Member(clause.members[If], Properties)).value[d].members[Const] == ParseClause(required, clause).value.value
    ensures ParseClause(required, clause).value.discriminator == d
  {
    hide RequiredNames;
    var tested := MembersOf(Member(clause.members[If], Properties)).value;
    assert SoleKey(tested) in {d};
  }

  /** The schema the applying variant is rendered from is met by the instance. */
  lemma {:induction false} VariantIsMet(valid: Validity, w: World, document: Json, v: Json, i: nat)
    requires IsValidity(valid, w) && Meets(valid, w, document, document, v) && SaysObject(document)
    requires Branching(document).Some? && i < |Branching(document).value| && Satisfies(ConditionOf(document, i), v)
    requires v.JObj? && DiscriminatorOf(document) in v.members
    requires Branching(document).value[i].value == v.members[DiscriminatorOf(document)]
    ensures var clause := Branching(document).value[i];
            Meets(Demands(valid, w), w, document,
                  VariantSchema(document, Variant(clause.value, Refined(PropertiesOf(document), clause))), v)
  {
    hide Branching, Satisfies, ConditionOf;
    var clause := Branching(document).value[i];
    BranchingHasClauses(document);
    ClauseFacts(document, i);
    ConsequenceHolds(valid, w, document, v, i);
    assert ChildRules(valid, document, document.members, v);
    RefinedIsMet(valid, w, document, clause, v);
    assert ValueRules(document.members, v);
    hide Meets;
    SchemaOfVariant(Demands(valid, w), w, document, Variant(clause.value, Refined(PropertiesOf(document), clause)), v);
  }

  lemma {:induction false} RefinedIsMet(valid: Validity, w: World, document: Json, clause: Clause, v: Json)
    requires Obeys(valid, w) && v.JObj? && clause.discriminator in v.members && clause.value == v.members[clause.discriminator]
    requires PropertiesRule(valid, document, JObj(PropertiesOf(document)), v)
    requires PropertiesRule(valid, document, JObj(clause.refinements), v)
    ensures PropertiesRule(Demands(valid, w), document, JObj(Refined(PropertiesOf(document), clause)), v)
  {
    hide Meets, Merge, PropertiesOf;
    var properties := PropertiesOf(document);
    var refined := Refined(properties, clause);
    forall name | name in refined && name in v.members
      ensures Meets(valid, w, document, refined[name], v.members[name])
    {
      var x := v.members[name];
      if name == clause.discriminator {
        ConstantIsMet(valid, w, document, x);
      } else {
        var refinement := if name in clause.refinements then clause.refinements[name] else properties[name];
        assert valid(document, properties[name], x) && valid(document, refinement, x);
        MergeIsMet(valid, w, document, properties[name], refinement, x);
      }
    }
  }

  lemma {:induction false} ConstantIsMet(valid: Validity, w: World, document: Json, x: Json)
    ensures Meets(valid, w, document, JObj(map[Const := x]), x)
  {
  }

  lemma {:induction false} SchemaOfVariant(valid: Validity, w: World, document: Json, variant: Variant, v: Json)
    requires document.JObj? && v.JObj? && RequiredNames(document.members) <= v.members.Keys
    requires PropertiesRule(valid, document, JObj(variant.properties), v)
    ensures Meets(valid, w, document, VariantSchema(document, variant), v)
  {
    hide PropertiesRule;
    var m := VariantSchema(document, variant).members;
    assert RequiredNames(m) <= RequiredNames(document.members);
    hide RequiredNames;
    assert TypeAllows(m[Type], v);
  }

  // ---------------------------------------------------------------- whole contracts

  /** A contract's emission ends, and every node it visits is in the supported fragment. */
  predicate Ready(limit: nat, w: World, document: Json) {
    var variants := DiscriminatedVariants(document);
    if variants.None? then Ends(limit, w, document, document) && Supported(limit, w, document, document)
    else PlainlyConditioned(document) && VariantsReady(limit, w, document, variants.value)
  }

  predicate VariantsReady(limit: nat, w: World, document: Json, variants: seq<Variant>) {
    forall i :: 0 <= i < |variants| ==>
      var schema := VariantSchema(document, variants[i]);
      Ends(limit, w, document, schema) && Supported(limit, w, document, schema)
  }

  /** The types of a discriminated contract's variants, in order. */
  function VariantTypes(limit: nat, w: World, document: Json): (r: seq<TsType>)
    requires Ready(limit, w, document) && DiscriminatedVariants(document).Some?
    ensures |r| == |DiscriminatedVariants(document).value|
  {
    TypesOfVariants(limit, w, document, DiscriminatedVariants(document).value)
  }

  function TypesOfVariants(limit: nat, w: World, document: Json, variants: seq<Variant>): (r: seq<TsType>)
    requires VariantsReady(limit, w, document, variants)
    ensures |r| == |variants|
  {
    seq(|variants|, i requires 0 <= i < |variants| => TypeOf(limit, w, document, VariantSchema(document, variants[i])))
  }

  /** What a contract is declared as. */
  function Declared(limit: nat, w: World, document: Json): TsType
    requires Ready(limit, w, document)
  {
    if DiscriminatedVariants(document).None? then TypeOf(limit, w, document, document)
    else Union(VariantTypes(limit, w, document))
  }

  /** `env` holds the declaration of every contract under its type name. */
  ghost predicate Generated(limit: nat, w: World, env: Declarations) {
    forall id :: id in w ==>
      && Ready(limit, w, w[id].document)
      && w[id].typeName in env && env[w[id].typeName] == Declared(limit, w, w[id].document)
  }

  /** A node the induction has reached: its emission ends, it is supported, and the instance meets it. */
  ghost predicate Reached(w: World, valid: Validity, depth: nat, document: Json, node: Json, v: Json) {
    Ends(depth, w, document, node) && Supported(depth, w, document, node) && Meets(Demands(valid, w), w, document, node, v)
  }

  /** Every instance that meets a supported node is of the type emitted for it. */
  lemma {:induction false} NodeIsSound(k: nat, limit: nat, w: World, env: Declarations, valid: Validity,
                                       depth: nat, document: Json, node: Json, v: Json)
    requires IsValidity(valid, w) && Generated(limit, w, env)
    requires Reached(w, valid, depth, document, node, v)
    ensures Ends(depth, w, document, node) && Inhabits(k, env, TypeOf(depth, w, document, node), v)
    decreases k, depth, 1
  {
    hide *;
    NodeFacts(w, valid, depth, document, node, v);
    match ShapeOf(w, document, node)
    case Goto(_) => GotoIsSound(k, limit, w, env, valid, depth, document, node, v);
    case ByName(_) => NameIsSound(k, limit, w, env, valid, depth, document, node, v);
    case Alternatives(_) => AlternativesAreSound(k, limit, w, env, valid, depth, document, node, v);
    case ListOf(_) => ListIsSound(k, limit, w, env, valid, depth, document, node, v);
    case Record(_, _) => RecordIsSound(k, limit, w, env, valid, depth, document, node, v);
    case AllParts(_) => PartsAreSound(k, limit, w, env, valid, depth, document, node, v);
    case _ => LeafIsSound(k, w, env, valid, depth, document, node, v);
  }

  lemma {:induction false} NodeFacts(w: World, valid: Validity, depth: nat, document: Json, node: Json, v: Json)
    requires IsValidity(valid, w) && Reached(w, valid, depth, document, node, v)
    ensures depth > 0 && Ends(depth, w, document, node) && Supported(depth, w, document, node)
    ensures Fits(Demands(valid, w), w, document, ShapeOf(w, document, node), v)
  {
    hide Meets, Fits, ShapeOf, Admissible, Demands, Obeys;
    DemandsObey(valid, w);
    NodeFits(Demands(valid, w), w, document, node, v);
  }

  lemma {:induction false} GotoIsSound(k: nat, limit: nat, w: World, env: Declarations, valid: Validity,
                                       depth: nat, document: Json, node: Json, v: Json)
    requires IsValidity(valid, w) && Generated(limit, w, env)
    requires Ends(depth, w, document, node) && Supported(depth, w, document, node) && ShapeOf(w, document, node).Goto?
    requires Fits(Demands(valid, w), w, document, ShapeOf(w, document, node), v)
    ensures Inhabits(k, env, TypeOf(depth, w, document, node), v)
    decreases k, depth, 0
  {
    hide ShapeOf, Meets, IsValidity, Generated, Demands, Admissible, Inhabits;
    var place := ShapeOf(w, document, node).place;
    NodeIsSound(k, limit, w, env, valid, depth - 1, place.document, place.node, v);
  }

  lemma {:induction false} LeafIsSound(k: nat, w: World, env: Declarations, valid: Validity,
                                       depth: nat, document: Json, node: Json, v: Json)
    requires Ends(depth, w, document, node)
    requires var shape := ShapeOf(w, document, node);
             shape.Opaque? || shape.Constant? || shape.Values? || shape.Simple?
    requires Fits(Demands(valid, w), w, document, ShapeOf(w, document, node), v)
    ensures Inhabits(k, env, TypeOf(depth, w, document, node), v)
  {
    hide ShapeOf, Meets, Demands, LiteralAllows;
    LiteralAllowsItself(v);
    if ShapeOf(w, document, node).Values? {
      ListedIsLiteral(k, env, ShapeOf(w, document, node).values, v);
    }
  }

  lemma {:induction false} AlternativesAreSound(k: nat, limit: nat, w: World, env: Declarations, valid: Validity,
                                                depth: nat, document: Json, node: Json, v: Json)
    requires IsValidity(valid, w) && Generated(limit, w, env)
    requires Ends(depth, w, document, node) && Supported(depth, w, document, node) && ShapeOf(w, document, node).Alternatives?
    requires Fits(Demands(valid, w), w, document, ShapeOf(w, document, node), v)
    ensures Inhabits(k, env, TypeOf(depth, w, document, node), v)
    decreases k, depth, 0
  {
    hide *;
    SequenceType(depth, w, document, node);
    var nodes := ShapeOf(w, document, node).nodes;
    var i := SomeReached(w, valid, depth, document, node, v);
    NodeIsSound(k, limit, w, env, valid, depth - 1, document, nodes[i], v);
    TypesAt(depth - 1, w, document, nodes, i);
    IntoUnion(k, env, TypesOf(depth - 1, w, document, nodes), i, v);
  }

  lemma {:induction false} SequenceType(depth: nat, w: World, document: Json, node: Json)
    requires Ends(depth, w, document, node)
    requires ShapeOf(w, document, node).Alternatives? || ShapeOf(w, document, node).AllParts?
    ensures depth > 0
    ensures var nodes := ShapeOf(w, document, node).nodes;
            && (forall i :: 0 <= i < |nodes| ==> Ends(depth - 1, w, document, nodes[i]))
            && TypeOf(depth, w, document, node)
               == if ShapeOf(w, document, node).Alternatives? then Union(TypesOf(depth - 1, w, document, nodes))
                  else Intersection(TypesOf(depth - 1, w, document, nodes))
  {
    hide ShapeOf, TypesOf;
  }

  lemma {:induction false} SomeReached(w: World, valid: Validity, depth: nat, document: Json, node: Json, v: Json) returns (i: nat)
    requires depth > 0 && Ends(depth, w, document, node) && Supported(depth, w, document, node)
    requires ShapeOf(w, document, node).Alternatives? && Fits(Demands(valid, w), w, document, ShapeOf(w, document, node), v)
    ensures i < |ShapeOf(w, document, node).nodes|
    ensures Reached(w, valid, depth - 1, document, ShapeOf(w, document, node).nodes[i], v)
  {
    hide ShapeOf, Meets, Demands, Admissible;
    var nodes := ShapeOf(w, document, node).nodes;
    i :| 0 <= i < |nodes| && Meets(Demands(valid, w), w, document, nodes[i], v);
  }

  lemma {:induction false} IntoUnion(k: nat, env: Declarations, types: seq<TsType>, i: nat, v: Json)
    requires i < |types| && Inhabits(k, env, types[i], v)
    ensures Inhabits(k, env, Union(types), v)
  {
  }

  lemma {:induction false} PartsAreSound(k: nat, limit: nat, w: World, env: Declarations, valid: Validity,
                                         depth: nat, document: Json, node: Json, v: Json)
    requires IsValidity(valid, w) && Generated(limit, w, env)
    requires Ends(depth, w, document, node) && Supported(depth, w, document, node) && ShapeOf(w, document, node).AllParts?
    requires Fits(Demands(valid, w), w, document, ShapeOf(w, document, node), v)
    ensures Inhabits(k, env, TypeOf(depth, w, document, node), v)
    decreases k, depth, 0
  {
    hide *;
    SequenceType(depth, w, document, node);
    var nodes := ShapeOf(w, document, node).nodes;
    var types := TypesOf(depth - 1, w, document, nodes);
    forall i: nat | i < |types|
      ensures Inhabits(k, env, types[i], v)
    {
      EachReached(w, valid, depth, document, node, v, i);
      NodeIsSound(k, limit, w, env, valid, depth - 1, document, nodes[i], v);
      TypesAt(depth - 1, w, document, nodes, i);
    }
    IntoIntersection(k, env, types, v);
  }

  lemma {:induction false} EachReached(w: World, valid: Validity, depth: nat, document: Json, node: Json, v: Json, i: nat)
    requires depth > 0 && Ends(depth, w, document, node) && Supported(depth, w, document, node)
    requires ShapeOf(w, document, node).AllParts? && Fits(Demands(valid, w), w, document, ShapeOf(w, document, node), v)
    requires i < |ShapeOf(w, document, node).nodes|
    ensures Reached(w, valid, depth - 1, document, ShapeOf(w, document, node).nodes[i], v)
  {
    hide ShapeOf, Meets, Demands, Admissible;
  }

  lemma {:induction false} IntoIntersection(k: nat, env: Declarations, types: seq<TsType>, v: Json)
    requires forall i: nat :: i < |types| ==> Inhabits(k, env, types[i], v)
    ensures Inhabits(k, env, Intersection(types), v)
  {
  }

  lemma {:induction false} ListIsSound(k: nat, limit: nat, w: World, env: Declarations, valid: Validity,
                                       depth: nat, document: Json, node: Json, v: Json)
    requires IsValidity(valid, w) && Generated(limit, w, env)
    requires Ends(depth, w, document, node) && Supported(depth, w, document, node) && ShapeOf(w, document, node).ListOf?
    requires Fits(Demands(valid, w), w, document, ShapeOf(w, document, node), v)
    ensures Inhabits(k, env, TypeOf(depth, w, document, node), v)
    decreases k, depth, 0
  {
    hide *;
    ListFacts(w, valid, depth, document, node, v);
    var item := ShapeOf(w, document, node).node;
    forall i | 0 <= i < |v.items|
      ensures Inhabits(k, env, TypeOf(depth - 1, w, document, item), v.items[i])
    {
      NodeIsSound(k, limit, w, env, valid, depth - 1, document, item, v.items[i]);
    }
    IntoArray(k, env, TypeOf(depth - 1, w, document, item), v);
  }

  lemma {:induction false} ListFacts(w: World, valid: Validity, depth: nat, document: Json, node: Json, v: Json)
    requires Ends(depth, w, document, node) && Supported(depth, w, document, node)
    requires ShapeOf(w, document, node).ListOf? && Fits(Demands(valid, w), w, document, ShapeOf(w, document, node), v)
    ensures depth > 0 && v.JArr?
    ensures var item := ShapeOf(w, document, node).node;
            && Ends(depth - 1, w, document, item)
            && TypeOf(depth, w, document, node) == ArrayType(TypeOf(depth - 1, w, document, item))
            && forall i :: 0 <= i < |v.items| ==> Reached(w, valid, depth - 1, document, item, v.items[i])
  {
    hide ShapeOf, Meets, Demands, Admissible;
  }

  lemma {:induction false} IntoArray(k: nat, env: Declarations, element: TsType, v: Json)
    requires v.JArr? && forall i :: 0 <= i < |v.items| ==> Inhabits(k, env, element, v.items[i])
    ensures Inhabits(k, env, ArrayType(element), v)
  {
  }

  lemma {:induction false} RecordIsSound(k: nat, limit: nat, w: World, env: Declarations, valid: Validity,
                                         depth: nat, document: Json, node: Json, v: Json)
    requires IsValidity(valid, w) && Generated(limit, w, env)
    requires Ends(depth, w, document, node) && Supported(depth, w, document, node) && ShapeOf(w, document, node).Record?
    requires Fits(Demands(valid, w), w, document, ShapeOf(w, document, node), v)
    ensures Inhabits(k, env, TypeOf(depth, w, document, node), v)
    decreases k, depth, 0
  {
    hide *;
    RecordFacts(w, valid, depth, document, node, v);
    var properties, required := ShapeOf(w, document, node).properties, ShapeOf(w, document, node).required;
    var fields := FieldsOf(depth - 1, w, document, properties, required);
    forall name | name in fields
      ensures HasField(k, env, fields[name], name, v.members)
    {
      FieldAt(depth - 1, w, document, properties, required, name);
      if name in v.members {
        NodeIsSound(k, limit, w, env, valid, depth - 1, document, properties[name], v.members[name]);
      }
      IntoField(k, env, fields[name], name, v.members);
    }
    IntoObject(k, env, fields, v);
  }

  lemma {:induction false} RecordFacts(w: World, valid: Validity, depth: nat, document: Json, node: Json, v: Json)
    requires Ends(depth, w, document, node) && Supported(depth, w, document, node)
    requires ShapeOf(w, document, node).Record? && Fits(Demands(valid, w), w, document, ShapeOf(w, document, node), v)
    ensures depth > 0 && v.JObj?
    ensures var properties, required := ShapeOf(w, document, node).properties, ShapeOf(w, document, node).required;
            && required <= v.members.Keys
            && (forall name :: name in properties ==> Ends(depth - 1, w, document, properties[name]))
            && TypeOf(depth, w, document, node) == ObjectType(FieldsOf(depth - 1, w, document, properties, required))
            && forall name :: name in properties && name in v.members ==>
                                Reached(w, valid, depth - 1, document, properties[name], v.members[name])
  {
    hide ShapeOf, Meets, Demands, Admissible, FieldsOf;
  }

  lemma {:induction false} IntoField(k: nat, env: Declarations, field: Field, name: Key, members: map<Key, Json>)
    requires if name in members then Inhabits(k, env, field.fieldType, members[name]) else field.isOptional
    ensures HasField(k, env, field, name, members)
  {
  }

  lemma {:induction false} IntoObject(k: nat, env: Declarations, fields: map<Key, Field>, v: Json)
    requires v.JObj? && forall name :: name in fields ==> HasField(k, env, fields[name], name, v.members)
    ensures Inhabits(k, env, ObjectType(fields), v)
  {
  }

  lemma {:induction false} NameIsSound(k: nat, limit: nat, w: World, env: Declarations, valid: Validity,
                                       depth: nat, document: Json, node: Json, v: Json)
    requires IsValidity(valid, w) && Generated(limit, w, env)
    requires Ends(depth, w, document, node) && ShapeOf(w, document, node).ByName?
    requires Fits(Demands(valid, w), w, document, ShapeOf(w, document, node), v)
    ensures Inhabits(k, env, TypeOf(depth, w, document, node), v)
    decreases k, depth, 0
  {
    hide *;
    var name := ShapeOf(w, document, node).name;
    NameType(depth, w, document, node);
    var id := Owner(limit, w, env, valid, document, name, v);
    if k > 0 {
      ContractIsSound(k - 1, limit, w, env, valid, id, v);
    }
    DeclaredName(k, env, name, v);
  }

  lemma {:induction false} NameType(depth: nat, w: World, document: Json, node: Json)
    requires Ends(depth, w, document, node) && ShapeOf(w, document, node).ByName?
    ensures TypeOf(depth, w, document, node) == Named(ShapeOf(w, document, node).name)
  {
    hide ShapeOf;
  }

  /** The contract behind a name that is not followed. */
  lemma {:induction false} Owner(limit: nat, w: World, env: Declarations, valid: Validity, document: Json, name: string, v: Json)
      returns (id: string)
    requires Generated(limit, w, env) && Fits(Demands(valid, w), w, document, ByName(name), v)
    ensures id in w && name in env && Ready(limit, w, w[id].document) && env[name] == Declared(limit, w, w[id].document)
    ensures Meets(valid, w, w[id].document, w[id].document, v)
  {
    hide Meets, Ready, Declared;
    id :| id in w && w[id].typeName == name && Demands(valid, w)(w[id].document, w[id].document, v);
  }

  lemma {:induction false} DeclaredName(k: nat, env: Declarations, name: string, v: Json)
    requires name in env && (k > 0 ==> Inhabits(k - 1, env, env[name], v))
    ensures Inhabits(k, env, Named(name), v)
  {
  }

  lemma {:induction false} TypesAt(depth: nat, w: World, document: Json, nodes: seq<Json>, i: nat)
    requires forall j :: 0 <= j < |nodes| ==> Ends(depth, w, document, nodes[j])
    requires i < |nodes|
    ensures TypesOf(depth, w, document, nodes)[i] == TypeOf(depth, w, document, nodes[i])
  {
    hide TypeOf, Ends;
  }

  lemma {:induction false} FieldAt(depth: nat, w: World, document: Json, properties: map<Key, Json>, required: set<Key>, name: Key)
    requires forall n :: n in properties ==> Ends(depth, w, document, properties[n])
    requires name in properties
    ensures FieldsOf(depth, w, document, properties, required)[name]
            == Field(name !in required, TypeOf(depth, w, document, properties[name]))
  {
    hide TypeOf, Ends;
  }

  lemma {:induction false} ListedIsLiteral(k: nat, env: Declarations, values: seq<Json>, v: Json)
    requires v in values
    ensures Inhabits(k, env, Union(Literals(values)), v)
  {
    hide LiteralAllows;
    LiteralAllowsItself(v);
    var i :| 0 <= i < |values| && values[i] == v;
    assert Inhabits(k, env, Literals(values)[i], v);
  }

  /** Soundness of the whole generated file: an instance of a contract's schema is of the contract's
      declared type, however deep declared names are looked through. */
  lemma {:induction false} ContractIsSound(k: nat, limit: nat, w: World, env: Declarations, valid: Validity, id: string, v: Json)
    requires IsValidity(valid, w) && Generated(limit, w, env) && id in w
    requires Meets(valid, w, w[id].document, w[id].document, v)
    ensures Ready(limit, w, w[id].document) && Inhabits(k, env, Declared(limit, w, w[id].document), v)
    decreases k, limit + 1, 0
  {
    var document := w[id].document;
    assert Ready(limit, w, document);
    if DiscriminatedVariants(document).None? {
      hide *;
      PlainContract(limit, w, valid, document, v);
      ReachedFrom(w, valid, limit, document, document, v);
      NodeIsSound(k, limit, w, env, valid, limit, document, document, v);
    } else {
      hide *;
      var i := OneVariantApplies(limit, w, valid, document, v);
      ReachedFrom(w, valid, limit, document, VariantSchema(document, DiscriminatedVariants(document).value[i]), v);
      NodeIsSound(k, limit, w, env, valid, limit, document, VariantSchema(document, DiscriminatedVariants(document).value[i]), v);
      VariantInUnion(k, limit, w, env, document, i, v);
    }
  }

  lemma {:induction false} ReachedFrom(w: World, valid: Validity, depth: nat, document: Json, node: Json, v: Json)
    requires Ends(depth, w, document, node) && Supported(depth, w, document, node) && Meets(Demands(valid, w), w, document, node, v)
    ensures Reached(w, valid, depth, document, node, v)
  {
    hide Ends, Supported, Meets;
  }

  lemma {:induction false} PlainContract(limit: nat, w: World, valid: Validity, document: Json, v: Json)
    requires Obeys(valid, w) && Meets(valid, w, document, document, v)
    requires Ready(limit, w, document) && DiscriminatedVariants(document).None?
    ensures Ends(limit, w, document, document) && Supported(limit, w, document, document)
    ensures Declared(limit, w, document) == TypeOf(limit, w, document, document)
    ensures Meets(Demands(valid, w), w, document, document, v)
  {
    hide Meets, DiscriminatedVariants, Ends, Supported, TypeOf;
    MeetsIsMonotone(valid, Demands(valid, w), w, document, document, v);
  }

  lemma {:induction false} OneVariantApplies(limit: nat, w: World, valid: Validity, document: Json, v: Json) returns (i: nat)
    requires IsValidity(valid, w) && Meets(valid, w, document, document, v)
    requires Ready(limit, w, document) && DiscriminatedVariants(document).Some?
    ensures i < |DiscriminatedVariants(document).value|
    ensures var schema := VariantSchema(document, DiscriminatedVariants(document).value[i]);
            && Ends(limit, w, document, schema) && Supported(limit, w, document, schema)
            && Meets(Demands(valid, w), w, document, schema, v)
    ensures Branching(document).Some? && i < |Branching(document).value| && v.JObj? && DiscriminatorOf(document) in v.members
    ensures Branching(document).value[i].value == v.members[DiscriminatorOf(document)]
  {
    assert SaysObject(document) && PlainlyConditioned(document);
    hide Meets, Branching, Ends, Supported, PlainlyConditioned, Refined, Obeys, VariantSchema, ConditionOf, Satisfies;
    i := SomeClauseApplies(valid, w, document, v);
    PlainClauseApplies(document, v, i);
    VariantIsMet(valid, w, document, v, i);
  }

  lemma {:induction false} VariantInUnion(k: nat, limit: nat, w: World, env: Declarations, document: Json, i: nat, v: Json)
    requires Ready(limit, w, document) && DiscriminatedVariants(document).Some?
    requires i < |DiscriminatedVariants(document).value|
    requires var schema := VariantSchema(document, DiscriminatedVariants(document).value[i]);
             Ends(limit, w, document, schema) && Inhabits(k, env, TypeOf(limit, w, document, schema), v)
    ensures Inhabits(k, env, Declared(limit, w, document), v)
  {
    hide TypeOf, DiscriminatedVariants, Ends, Supported, VariantSchema;
    assert Inhabits(k, env, VariantTypes(limit, w, document)[i], v);
  }

  // ---------------------------------------------------------------- exactly one variant

  lemma {:induction false} ValuesAreDistinct(clauses: seq<Clause>, i: nat, j: nat)
    requires i < j < |clauses| && |ValuesTested(clauses)| == |clauses|
    ensures clauses[i].value != clauses[j].value
  {
    if clauses[i].value == clauses[j].value {
      var rest := clauses[..j] + clauses[j + 1..];
      assert forall k :: 0 <= k < |clauses| && k != j ==> clauses[k] == rest[if k < j then k else k - 1];
      assert rest[i] == clauses[i];
      assert ValuesTested(clauses) <= ValuesTested(rest);
      FewValues(rest);
      Subset(ValuesTested(clauses), ValuesTested(rest));
    }
  }

  lemma {:induction false} Subset(part: set<Json>, whole: set<Json>)
    requires part <= whole
    ensures |part| <= |whole|
  {
    assert whole == part + (whole - part);
  }

  lemma {:induction false} FewValues(clauses: seq<Clause>)
    ensures |ValuesTested(clauses)| <= |clauses|
  {
    if clauses != [] {
      var n := |clauses| - 1;
      FewValues(clauses[..n]);
      assert ValuesTested(clauses) == ValuesTested(clauses[..n]) + {clauses[n].value};
    }
  }

  lemma {:induction false} VariantShape(w: World, document: Json, variant: Variant)
    requires variant.properties != map[]
    ensures ShapeOf(w, document, VariantSchema(document, variant))
            == Record(variant.properties, RequiredNames(VariantSchema(document, variant).members))
  {
    hide RequiredNames;
    assert TypeText(VariantSchema(document, variant).members) == "object";
  }

  /** Whatever is of a variant's type carries a discriminator that variant's literal allows: for a scalar, its
      value itself. */
  lemma {:induction false} VariantPinsItsValue(k: nat, depth: nat, w: World, env: Declarations, document: Json, clause: Clause, v: Json)
    requires document.JObj? && clause.discriminator in RequiredNames(document.members)
    requires var schema := VariantSchema(document, Variant(clause.value, Refined(PropertiesOf(document), clause)));
             Ends(depth, w, document, schema) && Inhabits(k, env, TypeOf(depth, w, document, schema), v)
    ensures v.JObj? && clause.discriminator in v.members && LiteralAllows(clause.value, v.members[clause.discriminator])
    ensures !clause.value.JObj? && !clause.value.JArr? ==> v.members[clause.discriminator] == clause.value
  {
    hide RequiredNames, Merge, ShapeOf, PropertiesOf;
    var d, properties := clause.discriminator, Refined(PropertiesOf(document), clause);
    var schema := VariantSchema(document, Variant(clause.value, properties));
    assert d in properties && properties[d] == JObj(map[Const := clause.value]);
    VariantShape(w, document, Variant(clause.value, properties));
    SameRequired(document, schema.members);
    var required := RequiredNames(schema.members);
    hide VariantSchema, Refined;
    FieldAt(depth - 1, w, document, properties, required, d);
    ConstantType(depth - 1, w, document, clause.value);
    hide Ends, TypeOf, FieldsOf;
    var fields := FieldsOf(depth - 1, w, document, properties, required);
    assert TypeOf(depth, w, document, schema) == ObjectType(fields) by { RecordType(depth, w, document, schema); }
    hide Inhabits;
    LiteralField(k, env, fields, d, clause.value, v);
  }

  lemma {:induction false} LiteralField(k: nat, env: Declarations, fields: map<Key, Field>, d: Key, value: Json, v: Json)
    requires d in fields && fields[d] == Field(false, Literal(value)) && Inhabits(k, env, ObjectType(fields), v)
    ensures v.JObj? && d in v.members && LiteralAllows(value, v.members[d])
  {
    hide LiteralAllows;
    assert HasField(k, env, fields[d], d, v.members);
    assert Inhabits(k, env, Literal(value), v.members[d]);
  }

  lemma {:induction false} RecordType(depth: nat, w: World, document: Json, node: Json)
    requires Ends(depth, w, document, node) && ShapeOf(w, document, node).Record?
    ensures depth > 0
    ensures var properties, required := ShapeOf(w, document, node).properties, ShapeOf(w, document, node).required;
            && (forall name :: name in properties ==> Ends(depth - 1, w, document, properties[name]))
            && TypeOf(depth, w, document, node) == ObjectType(FieldsOf(depth - 1, w, document, properties, required))
  {
    hide ShapeOf, FieldsOf;
  }

  lemma {:induction false} ConstantType(depth: nat, w: World, document: Json, value: Json)
    requires Ends(depth, w, document, JObj(map[Const := value]))
    ensures TypeOf(depth, w, document, JObj(map[Const := value])) == Literal(value)
  {
  }

  lemma {:induction false} SameRequired(document: Json, m: map<Key, Json>)
    requires document.JObj? && RequiredNames(document.members) != {}
    requires Required in document.members ==> Required in m && m[Required] == document.members[Required]
    ensures RequiredNames(m) == RequiredNames(document.members)
  {
  }

  /** The `i`th of the types is the only one the value is of. */
  ghost predicate OnlyInhabits(k: nat, env: Declarations, types: seq<TsType>, i: nat, v: Json) {
    i < |types| && forall j: nat :: j < |types| ==> (Inhabits(k, env, types[j], v) <==> j == i)
  }

  /** No clause's literal allows the value of another clause. */
  predicate ToldApart(clauses: seq<Clause>) {
    forall i, j :: 0 <= i < |clauses| && 0 <= j < |clauses| && i != j ==> !LiteralAllows(clauses[i].value, clauses[j].value)
  }

  /** Scalar discriminators tell their variants apart. */
  lemma {:induction false} ScalarsAreToldApart(document: Json)
    requires Branching(document).Some?
    requires forall i :: 0 <= i < |Branching(document).value| ==>
               !Branching(document).value[i].value.JObj? && !Branching(document).value[i].value.JArr?
    ensures ToldApart(Branching(document).value)
  {
    var clauses := Branching(document).value;
    assert |ValuesTested(clauses)| == |clauses| by { hide ParseClauses, ExpectedValues; }
    hide Branching, ValuesTested;
    forall i: nat, j: nat | i < |clauses| && j < |clauses| && i != j
      ensures clauses[i].value != clauses[j].value
    {
      ValuesAreDistinct(clauses, if i < j then i else j, if i < j then j else i);
    }
  }

  /** An instance of a discriminated contract is of exactly one of its variants' types, when its discriminator
      values are told apart. */
  lemma {:induction false} ExactlyOneVariant(k: nat, limit: nat, w: World, env: Declarations, valid: Validity, id: string, v: Json)
    requires IsValidity(valid, w) && Generated(limit, w, env) && id in w
    requires DiscriminatedVariants(w[id].document).Some? && ToldApart(Branching(w[id].document).value)
    requires Meets(valid, w, w[id].document, w[id].document, v)
    ensures Ready(limit, w, w[id].document)
    ensures exists i :: OnlyInhabits(k, env, VariantTypes(limit, w, w[id].document), i, v)
  {
    var document := w[id].document;
    assert Ready(limit, w, document);
    var types := VariantTypes(limit, w, document);
    hide *;
    var i := OneVariantApplies(limit, w, valid, document, v);
    var schema := VariantSchema(document, DiscriminatedVariants(document).value[i]);
    ReachedFrom(w, valid, limit, document, schema, v);
    NodeIsSound(k, limit, w, env, valid, limit, document, schema, v);
    VariantTypeAt(limit, w, document, i);
    forall j: nat | j < |types|
      ensures Inhabits(k, env, types[j], v) <==> j == i
    {
      if j != i {
        OtherVariantIsNot(k, limit, w, env, document, i, j, v);
      }
    }
    OnlyOne(k, env, types, i, v);
  }

  lemma {:induction false} VariantTypeAt(limit: nat, w: World, document: Json, i: nat)
    requires Ready(limit, w, document) && DiscriminatedVariants(document).Some? && i < |DiscriminatedVariants(document).value|
    ensures var schema := VariantSchema(document, DiscriminatedVariants(document).value[i]);
            Ends(limit, w, document, schema) && VariantTypes(limit, w, document)[i] == TypeOf(limit, w, document, schema)
  {
    hide TypeOf, DiscriminatedVariants, Ends, Supported, VariantSchema;
  }

  lemma {:induction false} VariantOfClause(document: Json, i: nat)
    requires DiscriminatedVariants(document).Some? && i < |DiscriminatedVariants(document).value|
    ensures Branching(document).Some? && i < |Branching(document).value|
    ensures var clause := Branching(document).value[i];
            && DiscriminatedVariants(document).value[i] == Variant(clause.value, Refined(PropertiesOf(document), clause))
            && document.JObj? && clause.discriminator == DiscriminatorOf(document)
            && clause.discriminator in RequiredNames(document.members)
    ensures |ValuesTested(Branching(document).value)| == |Branching(document).value|
  {
    BranchingHasClauses(document);
    assert |ValuesTested(Branching(document).value)| == |Branching(document).value| by { hide ParseClauses, ExpectedValues; }
    hide Branching, Refined, PropertiesOf, ValuesTested;
    ClauseFacts(document, i);
  }

  lemma {:induction false} OtherVariantIsNot(k: nat, limit: nat, w: World, env: Declarations, document: Json, i: nat, j: nat, v: Json)
    requires Ready(limit, w, document) && DiscriminatedVariants(document).Some? && j < |VariantTypes(limit, w, document)| && j != i
    requires Branching(document).Some? && i < |Branching(document).value| && ToldApart(Branching(document).value)
    requires v.JObj? && DiscriminatorOf(document) in v.members
    requires Branching(document).value[i].value == v.members[DiscriminatorOf(document)]
    ensures !Inhabits(k, env, VariantTypes(limit, w, document)[j], v)
  {
    hide *;
    VariantTypeAt(limit, w, document, j);
    VariantOfClause(document, j);
    var clauses := Branching(document).value;
    assert !LiteralAllows(clauses[j].value, clauses[i].value) by { NotAllowed(clauses, i, j); }
    if Inhabits(k, env, VariantTypes(limit, w, document)[j], v) {
      VariantPinsItsValue(k, limit, w, env, document, clauses[j], v);
    }
  }

  lemma {:induction false} NotAllowed(clauses: seq<Clause>, i: nat, j: nat)
    requires ToldApart(clauses) && i < |clauses| && j < |clauses| && i != j
    ensures !LiteralAllows(clauses[j].value, clauses[i].value)
  {
    hide LiteralAllows;
  }

  lemma {:induction false} OnlyOne(k: nat, env: Declarations, types: seq<TsType>, i: nat, v: Json)
    requires i < |types| && forall j: nat :: j < |types| ==> (Inhabits(k, env, types[j], v) <==> j == i)
    ensures OnlyInhabits(k, env, types, i, v)
  {
  }
}
