/** JSON values, schema documents with references, and what validity of an instance implies. */
module JsonSchema {

  import opened Wrappers

  /** Member names; the schema keywords the generator reads have their own constructors. */
  datatype Key =
    | Ref | Const | Enum | OneOf | AnyOf | AllOf | Type | Items | PrefixItems | Properties | Required
    | If | Then | Else | Discriminator
    | Name(text: string)

  /** Numbers are mathematical values, as JSON Schema compares them. */
  datatype Json =
    | JNull
    | JBool(flag: bool)
    | JNum(number: real)
    | JStr(text: string)
    | JArr(items: seq<Json>)
    | JObj(members: map<Key, Json>)

  function KeyOf(text: string): Key {
    match text
    case "$ref" => Ref
    case "const" => Const
    case "enum" => Enum
    case "oneOf" => OneOf
    case "anyOf" => AnyOf
    case "allOf" => AllOf
    case "type" => Type
    case "items" => Items
    case "prefixItems" => PrefixItems
    case "properties" => Properties
    case "required" => Required
    case "if" => If
    case "then" => Then
    case "else" => Else
    case "x-axtro-discriminator" => Discriminator
    case _ => Name(text)
  }

  // ---------------------------------------------------------------- references

  /** A contract schema: the name of its generated type, and its document. Contracts are listed by `$id`. */
  datatype Contract = Contract(typeName: string, document: Json)

  type World = map<string, Contract>

  /** A schema inside a document. */
  datatype Place = Place(document: Json, node: Json)

  function IndexOf(s: string, c: char, i: nat): (r: nat)
    requires i <= |s|
    ensures i <= r <= |s| && (r < |s| ==> s[r] == c)
    decreases |s| - i
  {
    if i == |s| || s[i] == c then i else IndexOf(s, c, i + 1)
  }

  function SplitOn(s: string, c: char): seq<string>
    decreases |s|
  {
    var i := IndexOf(s, c, 0);
    if i == |s| then [s] else [s[..i]] + SplitOn(s[i + 1..], c)
  }

  /** Replaces every `~` followed by `digit`. */
  function Replace(s: string, digit: char, c: char): string {
    if |s| < 2 then s
    else if s[0] == '~' && s[1] == digit then [c] + Replace(s[2..], digit, c)
    else [s[0]] + Replace(s[1..], digit, c)
  }

  function Unescape(segment: string): string {
    Replace(Replace(segment, '1', '/'), '0', '~')
  }

  function Follow(node: Json, segments: seq<string>): Option<Json>
    decreases |segments|
  {
    if segments == [] then Some(node)
    else
      var key := KeyOf(Unescape(segments[0]));
      if node.JObj? && key in node.members then Follow(node.members[key], segments[1..]) else None
  }

  /** Resolves references with a JSON Pointer fragment; a reference to a whole schema is not one. */
  function Resolve(w: World, document: Json, reference: string): Option<Place> {
    var hash := IndexOf(reference, '#', 0);
    if hash == |reference| then None
    else
      var fragment := reference[hash + 1..];
      if hash > 0 && reference[..hash] !in w then None
      else
        var target := if hash == 0 then document else w[reference[..hash]].document;
        if fragment == [] || fragment[0] != '/' then None
        else
          var found := Follow(target, SplitOn(fragment[1..], '/'));
          if found.Some? then Some(Place(target, found.value)) else None
  }

  // ---------------------------------------------------------------- what validity implies

  /** Any judgement "this instance is valid for this schema of this document". */
  type Validity = (Json, Json, Json) -> bool

  function IsInteger(x: real): bool {
    x.Floor as real == x
  }

  predicate Matches(name: string, v: Json) {
    match name
    case "string" => v.JStr?
    case "number" => v.JNum?
    case "integer" => v.JNum? && IsInteger(v.number)
    case "boolean" => v.JBool?
    case "null" => v.JNull?
    case "array" => v.JArr?
    case "object" => v.JObj?
    case _ => false
  }

  /** Section 6.1.1 of JSON Schema Validation 2020-12. */
  predicate TypeAllows(t: Json, v: Json) {
    match t
    case JStr(name) => Matches(name, v)
    case JArr(names) => exists i :: 0 <= i < |names| && names[i].JStr? && Matches(names[i].text, v)
    case _ => true
  }

  function RequiredNames(m: map<Key, Json>): set<Key> {
    if Required in m && m[Required].JArr? then
      set i | 0 <= i < |m[Required].items| && m[Required].items[i].JStr? :: KeyOf(m[Required].items[i].text)
    else {}
  }

  ghost predicate RefRule(valid: Validity, w: World, document: Json, m: map<Key, Json>, v: Json) {
    Ref in m && m[Ref].JStr? ==>
      var place := Resolve(w, document, m[Ref].text);
      && (place.Some? ==> valid(place.value.document, place.value.node, v))
      && (place.None? && m[Ref].text in w ==> valid(w[m[Ref].text].document, w[m[Ref].text].document, v))
  }

  ghost predicate ValueRules(m: map<Key, Json>, v: Json) {
    && (Const in m ==> v == m[Const])
    && (Enum in m && m[Enum].JArr? ==> v in m[Enum].items)
    && (Type in m ==> TypeAllows(m[Type], v))
    && (v.JObj? ==> RequiredNames(m) <= v.members.Keys)
  }

  ghost predicate SomeOf(valid: Validity, document: Json, nodes: seq<Json>, v: Json) {
    exists i :: 0 <= i < |nodes| && valid(document, nodes[i], v)
  }

  ghost predicate EachOf(valid: Validity, document: Json, nodes: seq<Json>, v: Json) {
    forall i :: 0 <= i < |nodes| ==> valid(document, nodes[i], v)
  }

  ghost predicate CombinedRules(valid: Validity, document: Json, m: map<Key, Json>, v: Json) {
    && (OneOf in m && m[OneOf].JArr? ==> SomeOf(valid, document, m[OneOf].items, v))
    && (AnyOf in m && m[AnyOf].JArr? ==> SomeOf(valid, document, m[AnyOf].items, v))
    && (AllOf in m && m[AllOf].JArr? ==> EachOf(valid, document, m[AllOf].items, v))
  }

  ghost predicate ItemsRule(valid: Validity, document: Json, node: Json, v: Json) {
    v.JArr? ==> forall i :: 0 <= i < |v.items| ==> valid(document, node, v.items[i])
  }

  ghost predicate PropertiesRule(valid: Validity, document: Json, properties: Json, v: Json) {
    properties.JObj? && v.JObj? ==>
      forall name :: name in properties.members && name in v.members ==> valid(document, properties.members[name], v.members[name])
  }

  ghost predicate ChildRules(valid: Validity, document: Json, m: map<Key, Json>, v: Json) {
    && (Items in m && PrefixItems !in m ==> ItemsRule(valid, document, m[Items], v))
    && (Properties in m ==> PropertiesRule(valid, document, m[Properties], v))
  }

  /** What the keywords of one schema demand, given what validity means for the schemas below it: sections
      8.2.3.1, 10.2.1 and 10.3 of JSON Schema Core 2020-12 and sections 6.1 and 6.5.3 of JSON Schema
      Validation 2020-12. */
  ghost predicate Meets(valid: Validity, w: World, document: Json, node: Json, v: Json) {
    match node
    case JBool(flag) => flag
    case JObj(m) =>
      && RefRule(valid, w, document, m, v) && ValueRules(m, v)
      && CombinedRules(valid, document, m, v) && ChildRules(valid, document, m, v)
    case _ => true
  }

  /** A judgement that never calls an instance valid against what the keywords demand. */
  ghost predicate Obeys(valid: Validity, w: World) {
    forall document, node, v :: valid(document, node, v) ==> Meets(valid, w, document, node, v)
  }

  /** Weakening a judgement weakens what the keywords demand of it. */
  lemma {:induction false} MeetsIsMonotone(valid: Validity, weaker: Validity, w: World, document: Json, node: Json, v: Json)
    requires forall d, n, x :: valid(d, n, x) ==> weaker(d, n, x)
    requires Meets(valid, w, document, node, v)
    ensures Meets(weaker, w, document, node, v)
  {
    hide RefRule, ValueRules, CombinedRules, ChildRules;
    if node.JObj? {
      RefsAreMonotone(valid, weaker, w, document, node.members, v);
      CombinationsAreMonotone(valid, weaker, document, node.members, v);
      ChildrenAreMonotone(valid, weaker, document, node.members, v);
    }
  }

  lemma {:induction false} RefsAreMonotone(valid: Validity, weaker: Validity, w: World, document: Json, m: map<Key, Json>, v: Json)
    requires forall d, n, x :: valid(d, n, x) ==> weaker(d, n, x)
    ensures RefRule(valid, w, document, m, v) ==> RefRule(weaker, w, document, m, v)
  {
    hide Resolve;
  }

  lemma {:induction false} CombinationsAreMonotone(valid: Validity, weaker: Validity, document: Json, m: map<Key, Json>, v: Json)
    requires forall d, n, x :: valid(d, n, x) ==> weaker(d, n, x)
    ensures CombinedRules(valid, document, m, v) ==> CombinedRules(weaker, document, m, v)
  {
  }

  lemma {:induction false} ChildrenAreMonotone(valid: Validity, weaker: Validity, document: Json, m: map<Key, Json>, v: Json)
    requires forall d, n, x :: valid(d, n, x) ==> weaker(d, n, x)
    ensures ChildRules(valid, document, m, v) ==> ChildRules(weaker, document, m, v)
  {
  }

  /** What the keywords demand of `valid`, as a judgement of its own. */
  ghost function Demands(valid: Validity, w: World): Validity {
    (document: Json, node: Json, v: Json) => Meets(valid, w, document, node, v)
  }

  lemma {:induction false} DemandsObey(valid: Validity, w: World)
    requires Obeys(valid, w)
    ensures Obeys(Demands(valid, w), w)
  {
    hide Meets;
    forall document, node, v | Demands(valid, w)(document, node, v)
      ensures Meets(Demands(valid, w), w, document, node, v)
    {
      MeetsIsMonotone(valid, Demands(valid, w), w, document, node, v);
    }
  }

  // ---------------------------------------------------------------- conditions

  /** An instance meets a condition written with `type`, `const`, `properties` and `required` alone. */
  predicate Satisfies(condition: Json, v: Json)
    decreases condition
  {
    && condition.JObj?
    && condition.members.Keys <= {Type, Const, Properties, Required}
    && (Const in condition.members ==> v == condition.members[Const])
    && (Type in condition.members ==> TypeAllows(condition.members[Type], v))
    && (v.JObj? ==> RequiredNames(condition.members) <= v.members.Keys)
    && (Properties in condition.members && condition.members[Properties].JObj? && v.JObj? ==>
          var properties := condition.members[Properties].members;
          forall name :: name in properties && name in v.members ==> Satisfies(properties[name], v.members[name]))
  }

  /** Section 10.2.2 of JSON Schema Core 2020-12: where the condition of a clause is met, its consequence
      applies. */
  ghost predicate Branches(valid: Validity, document: Json, node: Json, v: Json) {
    node.JObj? && If in node.members && Then in node.members && Satisfies(node.members[If], v) ==>
      valid(document, node.members[Then], v)
  }

  ghost predicate IsValidity(valid: Validity, w: World) {
    Obeys(valid, w) && forall document, node, v :: valid(document, node, v) ==> Branches(valid, document, node, v)
  }
}
