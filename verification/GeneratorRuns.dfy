/** The type generator as it runs: its loops, and exactly when its recursion ends. */
module GeneratorRuns {

  import opened JsonSchema
  import opened TypeGenerator
  import opened Wrappers

  // ---------------------------------------------------------------- the loops

  /** Reads the clauses one by one, giving up at the first of another form, then builds one variant each. */
  method ExpandVariants(document: Json) returns (r: Option<seq<Variant>>)
    ensures r == DiscriminatedVariants(document)
  {
    hide ParseClause, ValuesTested, SetOf, ExpectedValues, Refined;
    if !document.JObj? {
      return None;
    }
    var m := document.members;
    if !(Discriminator in m && m[Discriminator].JStr? && m[Discriminator].text != []) {
      return None;
    }
    if !(Properties in m && m[Properties].JObj? && AllOf in m && m[AllOf].JArr? && m[AllOf].items != []) {
      return None;
    }
    var parsed := ReadClauses(RequiredNames(m), m[AllOf].items);
    if parsed.None? {
      return None;
    }
    var clauses, d, properties := parsed.value, KeyOf(m[Discriminator].text), m[Properties].members;
    if (exists i :: 0 <= i < |clauses| && clauses[i].discriminator != d) || d !in properties {
      return None;
    }
    var expected := ExpectedValues(properties[d]);
    if expected.None? || |ValuesTested(clauses)| != |clauses| || ValuesTested(clauses) != SetOf(expected.value) {
      return None;
    }
    var variants := BuildVariants(properties, clauses);
    return Some(variants);
  }

  method ReadClauses(required: set<Key>, clauses: seq<Json>) returns (r: Option<seq<Clause>>)
    ensures r == ParseClauses(required, clauses, |clauses|)
  {
    var parsed: seq<Clause> := [];
    var i := 0;
    while i < |clauses|
      invariant i <= |clauses|
      invariant ParseClauses(required, clauses, i) == Some(parsed)
    {
      var clause := ParseClause(required, clauses[i]);
      if clause.None? {
        OnceFailed(required, clauses, i + 1, |clauses|);
        return None;
      }
      parsed := parsed + [clause.value];
      i := i + 1;
    }
    return Some(parsed);
  }

  lemma {:induction false} OnceFailed(required: set<Key>, clauses: seq<Json>, i: nat, n: nat)
    requires i <= n <= |clauses| && ParseClauses(required, clauses, i).None?
    ensures ParseClauses(required, clauses, n).None?
    decreases n
  {
    hide ParseClause;
    if i < n {
      OnceFailed(required, clauses, i, n - 1);
    }
  }

  method BuildVariants(properties: map<Key, Json>, clauses: seq<Clause>) returns (variants: seq<Variant>)
    ensures variants == VariantsOf(properties, clauses, |clauses|)
  {
    hide Refined;
    variants := [];
    var i := 0;
    while i < |clauses|
      invariant i <= |clauses| && variants == VariantsOf(properties, clauses, i)
    {
      variants := variants + [Variant(clauses[i].value, Refined(properties, clauses[i]))];
      i := i + 1;
    }
  }

  // ---------------------------------------------------------------- when the recursion ends

  /** The places one call of the recursion goes on to. */
  function PlacesOf(shape: Shape, document: Json): set<Place> {
    match shape
    case Goto(place) => {place}
    case Alternatives(nodes) => EachPlace(document, nodes)
    case ListOf(item) => {Place(document, item)}
    case Record(properties, _) => ValuePlaces(document, properties)
    case AllParts(nodes) => EachPlace(document, nodes)
    case _ => {}
  }

  function EachPlace(document: Json, nodes: seq<Json>): set<Place> {
    set i | 0 <= i < |nodes| :: Place(document, nodes[i])
  }

  function ValuePlaces(document: Json, properties: map<Key, Json>): set<Place> {
    set name | name in properties :: Place(document, properties[name])
  }

  ghost predicate AllEnd(depth: nat, w: World, places: set<Place>) {
    forall p :: p in places ==> Ends(depth, w, p.document, p.node)
  }

  lemma {:induction false} EndsByPlaces(depth: nat, w: World, document: Json, node: Json)
    ensures Ends(depth, w, document, node)
            <==> depth > 0 && AllEnd(depth - 1, w, PlacesOf(ShapeOf(w, document, node), document))
  {
    hide ShapeOf, AllEnd, EachPlace, ValuePlaces, Ends;
    match ShapeOf(w, document, node) {
      case Alternatives(nodes) => EndsOverList(depth, w, document, node);
      case AllParts(nodes) => EndsOverList(depth, w, document, node);
      case Record(properties, _) => EndsOverRecord(depth, w, document, node);
      case Goto(place) => EndsOverOne(depth, w, document, node, place);
      case ListOf(item) => EndsOverOne(depth, w, document, node, Place(document, item));
      case _ => EndsOverNone(depth, w, document, node);
    }
  }

  lemma {:induction false} EndsOverList(depth: nat, w: World, document: Json, node: Json)
    requires ShapeOf(w, document, node).Alternatives? || ShapeOf(w, document, node).AllParts?
    ensures Ends(depth, w, document, node) <==> depth > 0 && AllEnd(depth - 1, w, EachPlace(document, ShapeOf(w, document, node).nodes))
  {
    hide ShapeOf, AllEnd, EachPlace;
    if depth > 0 {
      EndsOfEach(depth - 1, w, document, ShapeOf(w, document, node).nodes);
    }
  }

  lemma {:induction false} EndsOverRecord(depth: nat, w: World, document: Json, node: Json)
    requires ShapeOf(w, document, node).Record?
    ensures Ends(depth, w, document, node)
            <==> depth > 0 && AllEnd(depth - 1, w, ValuePlaces(document, ShapeOf(w, document, node).properties))
  {
    hide ShapeOf, AllEnd, ValuePlaces;
    if depth > 0 {
      EndsOfValues(depth - 1, w, document, ShapeOf(w, document, node).properties);
    }
  }

  lemma {:induction false} EndsOverOne(depth: nat, w: World, document: Json, node: Json, p: Place)
    requires ShapeOf(w, document, node) == Goto(p) || (ShapeOf(w, document, node) == ListOf(p.node) && p.document == document)
    ensures Ends(depth, w, document, node) <==> depth > 0 && AllEnd(depth - 1, w, {p})
  {
    hide ShapeOf, AllEnd;
    if depth > 0 {
      EndsOfOne(depth - 1, w, p);
    }
  }

  lemma {:induction false} EndsOverNone(depth: nat, w: World, document: Json, node: Json)
    requires PlacesOf(ShapeOf(w, document, node), document) == {}
    requires var shape := ShapeOf(w, document, node);
             !shape.Alternatives? && !shape.AllParts? && !shape.Record? && !shape.Goto? && !shape.ListOf?
    ensures Ends(depth, w, document, node) <==> depth > 0 && AllEnd(depth - 1, w, {})
  {
    hide ShapeOf, AllEnd;
    if depth > 0 {
      EndsOfNone(depth - 1, w);
    }
  }

  lemma {:induction false} EndsOfNone(depth: nat, w: World)
    ensures AllEnd(depth, w, {})
  {
  }

  lemma {:induction false} EndsOfOne(depth: nat, w: World, p: Place)
    ensures AllEnd(depth, w, {p}) <==> Ends(depth, w, p.document, p.node)
  {
    hide Ends;
    assert p in {p};
  }

  lemma {:induction false} EndsOfEach(depth: nat, w: World, document: Json, nodes: seq<Json>)
    ensures AllEnd(depth, w, EachPlace(document, nodes))
            <==> forall i :: 0 <= i < |nodes| ==> Ends(depth, w, document, nodes[i])
  {
    hide Ends;
    assert forall i :: 0 <= i < |nodes| ==> Place(document, nodes[i]) in EachPlace(document, nodes);
  }

  lemma {:induction false} EndsOfValues(depth: nat, w: World, document: Json, properties: map<Key, Json>)
    ensures AllEnd(depth, w, ValuePlaces(document, properties))
            <==> forall name :: name in properties ==> Ends(depth, w, document, properties[name])
  {
    hide Ends;
    assert forall name :: name in properties ==> Place(document, properties[name]) in ValuePlaces(document, properties);
  }

  lemma {:induction false} EndsIsMonotone(a: nat, b: nat, w: World, document: Json, node: Json)
    requires Ends(a, w, document, node) && a <= b
    ensures Ends(b, w, document, node)
    decreases a
  {
    hide ShapeOf, Ends, PlacesOf;
    EndsByPlaces(a, w, document, node);
    EndsByPlaces(b, w, document, node);
    forall p | p in PlacesOf(ShapeOf(w, document, node), document)
      ensures Ends(b - 1, w, p.document, p.node)
    {
      EndsIsMonotone(a - 1, b - 1, w, p.document, p.node);
    }
  }

  ghost predicate Halts(w: World, document: Json, node: Json) {
    exists depth :: Ends(depth, w, document, node)
  }

  /** One depth serves finitely many places. */
  lemma {:induction false} CommonDepth(w: World, places: set<Place>) returns (depth: nat)
    requires forall p :: p in places ==> Halts(w, p.document, p.node)
    ensures AllEnd(depth, w, places)
  {
    hide Ends;
    if places == {} {
      return 0;
    }
    var p :| p in places;
    var others := CommonDepth(w, places - {p});
    var d :| Ends(d, w, p.document, p.node);
    depth := if d < others then others else d;
    forall q | q in places
      ensures Ends(depth, w, q.document, q.node)
    {
      EndsIsMonotone(if q == p then d else others, depth, w, q.document, q.node);
    }
  }

  lemma {:induction false} HaltsByPlaces(w: World, document: Json, node: Json)
    requires forall p :: p in PlacesOf(ShapeOf(w, document, node), document) ==> Halts(w, p.document, p.node)
    ensures Halts(w, document, node)
  {
    hide Ends, ShapeOf, PlacesOf, Halts;
    var depth := CommonDepth(w, PlacesOf(ShapeOf(w, document, node), document));
    EndsByPlaces(depth + 1, w, document, node);
    assert Halts(w, document, node) by { HaltsAt(depth + 1, w, document, node); }
  }

  lemma {:induction false} HaltsAt(depth: nat, w: World, document: Json, node: Json)
    requires Ends(depth, w, document, node)
    ensures Halts(w, document, node)
  {
    hide Ends;
  }

  // ---------------------------------------------------------------- what a call goes on to

  const NOTHING := JObj(map[])

  /** A node found under a keyword of `m` other than `type`, or the missing `items`. */
  ghost predicate Under(m: map<Key, Json>, node: Json) {
    || node == NOTHING
    || exists key :: key != Type && key in m && DirectlyUnder(m[key], node)
  }

  predicate DirectlyUnder(member: Json, node: Json) {
    || node == member
    || (member.JArr? && node in member.items)
    || (member.JObj? && node in member.members.Values)
  }

  ghost predicate Retyping(m: map<Key, Json>, node: Json) {
    Type in m && m[Type].JArr? && exists i :: 0 <= i < |m[Type].items| && node == Retyped(m, m[Type].items[i])
  }

  /** Every call goes on to what a reference leads to, to a part of the node, or to the node with one of its
      types. */
  lemma {:induction false} NextPlaces(w: World, document: Json, m: map<Key, Json>, p: Place)
    requires p in PlacesOf(ShapeOf(w, document, JObj(m)), document)
    ensures (Ref in m && m[Ref].JStr? && Resolve(w, document, m[Ref].text) == Some(p))
            || (p.document == document && !(Ref in m && m[Ref].JStr?) && (Under(m, p.node) || Retyping(m, p.node)))
  {
    hide Resolve, RequiredNames, StemOf, PascalCase, DirectlyUnder;
    if !(Ref in m && m[Ref].JStr?) {
      if OneOf in m && m[OneOf].JArr? && ShapeOf(w, document, JObj(m)) == Alternatives(m[OneOf].items) {
        ListedUnder(m, OneOf, p.node);
      } else if AnyOf in m && m[AnyOf].JArr? && ShapeOf(w, document, JObj(m)) == Alternatives(m[AnyOf].items) {
        ListedUnder(m, AnyOf, p.node);
      } else {
        TypedPlaces(w, document, m, p);
      }
    }
  }

  lemma {:induction false} ListedUnder(m: map<Key, Json>, key: Key, node: Json)
    requires key in m && key != Type && m[key].JArr? && node in m[key].items
    ensures Under(m, node)
  {
    assert DirectlyUnder(m[key], node);
  }

  lemma {:induction false} TypedPlaces(w: World, document: Json, m: map<Key, Json>, p: Place)
    requires ShapeOf(w, document, JObj(m)) == ByType(m) && p in PlacesOf(ByType(m), document)
    ensures p.document == document && (Under(m, p.node) || Retyping(m, p.node))
  {
    hide ShapeOf, RequiredNames, Under, Retyping;
    match ByType(m)
    case Alternatives(nodes) =>
      assert Retyping(m, p.node) by { IsRetyping(m, p.node); }
    case ListOf(item) =>
      assert Under(m, p.node) by { MemberUnder(m, Items, p.node); }
    case Record(properties, _) =>
      assert Under(m, p.node) by { ValueUnder(m, p.node); }
    case AllParts(nodes) =>
      ListedUnder(m, AllOf, p.node);
  }

  lemma {:induction false} IsRetyping(m: map<Key, Json>, node: Json)
    requires ByType(m).Alternatives? && node in ByType(m).nodes
    ensures Retyping(m, node)
  {
  }

  lemma {:induction false} MemberUnder(m: map<Key, Json>, key: Key, node: Json)
    requires key != Type && (if key in m then node == m[key] else node == NOTHING)
    ensures Under(m, node)
  {
    assert key in m ==> DirectlyUnder(m[key], node);
  }

  lemma {:induction false} ValueUnder(m: map<Key, Json>, node: Json)
    requires Properties in m && m[Properties].JObj? && node in m[Properties].members.Values
    ensures Under(m, node)
  {
    assert DirectlyUnder(m[Properties], node);
  }

  // ---------------------------------------------------------------- the places a run can visit

  /** The node and everything inside it. */
  function Parts(node: Json): set<Json> {
    {node} +
    match node
    case JObj(m) => (set key, part | key in m && part in Parts(m[key]) :: part)
    case JArr(items) => (set i, part | 0 <= i < |items| && part in Parts(items[i]) :: part)
    case _ => {}
  }

  lemma {:induction false} PartsOfParts(node: Json, part: Json)
    requires part in Parts(node)
    ensures Parts(part) <= Parts(node)
  {
    if part != node {
      match node
      case JObj(m) =>
        var key :| key in m && part in Parts(m[key]);
        PartsOfParts(m[key], part);
      case JArr(items) =>
        var i :| 0 <= i < |items| && part in Parts(items[i]);
        PartsOfParts(items[i], part);
    }
  }

  lemma {:induction false} MemberIsPart(m: map<Key, Json>, key: Key)
    requires key in m
    ensures m[key] in Parts(JObj(m)) && Parts(m[key]) <= Parts(JObj(m))
  {
    assert m[key] in Parts(m[key]);
    PartsOfParts(JObj(m), m[key]);
  }

  lemma {:induction false} ItemIsPart(items: seq<Json>, i: nat)
    requires i < |items|
    ensures items[i] in Parts(JArr(items))
  {
    assert items[i] in Parts(items[i]);
  }

  lemma {:induction false} UnderIsPart(m: map<Key, Json>, node: Json)
    requires Under(m, node) && node != NOTHING
    ensures node in Parts(JObj(m))
  {
    hide Parts, DirectlyUnder;
    var key :| key != Type && key in m && DirectlyUnder(m[key], node);
    MemberIsPart(m, key);
    DirectlyUnderIsPart(m[key], node);
  }

  lemma {:induction false} DirectlyUnderIsPart(member: Json, node: Json)
    requires DirectlyUnder(member, node)
    ensures node in Parts(member)
  {
    hide Parts;
    if node == member {
      SelfIsPart(member);
    } else if member.JArr? {
      var i :| 0 <= i < |member.items| && member.items[i] == node;
      ItemIsPart(member.items, i);
    } else {
      var name :| name in member.members && member.members[name] == node;
      MemberIsPart(member.members, name);
    }
  }

  lemma {:induction false} FollowedIsPart(node: Json, segments: seq<string>)
    requires Follow(node, segments).Some?
    ensures Follow(node, segments).value in Parts(node)
    decreases |segments|
  {
    hide Parts, Unescape, KeyOf;
    if segments == [] {
      assert node in Parts(node) by { SelfIsPart(node); }
    } else {
      var key := KeyOf(Unescape(segments[0]));
      MemberIsPart(node.members, key);
      FollowedIsPart(node.members[key], segments[1..]);
    }
  }

  lemma {:induction false} SelfIsPart(node: Json)
    ensures node in Parts(node)
  {
  }

  function DocumentsOf(w: World): set<Json> {
    set id | id in w :: w[id].document
  }

  lemma {:induction false} ResolvedIsPart(w: World, document: Json, reference: string)
    requires Resolve(w, document, reference).Some?
    ensures var p := Resolve(w, document, reference).value;
            p.document in DocumentsOf(w) + {document} && p.node in Parts(p.document)
  {
    hide Follow, SplitOn, Parts;
    var hash := IndexOf(reference, '#', 0);
    var target := if hash == 0 then document else w[reference[..hash]].document;
    FollowedIsPart(target, SplitOn(reference[hash + 1..][1..], '/'));
  }

  /** The documents a run from `start` can be in. */
  function Readable(w: World, start: Place): set<Json> {
    DocumentsOf(w) + {start.document}
  }

  function Material(w: World, start: Place): set<Json> {
    (set document, part | document in Readable(w, start) && part in Parts(document) :: part) + Parts(start.node) + {NOTHING}
  }

  /** A node of the documents or of the starting node, or one of these with its type replaced. */
  predicate Visitable(w: World, start: Place, p: Place) {
    && p.document in Readable(w, start)
    && (p.node in Material(w, start)
        || exists m, t :: m in Material(w, start) && t in Material(w, start) && RetypedFrom(m, t, p.node))
  }

  predicate RetypedFrom(m: Json, t: Json, node: Json) {
    m.JObj? && node == Retyped(m.members, t)
  }

  /** Every place a run from `start` can visit, and no more than finitely many others. */
  function Universe(w: World, start: Place): set<Place> {
    (set document, node | document in Readable(w, start) && node in Material(w, start) :: Place(document, node))
    + (set document, m, t | document in Readable(w, start) && m in Material(w, start) && t in Material(w, start) && m.JObj? ::
         Place(document, Retyped(m.members, t)))
  }

  lemma {:induction false} VisitableIsInUniverse(w: World, start: Place, p: Place)
    ensures p in Universe(w, start) <==> Visitable(w, start, p)
  {
    hide Material, Readable, Retyped;
  }

  lemma {:induction false} MaterialIsClosed(w: World, start: Place, node: Json)
    requires node in Material(w, start)
    ensures Parts(node) <= Material(w, start)
  {
    hide Readable;
    if node in Parts(start.node) {
      PartsOfParts(start.node, node);
    } else if node != NOTHING {
      var document :| document in Readable(w, start) && node in Parts(document);
      PartsOfParts(document, node);
      hide Parts;
    }
  }

  lemma {:induction false} DocumentsAreMaterial(w: World, start: Place, document: Json)
    requires document in Readable(w, start)
    ensures Parts(document) <= Material(w, start)
  {
    hide Readable, Parts;
  }

  lemma {:induction false} StartIsVisitable(w: World, start: Place)
    ensures Visitable(w, start, start)
  {
    hide Parts;
    SelfIsPart(start.node);
  }

  function NextOf(w: World, p: Place): set<Place> {
    PlacesOf(ShapeOf(w, p.document, p.node), p.document)
  }

  /** A run stays within what can be visited. */
  lemma {:induction false} NextIsVisitable(w: World, start: Place, p: Place, q: Place)
    requires Visitable(w, start, p) && q in NextOf(w, p)
    ensures Visitable(w, start, q)
  {
    hide *;
    assert q in PlacesOf(ShapeOf(w, p.document, p.node), p.document) by { NextIsPlaces(w, p); }
    OnlyObjectsGoOn(w, p.document, p.node, q);
    var m := p.node.members;
    NextPlaces(w, p.document, m, q);
    var base, t := BaseOf(w, start, p);
    if Ref in m && m[Ref].JStr? && Resolve(w, p.document, m[Ref].text) == Some(q) {
      ReferenceIsVisitable(w, start, p.document, m[Ref].text);
    } else if Under(m, q.node) {
      assert Under(base, q.node) by { UnderRetyped(base, t, m, q.node); }
      UnderIsVisitable(w, start, base, q);
    } else {
      var u := RetypedBy(m, q.node);
      TypeIsMaterial(w, start, base, t, m, u);
      assert q.node == Retyped(base, u) by { RetypedAgain(base, t, m, u); }
      RetypedIsVisitable(w, start, base, u, q);
    }
  }

  lemma {:induction false} NextIsPlaces(w: World, p: Place)
    ensures NextOf(w, p) == PlacesOf(ShapeOf(w, p.document, p.node), p.document)
  {
    hide ShapeOf, PlacesOf;
  }

  /** A visitable object is a node of the material, possibly with its type replaced. */
  lemma {:induction false} BaseOf(w: World, start: Place, p: Place) returns (m: map<Key, Json>, t: Option<Json>)
    requires Visitable(w, start, p) && p.node.JObj?
    ensures p.document in Readable(w, start) && JObj(m) in Material(w, start)
    ensures t.Some? ==> t.value in Material(w, start)
    ensures p.node.members == if t.None? then m else m[Type := t.value]
  {
    hide Material, Readable;
    if p.node in Material(w, start) {
      m, t := p.node.members, None;
    } else {
      var n, u :| n in Material(w, start) && u in Material(w, start) && RetypedFrom(n, u, p.node);
      m, t := n.members, Some(u);
    }
  }

  lemma {:induction false} ReferenceIsVisitable(w: World, start: Place, document: Json, reference: string)
    requires document in Readable(w, start) && Resolve(w, document, reference).Some?
    ensures Visitable(w, start, Resolve(w, document, reference).value)
  {
    hide Resolve, Parts, Material;
    ResolvedIsPart(w, document, reference);
    DocumentsAreMaterial(w, start, Resolve(w, document, reference).value.document);
  }

  lemma {:induction false} UnderIsVisitable(w: World, start: Place, m: map<Key, Json>, q: Place)
    requires q.document in Readable(w, start) && JObj(m) in Material(w, start) && Under(m, q.node)
    ensures Visitable(w, start, q)
  {
    hide Under, Parts, Readable;
    if q.node != NOTHING {
      UnderIsPart(m, q.node);
      MaterialIsClosed(w, start, JObj(m));
    }
  }

  lemma {:induction false} RetypedIsVisitable(w: World, start: Place, m: map<Key, Json>, t: Json, q: Place)
    requires q.document in Readable(w, start) && JObj(m) in Material(w, start) && t in Material(w, start)
    requires q.node == Retyped(m, t)
    ensures Visitable(w, start, q)
  {
    hide Material, Readable, Retyped;
    assert RetypedFrom(JObj(m), t, q.node);
  }

  /** The types a visited node is retyped with come from the material. */
  lemma {:induction false} TypeIsMaterial(w: World, start: Place, base: map<Key, Json>, t: Option<Json>, m: map<Key, Json>, u: Json)
    requires JObj(base) in Material(w, start) && (t.Some? ==> t.value in Material(w, start))
    requires m == if t.None? then base else base[Type := t.value]
    requires Type in m && m[Type].JArr? && u in m[Type].items
    ensures u in Material(w, start)
  {
    hide Material, Parts;
    if t.None? {
      MaterialIsClosed(w, start, JObj(base));
      MemberIsPart(base, Type);
    }
    assert m[Type] in Material(w, start) by {
      if t.None? {
        SelfIsPart(base[Type]);
      }
    }
    MaterialIsClosed(w, start, m[Type]);
    var i :| 0 <= i < |m[Type].items| && m[Type].items[i] == u;
    ItemIsPart(m[Type].items, i);
  }

  lemma {:induction false} OnlyObjectsGoOn(w: World, document: Json, node: Json, p: Place)
    requires p in PlacesOf(ShapeOf(w, document, node), document)
    ensures node.JObj?
  {
  }

  lemma {:induction false} RetypedBy(m: map<Key, Json>, node: Json) returns (t: Json)
    requires Retyping(m, node)
    ensures Type in m && m[Type].JArr? && t in m[Type].items && node == Retyped(m, t)
  {
    var i :| 0 <= i < |m[Type].items| && node == Retyped(m, m[Type].items[i]);
    t := m[Type].items[i];
  }

  lemma {:induction false} RetypedAgain(base: map<Key, Json>, t: Option<Json>, m: map<Key, Json>, u: Json)
    requires m == if t.None? then base else base[Type := t.value]
    ensures Retyped(m, u) == Retyped(base, u)
  {
    assert m[Type := u] == base[Type := u];
  }

  lemma {:induction false} UnderRetyped(base: map<Key, Json>, t: Option<Json>, m: map<Key, Json>, node: Json)
    requires Under(m, node) && m == if t.None? then base else base[Type := t.value]
    ensures Under(base, node)
  {
    hide DirectlyUnder;
    if node != NOTHING {
      var key :| key != Type && key in m && DirectlyUnder(m[key], node);
      assert DirectlyUnder(base[key], node);
    }
  }

  // ---------------------------------------------------------------- the recursion ends exactly without loops

  /** The recursion goes from `p` to `q` in exactly `n` calls. */
  ghost predicate Leads(n: nat, w: World, p: Place, q: Place) {
    if n == 0 then p == q else exists r :: r in NextOf(w, p) && Leads(n - 1, w, r, q)
  }

  /** A node visited from `p` leads back to itself. */
  ghost predicate Loops(w: World, p: Place) {
    exists q, m: nat, n: nat :: n > 0 && Leads(m, w, p, q) && Leads(n, w, q, q)
  }

  lemma {:induction false} LeadsOn(m: nat, n: nat, w: World, p: Place, q: Place, r: Place)
    requires Leads(m, w, p, q) && Leads(n, w, q, r)
    ensures Leads(m + n, w, p, r)
    decreases m
  {
    hide NextOf;
    if m > 0 {
      var s :| s in NextOf(w, p) && Leads(m - 1, w, s, q);
      LeadsOn(m - 1, n, w, s, q, r);
    }
  }

  lemma {:induction false} OneCall(w: World, p: Place, q: Place)
    requires q in NextOf(w, p)
    ensures Leads(1, w, p, q)
  {
    hide NextOf;
    assert Leads(0, w, q, q);
  }

  /** Whoever ends within `depth` calls leads at most to what ends within the rest. */
  lemma {:induction false} LeadsToEnding(depth: nat, n: nat, w: World, p: Place, q: Place)
    requires Ends(depth, w, p.document, p.node) && Leads(n, w, p, q)
    ensures n < depth && Ends(depth - n, w, q.document, q.node)
    decreases n
  {
    hide ShapeOf, Ends, PlacesOf;
    EndsByPlaces(depth, w, p.document, p.node);
    if n > 0 {
      var r :| r in NextOf(w, p) && Leads(n - 1, w, r, q);
      LeadsToEnding(depth - 1, n - 1, w, r, q);
    }
  }

  lemma {:induction false} LoopNeverEnds(depth: nat, n: nat, w: World, q: Place)
    requires n > 0 && Leads(n, w, q, q)
    ensures !Ends(depth, w, q.document, q.node)
    decreases depth
  {
    hide Ends, Leads;
    if Ends(depth, w, q.document, q.node) {
      LeadsToEnding(depth, n, w, q, q);
      LoopNeverEnds(depth - n, n, w, q);
    }
  }

  /** `path` holds the places on the way from `start` to `p`. */
  ghost predicate OnTheWay(w: World, start: Place, path: set<Place>, p: Place) {
    && path <= Universe(w, start) && p in Universe(w, start)
    && (exists m: nat :: Leads(m, w, start, p))
    && forall q :: q in path ==> exists n: nat :: n > 0 && Leads(n, w, q, p)
  }

  lemma {:induction false} WayIsLoop(w: World, start: Place, path: set<Place>, p: Place)
    requires OnTheWay(w, start, path, p)
    ensures p in Universe(w, start) && (p in path ==> Loops(w, start))
  {
    hide Leads, Universe;
    var m: nat :| Leads(m, w, start, p);
    if p in path {
      var n: nat :| n > 0 && Leads(n, w, p, p);
    }
  }

  lemma {:induction false} OneFurther(w: World, start: Place, path: set<Place>, p: Place, q: Place)
    requires OnTheWay(w, start, path, p) && q in NextOf(w, p)
    ensures OnTheWay(w, start, path + {p}, q)
  {
    hide Leads, Universe, NextOf, Visitable;
    VisitableIsInUniverse(w, start, p);
    VisitableIsInUniverse(w, start, q);
    NextIsVisitable(w, start, p, q);
    OneCall(w, p, q);
    var m: nat :| Leads(m, w, start, p);
    LeadsOn(m, 1, w, start, p, q);
    forall r | r in path + {p}
      ensures exists n: nat :: n > 0 && Leads(n, w, r, q)
    {
      if r != p {
        var n: nat :| n > 0 && Leads(n, w, r, p);
        LeadsOn(n, 1, w, r, p, q);
      }
    }
  }

  /** Without loops, no way is longer than there are places. */
  lemma {:induction false} LooplessHalts(w: World, start: Place, path: set<Place>, p: Place)
    requires OnTheWay(w, start, path, p) && !Loops(w, start)
    ensures Halts(w, p.document, p.node)
    decreases |Universe(w, start) - path|
  {
    hide *;
    WayIsLoop(w, start, path, p);
    assert Universe(w, start) - (path + {p}) == (Universe(w, start) - path) - {p};
    forall q | q in PlacesOf(ShapeOf(w, p.document, p.node), p.document)
      ensures Halts(w, q.document, q.node)
    {
      assert q in NextOf(w, p) by { NextIsPlaces(w, p); }
      OneFurther(w, start, path, p, q);
      LooplessHalts(w, start, path + {p}, q);
    }
    HaltsByPlaces(w, p.document, p.node);
  }

  /** The recursion from a node ends exactly when no node it visits leads back to itself. */
  lemma {:induction false} EmissionEnds(w: World, document: Json, node: Json)
    ensures (exists depth :: Ends(depth, w, document, node)) <==> !Loops(w, Place(document, node))
  {
    hide Ends, Loops;
    var start := Place(document, node);
    if !Loops(w, start) {
      assert OnTheWay(w, start, {}, start) by {
        hide Universe, Visitable;
        StartIsVisitable(w, start);
        VisitableIsInUniverse(w, start, start);
        assert Leads(0, w, start, start);
      }
      LooplessHalts(w, start, {}, start);
    }
    if depth: nat :| Ends(depth, w, document, node) {
      EndingHasNoLoop(depth, w, start);
    }
  }

  lemma {:induction false} EndingHasNoLoop(depth: nat, w: World, start: Place)
    requires Ends(depth, w, start.document, start.node)
    ensures !Loops(w, start)
  {
    hide Ends, Leads;
    if Loops(w, start) {
      var q, m: nat, n: nat :| n > 0 && Leads(m, w, start, q) && Leads(n, w, q, q);
      LeadsToEnding(depth, m, w, start, q);
      LoopNeverEnds(depth - m, n, w, q);
    }
  }

  // ---------------------------------------------------------------- one limit for a whole set of contracts

  /** The nodes a contract's declaration is rendered from: the document, or the schema of each variant. */
  function Roots(document: Json): set<Json> {
    var variants := DiscriminatedVariants(document);
    if variants.None? then {document} else VariantRoots(document, variants.value)
  }

  function VariantRoots(document: Json, variants: seq<Variant>): set<Json> {
    set i | 0 <= i < |variants| :: VariantSchema(document, variants[i])
  }

  function RootPlaces(w: World): set<Place> {
    set id, root | id in w && root in Roots(w[id].document) :: Place(w[id].document, root)
  }

  /** No contract's emission visits a node that leads back to itself. */
  ghost predicate Loopless(w: World) {
    forall p :: p in RootPlaces(w) ==> !Loops(w, p)
  }

  /** One limit serves every contract exactly when no emission loops. */
  lemma {:induction false} CommonLimit(w: World)
    ensures Loopless(w) <==> exists limit :: AllEnd(limit, w, RootPlaces(w))
  {
    hide Ends, Loops, RootPlaces;
    if Loopless(w) {
      forall p | p in RootPlaces(w)
        ensures Halts(w, p.document, p.node)
      {
        EmissionEnds(w, p.document, p.node);
      }
      var limit := CommonDepth(w, RootPlaces(w));
    }
    if limit: nat :| AllEnd(limit, w, RootPlaces(w)) {
      forall p | p in RootPlaces(w)
        ensures !Loops(w, p)
      {
        EndingHasNoLoop(limit, w, p);
      }
    }
  }

  /** Every node visited from `p` is in the supported fragment. */
  ghost predicate AdmissibleFrom(w: World, p: Place) {
    forall n: nat, q :: Leads(n, w, p, q) ==> Admissible(w, q.document, q.node)
  }

  lemma {:induction false} AdmissibleNext(w: World, p: Place, q: Place)
    requires AdmissibleFrom(w, p) && q in NextOf(w, p)
    ensures AdmissibleFrom(w, q)
  {
    hide NextOf, Admissible;
    forall n: nat, r | Leads(n, w, q, r)
      ensures Admissible(w, r.document, r.node)
    {
      assert Leads(n + 1, w, p, r);
    }
  }

  lemma {:induction false} AdmissibleHere(w: World, p: Place)
    requires AdmissibleFrom(w, p)
    ensures Admissible(w, p.document, p.node)
  {
    hide Admissible;
    assert Leads(0, w, p, p);
  }

  lemma {:induction false} AdmissibleIsSupported(depth: nat, w: World, p: Place)
    requires Ends(depth, w, p.document, p.node) && AdmissibleFrom(w, p)
    ensures Supported(depth, w, p.document, p.node)
    decreases depth
  {
    hide *;
    EndsByPlaces(depth, w, p.document, p.node);
    AdmissibleHere(w, p);
    forall q | q in PlacesOf(ShapeOf(w, p.document, p.node), p.document)
      ensures Supported(depth - 1, w, q.document, q.node)
    {
      assert q in NextOf(w, p) by { NextIsPlaces(w, p); }
      EachEnds(depth - 1, w, PlacesOf(ShapeOf(w, p.document, p.node), p.document), q);
      AdmissibleNext(w, p, q);
      AdmissibleIsSupported(depth - 1, w, q);
    }
    SupportedByPlaces(depth, w, p.document, p.node);
  }

  lemma {:induction false} EachEnds(depth: nat, w: World, places: set<Place>, p: Place)
    requires AllEnd(depth, w, places) && p in places
    ensures Ends(depth, w, p.document, p.node)
  {
    hide Ends;
  }

  lemma {:induction false} SupportedByPlaces(depth: nat, w: World, document: Json, node: Json)
    requires depth > 0 && Admissible(w, document, node)
    requires forall p :: p in PlacesOf(ShapeOf(w, document, node), document) ==> Supported(depth - 1, w, p.document, p.node)
    ensures Supported(depth, w, document, node)
  {
    hide ShapeOf, Admissible, Supported, EachPlace, ValuePlaces;
    match ShapeOf(w, document, node)
    case Alternatives(nodes) => SupportedOverList(depth, w, document, node);
    case AllParts(nodes) => SupportedOverList(depth, w, document, node);
    case Record(_, _) => SupportedOverRecord(depth, w, document, node);
    case Goto(place) => SupportedOverOne(depth, w, document, node, place);
    case ListOf(item) => SupportedOverOne(depth, w, document, node, Place(document, item));
    case _ => SupportedOverNone(depth, w, document, node);
  }

  lemma {:induction false} SupportedOverList(depth: nat, w: World, document: Json, node: Json)
    requires depth > 0 && Admissible(w, document, node)
    requires ShapeOf(w, document, node).Alternatives? || ShapeOf(w, document, node).AllParts?
    requires forall p :: p in EachPlace(document, ShapeOf(w, document, node).nodes) ==> Supported(depth - 1, w, p.document, p.node)
    ensures Supported(depth, w, document, node)
  {
    hide ShapeOf, Admissible, EachPlace;
    SupportedNodes(depth - 1, w, document, ShapeOf(w, document, node).nodes);
  }

  lemma {:induction false} SupportedNodes(depth: nat, w: World, document: Json, nodes: seq<Json>)
    requires forall p :: p in EachPlace(document, nodes) ==> Supported(depth, w, p.document, p.node)
    ensures forall i :: 0 <= i < |nodes| ==> Supported(depth, w, document, nodes[i])
  {
    hide Supported;
    assert forall i :: 0 <= i < |nodes| ==> Place(document, nodes[i]) in EachPlace(document, nodes);
  }

  lemma {:induction false} SupportedOverRecord(depth: nat, w: World, document: Json, node: Json)
    requires depth > 0 && Admissible(w, document, node) && ShapeOf(w, document, node).Record?
    requires forall p :: p in ValuePlaces(document, ShapeOf(w, document, node).properties) ==>
                           Supported(depth - 1, w, p.document, p.node)
    ensures Supported(depth, w, document, node)
  {
    hide ShapeOf, Admissible, ValuePlaces;
    SupportedValues(depth - 1, w, document, ShapeOf(w, document, node).properties);
  }

  lemma {:induction false} SupportedValues(depth: nat, w: World, document: Json, properties: map<Key, Json>)
    requires forall p :: p in ValuePlaces(document, properties) ==> Supported(depth, w, p.document, p.node)
    ensures forall name :: name in properties ==> Supported(depth, w, document, properties[name])
  {
    hide Supported;
    assert forall name :: name in properties ==> Place(document, properties[name]) in ValuePlaces(document, properties);
  }

  lemma {:induction false} SupportedOverOne(depth: nat, w: World, document: Json, node: Json, p: Place)
    requires depth > 0 && Admissible(w, document, node) && Supported(depth - 1, w, p.document, p.node)
    requires ShapeOf(w, document, node) == Goto(p) || (ShapeOf(w, document, node) == ListOf(p.node) && p.document == document)
    ensures Supported(depth, w, document, node)
  {
    hide ShapeOf, Admissible;
  }

  lemma {:induction false} SupportedOverNone(depth: nat, w: World, document: Json, node: Json)
    requires depth > 0 && Admissible(w, document, node)
    requires var shape := ShapeOf(w, document, node);
             !shape.Alternatives? && !shape.AllParts? && !shape.Record? && !shape.Goto? && !shape.ListOf?
    ensures Supported(depth, w, document, node)
  {
    hide ShapeOf, Admissible;
  }

  /** Conversely, a supported node visits nothing outside the fragment. */
  lemma {:induction false} SupportedIsAdmissible(depth: nat, w: World, p: Place)
    requires Supported(depth, w, p.document, p.node)
    ensures Ends(depth, w, p.document, p.node) && AdmissibleFrom(w, p)
    decreases depth
  {
    hide *;
    PlacesOfSupported(depth, w, p.document, p.node);
    forall q | q in PlacesOf(ShapeOf(w, p.document, p.node), p.document)
      ensures Ends(depth - 1, w, q.document, q.node) && AdmissibleFrom(w, q)
    {
      SupportedIsAdmissible(depth - 1, w, q);
    }
    NextIsPlaces(w, p);
    AllEndByEach(depth - 1, w, PlacesOf(ShapeOf(w, p.document, p.node), p.document));
    EndsByPlaces(depth, w, p.document, p.node);
    AdmissibleByNext(w, p);
  }

  lemma {:induction false} AllEndByEach(depth: nat, w: World, places: set<Place>)
    requires forall p :: p in places ==> Ends(depth, w, p.document, p.node)
    ensures AllEnd(depth, w, places)
  {
    hide Ends;
  }

  lemma {:induction false} AdmissibleByNext(w: World, p: Place)
    requires Admissible(w, p.document, p.node) && forall q :: q in NextOf(w, p) ==> AdmissibleFrom(w, q)
    ensures AdmissibleFrom(w, p)
  {
    hide NextOf, Admissible;
    forall n: nat, r | Leads(n, w, p, r)
      ensures Admissible(w, r.document, r.node)
    {
      if n > 0 {
        var q :| q in NextOf(w, p) && Leads(n - 1, w, q, r);
        assert AdmissibleFrom(w, q);
      }
    }
  }

  lemma {:induction false} PlacesOfSupported(depth: nat, w: World, document: Json, node: Json)
    requires Supported(depth, w, document, node)
    ensures depth > 0 && Admissible(w, document, node)
    ensures forall p :: p in PlacesOf(ShapeOf(w, document, node), document) ==> Supported(depth - 1, w, p.document, p.node)
  {
    hide ShapeOf, Admissible;
  }

  /** What the generator needs of a set of contracts. */
  ghost predicate Generable(w: World) {
    && Loopless(w)
    && (forall p :: p in RootPlaces(w) ==> AdmissibleFrom(w, p))
    && (forall id :: id in w && DiscriminatedVariants(w[id].document).Some? ==> PlainlyConditioned(w[id].document))
    && (forall i, j :: i in w && j in w && w[i].typeName == w[j].typeName ==> i == j)
  }

  /** Such contracts have their declarations, all within one limit. */
  lemma {:induction false} DeclarationsExist(w: World) returns (limit: nat, env: Declarations)
    requires Generable(w)
    ensures Generated(limit, w, env)
  {
    CommonLimit(w);
    hide Loopless, Ends, Supported, RootPlaces, AdmissibleFrom, PlainlyConditioned, DiscriminatedVariants;
    limit :| AllEnd(limit, w, RootPlaces(w));
    forall id | id in w
      ensures Ready(limit, w, w[id].document)
    {
      ContractIsReady(limit, w, id);
    }
    env := map id | id in w :: w[id].typeName := Declared(limit, w, w[id].document);
  }

  lemma {:induction false} ContractIsReady(limit: nat, w: World, id: string)
    requires id in w && AllEnd(limit, w, RootPlaces(w)) && (forall p :: p in RootPlaces(w) ==> AdmissibleFrom(w, p))
    requires DiscriminatedVariants(w[id].document).Some? ==> PlainlyConditioned(w[id].document)
    ensures Ready(limit, w, w[id].document)
  {
    hide Ends, Supported, AdmissibleFrom, PlainlyConditioned, DiscriminatedVariants, VariantSchema;
    var document := w[id].document;
    forall root | root in Roots(document)
      ensures Ends(limit, w, document, root) && Supported(limit, w, document, root)
    {
      assert Place(document, root) in RootPlaces(w);
      AdmissibleIsSupported(limit, w, Place(document, root));
    }
    if DiscriminatedVariants(document).Some? {
      RootsOfVariants(document, DiscriminatedVariants(document).value);
    }
  }

  lemma {:induction false} RootsOfVariants(document: Json, variants: seq<Variant>)
    ensures forall i :: 0 <= i < |variants| ==> VariantSchema(document, variants[i]) in VariantRoots(document, variants)
  {
    hide VariantSchema;
  }

  /** Soundness of the generated file from conditions on the contracts alone. */
  lemma {:induction false} GeneratedFileIsSound(w: World) returns (limit: nat, env: Declarations)
    requires Generable(w)
    ensures Generated(limit, w, env)
    ensures forall k, valid: Validity, id, v :: IsValidity(valid, w) && id in w && Meets(valid, w, w[id].document, w[id].document, v) ==>
              Inhabits(k, env, Declared(limit, w, w[id].document), v)
  {
    limit, env := DeclarationsExist(w);
    hide *;
    forall k, valid: Validity, id, v | IsValidity(valid, w) && id in w && Meets(valid, w, w[id].document, w[id].document, v)
      ensures Ready(limit, w, w[id].document) && Inhabits(k, env, Declared(limit, w, w[id].document), v)
    {
      ContractIsSound(k, limit, w, env, valid, id, v);
    }
  }

  // ---------------------------------------------------------------- contracts with references

  const TEXTS := JObj(map[Type := JStr("array"), Items := JObj(map[Ref := JStr("#/$defs/text")])])
  const TEXT := JObj(map[Type := JStr("string")])

  /** A contract whose property goes to a definition that goes to another one. */
  const LINKED := JObj(map[Type := JStr("object"), Properties := JObj(map[Name("lines") := JObj(map[Ref := JStr("#/$defs/lines")])]),
                           Name("$defs") := JObj(map[Name("lines") := TEXTS, Name("text") := TEXT])])

  const LINKED_ONLY: World := map["linked.schema.json" := Contract("Linked", LINKED)]

  lemma {:induction false} FirstAt(s: string, c: char, i: nat, k: nat)
    requires i <= k <= |s| && (k < |s| ==> s[k] == c) && forall j :: i <= j < k ==> s[j] != c
    ensures IndexOf(s, c, i) == k
    decreases k - i
  {
    if i < k {
      FirstAt(s, c, i + 1, k);
    }
  }

  lemma {:induction false} NothingReplaced(s: string, digit: char, c: char)
    requires '~' !in s
    ensures Replace(s, digit, c) == s
  {
    if |s| >= 2 {
      NothingReplaced(s[1..], digit, c);
    }
  }

  lemma {:induction false} TwoSegments(a: string, b: string)
    requires '/' !in a && '/' !in b
    ensures SplitOn(a + "/" + b, '/') == [a, b]
  {
    var s := a + "/" + b;
    FirstAt(s, '/', 0, |a|);
    FirstAt(b, '/', 0, |b|);
    assert s[..|a|] == a && s[|a| + 1..] == b;
  }

  /** Where a reference to a member of a member of the same document leads. */
  lemma {:induction false} MemberReference(w: World, document: Json, reference: string, a: string, b: string)
    requires '/' !in a && '/' !in b && '~' !in a && '~' !in b && reference == "#/" + (a + "/" + b)
    requires document.JObj? && KeyOf(a) in document.members && document.members[KeyOf(a)].JObj?
    requires KeyOf(b) in document.members[KeyOf(a)].members
    ensures Resolve(w, document, reference) == Some(Place(document, document.members[KeyOf(a)].members[KeyOf(b)]))
  {
    FirstAt(reference, '#', 0, 0);
    assert reference[1..][1..] == a + "/" + b;
    TwoSegments(a, b);
    NothingReplaced(a, '1', '/');
    NothingReplaced(b, '1', '/');
    NothingReplaced(a, '0', '~');
    NothingReplaced(b, '0', '~');
    hide SplitOn, Replace, KeyOf, IndexOf;
    assert [a, b][1..] == [b] && [b][1..] == [];
    assert Follow(document.members[KeyOf(a)], [b]) == Some(document.members[KeyOf(a)].members[KeyOf(b)]);
  }

  lemma {:induction false} LinkTexts()
    ensures "#/$defs/lines" == "#/" + ("$defs" + "/" + "lines") && "#/$defs/text" == "#/" + ("$defs" + "/" + "text")
    ensures forall name :: name in {"$defs", "lines", "text"} ==> '/' !in name && '~' !in name && KeyOf(name) == Name(name)
  {
  }

  lemma {:induction false} LinkMembers()
    ensures LINKED.JObj? && Name("$defs") in LINKED.members && LINKED.members[Name("$defs")].JObj?
    ensures var m := LINKED.members[Name("$defs")].members;
            Name("lines") in m && m[Name("lines")] == TEXTS && Name("text") in m && m[Name("text")] == TEXT
  {
    assert LINKED.members[Name("$defs")] == JObj(map[Name("lines") := TEXTS, Name("text") := TEXT]);
    hide TEXTS, TEXT;
    assert "lines" != "text" by { assert |"lines"| != |"text"|; }
  }

  lemma {:induction false} LinksAreFollowed(w: World)
    ensures Resolve(w, LINKED, "#/$defs/lines") == Some(Place(LINKED, TEXTS))
    ensures Resolve(w, LINKED, "#/$defs/text") == Some(Place(LINKED, TEXT))
  {
    hide *;
    LinkTexts();
    LinkMembers();
    MemberReference(w, LINKED, "#/$defs/lines", "$defs", "lines");
    MemberReference(w, LINKED, "#/$defs/text", "$defs", "text");
  }

  function RefTo(reference: string): Json {
    JObj(map[Ref := JStr(reference)])
  }

  lemma {:induction false} PartShapes(w: World)
    ensures ShapeOf(w, LINKED, TEXT) == Simple(Primitive("string"))
    ensures ShapeOf(w, LINKED, TEXTS) == ListOf(RefTo("#/$defs/text")) && PrefixItems !in TEXTS.members
  {
    hide Resolve;
  }

  lemma {:induction false} LinkedShape(w: World)
    ensures ShapeOf(w, LINKED, LINKED) == Record(map[Name("lines") := RefTo("#/$defs/lines")], {})
    ensures Type in LINKED.members && LINKED.members[Type].JStr?
  {
    var m := LINKED.members;
    assert m[Properties].members == map[Name("lines") := RefTo("#/$defs/lines")];
    assert Name("lines") in m[Properties].members;
    assert TypeText(m) == "object" && RequiredNames(m) == {};
    hide Resolve, RefTo;
  }

  lemma {:induction false} RefShape(w: World, document: Json, reference: string)
    requires Resolve(w, document, reference).Some?
    ensures ShapeOf(w, document, RefTo(reference)) == Goto(Resolve(w, document, reference).value)
  {
    hide Resolve;
  }

  lemma {:induction false} RefIsSupported(depth: nat, w: World, document: Json, reference: string, p: Place)
    requires Resolve(w, document, reference) == Some(p) && depth > 0 && Supported(depth - 1, w, p.document, p.node)
    ensures Supported(depth, w, document, RefTo(reference))
  {
    RefShape(w, document, reference);
    hide Resolve, ShapeOf;
  }

  lemma {:induction false} LinkedIsSupported(w: World)
    ensures Supported(5, w, LINKED, LINKED)
  {
    LinksAreFollowed(w);
    PartShapes(w);
    LinkedShape(w);
    hide ShapeOf, Resolve, LINKED, TEXT, TEXTS, RefTo;
    assert Supported(1, w, LINKED, TEXT);
    RefIsSupported(2, w, LINKED, "#/$defs/text", Place(LINKED, TEXT));
    assert Supported(3, w, LINKED, TEXTS);
    RefIsSupported(4, w, LINKED, "#/$defs/lines", Place(LINKED, TEXTS));
  }

  lemma {:induction false} LinkedHasNoVariants()
    ensures DiscriminatedVariants(LINKED).None?
  {
    assert Discriminator !in LINKED.members;
  }

  /** Contracts with chains of references meet every condition of soundness. */
  lemma {:induction false} LinkedIsGenerable()
    ensures Generable(LINKED_ONLY)
  {
    var w := LINKED_ONLY;
    hide DiscriminatedVariants, LINKED, Supported, AdmissibleFrom, Loops, PlainlyConditioned, Ends;
    LinkedIsSupported(w);
    LinkedHasNoVariants();
    SupportedIsAdmissible(5, w, Place(LINKED, LINKED));
    EndingHasNoLoop(5, w, Place(LINKED, LINKED));
    assert forall p :: p in RootPlaces(w) ==> p == Place(LINKED, LINKED);
  }

  /** A reference that leads back to its own node is never done with. */
  lemma {:induction false} SelfReferenceNeverEnds(depth: nat, w: World, document: Json, reference: string)
    requires Resolve(w, document, reference) == Some(Place(document, RefTo(reference)))
    ensures !Ends(depth, w, document, RefTo(reference)) && Loops(w, Place(document, RefTo(reference)))
  {
    RefShape(w, document, reference);
    var p := Place(document, RefTo(reference));
    hide Resolve, ShapeOf, RefTo, Ends, Loops;
    OneCall(w, p, p);
    LoopNeverEnds(depth, 1, w, p);
    hide *;
    LoopsAt(w, p);
  }

  lemma {:induction false} LoopsAt(w: World, p: Place)
    requires Leads(1, w, p, p)
    ensures Loops(w, p)
  {
    assert Leads(0, w, p, p);
    hide NextOf;
  }

  /** The emitted type does not depend on how much depth was allowed. */
  lemma {:induction false} DepthIsIrrelevant(a: nat, b: nat, w: World, document: Json, node: Json)
    requires Ends(a, w, document, node) && Ends(b, w, document, node)
    ensures TypeOf(a, w, document, node) == TypeOf(b, w, document, node)
    decreases a
  {
    hide ShapeOf, Ends, TypeOf, TypesOf, FieldsOf;
    match ShapeOf(w, document, node) {
      case Goto(p) =>
        GotoType(a, w, document, node);
        GotoType(b, w, document, node);
        DepthIsIrrelevant(a - 1, b - 1, w, p.document, p.node);
      case Alternatives(nodes) => SameSequences(a, b, w, document, node);
      case AllParts(nodes) => SameSequences(a, b, w, document, node);
      case ListOf(item) =>
        ElementType(a, w, document, node);
        ElementType(b, w, document, node);
        DepthIsIrrelevant(a - 1, b - 1, w, document, item);
      case Record(properties, required) =>
        RecordType(a, w, document, node);
        RecordType(b, w, document, node);
        forall name | name in properties
          ensures FieldsOf(a - 1, w, document, properties, required)[name] == FieldsOf(b - 1, w, document, properties, required)[name]
        {
          FieldAt(a - 1, w, document, properties, required, name);
          FieldAt(b - 1, w, document, properties, required, name);
          DepthIsIrrelevant(a - 1, b - 1, w, document, properties[name]);
        }
      case _ => LeafType(a, b, w, document, node);
    }
  }

  lemma {:induction false} SameSequences(a: nat, b: nat, w: World, document: Json, node: Json)
    requires Ends(a, w, document, node) && Ends(b, w, document, node)
    requires ShapeOf(w, document, node).Alternatives? || ShapeOf(w, document, node).AllParts?
    ensures TypeOf(a, w, document, node) == TypeOf(b, w, document, node)
    decreases a, 0
  {
    hide *;
    SequenceType(a, w, document, node);
    SequenceType(b, w, document, node);
    var nodes := ShapeOf(w, document, node).nodes;
    var left, right := TypesOf(a - 1, w, document, nodes), TypesOf(b - 1, w, document, nodes);
    forall i: nat | i < |left|
      ensures left[i] == right[i]
    {
      TypesAt(a - 1, w, document, nodes, i);
      TypesAt(b - 1, w, document, nodes, i);
      DepthIsIrrelevant(a - 1, b - 1, w, document, nodes[i]);
    }
    assert left == right;
  }

  lemma {:induction false} GotoType(depth: nat, w: World, document: Json, node: Json)
    requires Ends(depth, w, document, node) && ShapeOf(w, document, node).Goto?
    ensures depth > 0
    ensures var p := ShapeOf(w, document, node).place;
            Ends(depth - 1, w, p.document, p.node) && TypeOf(depth, w, document, node) == TypeOf(depth - 1, w, p.document, p.node)
  {
    hide ShapeOf;
  }

  lemma {:induction false} ElementType(depth: nat, w: World, document: Json, node: Json)
    requires Ends(depth, w, document, node) && ShapeOf(w, document, node).ListOf?
    ensures depth > 0
    ensures var item := ShapeOf(w, document, node).node;
            && Ends(depth - 1, w, document, item)
            && TypeOf(depth, w, document, node) == ArrayType(TypeOf(depth - 1, w, document, item))
  {
    hide ShapeOf;
  }

  lemma {:induction false} LeafType(a: nat, b: nat, w: World, document: Json, node: Json)
    requires Ends(a, w, document, node) && Ends(b, w, document, node)
    requires var shape := ShapeOf(w, document, node);
             !shape.Alternatives? && !shape.AllParts? && !shape.Record? && !shape.Goto? && !shape.ListOf?
    ensures TypeOf(a, w, document, node) == TypeOf(b, w, document, node)
  {
    hide ShapeOf;
  }
}
