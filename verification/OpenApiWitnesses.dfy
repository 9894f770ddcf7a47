/**
 * Small documents that show where a comparison says nothing although a caller
 * could notice, and one pair where it speaks.
 *
 * Each is a document the code can be given. The lemmas compute its surface, the
 * verdict of comparing it with another one, and a payload for which the
 * difference matters.
 */
module OpenApiWitnesses {
  import opened Basics
  import opened OpenApiSchema
  import opened OpenApiFlatten
  import opened OpenApiSurface
  import opened OpenApiCompare
  import opened OpenApiCompatibility
  import opened OpenApiPayloads
  import opened OpenApiReports

  /* ---- documents with one JSON request body ---- */

  const KEY := OperationKey("post", "/notes")

  function BodyOperation(body: Schema): RawOperation {
    RawOperation([], Some([Media("application/json", Some(body))]), [], None, None, false)
  }

  function BodyDocument(c: Components, body: Schema): Document {
    Document(c, [PathItem("/notes", [("post", BodyOperation(body))])])
  }

  ghost function BodySurface(fields: Fields): Surface {
    map[KEY := Operation(map[], fields, map[], multiset{}, None, false)]
  }

  lemma BodyDocumentSurface(c: Components, body: Schema)
    ensures DocumentSurface(BodyDocument(c, body)) == BodySurface(BodyFields(Some(body), c))
  {
    var op := BodyOperation(body);
    var operations, items := [("post", op)], BodyDocument(c, body).paths;
    assert Lower("post") == "post";
    assert Described(op, c) == Operation(map[], BodyFields(Some(body), c), map[], multiset{}, None, false);
    assert operations[..0] == [] && items[..0] == [];
    assert OperationsOf("/notes", operations[..0], c, map[]) == map[];
    assert SurfaceOf(items[..0], c) == map[];
  }

  lemma BodyVerdict(f: Fields, g: Fields)
    ensures Breaking(SurfaceChanges(BodySurface(f), BodySurface(g))) == {} <==> FieldsKept(f, g, Sends)
  {
    VerdictIsKept(BodySurface(f), BodySurface(g));
    assert FieldsKept(map[], map[], Sends);
    if FieldsKept(f, g, Sends) {
      assert OperationKept(BodySurface(f)[KEY], BodySurface(g)[KEY]);
    }
    if SurfaceKept(BodySurface(f), BodySurface(g)) {
      assert KEY in BodySurface(f);
      assert OperationKept(BodySurface(f)[KEY], BodySurface(g)[KEY]);
    }
  }

  /* ---- plain schemas ---- */

  function Typed(t: string): Schema {
    EMPTY_SCHEMA.(typ := Single(t))
  }

  function ObjectOf(name: string, child: Schema, required: bool): Schema {
    EMPTY_SCHEMA.(
      typ := Single("object"),
      properties := Table([Property(name, child)]),
      required := if required then [name] else [])
  }

  function RefTo(name: string): Schema {
    EMPTY_SCHEMA.(ref := Ref("#/components/schemas/" + name))
  }

  lemma NoUnionHalts(s: Schema, c: Components)
    requires s.anyOf == [] && s.oneOf == []
    ensures EnumHalts(s, c)
    ensures s.enum.None? && s.const_.None? ==> EnumValues(s, c) == None
  {
    assert Completes(s, c, 1);
  }

  lemma TypedLeaves(t: string, c: Components, required: bool, seen: set<string>)
    ensures Leaves(Typed(t), c, required, seen) == {Leaf([], Field({t}, required, None))}
  {
    NoUnionHalts(Typed(t), c);
    BodyGroups(Typed(t), c, required, seen);
  }

  lemma ObjectLeaves(name: string, child: Schema, owed: bool, c: Components, required: bool, seen: set<string>)
    ensures BodyLeaves(ObjectOf(name, child, owed), c, required, seen)
         == {Leaf([], Field({"object"}, required, None))} + Shift(Named(name), Leaves(child, c, owed, seen))
  {
    var s := ObjectOf(name, child, owed);
    NoUnionHalts(s, c);
    BodyGroups(s, c, required, seen);
    assert Props(s) == [Property(name, child)] && (name in s.required <==> owed);
    assert PropertyGroup(Props(s), s.required, c, seen) == Shift(Named(name), Leaves(child, c, owed, seen));
  }

  lemma {:induction false} LastSegmentOf(before: string, name: string)
    requires '/' !in name
    ensures LastSegment(before + "/" + name) == name
  {
    var uri := before + "/" + name;
    assert uri[|before|] == '/';
    if before == "" {
      assert uri[1..] == name;
    } else {
      LastSegmentOf(before[1..], name);
      assert uri[1..] == before[1..] + "/" + name;
      assert uri[1..][|before| - 1] == '/';
    }
  }

  /** The fields of a body whose leaves lie at the root and at one property. */
  lemma TwoFields(root: Field, name: string, field: Field)
    ensures Collect([], {Leaf([], root), Leaf([Named(name)], field)}) == map[[] := root, [Named(name)] := field]
  {
    var ls := {Leaf([], root), Leaf([Named(name)], field)};
    var fields: Fields := map[[] := root, [Named(name)] := field];
    forall p ensures Agree(Collect([], ls), fields, p) {
      CollectIn([], ls, p);
      assert p[0..] == p;
      if p == [] {
        assert At(ls, p) == {root};
        JoinOne(root);
      } else if p == [Named(name)] {
        assert At(ls, p) == {field};
        JoinOne(field);
      } else {
        assert At(ls, p) == {};
      }
    }
    AgreeEverywhere(Collect([], ls), fields);
  }

  /* ---- documents the code receives ---- */

  lemma PlainComponents(c: Components)
    requires forall n :: n in c ==> c[n].anyOf == [] && c[n].oneOf == []
    ensures HaltsAll(c)
  {
    forall n | n in c ensures EnumHalts(c[n], c) {
      NoUnionHalts(c[n], c);
    }
  }

  lemma BodyDocumentFits(c: Components, body: Schema)
    requires HaltsAll(c) && WellNamedAll(c) && WellNamed(body)
    ensures WellFormed(BodyDocument(c, body))
  {
    EverySchemaReadable(body, c, {});
    assert BodySchema(BodyOperation(body).requestBody) == Some(body);
  }

  lemma TypedBodyFields(t: string)
    ensures WellFormed(BodyDocument(map[], Typed(t)))
    ensures BodyFields(Some(Typed(t)), map[]) == map[[] := Field({t}, true, None)]
  {
    PlainComponents(map[]);
    BodyDocumentFits(map[], Typed(t));
    TypedLeaves(t, map[], true, {});
    CollectOne([], Field({t}, true, None));
  }

  /** A request body that was a string and is an integer now: the surfaces differ, and no change is reported. */
  lemma RootTypeUnnoticed()
    ensures var was, now := BodyDocument(map[], Typed("string")), BodyDocument(map[], Typed("integer"));
      WellFormed(was) && WellFormed(now) && DocumentSurface(was) != DocumentSurface(now)
      && SurfaceChanges(DocumentSurface(was), DocumentSurface(now)) == {}
  {
    TypedBodyFields("string");
    TypedBodyFields("integer");
    BodyDocumentSurface(map[], Typed("string"));
    BodyDocumentSurface(map[], Typed("integer"));
    var x, y := Field({"string"}, true, None), Field({"integer"}, true, None);
    RootsOnly(x, y);
    assert "string" in x.types && "string" !in y.types;
    assert BodySurface(map[[] := x])[KEY].request[[]] == x && BodySurface(map[[] := y])[KEY].request[[]] == y;
  }

  lemma RootsOnly(x: Field, y: Field)
    ensures SurfaceChanges(BodySurface(map[[] := x]), BodySurface(map[[] := y])) == {}
  {
    var was, now := BodySurface(map[[] := x]), BodySurface(map[[] := y]);
    assert OperationChanges(was[KEY], now[KEY], KEY) == {};
    assert FromOldKeys(was.Keys, was, now) == {};
    assert now.Keys - was.Keys == {};
  }

  /** A union whose one member has a required property: the field comes out required, whatever `required` says. */
  lemma UnionFieldRequired(c: Components, required: bool)
    ensures var fields := Collect([], Leaves(AnyOf(ObjectOf("a", Typed("string"), true)), c, required, {}));
      [Named("a")] in fields && fields[[Named("a")]] == Field({"string"}, true, None)
  {
    var member := ObjectOf("a", Typed("string"), true);
    var leaf := Leaf([Named("a")], Field({"string"}, true, None));
    AnyOfLeaves(member, c, required);
    ObjectLeaves("a", Typed("string"), true, c, false, {});
    TypedLeaves("string", c, true, {});
    OneLeafBelow(Leaves(member, c, false, {}), Leaf([], Field({"object"}, false, None)), leaf);
    TwoFields(RootLeaf(AnyOf(member), c, required).field, "a", leaf.field);
    assert {RootLeaf(AnyOf(member), c, required)} + {leaf} == {RootLeaf(AnyOf(member), c, required), leaf};
  }

  function AnyOf(member: Schema): Schema {
    EMPTY_SCHEMA.(anyOf := [member])
  }

  lemma AnyOfLeaves(member: Schema, c: Components, required: bool)
    ensures Leaves(AnyOf(member), c, required, {})
      == {RootLeaf(AnyOf(member), c, required)} + Below(Leaves(member, c, false, {}))
  {
    var s := AnyOf(member);
    BodyGroups(s, c, required, {});
    assert PropertyGroup([], s.required, c, {}) == {} && MemberGroup([], c, required, {}) == {};
    assert s.anyOf + s.oneOf == [member];
    assert MemberGroup([member], c, false, {}) == Below(Leaves(member, c, false, {}));
  }

  lemma OneLeafBelow(ls: set<Leaf>, root: Leaf, leaf: Leaf)
    requires root.path == [] && leaf.path != []
      && ls == {root} + Shift(leaf.path[0], {Leaf(leaf.path[1..], leaf.field)})
    ensures Below(ls) == {leaf}
  {
    assert Under(leaf.path[0], Leaf(leaf.path[1..], leaf.field)) == leaf;
    assert Shift(leaf.path[0], {Leaf(leaf.path[1..], leaf.field)}) == {leaf};
  }

  /* ---- a component that refers to itself ---- */

  const NODE := "Node"

  const NEXT: Path := [Named("next")]

  /** A body that is a `Node`, whose optional `next` is the schema given. */
  function NodeDocument(next: Schema): Document {
    BodyDocument(map[NODE := ObjectOf("next", next, false)], RefTo(NODE))
  }

  function NodeFields(types: set<string>): Fields {
    map[[] := Field({"object"}, true, None), NEXT := Field(types, false, None)]
  }

  lemma NodeResolves(c: Components)
    ensures LastSegment(RefTo(NODE).ref.uri) == NODE
  {
    LastSegmentOf("#/components/schemas", NODE);
    assert RefTo(NODE).ref.uri == "#/components/schemas" + "/" + NODE;
  }

  lemma NodeDocumentFits(next: Schema)
    requires next.anyOf == [] && next.oneOf == [] && Parts(next) == {} && Props(next) == []
    ensures WellFormed(NodeDocument(next))
  {
    var c := map[NODE := ObjectOf("next", next, false)];
    PlainComponents(c);
    assert Props(c[NODE]) == [Property("next", next)];
    assert Parts(c[NODE]) == {next};
    assert WellNamed(next);
    assert WellNamed(c[NODE]);
    assert Parts(RefTo(NODE)) == {};
    BodyDocumentFits(c, RefTo(NODE));
  }

  lemma NodeBodyFields(next: Schema, types: set<string>)
    requires var c := map[NODE := ObjectOf("next", next, false)];
      Leaves(next, c, false, {RefTo(NODE).ref.uri}) == {Leaf([], Field(types, false, None))}
    ensures BodyFields(Some(RefTo(NODE)), NodeDocument(next).schemas) == NodeFields(types)
  {
    var c := map[NODE := ObjectOf("next", next, false)];
    var seen := {RefTo(NODE).ref.uri};
    NodeResolves(c);
    ObjectLeaves("next", next, false, c, true, seen);
    var below := Leaf([], Field(types, false, None));
    assert Under(Named("next"), below) == Leaf(NEXT, Field(types, false, None));
    assert Shift(Named("next"), {below}) == {Leaf(NEXT, Field(types, false, None))};
    assert {} + seen == seen;
    assert Leaves(RefTo(NODE), c, true, {})
        == {Leaf([], Field({"object"}, true, None)), Leaf(NEXT, Field(types, false, None))};
    TwoFields(Field({"object"}, true, None), "next", Field(types, false, None));
  }

  lemma TypedNode(t: string)
    ensures WellFormed(NodeDocument(Typed(t)))
    ensures DocumentSurface(NodeDocument(Typed(t))) == BodySurface(NodeFields({t}))
  {
    var c := map[NODE := ObjectOf("next", Typed(t), false)];
    NodeDocumentFits(Typed(t));
    TypedLeaves(t, c, false, {RefTo(NODE).ref.uri});
    NodeBodyFields(Typed(t), {t});
    BodyDocumentSurface(c, RefTo(NODE));
  }

  lemma CyclicNode()
    ensures WellFormed(NodeDocument(RefTo(NODE)))
    ensures DocumentSurface(NodeDocument(RefTo(NODE))) == BodySurface(NodeFields(RECURSION_MARKER))
  {
    var c := map[NODE := ObjectOf("next", RefTo(NODE), false)];
    NodeDocumentFits(RefTo(NODE));
    NodeBodyFields(RefTo(NODE), RECURSION_MARKER);
    BodyDocumentSurface(c, RefTo(NODE));
  }

  lemma NodeFieldsKept(was: set<string>, now: set<string>)
    ensures FieldsKept(NodeFields(was), NodeFields(now), Sends)
        <==> was == RECURSION_MARKER || now == RECURSION_MARKER || was <= now
  {
    assert NodeFields(was)[NEXT] == Field(was, false, None) && NodeFields(now)[NEXT] == Field(now, false, None);
  }

  /**
   * Three documents the code can be given: `next` of a Node is a string, then a
   * Node again, then an integer. Neither step is reported as breaking; the two together are.
   */
  lemma MarkersHideATypeChange()
    ensures var a, b, c := NodeDocument(Typed("string")), NodeDocument(RefTo(NODE)), NodeDocument(Typed("integer"));
      && WellFormed(a) && WellFormed(b) && WellFormed(c)
      && NothingBreaks(a, b) && NothingBreaks(b, c) && !NothingBreaks(a, c)
  {
    TypedNode("string");
    CyclicNode();
    TypedNode("integer");
    BodyVerdict(NodeFields({"string"}), NodeFields(RECURSION_MARKER));
    BodyVerdict(NodeFields(RECURSION_MARKER), NodeFields({"integer"}));
    BodyVerdict(NodeFields({"string"}), NodeFields({"integer"}));
    NodeFieldsKept({"string"}, RECURSION_MARKER);
    NodeFieldsKept(RECURSION_MARKER, {"integer"});
    NodeFieldsKept({"string"}, {"integer"});
    assert "string" in {"string"} && "string" !in {"integer"} && "string" !in RECURSION_MARKER
      && "integer" !in RECURSION_MARKER;
  }

  /* ---- bodies that are accepted before and refused after ---- */

  /** What the repeated reference of a Node stands for: the types of the component it names. */
  function NodeMeaning(d: Document): Meaning {
    (n: Path) => if NODE in d.schemas then TypeNames(d.schemas[NODE]) else {}
  }

  /** Whether the document accepts a body whose `next` is a value of type `t`. */
  ghost predicate AcceptsNext(d: Document, t: string) {
    var payload: Payload<Tagged> := map[NEXT := Tagged(t, "")];
    KEY in DocumentSurface(d) && Valid(LITERAL, Unmarked(DocumentSurface(d)[KEY].request, NodeMeaning(d)), payload)
  }

  /** Whether the document accepts a body that is a value of type `t`. */
  ghost predicate AcceptsRoot(d: Document, t: string) {
    KEY in DocumentSurface(d) && ValidBody(LITERAL, DocumentSurface(d)[KEY].request, Tagged(t, ""), map[])
  }

  lemma NodeAccepts(d: Document, types: set<string>, t: string)
    requires DocumentSurface(d) == BodySurface(NodeFields(types))
    ensures AcceptsNext(d, t) <==> t in UnmarkedTypes(types, NodeMeaning(d)(NEXT))
  {
    assert DocumentSurface(d)[KEY].request == NodeFields(types);
    NodePayload(NodeFields(types), NodeMeaning(d), t);
  }

  lemma NodePayload(fields: Fields, meaning: Meaning, t: string)
    requires fields.Keys == {[], NEXT} && !fields[NEXT].required && fields[NEXT].enum.None?
    ensures Valid(LITERAL, Unmarked(fields, meaning), map[NEXT := Tagged(t, "")])
        <==> t in UnmarkedTypes(fields[NEXT].types, meaning(NEXT))
  {
    LiteralAdmits(Unmarked(fields, meaning)[NEXT], Tagged(t, ""));
  }

  /** From a string to a Node nothing breaking is reported, and a body with a string there is refused. */
  lemma MarkerRefusesOldBody()
    ensures var was, now := NodeDocument(Typed("string")), NodeDocument(RefTo(NODE));
      && WellFormed(was) && WellFormed(now) && NothingBreaks(was, now)
      && AcceptsNext(was, "string") && !AcceptsNext(now, "string")
  {
    MarkersHideATypeChange();
    TypedNode("string");
    CyclicNode();
    NodeAccepts(NodeDocument(Typed("string")), {"string"}, "string");
    NodeAccepts(NodeDocument(RefTo(NODE)), RECURSION_MARKER, "string");
    NodeMeans(RefTo(NODE));
    StringIsNoObject();
  }

  lemma NodeMeans(next: Schema)
    ensures NodeMeaning(NodeDocument(next))(NEXT) == {"object"}
  {
  }

  lemma StringIsNoObject()
    ensures forall meant :: "string" in UnmarkedTypes({"string"}, meant)
    ensures "string" !in UnmarkedTypes(RECURSION_MARKER, {"object"})
  {
    assert MARKER_NAME !in {"string"} && MARKER_NAME in RECURSION_MARKER && "string" !in {"object"};
  }

  lemma TypedAccepts(t: string, u: string)
    ensures AcceptsRoot(BodyDocument(map[], Typed(t)), u) <==> u == t
  {
    TypedBodyFields(t);
    BodyDocumentSurface(map[], Typed(t));
    LiteralAdmits(Field({t}, true, None), Tagged(u, ""));
  }

  /** From a string body to an integer body nothing is reported, and the string is refused. */
  lemma RootRefusesOldBody()
    ensures var was, now := BodyDocument(map[], Typed("string")), BodyDocument(map[], Typed("integer"));
      && WellFormed(was) && WellFormed(now) && SurfaceChanges(DocumentSurface(was), DocumentSurface(now)) == {}
      && AcceptsRoot(was, "string") && !AcceptsRoot(now, "string")
  {
    RootTypeUnnoticed();
    TypedAccepts("string", "string");
    TypedAccepts("integer", "string");
  }

  /* ---- a response whose values an old reader does not know ---- */

  function ResponseOperation(body: Schema): RawOperation {
    RawOperation([], None, [Response("200", Some([Media("application/json", Some(body))]))], None, None, false)
  }

  function ResponseDocument(body: Schema): Document {
    Document(map[], [PathItem("/notes", [("post", ResponseOperation(body))])])
  }

  ghost function ResponseSurface(fields: Fields): Surface {
    map[KEY := Operation(map[], map[], map["200" := fields], multiset{}, None, false)]
  }

  lemma ResponseDocumentSurface(body: Schema)
    ensures DocumentSurface(ResponseDocument(body)) == ResponseSurface(FlatFields(body, map[], [], true))
  {
    var op := ResponseOperation(body);
    var operations, items := [("post", op)], ResponseDocument(body).paths;
    assert Lower("post") == "post";
    OneResponse(op.responses[0], map[]);
    assert Described(op, map[])
        == Operation(map[], map[], map["200" := FlatFields(body, map[], [], true)], multiset{}, None, false);
    assert operations[..0] == [] && items[..0] == [];
    assert OperationsOf("/notes", operations[..0], map[], map[]) == map[];
    assert SurfaceOf(items[..0], map[]) == map[];
  }

  lemma OneResponse(r: Response, c: Components)
    ensures ResponseFields([r], c) == map[r.status := BodyFields(BodySchema(r.content), c)]
  {
    assert [r][..0] == [];
  }

  lemma ResponseVerdict(f: Fields, g: Fields)
    requires FieldsKept(f, g, Reads)
    ensures Breaking(SurfaceChanges(ResponseSurface(f), ResponseSurface(g))) == {}
  {
    VerdictIsKept(ResponseSurface(f), ResponseSurface(g));
    assert FieldsKept(map[], map[], Sends);
    assert OperationKept(ResponseSurface(f)[KEY], ResponseSurface(g)[KEY]);
  }

  /** An object with one required property of some types. */
  function NoteOf(types: seq<string>): Schema {
    ObjectOf("note", EMPTY_SCHEMA.(typ := Several(types)), true)
  }

  const NOTE: Path := [Named("note")]

  function NoteFields(types: set<string>): Fields {
    map[[] := Field({"object"}, true, None), NOTE := Field(types, true, None)]
  }

  lemma NoteFlat(types: seq<string>)
    ensures FlatFields(NoteOf(types), map[], [], true) == NoteFields(Elements(types))
  {
    var inner, below := EMPTY_SCHEMA.(typ := Several(types)), Leaf([], Field(Elements(types), true, None));
    ObjectLeaves("note", inner, true, map[], true, {});
    NoUnionHalts(inner, map[]);
    BodyGroups(inner, map[], true, {});
    assert Leaves(inner, map[], true, {}) == {below};
    assert Under(Named("note"), below) == Leaf(NOTE, below.field);
    assert Shift(Named("note"), {below}) == {Leaf(NOTE, below.field)};
    assert Leaves(NoteOf(types), map[], true, {}) == {Leaf([], Field({"object"}, true, None)), Leaf(NOTE, below.field)};
    TwoFields(Field({"object"}, true, None), "note", below.field);
  }

  lemma NoteFits(types: seq<string>)
    ensures WellFormed(ResponseDocument(NoteOf(types)))
  {
    var inner, s := EMPTY_SCHEMA.(typ := Several(types)), NoteOf(types);
    PlainComponents(map[]);
    assert Props(s) == [Property("note", inner)] && Parts(s) == {inner} && Parts(inner) == {};
    assert WellNamed(inner) && WellNamed(s);
    EverySchemaReadable(s, map[], {});
    assert BodySchema(ResponseOperation(s).responses[0].content) == Some(s);
  }

  /** A payload with `null` at the note. */
  const NULL_NOTE: Payload<Tagged> := map[NOTE := Tagged("null", "")]

  lemma NoteUnderstood(types: set<string>)
    ensures Understood(LITERAL, NoteFields(types), NULL_NOTE) <==> "null" in types
    ensures "null" in types ==> Valid(LITERAL, NoteFields(types), NULL_NOTE)
  {
    LiteralAdmits(NoteFields(types)[NOTE], NULL_NOTE[NOTE]);
  }

  /** A response field that may be null now: nothing breaking is reported, and an old reader does not know null. */
  lemma ReaderMeetsNewValue()
    ensures var was, now := ResponseDocument(NoteOf(["string"])), ResponseDocument(NoteOf(["string", "null"]));
      && WellFormed(was) && WellFormed(now) && NothingBreaks(was, now)
      && KEY in DocumentSurface(was) && "200" in DocumentSurface(was)[KEY].responses
      && KEY in DocumentSurface(now) && "200" in DocumentSurface(now)[KEY].responses
      && Valid(LITERAL, DocumentSurface(now)[KEY].responses["200"], NULL_NOTE)
      && !Understood(LITERAL, DocumentSurface(was)[KEY].responses["200"], NULL_NOTE)
  {
    var f, g := NoteFields(Elements(["string"])), NoteFields(Elements(["string", "null"]));
    NoteFits(["string"]);
    NoteFits(["string", "null"]);
    ResponseDocumentSurface(NoteOf(["string"]));
    ResponseDocumentSurface(NoteOf(["string", "null"]));
    NoteFlat(["string"]);
    NoteFlat(["string", "null"]);
    NoteTypes();
    NoteUnderstood(Elements(["string"]));
    NoteUnderstood(Elements(["string", "null"]));
    NoteWidens(Elements(["string"]), Elements(["string", "null"]));
    ResponseVerdict(f, g);
  }

  lemma NoteTypes()
    ensures "null" !in Elements(["string"]) && "null" in Elements(["string", "null"])
    ensures Elements(["string"]) <= Elements(["string", "null"])
  {
    assert "string" in ["string", "null"] && ["string", "null"][1] == "null";
  }

  lemma NoteWidens(was: set<string>, now: set<string>)
    requires was <= now
    ensures FieldsKept(NoteFields(was), NoteFields(now), Reads)
  {
    assert NoteFields(was)[NOTE].types == was && NoteFields(now)[NOTE].types == now;
  }

  /* ---- an optional field whose type changed ---- */

  /** A union of a type with null. */
  function Nullable(t: string): Schema {
    EMPTY_SCHEMA.(anyOf := [Typed(t), Typed("null")])
  }

  function NullableBody(t: string): Document {
    BodyDocument(map[], ObjectOf("note", Nullable(t), false))
  }

  function NullableFields(t: string): Fields {
    map[[] := Field({"object"}, true, None), NOTE := Field({t, "null"}, false, None)]
  }

  lemma NullableLeaves(t: string, c: Components, required: bool, seen: set<string>)
    ensures Leaves(Nullable(t), c, required, seen) == {Leaf([], Field({t, "null"}, required, None))}
  {
    var s, members := Nullable(t), [Typed(t), Typed("null")];
    TypedLeaves(t, c, false, seen);
    TypedLeaves("null", c, false, seen);
    assert s.anyOf + s.oneOf == members;
    assert MemberGroup(members, c, false, seen) == {};
    NullableRoot(t, c, required);
    BodyGroups(s, c, required, seen);
    assert PropertyGroup([], s.required, c, seen) == {} && MemberGroup([], c, required, seen) == {};
  }

  lemma TypedNames(t: string)
    ensures MemberNames(Typed(t)) == {t}
  {
    assert t in TypeNames(Typed(t));
  }

  lemma NullableRoot(t: string, c: Components, required: bool)
    ensures RootLeaf(Nullable(t), c, required) == Leaf([], Field({t, "null"}, required, None))
  {
    var s, a, b := Nullable(t), Typed(t), Typed("null");
    TypedNames(t);
    TypedNames("null");
    assert a in s.anyOf && b in s.anyOf;
    assert UnionNames(s.anyOf) == {t, "null"};
    NoUnionHalts(a, c);
    NoUnionHalts(b, c);
    forall m | m in s.anyOf + s.oneOf ensures m == a || m == b {
    }
    MembersHalt(s, c);
    UnionValues(s, c);
  }

  lemma NullableFits(t: string)
    ensures WellFormed(NullableBody(t))
  {
    var child, s := Nullable(t), ObjectOf("note", Nullable(t), false);
    PlainComponents(map[]);
    assert Props(s) == [Property("note", child)] && Parts(s) == {child} && Parts(child) == {Typed(t), Typed("null")};
    assert Parts(Typed(t)) == {} && Parts(Typed("null")) == {};
    assert WellNamed(Typed(t)) && WellNamed(Typed("null"));
    assert WellNamed(child) && WellNamed(s);
    BodyDocumentFits(map[], s);
  }

  /** An object with one optional property that contributes one field. */
  lemma ObjectFields(child: Schema, field: Field)
    requires Leaves(child, map[], false, {}) == {Leaf([], field)}
    ensures BodyFields(Some(ObjectOf("note", child, false)), map[])
         == map[[] := Field({"object"}, true, None), NOTE := field]
  {
    var s, below := ObjectOf("note", child, false), Leaf([], field);
    ObjectLeaves("note", child, false, map[], true, {});
    assert Under(Named("note"), below) == Leaf(NOTE, field);
    assert Shift(Named("note"), {below}) == {Leaf(NOTE, field)};
    assert Leaves(s, map[], true, {}) == {Leaf([], Field({"object"}, true, None)), Leaf(NOTE, field)};
    TwoFields(Field({"object"}, true, None), "note", field);
  }

  lemma NullableSurface(t: string)
    ensures DocumentSurface(NullableBody(t)) == BodySurface(NullableFields(t))
  {
    BodyDocumentSurface(map[], ObjectOf("note", Nullable(t), false));
    NullableLeaves(t, map[], false, {});
    ObjectFields(Nullable(t), Field({t, "null"}, false, None));
  }

  /** A field that was a string or null and is an integer or null now: the type change is reported as breaking. */
  lemma NullableTypeChange()
    ensures var was, now := NullableBody("string"), NullableBody("integer");
      && WellFormed(was) && WellFormed(now) && !NothingBreaks(was, now)
      && Change(true, Where(KEY, None), TypeChanged(RequestField, NOTE, {"string", "null"}, {"integer", "null"}))
           in SurfaceChanges(DocumentSurface(was), DocumentSurface(now))
  {
    var was, now := NullableBody("string"), NullableBody("integer");
    NullableFits("string");
    NullableFits("integer");
    NullableSurface("string");
    NullableSurface("integer");
    var change := Change(true, Where(KEY, None),
                         TypeChanged(RequestField, NOTE, {"string", "null"}, {"integer", "null"}));
    NullableFieldsDiffer();
    ReportedExactly(DocumentSurface(was), DocumentSurface(now), change);
    assert change in Breaking(SurfaceChanges(DocumentSurface(was), DocumentSurface(now)));
  }

  lemma NullableFieldsDiffer()
    ensures FieldReported(NullableFields("string"), NullableFields("integer"), RequestField, Sends, true,
                          TypeChanged(RequestField, NOTE, {"string", "null"}, {"integer", "null"}))
  {
    assert "string" in {"string", "null"} && "null" in {"integer", "null"};
    assert "string" !in {"integer", "null"};
    assert "null" !in {MARKER_NAME};
  }
}
