/**
 * Compatibility composes through a document exactly when it is free of markers.
 *
 * Given a document with a recursion marker at some path, the document before it
 * lets the field there also be a string, and the one after it an integer. Each is
 * made by putting every schema that has the marker there into an `allOf` beside a
 * stalk. Neither step is reported as breaking, and the two together are.
 */
module OpenApiRetyped {

  import opened Basics
  import opened OpenApiSchema
  import opened OpenApiFlatten
  import opened OpenApiSurface
  import opened OpenApiCompare
  import opened OpenApiCompatibility
  import opened OpenApiStalks

  /* ---- a schema and its root ---- */

  ghost function Root(s: Schema, c: Components, required: bool): Field {
    RootLeaf(Deref(s, c), c, required).field
  }

  lemma BodyRooted(s: Schema, c: Components, required: bool, seen: set<string>)
    ensures BodyLeaves(s, c, required, seen) == {RootLeaf(s, c, required)} + Below(BodyLeaves(s, c, required, seen))
  {
    var root, whole := RootLeaf(s, c, required), BodyLeaves(s, c, required, seen);
    InnerPaths(s, c, required, seen);
    forall l | l in whole && l.path == [] ensures l == root {
    }
  }

  lemma Rooted(s: Schema, c: Components, required: bool)
    ensures Leaves(s, c, required, {}) == {Leaf([], Root(s, c, required))} + Below(Leaves(s, c, required, {}))
  {
    if s.ref.Ref? {
      BodyRooted(Resolve(s.ref.uri, c), c, required, {} + {s.ref.uri});
    } else {
      BodyRooted(s, c, required, {});
    }
  }

  /* ---- a schema put into an allOf ---- */

  ghost function Listed(s: set<string>): (list: seq<string>)
    ensures Elements(list) == s
  {
    if s == {} then []
    else
      var x :| x in s;
      var rest := Listed(s - {x});
      assert Elements([x] + rest) == {x} + Elements(rest);
      [x] + rest
  }

  /** The schema in an `allOf` with others, its root's enum kept and its root's types as given. */
  ghost function Wrapped(s: Schema, root: Field, types: set<string>, more: seq<Schema>): Schema {
    EMPTY_SCHEMA.(
      typ := Several(Listed(types)),
      enum := if root.enum.Some? then Some(Listed(root.enum.value)) else None,
      allOf := [s] + more)
  }

  lemma WrappedRoot(s: Schema, root: Field, types: set<string>, more: seq<Schema>, c: Components, required: bool)
    ensures EnumHalts(Wrapped(s, root, types, more), c)
    ensures RootLeaf(Wrapped(s, root, types, more), c, required) == Leaf([], Field(types, required, root.enum))
  {
    assert Completes(Wrapped(s, root, types, more), c, 1);
  }

  lemma MembersOnly(s: Schema, c: Components, required: bool)
    requires !s.ref.Ref? && Props(s) == [] && s.items.None? && s.extra.None? && s.anyOf == [] && s.oneOf == []
    ensures Leaves(s, c, required, {}) == {RootLeaf(s, c, required)} + MemberGroup(s.allOf, c, required, {})
  {
    BodyGroups(s, c, required, {});
    NothingGiven(c, s.required, Items, true, {});
    NothingGiven(c, s.required, Extra, false, {});
    assert s.anyOf + s.oneOf == [];
  }

  lemma WrappedAlone(s: Schema, root: Field, types: set<string>, c: Components, required: bool)
    ensures Leaves(Wrapped(s, root, types, []), c, required, {})
         == {Leaf([], Field(types, required, root.enum))} + Below(Leaves(s, c, required, {}))
  {
    var w := Wrapped(s, root, types, []);
    WrappedRoot(s, root, types, [], c, required);
    MembersOnly(w, c, required);
    assert w.allOf == [s];
    assert MemberGroup([s], c, required, {}) == Below(Leaves(s, c, required, {}));
  }

  lemma TwoMembers(s: Schema, other: Schema, c: Components, required: bool)
    ensures MemberGroup([s, other], c, required, {})
      == Below(Leaves(s, c, required, {})) + Below(Leaves(other, c, required, {}))
  {
  }

  lemma Associates<T>(a: set<T>, b: set<T>, c: set<T>)
    ensures a + (b + c) == a + b + c
  {
  }

  lemma WrappedBeside(s: Schema, root: Field, types: set<string>, other: Schema, c: Components, required: bool)
    ensures Leaves(Wrapped(s, root, types, [other]), c, required, {})
         == {Leaf([], Field(types, required, root.enum))} + Below(Leaves(s, c, required, {}))
           + Below(Leaves(other, c, required, {}))
  {
    var w := Wrapped(s, root, types, [other]);
    WrappedRoot(s, root, types, [other], c, required);
    MembersOnly(w, c, required);
    assert w.allOf == [s, other];
    TwoMembers(s, other, c, required);
    Associates({Leaf([], Field(types, required, root.enum))}, Below(Leaves(s, c, required, {})),
      Below(Leaves(other, c, required, {})));
  }

  /* ---- one more type where a schema has a marker ---- */

  predicate Marked(f: Fields, n: Path) {
    n in f && f[n].types == RECURSION_MARKER
  }

  function Retype(f: Fields, n: Path, t: string): Fields {
    if Marked(f, n) then Widened(f, n, t) else f
  }

  lemma FieldPath(s: Schema, c: Components, prefix: Path, required: bool, n: Path)
    requires n in FlatFields(s, c, prefix, required)
    ensures prefix <= n && HasPath(Leaves(s, c, required, {}), n[|prefix|..]) && Plain(n[|prefix|..])
    ensures n == prefix + n[|prefix|..]
  {
    var ls, q := Leaves(s, c, required, {}), n[|prefix|..];
    CollectIn(prefix, ls, n);
    AtHas(ls, q);
    LeavesAreTree(s, c, required, {});
    TreeStands(ls, required);
    Above(ls, q, 0);
  }

  ghost function Retyped(s: Schema, c: Components, prefix: Path, required: bool, n: Path, t: string): Schema {
    if !Marked(FlatFields(s, c, prefix, required), n) then s
    else
      FieldPath(s, c, prefix, required, n);
      var root := Root(s, c, required);
      if n == prefix then Wrapped(s, root, root.types + {t}, [])
      else Wrapped(s, root, root.types, [Stalk(n[|prefix|..], t)])
  }

  lemma RetypedFields(s: Schema, c: Components, prefix: Path, required: bool, n: Path, t: string)
    ensures FlatFields(Retyped(s, c, prefix, required, n, t), c, prefix, required)
         == Retype(FlatFields(s, c, prefix, required), n, t)
  {
    if Marked(FlatFields(s, c, prefix, required), n) {
      var ls, root := Leaves(s, c, required, {}), Root(s, c, required);
      FieldPath(s, c, prefix, required, n);
      Rooted(s, c, required);
      if n == prefix {
        WrappedAlone(s, root, root.types + {t}, c, required);
        RootWidens(prefix, root, Below(ls), t);
      } else {
        var q := n[|prefix|..];
        LeavesAreTree(s, c, required, {});
        WrappedBeside(s, root, root.types, Stalk(q, t), c, required);
        StalkWidens(prefix, ls, q, t, c, required);
      }
    }
  }

  /* ---- such a schema can be read ---- */

  lemma FitsByParts(s: Schema, c: Components)
    requires !s.ref.Ref? && |Props(s)| <= 1 && s.anyOf == [] && s.oneOf == [] && forall p :: p in Parts(s) ==> Fit(p, c)
    ensures Fit(s, c)
  {
    assert Completes(s, c, 1);
    forall p | p in Parts(s) ensures PartReadable(s, p, c, {}) {
      assert Fit(p, c);
    }
    assert BodyReadable(s, c, {});
  }

  lemma PartsOfStalk(q: Path, t: string)
    requires Plain(q)
    ensures Parts(Stalk(q, t)) == if q == [] then {} else {Stalk(q[1..], t)}
    ensures |Props(Stalk(q, t))| <= 1
  {
    var s := Stalk(q, t);
    if q != [] && q[0].Named? {
      assert Props(s) == [Property(q[0].name, Stalk(q[1..], t))];
    }
  }

  lemma {:induction false} StalkFits(q: Path, t: string, c: Components)
    requires Plain(q)
    ensures Fit(Stalk(q, t), c)
    decreases |q|
  {
    PartsOfStalk(q, t);
    if q != [] {
      StalkFits(q[1..], t, c);
    }
    FitsByParts(Stalk(q, t), c);
  }

  lemma WrappedFits(s: Schema, root: Field, types: set<string>, more: seq<Schema>, c: Components)
    requires Fit(s, c) && forall m :: m in more ==> Fit(m, c)
    ensures Fit(Wrapped(s, root, types, more), c)
  {
    var w := Wrapped(s, root, types, more);
    assert Parts(w) == set m | m in [s] + more;
    assert Props(w) == [];
    FitsByParts(w, c);
  }

  lemma RetypedFits(s: Schema, c: Components, prefix: Path, required: bool, n: Path, t: string)
    requires Fit(s, c)
    ensures Fit(Retyped(s, c, prefix, required, n, t), c)
  {
    if Marked(FlatFields(s, c, prefix, required), n) {
      FieldPath(s, c, prefix, required, n);
      StalkFits(n[|prefix|..], t, c);
      var root := Root(s, c, required);
      WrappedFits(s, root, root.types + {t}, [], c);
      WrappedFits(s, root, root.types, [Stalk(n[|prefix|..], t)], c);
    }
  }

  /* ---- an operation, and a document ---- */

  ghost function RetypedParameter(p: Parameter, c: Components, n: Path, t: string): Parameter {
    p.(schema := Some(Retyped(ParameterSchema(p), c, [Param(p.location, p.name)], p.required, n, t)))
  }

  ghost function RetypedContent(content: Option<seq<Media>>, c: Components, n: Path, t: string): Option<seq<Media>> {
    if BodySchema(content).None? then content
    else Some([Media("application/json", Some(Retyped(BodySchema(content).value, c, [], true, n, t)))])
  }

  ghost function RetypedResponse(r: Response, c: Components, n: Path, t: string): Response {
    r.(content := RetypedContent(r.content, c, n, t))
  }

  ghost function RetypedParameters(ps: seq<Parameter>, c: Components, n: Path, t: string): seq<Parameter> {
    seq(|ps|, i requires 0 <= i < |ps| => RetypedParameter(ps[i], c, n, t))
  }

  ghost function RetypedResponses(rs: seq<Response>, c: Components, n: Path, t: string): seq<Response> {
    seq(|rs|, i requires 0 <= i < |rs| => RetypedResponse(rs[i], c, n, t))
  }

  ghost function RetypedOperation(op: RawOperation, c: Components, n: Path, t: string): RawOperation {
    op.(parameters := RetypedParameters(op.parameters, c, n, t),
        requestBody := RetypedContent(op.requestBody, c, n, t),
        responses := RetypedResponses(op.responses, c, n, t))
  }

  ghost function RetypedOperations(ops: seq<(string, RawOperation)>, c: Components, n: Path, t: string)
      : seq<(string, RawOperation)>
  {
    seq(|ops|, i requires 0 <= i < |ops| => (ops[i].0, RetypedOperation(ops[i].1, c, n, t)))
  }

  ghost function RetypedItems(items: seq<PathItem>, c: Components, n: Path, t: string): seq<PathItem> {
    seq(|items|, i requires 0 <= i < |items| =>
      PathItem(items[i].path, RetypedOperations(items[i].operations, c, n, t)))
  }

  /** The document with one more type wherever a flattened field at `n` is a marker. */
  ghost function RetypedDocument(d: Document, n: Path, t: string): Document {
    Document(d.schemas, RetypedItems(d.paths, d.schemas, n, t))
  }

  function RetypeResponses(rs: map<string, Fields>, n: Path, t: string): map<string, Fields> {
    map s | s in rs :: Retype(rs[s], n, t)
  }

  function RetypeOperation(op: Operation, n: Path, t: string): Operation {
    op.(parameters := Retype(op.parameters, n, t), request := Retype(op.request, n, t),
        responses := RetypeResponses(op.responses, n, t))
  }

  function RetypeSurface(s: Surface, n: Path, t: string): Surface {
    map k | k in s :: RetypeOperation(s[k], n, t)
  }

  lemma RetypeUpdate(f: Fields, g: Fields, n: Path, t: string)
    ensures Retype(f + g, n, t) == Retype(f, n, t) + Retype(g, n, t)
  {
    forall p ensures Agree(Retype(f + g, n, t), Retype(f, n, t) + Retype(g, n, t), p) {
    }
    AgreeEverywhere(Retype(f + g, n, t), Retype(f, n, t) + Retype(g, n, t));
  }

  lemma ParameterRetyped(p: Parameter, c: Components, n: Path, t: string)
    ensures var r, prefix := RetypedParameter(p, c, n, t), [Param(p.location, p.name)];
      r.location == p.location && r.name == p.name && r.required == p.required
      && FlatFields(ParameterSchema(r), c, prefix, p.required)
        == Retype(FlatFields(ParameterSchema(p), c, prefix, p.required), n, t)
  {
    RetypedFields(ParameterSchema(p), c, [Param(p.location, p.name)], p.required, n, t);
  }

  lemma {:induction false} ParametersRetyped(ps: seq<Parameter>, c: Components, n: Path, t: string, qs: seq<Parameter>)
    requires qs == RetypedParameters(ps, c, n, t)
    ensures ParameterFields(qs, c) == Retype(ParameterFields(ps, c), n, t)
    decreases |ps|
  {
    if ps != [] {
      var k := |ps| - 1;
      ParametersRetyped(ps[..k], c, n, t, qs[..k]);
      LastParameter(ps, c);
      LastParameter(qs, c);
      ParameterRetyped(ps[k], c, n, t);
      RetypeUpdate(ParameterFields(ps[..k], c),
                   FlatFields(ParameterSchema(ps[k]), c, [Param(ps[k].location, ps[k].name)], ps[k].required), n, t);
    }
  }

  lemma ContentRetyped(content: Option<seq<Media>>, c: Components, n: Path, t: string)
    ensures BodyFields(BodySchema(RetypedContent(content, c, n, t)), c)
      == Retype(BodyFields(BodySchema(content), c), n, t)
  {
    if BodySchema(content).Some? {
      RetypedFields(BodySchema(content).value, c, [], true, n, t);
    }
  }

  lemma RetypeResponsesUpdate(rs: map<string, Fields>, status: string, f: Fields, n: Path, t: string)
    ensures RetypeResponses(rs[status := f], n, t) == RetypeResponses(rs, n, t)[status := Retype(f, n, t)]
  {
  }

  lemma {:induction false} ResponsesRetyped(rs: seq<Response>, c: Components, n: Path, t: string, qs: seq<Response>)
    requires qs == RetypedResponses(rs, c, n, t)
    ensures ResponseFields(qs, c) == RetypeResponses(ResponseFields(rs, c), n, t)
    decreases |rs|
  {
    if rs != [] {
      var k := |rs| - 1;
      ResponsesRetyped(rs[..k], c, n, t, qs[..k]);
      LastResponse(rs, c);
      LastResponse(qs, c);
      ContentRetyped(rs[k].content, c, n, t);
      RetypeResponsesUpdate(ResponseFields(rs[..k], c), rs[k].status, BodyFields(BodySchema(rs[k].content), c), n, t);
    }
  }

  lemma OperationRetyped(op: RawOperation, c: Components, n: Path, t: string)
    ensures Described(RetypedOperation(op, c, n, t), c) == RetypeOperation(Described(op, c), n, t)
  {
    ParametersRetyped(op.parameters, c, n, t, RetypedParameters(op.parameters, c, n, t));
    ContentRetyped(op.requestBody, c, n, t);
    ResponsesRetyped(op.responses, c, n, t, RetypedResponses(op.responses, c, n, t));
  }

  lemma RetypeSurfaceUpdate(s: Surface, k: OperationKey, op: Operation, n: Path, t: string)
    ensures RetypeSurface(s[k := op], n, t) == RetypeSurface(s, n, t)[k := RetypeOperation(op, n, t)]
  {
  }

  lemma {:induction false} OperationsRetyped(path: string, ops: seq<(string, RawOperation)>, c: Components,
      before: Surface, n: Path, t: string, qs: seq<(string, RawOperation)>, after: Surface)
    requires qs == RetypedOperations(ops, c, n, t) && after == RetypeSurface(before, n, t)
    ensures OperationsOf(path, qs, c, after) == RetypeSurface(OperationsOf(path, ops, c, before), n, t)
    decreases |ops|
  {
    if ops != [] {
      var k := |ops| - 1;
      OperationsRetyped(path, ops[..k], c, before, n, t, qs[..k], after);
      LastOperation(path, ops, c, before);
      LastOperation(path, qs, c, after);
      OperationRetyped(ops[k].1, c, n, t);
      RetypeSurfaceUpdate(OperationsOf(path, ops[..k], c, before), OperationKey(Lower(ops[k].0), path),
        Described(ops[k].1, c), n, t);
    }
  }

  lemma {:induction false} SurfaceRetyped(items: seq<PathItem>, c: Components, n: Path, t: string, qs: seq<PathItem>)
    requires qs == RetypedItems(items, c, n, t)
    ensures SurfaceOf(qs, c) == RetypeSurface(SurfaceOf(items, c), n, t)
    decreases |items|
  {
    if items != [] {
      var k := |items| - 1;
      SurfaceRetyped(items[..k], c, n, t, qs[..k]);
      OperationsRetyped(items[k].path, items[k].operations, c, SurfaceOf(items[..k], c), n, t,
                        qs[k].operations, SurfaceOf(qs[..k], c));
    }
  }

  lemma ContentFits(content: Option<seq<Media>>, c: Components, n: Path, t: string)
    requires FitContent(content, c)
    ensures FitContent(RetypedContent(content, c, n, t), c)
  {
    if BodySchema(content).Some? {
      RetypedFits(BodySchema(content).value, c, [], true, n, t);
    }
  }

  lemma OperationFits(op: RawOperation, c: Components, n: Path, t: string)
    requires FitOperation(op, c)
    ensures FitOperation(RetypedOperation(op, c, n, t), c)
  {
    var r := RetypedOperation(op, c, n, t);
    ContentFits(op.requestBody, c, n, t);
    forall p | p in r.parameters ensures Fit(ParameterSchema(p), c) {
      var i :| 0 <= i < |op.parameters| && p == RetypedParameter(op.parameters[i], c, n, t);
      var given := op.parameters[i];
      RetypedFits(ParameterSchema(given), c, [Param(given.location, given.name)], given.required, n, t);
    }
    forall x | x in r.responses ensures FitContent(x.content, c) {
      var i :| 0 <= i < |op.responses| && x == RetypedResponse(op.responses[i], c, n, t);
      ContentFits(op.responses[i].content, c, n, t);
    }
  }

  lemma DocumentFits(d: Document, n: Path, t: string)
    requires WellFormed(d)
    ensures WellFormed(RetypedDocument(d, n, t))
  {
    var c, items := d.schemas, RetypedDocument(d, n, t).paths;
    forall item | item in items ensures FitItem(item, c) {
      var i :| 0 <= i < |d.paths| && item == items[i];
      forall o | o in item.operations && Published(o.0) ensures FitOperation(o.1, c) {
        var j :| 0 <= j < |item.operations| && o == item.operations[j];
        assert FitItem(d.paths[i], c) && d.paths[i].operations[j] in d.paths[i].operations;
        OperationFits(d.paths[i].operations[j].1, c, n, t);
      }
    }
  }

  /* ---- the verdicts ---- */

  ghost predicate MarkedOperation(op: Operation, n: Path) {
    Marked(op.parameters, n) || Marked(op.request, n) || exists s :: s in op.responses && Marked(op.responses[s], n)
  }

  lemma MarkerSomewhere(s: Surface) returns (k: OperationKey, n: Path)
    requires !MarkerFreeSurface(s)
    ensures n != [] && k in s && MarkedOperation(s[k], n)
  {
    k :| k in s && !MarkerFreeOperation(s[k]);
    var op := s[k];
    if !MarkerFree(op.parameters) {
      n :| n in op.parameters && n != [] && op.parameters[n].types == RECURSION_MARKER;
    } else if !MarkerFree(op.request) {
      n :| n in op.request && n != [] && op.request[n].types == RECURSION_MARKER;
    } else {
      var status :| status in op.responses && !MarkerFree(op.responses[status]);
      n :| n in op.responses[status] && n != [] && op.responses[status][n].types == RECURSION_MARKER;
    }
  }

  lemma RetypeKeeps(f: Fields, n: Path, t: string, dir: Direction)
    ensures FieldsKept(Retype(f, n, t), f, dir) && FieldsKept(f, Retype(f, n, t), dir)
  {
  }

  lemma RetypeSurfaceKeeps(s: Surface, n: Path, t: string)
    ensures SurfaceKept(RetypeSurface(s, n, t), s) && SurfaceKept(s, RetypeSurface(s, n, t))
  {
    forall k | k in s
      ensures OperationKept(RetypeSurface(s, n, t)[k], s[k]) && OperationKept(s[k], RetypeSurface(s, n, t)[k])
    {
      RetypeKeeps(s[k].parameters, n, t, Sends);
      RetypeKeeps(s[k].request, n, t, Sends);
      forall r | r in s[k].responses
        ensures FieldsKept(RetypeResponses(s[k].responses, n, t)[r], s[k].responses[r], Reads)
        ensures FieldsKept(s[k].responses[r], RetypeResponses(s[k].responses, n, t)[r], Reads)
      {
        RetypeKeeps(s[k].responses[r], n, t, Reads);
      }
    }
  }

  lemma RetypedApart(f: Fields, n: Path, t: string, u: string, dir: Direction)
    requires Marked(f, n) && n != [] && t != u && MARKER_NAME !in {t, u}
    ensures !FieldsKept(Retype(f, n, t), Retype(f, n, u), dir)
  {
    var a, b := Retype(f, n, t), Retype(f, n, u);
    assert MARKER_NAME in RECURSION_MARKER;
    assert t in a[n].types && t !in b[n].types && u in b[n].types && u !in RECURSION_MARKER && t !in RECURSION_MARKER;
    assert !FieldKept(a[n], b[n], dir);
  }

  lemma RetypedSurfaceApart(s: Surface, k: OperationKey, n: Path, t: string, u: string)
    requires k in s && MarkedOperation(s[k], n) && n != [] && t != u && MARKER_NAME !in {t, u}
    ensures !SurfaceKept(RetypeSurface(s, n, t), RetypeSurface(s, n, u))
  {
    var op := s[k];
    if Marked(op.parameters, n) {
      RetypedApart(op.parameters, n, t, u, Sends);
    } else if Marked(op.request, n) {
      RetypedApart(op.request, n, t, u, Sends);
    } else {
      var status :| status in op.responses && Marked(op.responses[status], n);
      RetypedApart(op.responses[status], n, t, u, Reads);
      assert status in RetypeOperation(op, n, t).responses;
    }
    assert k in RetypeSurface(s, n, t);
    assert !OperationKept(RetypeSurface(s, n, t)[k], RetypeSurface(s, n, u)[k]);
  }

  /** Two documents around one with a marker: neither step breaks anything, and both together do. */
  lemma NeighboursOfMarked(b: Document) returns (a: Document, c: Document)
    requires WellFormed(b) && !MarkerFreeSurface(DocumentSurface(b))
    ensures WellFormed(a) && WellFormed(c) && NothingBreaks(a, b) && NothingBreaks(b, c) && !NothingBreaks(a, c)
  {
    var s := DocumentSurface(b);
    var k, n := MarkerSomewhere(s);
    a, c := RetypedDocument(b, n, "string"), RetypedDocument(b, n, "integer");
    DocumentFits(b, n, "string");
    DocumentFits(b, n, "integer");
    SurfaceRetyped(b.paths, b.schemas, n, "string", a.paths);
    SurfaceRetyped(b.paths, b.schemas, n, "integer", c.paths);
    RetypeSurfaceKeeps(s, n, "string");
    RetypeSurfaceKeeps(s, n, "integer");
    RetypedSurfaceApart(s, k, n, "string", "integer");
    VerdictIsKept(DocumentSurface(a), s);
    VerdictIsKept(s, DocumentSurface(c));
    VerdictIsKept(DocumentSurface(a), DocumentSurface(c));
  }

  /**
   * Compatibility through a document always composes exactly when none of its flattened
   * fields below a root is a recursion marker.
   */
  lemma CompatibilityComposesExactly(b: Document)
    requires WellFormed(b)
    ensures MarkerFreeSurface(DocumentSurface(b)) <==>
      forall a, c :: WellFormed(a) && WellFormed(c) && NothingBreaks(a, b) && NothingBreaks(b, c) ==>
        NothingBreaks(a, c)
  {
    if MarkerFreeSurface(DocumentSurface(b)) {
      forall a, c | WellFormed(a) && WellFormed(c) && NothingBreaks(a, b) && NothingBreaks(b, c)
        ensures NothingBreaks(a, c)
      {
        CompatibilityIsTransitive(a, b, c);
      }
    } else {
      var a, c := NeighboursOfMarked(b);
    }
  }
}
