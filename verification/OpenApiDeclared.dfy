/** The surface of a document by the positions of what it declares: nothing is left out, and the last one wins. */
module OpenApiDeclared {
  import opened Basics
  import opened OpenApiSchema
  import opened OpenApiFlatten
  import opened OpenApiSurface
  import opened OpenApiCompare
  import opened OpenApiReports

  /* ---- parameters ---- */

  ghost function FieldsOfParameter(p: Parameter, c: Components): Fields {
    var schema := if p.schema.None? then EMPTY_SCHEMA else p.schema.value;
    Collect([Param(p.location, p.name)], Leaves(schema, c, p.required, {}))
  }

  ghost predicate ParameterHas(ps: seq<Parameter>, c: Components, i: int, path: Path) {
    0 <= i < |ps| && path in FieldsOfParameter(ps[i], c)
  }

  ghost predicate LastParameterWith(ps: seq<Parameter>, c: Components, i: int, path: Path) {
    ParameterHas(ps, c, i, path) && forall j :: i < j < |ps| ==> !ParameterHas(ps, c, j, path)
  }

  lemma ParameterAdded(ps: seq<Parameter>, c: Components)
    requires ps != []
    ensures ParameterFields(ps, c) == ParameterFields(ps[..|ps| - 1], c) + FieldsOfParameter(ps[|ps| - 1], c)
  {
    LastParameter(ps, c);
  }

  lemma LastOfMore(ps: seq<Parameter>, c: Components, i: int, path: Path)
    requires ps != []
    ensures LastParameterWith(ps, c, i, path) <==>
      if ParameterHas(ps, c, |ps| - 1, path) then i == |ps| - 1 else LastParameterWith(ps[..|ps| - 1], c, i, path)
  {
    var front := ps[..|ps| - 1];
    forall j | 0 <= j < |ps| - 1 ensures ParameterHas(ps, c, j, path) <==> ParameterHas(front, c, j, path) {
      assert front[j] == ps[j];
    }
  }

  /** Every declared parameter contributes its fields, unless a later one has a field of the same path. */
  ghost predicate ParametersAre(ps: seq<Parameter>, c: Components, fields: Fields) {
    forall path :: ParameterIs(ps, c, fields, path)
  }

  ghost predicate ParameterIs(ps: seq<Parameter>, c: Components, fields: Fields, path: Path) {
    (path in fields <==> exists i :: LastParameterWith(ps, c, i, path))
    && forall i :: LastParameterWith(ps, c, i, path) ==>
         path in fields && fields[path] == FieldsOfParameter(ps[i], c)[path]
  }

  lemma {:induction false} ParametersExactly(ps: seq<Parameter>, c: Components, path: Path)
    ensures ParameterIs(ps, c, ParameterFields(ps, c), path)
    decreases |ps|
  {
    if ps != [] {
      var k := |ps| - 1;
      ParameterAdded(ps, c);
      ParametersExactly(ps[..k], c, path);
      forall i ensures LastParameterWith(ps, c, i, path) <==>
        if ParameterHas(ps, c, k, path) then i == k else LastParameterWith(ps[..k], c, i, path)
      {
        LastOfMore(ps, c, i, path);
      }
      if ParameterHas(ps, c, k, path) {
        assert LastParameterWith(ps, c, k, path);
      } else if i :| LastParameterWith(ps[..k], c, i, path) {
        assert LastParameterWith(ps, c, i, path);
      }
    }
  }

  /* ---- bodies ---- */

  ghost predicate JsonType(mediaType: string) {
    mediaType == "application/json" || exists stem :: mediaType == stem + "+json"
  }

  ghost predicate FirstJson(content: seq<Media>, i: int) {
    0 <= i < |content| && JsonType(content[i].mediaType) && forall j :: 0 <= j < i ==> !JsonType(content[j].mediaType)
  }

  lemma JsonExactly(mediaType: string)
    ensures IsJson(mediaType) <==> JsonType(mediaType)
  {
    if IsJson(mediaType) && mediaType != "application/json" {
      assert mediaType == mediaType[..|mediaType| - |JSON_SUFFIX|] + "+json";
    }
  }

  /** The schema of a body is that of its first JSON media type. */
  lemma {:induction false} JsonSchemaExactly(content: seq<Media>)
    ensures forall i :: FirstJson(content, i) ==> JsonSchema(content) == content[i].schema
    ensures (forall i :: !FirstJson(content, i)) ==> JsonSchema(content) == None
    decreases |content|
  {
    if content != [] {
      JsonExactly(content[0].mediaType);
      JsonSchemaExactly(content[1..]);
      if JsonType(content[0].mediaType) {
        assert FirstJson(content, 0);
      } else {
        forall i | i >= 0 ensures FirstJson(content, i + 1) <==> FirstJson(content[1..], i) {
          if FirstJson(content, i + 1) {
            assert forall j :: 0 <= j < i ==> content[1..][j] == content[j + 1];
          }
          if FirstJson(content[1..], i) {
            forall j | 0 <= j < i + 1 ensures !JsonType(content[j].mediaType) {
              if j > 0 {
                assert content[1..][j - 1] == content[j];
              }
            }
          }
        }
        forall i | FirstJson(content, i) ensures JsonSchema(content) == content[i].schema {
          assert FirstJson(content[1..], i - 1);
        }
      }
    }
  }

  ghost predicate HasJsonSchema(content: Option<seq<Media>>, schema: Schema) {
    content.Some? && exists i :: FirstJson(content.value, i) && content.value[i].schema == Some(schema)
  }

  /** What a body comes to: the fields of its JSON schema, or none. */
  ghost predicate BodyIs(content: Option<seq<Media>>, c: Components, fields: Fields) {
    if exists schema :: HasJsonSchema(content, schema)
    then exists schema :: HasJsonSchema(content, schema) && fields == Collect([], Leaves(schema, c, true, {}))
    else fields == map[]
  }

  lemma BodyExactly(content: Option<seq<Media>>, c: Components)
    ensures BodyIs(content, c, BodyFields(BodySchema(content), c))
  {
    if content.Some? {
      JsonSchemaExactly(content.value);
    }
    if schema :| HasJsonSchema(content, schema) {
      assert BodySchema(content) == Some(schema);
    } else if BodySchema(content).Some? {
      assert HasJsonSchema(content, BodySchema(content).value);
    }
  }

  /* ---- responses ---- */

  ghost predicate LastResponseWith(rs: seq<Response>, i: int, status: string) {
    0 <= i < |rs| && rs[i].status == status && forall j :: i < j < |rs| ==> rs[j].status != status
  }

  /** Every declared status is described, by its last response. */
  ghost predicate ResponsesAre(rs: seq<Response>, c: Components, responses: map<string, Fields>) {
    forall status :: ResponseIs(rs, c, responses, status)
  }

  ghost predicate ResponseIs(rs: seq<Response>, c: Components, responses: map<string, Fields>, status: string) {
    (status in responses <==> exists i :: LastResponseWith(rs, i, status))
    && forall i :: LastResponseWith(rs, i, status) ==>
         status in responses && BodyIs(rs[i].content, c, responses[status])
  }

  lemma LastOfMoreResponses(rs: seq<Response>, i: int, status: string)
    requires rs != []
    ensures LastResponseWith(rs, i, status) <==>
      if rs[|rs| - 1].status == status then i == |rs| - 1 else LastResponseWith(rs[..|rs| - 1], i, status)
  {
  }

  lemma {:induction false} ResponsesExactly(rs: seq<Response>, c: Components, status: string)
    ensures ResponseIs(rs, c, ResponseFields(rs, c), status)
    decreases |rs|
  {
    if rs != [] {
      var k := |rs| - 1;
      var front, last := rs[..k], rs[k];
      LastResponse(rs, c);
      BodyExactly(last.content, c);
      forall i ensures LastResponseWith(rs, i, status) <==>
        if last.status == status then i == k else LastResponseWith(front, i, status)
      {
        LastOfMoreResponses(rs, i, status);
      }
      if last.status == status {
        assert LastResponseWith(rs, k, status);
      } else {
        ResponsesExactly(front, c, status);
        if i :| LastResponseWith(front, i, status) {
          assert LastResponseWith(rs, i, status);
        }
      }
    }
  }

  /* ---- security ---- */

  ghost predicate Renders(entry: map<string, seq<string>>, alternative: Alternative) {
    alternative.Keys == entry.Keys && forall name :: name in entry ==> alternative[name] == multiset(entry[name])
  }

  ghost predicate RendersAll(entries: seq<map<string, seq<string>>>, alternatives: seq<Alternative>) {
    |alternatives| == |entries| && forall i :: 0 <= i < |entries| ==> Renders(entries[i], alternatives[i])
  }

  /** One alternative for each entry, with its scopes and in any order; an absent list demands nothing. */
  ghost predicate SecurityIs(raw: Option<seq<map<string, seq<string>>>>, security: Security) {
    if raw.None? then security == multiset{}
    else exists alternatives :: RendersAll(raw.value, alternatives) && security == multiset(alternatives)
  }

  lemma SecurityExactly(raw: Option<seq<map<string, seq<string>>>>)
    ensures SecurityIs(raw, ReadSecurity(raw))
  {
    if raw.Some? {
      var all := seq(|raw.value|, i requires 0 <= i < |raw.value| =>
                     map name | name in raw.value[i] :: multiset(raw.value[i][name]));
      assert RendersAll(raw.value, all) && ReadSecurity(raw) == multiset(all);
    }
  }

  /* ---- operations ---- */

  /** The place of an operation in a document. */
  datatype Place = Place(item: nat, operation: nat)

  predicate Before(a: Place, b: Place) {
    a.item < b.item || (a.item == b.item && a.operation < b.operation)
  }

  /** At that place the document declares a published operation of this verb and path. */
  predicate Declares(paths: seq<PathItem>, k: OperationKey, at: Place) {
    at.item < |paths| && paths[at.item].path == k.path
    && at.operation < |paths[at.item].operations|
    && Lower(paths[at.item].operations[at.operation].0) == k.verb && k.verb in HTTP_METHODS
  }

  ghost predicate LastDeclares(paths: seq<PathItem>, k: OperationKey, at: Place) {
    Declares(paths, k, at) && forall other :: Declares(paths, k, other) ==> !Before(at, other)
  }

  function Raw(paths: seq<PathItem>, k: OperationKey, at: Place): RawOperation
    requires Declares(paths, k, at)
  {
    paths[at.item].operations[at.operation].1
  }

  /** What the operations of one path item add, by their positions. */
  lemma {:induction false} OperationsAdd(path: string, ops: seq<(string, RawOperation)>, c: Components, before: Surface,
      k: OperationKey)
    ensures var all := OperationsOf(path, ops, c, before);
      if exists j :: LastVerb(path, ops, k, j)
      then exists j :: LastVerb(path, ops, k, j) && k in all && all[k] == Described(ops[j].1, c)
      else (k in all <==> k in before) && (k in before ==> all[k] == before[k])
    decreases |ops|
  {
    if ops != [] {
      var n := |ops| - 1;
      LastOperation(path, ops, c, before);
      OperationsAdd(path, ops[..n], c, before, k);
      if HasVerb(path, ops[n].0, k) {
        assert LastVerb(path, ops, k, n);
      } else {
        forall j ensures LastVerb(path, ops, k, j) <==> LastVerb(path, ops[..n], k, j) {
        }
      }
    }
  }

  predicate HasVerb(path: string, verb: string, k: OperationKey) {
    path == k.path && Lower(verb) == k.verb && k.verb in HTTP_METHODS
  }

  ghost predicate LastVerb(path: string, ops: seq<(string, RawOperation)>, k: OperationKey, j: int) {
    0 <= j < |ops| && HasVerb(path, ops[j].0, k) && forall i :: j < i < |ops| ==> !HasVerb(path, ops[i].0, k)
  }

  lemma OnlyLast(paths: seq<PathItem>, k: OperationKey, j: nat)
    requires paths != []
    requires LastVerb(paths[|paths| - 1].path, paths[|paths| - 1].operations, k, j)
    ensures forall at :: LastDeclares(paths, k, at) <==> at == Place(|paths| - 1, j)
  {
    var last := Place(|paths| - 1, j);
    assert Declares(paths, k, last);
    forall at | Declares(paths, k, at) ensures !Before(last, at) {
      if at.item == last.item {
        assert HasVerb(paths[at.item].path, paths[at.item].operations[at.operation].0, k);
      }
    }
    assert LastDeclares(paths, k, last);
    forall at | LastDeclares(paths, k, at) ensures at == last {
      assert !Before(at, last) && !Before(last, at);
    }
  }

  lemma NotInLastItem(paths: seq<PathItem>, k: OperationKey, at: Place, path: string, ops: seq<(string, RawOperation)>)
    requires paths != [] && paths[|paths| - 1].path == path && paths[|paths| - 1].operations == ops
    requires forall j :: !LastVerb(path, ops, k, j)
    ensures LastDeclares(paths, k, at) <==> LastDeclares(paths[..|paths| - 1], k, at)
  {
    var n := |paths| - 1;
    NoVerb(path, ops, k);
    forall other ensures Declares(paths, k, other) <==> Declares(paths[..n], k, other) {
      if Declares(paths, k, other) && other.item == n {
        assert HasVerb(path, ops[other.operation].0, k);
      }
    }
  }

  lemma {:induction false} NoVerb(path: string, ops: seq<(string, RawOperation)>, k: OperationKey)
    requires forall j :: !LastVerb(path, ops, k, j)
    ensures forall j :: 0 <= j < |ops| ==> !HasVerb(path, ops[j].0, k)
  {
    forall j: nat | j < |ops| ensures !HasVerb(path, ops[j].0, k) {
      NoVerbFrom(path, ops, k, j);
    }
  }

  lemma {:induction false} NoVerbFrom(path: string, ops: seq<(string, RawOperation)>, k: OperationKey, j: nat)
    requires j < |ops| && forall i :: !LastVerb(path, ops, k, i)
    ensures !HasVerb(path, ops[j].0, k)
    decreases |ops| - j
  {
    forall i: nat | j < i < |ops| ensures !HasVerb(path, ops[i].0, k) {
      NoVerbFrom(path, ops, k, i);
    }
    assert !LastVerb(path, ops, k, j);
  }

  lemma {:induction false} LastExists(paths: seq<PathItem>, k: OperationKey, at: Place)
    requires Declares(paths, k, at)
    ensures exists last :: LastDeclares(paths, k, last)
    decreases |paths|
  {
    var n := |paths| - 1;
    var path, ops := paths[n].path, paths[n].operations;
    if j :| LastVerb(path, ops, k, j) {
      OnlyLast(paths, k, j);
      assert LastDeclares(paths, k, Place(n, j));
    } else {
      NoVerb(path, ops, k);
      if at.item == n {
        assert HasVerb(path, ops[at.operation].0, k);
      }
      LastExists(paths[..n], k, at);
      var last :| LastDeclares(paths[..n], k, last);
      NotInLastItem(paths, k, last, path, ops);
    }
  }

  /** A key is published exactly when some path item declares it, and the last declaration is the one described. */
  lemma {:induction false} SurfaceExactly(paths: seq<PathItem>, c: Components, k: OperationKey)
    ensures k in SurfaceOf(paths, c) <==> exists at :: LastDeclares(paths, k, at)
    ensures forall at :: LastDeclares(paths, k, at) ==>
      k in SurfaceOf(paths, c) && SurfaceOf(paths, c)[k] == Described(Raw(paths, k, at), c)
    decreases |paths|
  {
    if paths != [] {
      var n := |paths| - 1;
      var front, item := paths[..n], paths[n];
      SurfaceExactly(front, c, k);
      OperationsAdd(item.path, item.operations, c, SurfaceOf(front, c), k);
      if j :| LastVerb(item.path, item.operations, k, j) {
        OnlyLast(paths, k, j);
        assert LastDeclares(paths, k, Place(n, j));
      } else {
        forall at ensures LastDeclares(paths, k, at) <==> LastDeclares(front, k, at) {
          NotInLastItem(paths, k, at, item.path, item.operations);
        }
      }
    }
  }

  /** What the source says of one operation: each part of the description, from the part it is read from. */
  ghost predicate Describes(raw: RawOperation, c: Components, op: Operation) {
    ParametersAre(raw.parameters, c, op.parameters)
    && BodyIs(raw.requestBody, c, op.request)
    && ResponsesAre(raw.responses, c, op.responses)
    && SecurityIs(raw.security, op.security)
    && op.operationId == raw.operationId && op.deprecated == raw.deprecated
  }

  lemma DescribedExactly(raw: RawOperation, c: Components)
    ensures Describes(raw, c, Described(raw, c))
  {
    forall path ensures ParameterIs(raw.parameters, c, ParameterFields(raw.parameters, c), path) {
      ParametersExactly(raw.parameters, c, path);
    }
    BodyExactly(raw.requestBody, c);
    forall status ensures ResponseIs(raw.responses, c, ResponseFields(raw.responses, c), status) {
      ResponsesExactly(raw.responses, c, status);
    }
    SecurityExactly(raw.security);
  }

  /**
   * An operation is in the surface of a document exactly when some path item
   * declares it with a published verb in any case, and it is described by the
   * last declaration.
   */
  lemma DocumentExactly(d: Document, k: OperationKey)
    ensures k in DocumentSurface(d) <==> exists at :: Declares(d.paths, k, at)
    ensures forall at :: LastDeclares(d.paths, k, at) ==>
      k in DocumentSurface(d) && Describes(Raw(d.paths, k, at), d.schemas, DocumentSurface(d)[k])
  {
    SurfaceExactly(d.paths, d.schemas, k);
    if at :| Declares(d.paths, k, at) {
      LastExists(d.paths, k, at);
    }
    forall at | LastDeclares(d.paths, k, at)
      ensures Describes(Raw(d.paths, k, at), d.schemas, DocumentSurface(d)[k])
    {
      DescribedExactly(Raw(d.paths, k, at), d.schemas);
    }
  }

  /** An operation is reported as removed when only the old document declares it, and as new when only the
      new one does. */
  lemma RemovedExactly(was: Document, now: Document, k: OperationKey)
    ensures var changes := SurfaceChanges(DocumentSurface(was), DocumentSurface(now));
      var before, after := exists at :: Declares(was.paths, k, at), exists at :: Declares(now.paths, k, at);
      (Change(true, Where(k, None), OperationRemoved) in changes <==> before && !after)
      && (Change(false, Where(k, None), OperationNew) in changes <==> after && !before)
  {
    DocumentExactly(was, k);
    DocumentExactly(now, k);
    ReportedExactly(DocumentSurface(was), DocumentSurface(now), Change(true, Where(k, None), OperationRemoved));
    ReportedExactly(DocumentSurface(was), DocumentSurface(now), Change(false, Where(k, None), OperationNew));
  }
}
