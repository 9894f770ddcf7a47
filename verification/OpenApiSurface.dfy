/** The operation surface of an OpenAPI document, with every schema flattened. */
module OpenApiSurface {

  // The surface is what each published operation accepts, returns and demands. A
  // document keeps its lists in document order. A sorted tuple of security
  // alternatives, or of scopes, is the multiset of its elements.

  import opened Basics
  import opened OpenApiSchema
  import opened OpenApiFlatten

  datatype Parameter = Parameter(location: string, name: string, schema: Option<Schema>, required: bool)

  datatype Media = Media(mediaType: string, schema: Option<Schema>)

  datatype Response = Response(status: string, content: Option<seq<Media>>)

  type Scopes = multiset<string>

  type Alternative = map<string, Scopes>

  type Security = multiset<Alternative>

  datatype RawOperation = RawOperation(
    parameters: seq<Parameter>,
    requestBody: Option<seq<Media>>,
    responses: seq<Response>,
    security: Option<seq<map<string, seq<string>>>>,
    operationId: Option<string>,
    deprecated: bool)

  datatype PathItem = PathItem(path: string, operations: seq<(string, RawOperation)>)

  datatype Document = Document(schemas: Components, paths: seq<PathItem>)

  datatype Operation = Operation(
    parameters: Fields,
    request: Fields,
    responses: map<string, Fields>,
    security: Security,
    operationId: Option<string>,
    deprecated: bool)

  datatype OperationKey = OperationKey(verb: string, path: string)

  type Surface = map<OperationKey, Operation>

  const HTTP_METHODS: set<string> := {"get", "put", "post", "delete", "options", "head", "patch", "trace"}

  const JSON_SUFFIX := "+json"

  function IsJson(mediaType: string): bool {
    mediaType == "application/json"
    || (|mediaType| >= |JSON_SUFFIX| && mediaType[|mediaType| - |JSON_SUFFIX|..] == JSON_SUFFIX)
  }

  /** The schema of the first JSON media type, when there is one. */
  function JsonSchema(content: seq<Media>): Option<Schema> {
    if content == [] then None
    else if IsJson(content[0].mediaType) then content[0].schema
    else JsonSchema(content[1..])
  }

  function BodySchema(content: Option<seq<Media>>): Option<Schema> {
    if content.None? then None else JsonSchema(content.value)
  }

  function ReadSecurity(raw: Option<seq<map<string, seq<string>>>>): Security {
    if raw.None? then multiset{}
    else multiset(seq(|raw.value|, i requires 0 <= i < |raw.value| =>
                      map name | name in raw.value[i] :: multiset(raw.value[i][name])))
  }

  function ParameterSchema(p: Parameter): Schema {
    if p.schema.Some? then p.schema.value else EMPTY_SCHEMA
  }

  /* ---- meaning ---- */

  ghost function FlatFields(s: Schema, c: Components, prefix: Path, required: bool): Fields
  {
    Collect(prefix, Leaves(s, c, required, {}))
  }

  ghost function BodyFields(s: Option<Schema>, c: Components): Fields
  {
    if s.None? then map[] else FlatFields(s.value, c, [], true)
  }

  ghost function ParameterFields(ps: seq<Parameter>, c: Components): Fields
  {
    if ps == [] then map[]
    else
      var p := ps[|ps| - 1];
      ParameterFields(ps[..|ps| - 1], c)
      + FlatFields(ParameterSchema(p), c, [Param(p.location, p.name)], p.required)
  }

  ghost function ResponseFields(rs: seq<Response>, c: Components): map<string, Fields>
  {
    if rs == [] then map[]
    else
      var r := rs[|rs| - 1];
      ResponseFields(rs[..|rs| - 1], c)[r.status := BodyFields(BodySchema(r.content), c)]
  }

  ghost function Described(op: RawOperation, c: Components): Operation
  {
    Operation(
      ParameterFields(op.parameters, c),
      BodyFields(BodySchema(op.requestBody), c),
      ResponseFields(op.responses, c),
      ReadSecurity(op.security), op.operationId, op.deprecated)
  }

  predicate Published(verb: string) {
    Lower(verb) in HTTP_METHODS
  }

  ghost function OperationsOf(path: string, ops: seq<(string, RawOperation)>, c: Components, before: Surface): Surface
  {
    if ops == [] then before
    else
      var (verb, op) := ops[|ops| - 1];
      var rest := OperationsOf(path, ops[..|ops| - 1], c, before);
      if Published(verb) then rest[OperationKey(Lower(verb), path) := Described(op, c)] else rest
  }

  ghost function SurfaceOf(items: seq<PathItem>, c: Components): Surface
  {
    if items == [] then map[]
    else
      var item := items[|items| - 1];
      OperationsOf(item.path, item.operations, c, SurfaceOf(items[..|items| - 1], c))
  }

  ghost function DocumentSurface(d: Document): Surface
  {
    SurfaceOf(d.paths, d.schemas)
  }

  /* ---- what the last entry of a list adds ---- */

  lemma LastParameter(ps: seq<Parameter>, c: Components)
    requires ps != []
    ensures var p := ps[|ps| - 1];
      ParameterFields(ps, c) == ParameterFields(ps[..|ps| - 1], c)
                                + FlatFields(ParameterSchema(p), c, [Param(p.location, p.name)], p.required)
  {
  }

  lemma LastResponse(rs: seq<Response>, c: Components)
    requires rs != []
    ensures var r := rs[|rs| - 1];
      ResponseFields(rs, c) == ResponseFields(rs[..|rs| - 1], c)[r.status := BodyFields(BodySchema(r.content), c)]
  {
  }

  lemma LastOperation(path: string, ops: seq<(string, RawOperation)>, c: Components, before: Surface)
    requires ops != []
    ensures var o, rest := ops[|ops| - 1], OperationsOf(path, ops[..|ops| - 1], c, before);
      OperationsOf(path, ops, c, before)
      == if Published(o.0) then rest[OperationKey(Lower(o.0), path) := Described(o.1, c)] else rest
  {
  }

  /* ---- what a document must satisfy: keys of one JSON object are distinct, and flattening ends ---- */

  ghost predicate Fit(s: Schema, c: Components) {
    WellNamed(s) && Readable(s, c, {})
  }

  ghost predicate FitContent(content: Option<seq<Media>>, c: Components) {
    BodySchema(content).Some? ==> Fit(BodySchema(content).value, c)
  }

  ghost predicate FitOperation(op: RawOperation, c: Components) {
    (forall p :: p in op.parameters ==> Fit(ParameterSchema(p), c))
    && FitContent(op.requestBody, c)
    && forall r :: r in op.responses ==> FitContent(r.content, c)
  }

  ghost predicate FitItem(item: PathItem, c: Components) {
    forall o :: o in item.operations && Published(o.0) ==> FitOperation(o.1, c)
  }

  ghost predicate WellFormed(d: Document) {
    WellNamedAll(d.schemas) && forall item :: item in d.paths ==> FitItem(item, d.schemas)
  }

  /* ---- the loops ---- */

  method DescribeBody(s: Option<Schema>, c: Components) returns (fields: Fields)
    requires WellNamedAll(c) && (s.Some? ==> Fit(s.value, c))
    ensures fields == BodyFields(s, c)
  {
    fields := map[];
    if s.Some? {
      fields := Flatten(s.value, c, [], true, {});
    }
  }

  method DescribeParameters(ps: seq<Parameter>, c: Components) returns (parameters: Fields)
    requires WellNamedAll(c) && forall p :: p in ps ==> Fit(ParameterSchema(p), c)
    ensures parameters == ParameterFields(ps, c)
  {
    parameters := map[];
    for i := 0 to |ps|
      invariant parameters == ParameterFields(ps[..i], c)
    {
      var fields := Flatten(ParameterSchema(ps[i]), c, [Param(ps[i].location, ps[i].name)], ps[i].required, {});
      parameters := parameters + fields;
      assert ps[..i + 1][..i] == ps[..i];
    }
    assert ps[..|ps|] == ps;
  }

  method DescribeResponses(rs: seq<Response>, c: Components) returns (responses: map<string, Fields>)
    requires WellNamedAll(c) && forall r :: r in rs ==> FitContent(r.content, c)
    ensures responses == ResponseFields(rs, c)
  {
    responses := map[];
    for i := 0 to |rs|
      invariant responses == ResponseFields(rs[..i], c)
    {
      var fields := DescribeBody(BodySchema(rs[i].content), c);
      responses := responses[rs[i].status := fields];
      assert rs[..i + 1][..i] == rs[..i];
    }
    assert rs[..|rs|] == rs;
  }

  method DescribeOperation(op: RawOperation, c: Components) returns (result: Operation)
    requires WellNamedAll(c) && FitOperation(op, c)
    ensures result == Described(op, c)
  {
    var parameters := DescribeParameters(op.parameters, c);
    var request := DescribeBody(BodySchema(op.requestBody), c);
    var responses := DescribeResponses(op.responses, c);
    result := Operation(parameters, request, responses, ReadSecurity(op.security), op.operationId, op.deprecated);
  }

  method ReadSurface(d: Document) returns (result: Surface)
    requires WellFormed(d)
    ensures result == DocumentSurface(d)
  {
    result := map[];
    for i := 0 to |d.paths|
      invariant result == SurfaceOf(d.paths[..i], d.schemas)
    {
      var item := d.paths[i];
      for j := 0 to |item.operations|
        invariant result == OperationsOf(item.path, item.operations[..j], d.schemas, SurfaceOf(d.paths[..i], d.schemas))
      {
        var (verb, op) := item.operations[j];
        assert FitItem(item, d.schemas) && item.operations[j] in item.operations;
        if Published(verb) {
          var described := DescribeOperation(op, d.schemas);
          result := result[OperationKey(Lower(verb), item.path) := described];
        }
        assert item.operations[..j + 1][..j] == item.operations[..j];
      }
      assert item.operations[..|item.operations|] == item.operations;
      assert d.paths[..i + 1][..i] == d.paths[..i];
    }
    assert d.paths[..|d.paths|] == d.paths;
  }
}
