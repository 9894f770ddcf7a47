/** JSON schemas of an OpenAPI document: their type names and their enum values. */
module OpenApiSchema {

  // A schema is the decoded JSON object. A key whose value has the wrong JSON
  // type reads as absent, which is how every reader of it behaves; `$ref` and
  // `properties` keep the distinction, because their mere presence is looked at. Lists keep
  // their document order. Enum members and constants are their rendered JSON
  // text, and a sorted tuple of names or values is the set of its elements.

  import opened Basics

  datatype TypeDecl = Undeclared | Single(name: string) | Several(names: seq<string>)

  datatype RefKey = NoRef | OddRef | Ref(uri: string)

  datatype Property = Property(name: string, schema: Schema)

  datatype PropertyTable = NoProperties | Table(list: seq<Property>)

  datatype Schema = Schema(
    ref: RefKey,
    typ: TypeDecl,
    enum: Option<seq<string>>,
    const_: Option<string>,
    properties: PropertyTable,
    required: seq<string>,
    items: Option<Schema>,
    extra: Option<Schema>,
    allOf: seq<Schema>,
    anyOf: seq<Schema>,
    oneOf: seq<Schema>)

  type Components = map<string, Schema>

  const EMPTY_SCHEMA := Schema(NoRef, Undeclared, None, None, NoProperties, [], None, None, [], [], [])

  function Props(s: Schema): seq<Property> {
    if s.properties.Table? then s.properties.list else []
  }

  /** The text after the last slash. */
  function LastSegment(uri: string): string {
    if '/' !in uri then uri
    else if uri[0] == '/' && '/' !in uri[1..] then uri[1..]
    else LastSegment(uri[1..])
  }

  /** The schema a reference names; an unknown name reads as the empty schema. */
  function Resolve(uri: string, c: Components): Schema {
    var name := LastSegment(uri);
    if name in c then c[name] else EMPTY_SCHEMA
  }

  function Deref(s: Schema, c: Components): Schema {
    if s.ref.Ref? then Resolve(s.ref.uri, c) else s
  }

  lemma PropsSmaller(s: Schema)
    ensures forall p :: p in Props(s) ==> p.schema < s
  {
    forall p | p in Props(s) ensures p.schema < s {
      assert p in s.properties.list;
      assert p.schema < p;
      assert p < s.properties;
      assert s.properties < s;
    }
  }

  /** The schemas written directly inside `s`. */
  function Parts(s: Schema): (r: set<Schema>)
    ensures forall p :: p in r ==> p < s
  {
    PropsSmaller(s);
    assert s.items.Some? ==> s.items.value < s.items;
    assert s.extra.Some? ==> s.extra.value < s.extra;
    (set p | p in Props(s) :: p.schema)
    + (set m | m in s.allOf) + (set m | m in s.anyOf) + (set m | m in s.oneOf)
    + (if s.items.Some? then {s.items.value} else {})
    + (if s.extra.Some? then {s.extra.value} else {})
  }

  /* ---- type names ---- */

  /** The names one union contributes; a member that declares no name counts as "unknown". */
  function UnionNames(members: seq<Schema>): set<string>
    decreases members, 0
  {
    set m, n | m in members && n in MemberNames(m) :: n
  }

  function MemberNames(m: Schema): set<string>
    decreases m, 1
  {
    if TypeNames(m) == {} then {"unknown"} else TypeNames(m)
  }

  function TypeNames(s: Schema): set<string>
    decreases s, 0
  {
    match s.typ
    case Single(name) => {name}
    case Several(names) => Elements(names)
    case Undeclared =>
      if UnionNames(s.anyOf) != {} then UnionNames(s.anyOf)
      else if UnionNames(s.oneOf) != {} then UnionNames(s.oneOf)
      else if s.properties.Table? || s.ref != NoRef then {"object"}
      else {"any"}
  }

  /* ---- enum values ---- */

  /** Whether reading the enum of `s` finishes within `depth` nested calls. */
  ghost predicate Completes(s: Schema, c: Components, depth: nat)
    decreases depth
  {
    depth > 0
    && (s.enum.Some? || s.const_.Some?
        || forall m :: m in s.anyOf + s.oneOf ==> Completes(Deref(m, c), c, depth - 1))
  }

  /** Whether reading the enum of `s` finishes at all. */
  ghost predicate EnumHalts(s: Schema, c: Components) {
    exists depth :: Completes(s, c, depth)
  }

  lemma CompletesMonotone(s: Schema, c: Components, d: nat, e: nat)
    requires Completes(s, c, d) && d <= e
    ensures Completes(s, c, e)
    decreases d
  {
    if s.enum.None? && s.const_.None? {
      forall m | m in s.anyOf + s.oneOf ensures Completes(Deref(m, c), c, e - 1) {
        CompletesMonotone(Deref(m, c), c, d - 1, e - 1);
      }
    }
  }

  ghost function EnumDepth(s: Schema, c: Components): (depth: nat)
    requires EnumHalts(s, c)
    ensures Completes(s, c, depth)
    ensures forall d :: Completes(s, c, d) ==> depth <= d
  {
    var d :| Completes(s, c, d);
    LeastDepth(s, c, d)
  }

  ghost function LeastDepth(s: Schema, c: Components, d: nat): (least: nat)
    requires Completes(s, c, d)
    ensures Completes(s, c, least)
    ensures forall e :: Completes(s, c, e) ==> least <= e
  {
    if d > 0 && Completes(s, c, d - 1) then LeastDepth(s, c, d - 1)
    else
      assert forall e: nat :: Completes(s, c, e) ==> d <= e by {
        forall e: nat | Completes(s, c, e) ensures d <= e {
          if e < d { CompletesMonotone(s, c, e, d - 1); }
        }
      }
      d
  }

  /** Members of a halting schema halt, one level lower. */
  lemma MemberHalts(s: Schema, c: Components, m: Schema)
    requires EnumHalts(s, c) && s.enum.None? && s.const_.None? && m in s.anyOf + s.oneOf
    ensures EnumHalts(Deref(m, c), c)
    ensures EnumDepth(Deref(m, c), c) < EnumDepth(s, c)
  {
    assert Completes(Deref(m, c), c, EnumDepth(s, c) - 1);
  }

  /** The values of member `m`, when it lists any. */
  ghost function MemberValues(s: Schema, c: Components, m: Schema): Option<set<string>>
    requires EnumHalts(s, c) && s.enum.None? && s.const_.None? && m in s.anyOf + s.oneOf
    decreases EnumDepth(s, c), 0
  {
    MemberHalts(s, c, m);
    EnumValues(Deref(m, c), c)
  }

  /** The closed set of values `s` allows, looking through its unions; None when it is open. */
  ghost function EnumValues(s: Schema, c: Components): Option<set<string>>
    requires EnumHalts(s, c)
    decreases EnumDepth(s, c), 1
  {
    if s.enum.Some? then Some(Elements(s.enum.value))
    else if s.const_.Some? then Some({s.const_.value})
    else if exists m :: m in s.anyOf + s.oneOf && MemberValues(s, c, m).Some? then
      Some(set m, v | m in s.anyOf + s.oneOf && MemberValues(s, c, m).Some?
                      && v in MemberValues(s, c, m).value :: v)
    else None
  }

  /* ---- termination ---- */

  ghost predicate HaltsAll(c: Components) {
    forall n :: n in c ==> EnumHalts(c[n], c)
  }

  /** The references an enum reading of `s` follows before it leaves `s`. */
  ghost function UnionRefs(s: Schema): set<string>
    decreases s, 0
  {
    if s.enum.Some? || s.const_.Some? then {}
    else set m, r | m in s.anyOf + s.oneOf && r in MemberRefs(m) :: r
  }

  ghost function MemberRefs(m: Schema): set<string>
    decreases m, 1
  {
    if m.ref.Ref? then {LastSegment(m.ref.uri)} else UnionRefs(m)
  }

  /** The union references of a document form no cycle: they descend some numbering. */
  ghost predicate AcyclicUnions(c: Components) {
    exists rank: map<string, nat> :: Descends(c, rank)
  }

  ghost predicate Descends(c: Components, rank: map<string, nat>) {
    c.Keys <= rank.Keys
    && forall n, r :: n in c && r in UnionRefs(c[n]) && r in c ==> rank[r] < rank[n]
  }

  /** One depth serves all of finitely many halting members. */
  lemma CommonDepth(ms: seq<Schema>, c: Components) returns (d: nat)
    requires forall m :: m in ms ==> EnumHalts(Deref(m, c), c)
    ensures forall m :: m in ms ==> Completes(Deref(m, c), c, d)
  {
    d := 0;
    for i := 0 to |ms|
      invariant forall m :: m in ms[..i] ==> Completes(Deref(m, c), c, d)
    {
      var e :| Completes(Deref(ms[i], c), c, e);
      forall m | m in ms[..i] ensures Completes(Deref(m, c), c, d + e) {
        CompletesMonotone(Deref(m, c), c, d, d + e);
      }
      CompletesMonotone(Deref(ms[i], c), c, e, d + e);
      d := d + e;
    }
  }

  lemma MembersHalt(s: Schema, c: Components)
    requires forall m :: m in s.anyOf + s.oneOf ==> EnumHalts(Deref(m, c), c)
    ensures EnumHalts(s, c)
  {
    var d := CommonDepth(s.anyOf + s.oneOf, c);
    assert Completes(s, c, d + 1);
  }

  lemma {:induction false} RankHalts(s: Schema, c: Components, rank: map<string, nat>, bound: nat)
    requires Descends(c, rank)
    requires forall r :: r in UnionRefs(s) && r in c ==> rank[r] < bound
    ensures EnumHalts(s, c)
    decreases bound, s
  {
    if s.enum.Some? || s.const_.Some? {
      assert Completes(s, c, 1);
    } else {
      forall m | m in s.anyOf + s.oneOf ensures EnumHalts(Deref(m, c), c) {
        assert forall r :: r in MemberRefs(m) ==> r in UnionRefs(s);
        if !m.ref.Ref? {
          RankHalts(m, c, rank, bound);
        } else if LastSegment(m.ref.uri) in c {
          var n := LastSegment(m.ref.uri);
          RankHalts(c[n], c, rank, rank[n]);
        } else {
          assert Completes(EMPTY_SCHEMA, c, 1);
        }
      }
      MembersHalt(s, c);
    }
  }

  lemma {:induction false} RefIsShallower(s: Schema, c: Components, r: string)
    requires EnumHalts(s, c) && r in UnionRefs(s) && r in c
    ensures EnumHalts(c[r], c) && EnumDepth(c[r], c) < EnumDepth(s, c)
    decreases s
  {
    var m :| m in s.anyOf + s.oneOf && r in MemberRefs(m);
    MemberHalts(s, c, m);
    if !m.ref.Ref? {
      RefIsShallower(m, c, r);
    }
  }

  /**
   * Reading enums through `anyOf` and `oneOf` finishes on every component
   * exactly when the union references of the document are acyclic.
   */
  lemma TerminationIsAcyclicity(c: Components)
    ensures HaltsAll(c) <==> AcyclicUnions(c)
  {
    if HaltsAll(c) {
      var rank := map n | n in c :: EnumDepth(c[n], c);
      forall n, r | n in c && r in UnionRefs(c[n]) && r in c ensures rank[r] < rank[n] {
        RefIsShallower(c[n], c, r);
      }
      assert Descends(c, rank);
    }
    if AcyclicUnions(c) {
      var rank :| Descends(c, rank);
      forall n | n in c ensures EnumHalts(c[n], c) {
        RankHalts(c[n], c, rank, rank[n]);
      }
    }
  }

  /** When the components halt, so does every schema that refers to them. */
  lemma {:induction false} EverySchemaHalts(s: Schema, c: Components)
    requires HaltsAll(c)
    ensures EnumHalts(s, c)
    decreases s
  {
    forall m | m in s.anyOf + s.oneOf ensures EnumHalts(Deref(m, c), c) {
      if !m.ref.Ref? {
        EverySchemaHalts(m, c);
      } else if LastSegment(m.ref.uri) !in c {
        assert Completes(EMPTY_SCHEMA, c, 1);
      }
    }
    MembersHalt(s, c);
  }

  /* ---- the loop ---- */

  ghost predicate Lists(m: Schema, c: Components, v: string) {
    EnumHalts(Deref(m, c), c) && EnumValues(Deref(m, c), c).Some? && v in EnumValues(Deref(m, c), c).value
  }

  ghost predicate Closed(m: Schema, c: Components) {
    EnumHalts(Deref(m, c), c) && EnumValues(Deref(m, c), c).Some?
  }

  ghost predicate Offers(ms: seq<Schema>, c: Components, v: string) {
    exists m :: m in ms && Lists(m, c, v)
  }

  /** A schema without values of its own is closed when some member is, with all their values. */
  lemma UnionValues(s: Schema, c: Components)
    requires EnumHalts(s, c) && s.enum.None? && s.const_.None?
    ensures EnumValues(s, c).Some? <==> exists m :: m in s.anyOf + s.oneOf && Closed(m, c)
    ensures EnumValues(s, c).Some? ==>
      forall v :: v in EnumValues(s, c).value <==> Offers(s.anyOf + s.oneOf, c, v)
  {
    forall m | m in s.anyOf + s.oneOf
      ensures EnumHalts(Deref(m, c), c) && MemberValues(s, c, m) == EnumValues(Deref(m, c), c)
    {
      MemberHalts(s, c, m);
    }
    if EnumValues(s, c).Some? {
      forall v ensures v in EnumValues(s, c).value <==> Offers(s.anyOf + s.oneOf, c, v) {
        if m :| m in s.anyOf + s.oneOf && Lists(m, c, v) {
          assert MemberValues(s, c, m).Some? && v in MemberValues(s, c, m).value;
        }
        if v in EnumValues(s, c).value {
          var m :| m in s.anyOf + s.oneOf && MemberValues(s, c, m).Some? && v in MemberValues(s, c, m).value;
          assert Lists(m, c, v);
        }
      }
    }
    if m :| m in s.anyOf + s.oneOf && Closed(m, c) {
      assert MemberValues(s, c, m).Some?;
    }
  }

  /** The reading as a loop over the members of both unions. */
  method ReadEnum(s: Schema, c: Components) returns (values: Option<set<string>>)
    requires EnumHalts(s, c)
    ensures values == EnumValues(s, c)
    decreases EnumDepth(s, c)
  {
    if s.enum.Some? {
      return Some(Elements(s.enum.value));
    }
    if s.const_.Some? {
      return Some({s.const_.value});
    }
    var members := s.anyOf + s.oneOf;
    var collected: set<string> := {};
    var found := false;
    for i := 0 to |members|
      invariant found <==> exists j :: 0 <= j < i && Closed(members[j], c)
      invariant forall v :: v in collected <==> exists j :: 0 <= j < i && Lists(members[j], c, v)
    {
      MemberHalts(s, c, members[i]);
      var inner := ReadEnum(Deref(members[i], c), c);
      assert inner.Some? <==> Closed(members[i], c);
      if inner.Some? {
        found := true;
        assert forall v :: v in inner.value <==> Lists(members[i], c, v);
        collected := collected + inner.value;
      }
    }
    UnionValues(s, c);
    assert forall m :: m in members <==> exists j :: 0 <= j < |members| && members[j] == m;
    assert found <==> EnumValues(s, c).Some?;
    if found {
      forall v ensures v in collected <==> v in EnumValues(s, c).value {
        if j :| 0 <= j < |members| && Lists(members[j], c, v) {
          assert members[j] in members;
        }
      }
      assert collected == EnumValues(s, c).value;
    }
    assert !found ==> EnumValues(s, c) == None;
    return if found then Some(collected) else None;
  }
}
