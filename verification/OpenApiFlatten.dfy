/** Flattening a possibly cyclic schema into leaf fields. */
module OpenApiFlatten {

  // `Leaves` says what the flattening means: the set of all contributions a
  // schema makes, each at its path below the schema. `Collect` turns it into the
  // dictionary of fields, joining the contributions that meet at one path. The
  // method `Flatten` is the dictionary-filling recursion and computes exactly
  // that. A path is a sequence of segments, so property names cannot collide
  // with the separators.

  import opened Basics
  import opened OpenApiSchema

  datatype Segment = Param(location: string, name: string) | Named(name: string) | Items | Extra

  type Path = seq<Segment>

  datatype Field = Field(types: set<string>, required: bool, enum: Option<set<string>>)

  type Fields = map<Path, Field>

  datatype Leaf = Leaf(path: Path, field: Field)

  const MARKER_NAME := "<recursive>"

  const RECURSION_MARKER: set<string> := {MARKER_NAME}

  /* ---- termination measure: references not yet seen ---- */

  ghost function OwnRefs(s: Schema): set<string>
    decreases s
  {
    (if s.ref.Ref? then {s.ref.uri} else {})
    + (set p, r | p in Parts(s) && r in OwnRefs(p) :: r)
  }

  ghost function AllRefs(s: Schema, c: Components): set<string> {
    OwnRefs(s) + set n, r | n in c && r in OwnRefs(c[n]) :: r
  }

  lemma PartRefs(s: Schema, p: Schema, c: Components)
    requires p in Parts(s)
    ensures p < s && AllRefs(p, c) <= AllRefs(s, c)
  {
  }

  lemma ResolvedRefs(s: Schema, c: Components)
    requires s.ref.Ref?
    ensures AllRefs(Resolve(s.ref.uri, c), c) <= AllRefs(s, c)
    ensures s.ref.uri in AllRefs(s, c)
  {
    assert Parts(EMPTY_SCHEMA) == {};
    assert OwnRefs(EMPTY_SCHEMA) == {};
  }

  /** The references followed once a schema stands for what it refers to. */
  function Followed(s: Schema, seen: set<string>): set<string> {
    if s.ref.Ref? then seen + {s.ref.uri} else seen
  }

  /* ---- what a schema contributes ---- */

  function Under(head: Segment, l: Leaf): Leaf {
    Leaf([head] + l.path, l.field)
  }

  ghost function Shift(head: Segment, child: set<Leaf>): set<Leaf> {
    set l | l in child :: Under(head, l)
  }

  ghost function Below(member: set<Leaf>): set<Leaf> {
    set l | l in member && l.path != [] :: l
  }

  /** Everything `s` contributes; a reference already on the way here contributes a marker. */
  ghost function Leaves(s: Schema, c: Components, required: bool, seen: set<string>): set<Leaf>
    decreases AllRefs(s, c) - seen, s, 2
  {
    if !s.ref.Ref? then BodyLeaves(s, c, required, seen)
    else if s.ref.uri in seen then {Leaf([], Field(RECURSION_MARKER, required, None))}
    else
      ResolvedRefs(s, c);
      BodyLeaves(Resolve(s.ref.uri, c), c, required, seen + {s.ref.uri})
  }

  ghost function BodyLeaves(s: Schema, c: Components, required: bool, seen: set<string>): set<Leaf>
    decreases AllRefs(s, c) - seen, s, 1
  {
    {RootLeaf(s, c, required)}
    + PropertyLeaves(s, c, seen)
    + (if s.items.None? then {} else Shift(Items, PartLeaves(s, s.items.value, c, true, seen)))
    + (if s.extra.None? then {} else Shift(Extra, PartLeaves(s, s.extra.value, c, false, seen)))
    + AllOfLeaves(s, c, required, seen)
    + UnionLeaves(s, c, seen)
  }

  ghost function PropertyLeaves(s: Schema, c: Components, seen: set<string>): set<Leaf>
    decreases AllRefs(s, c) - seen, s, 0, 1
  {
    set p, l | p in Props(s) && l in PartLeaves(s, p.schema, c, p.name in s.required, seen) :: Under(Named(p.name), l)
  }

  /** A member gives its leaves but not its root; `required` reaches only that root. */
  ghost function AllOfLeaves(s: Schema, c: Components, required: bool, seen: set<string>): set<Leaf>
    decreases AllRefs(s, c) - seen, s, 0, 1
  {
    set m, l | m in s.allOf && l in PartLeaves(s, m, c, required, seen) && l.path != [] :: l
  }

  ghost function UnionLeaves(s: Schema, c: Components, seen: set<string>): set<Leaf>
    decreases AllRefs(s, c) - seen, s, 0, 1
  {
    set m, l | m in s.anyOf + s.oneOf && l in PartLeaves(s, m, c, false, seen) && l.path != [] :: l
  }

  ghost function RootLeaf(s: Schema, c: Components, required: bool): Leaf
  {
    Leaf([], Field(TypeNames(s), required, if EnumHalts(s, c) then EnumValues(s, c) else None))
  }

  ghost function PartLeaves(s: Schema, p: Schema, c: Components, required: bool, seen: set<string>): set<Leaf>
    requires p in Parts(s)
    decreases AllRefs(s, c) - seen, s, 0, 0
  {
    PartRefs(s, p, c);
    Leaves(p, c, required, seen)
  }

  /** The leaves of a list of properties, and of a list of union or allOf members. */
  ghost function PropertyGroup(ps: seq<Property>, names: seq<string>, c: Components, seen: set<string>): set<Leaf>
  {
    set p, l | p in ps && l in Leaves(p.schema, c, p.name in names, seen) :: Under(Named(p.name), l)
  }

  ghost function ChildGroup(head: Segment, child: Option<Schema>, c: Components, required: bool,
      seen: set<string>): set<Leaf>
  {
    if child.None? then {} else Shift(head, Leaves(child.value, c, required, seen))
  }

  ghost function MemberGroup(ms: seq<Schema>, c: Components, required: bool, seen: set<string>): set<Leaf>
  {
    set m, l | m in ms && l in Leaves(m, c, required, seen) && l.path != [] :: l
  }

  lemma BodyGroups(s: Schema, c: Components, required: bool, seen: set<string>)
    ensures BodyLeaves(s, c, required, seen)
         == {RootLeaf(s, c, required)} + PropertyGroup(Props(s), s.required, c, seen)
            + ChildGroup(Items, s.items, c, true, seen) + ChildGroup(Extra, s.extra, c, false, seen)
            + MemberGroup(s.allOf, c, required, seen) + MemberGroup(s.anyOf + s.oneOf, c, false, seen)
  {
    PropertiesGrouped(s, c, seen);
    MembersGrouped(s, c, required, seen);
  }

  lemma PropertiesGrouped(s: Schema, c: Components, seen: set<string>)
    ensures PropertyLeaves(s, c, seen) == PropertyGroup(Props(s), s.required, c, seen)
  {
    PartsAreLeaves(s, c, seen);
  }

  lemma MembersGrouped(s: Schema, c: Components, required: bool, seen: set<string>)
    ensures AllOfLeaves(s, c, required, seen) == MemberGroup(s.allOf, c, required, seen)
    ensures UnionLeaves(s, c, seen) == MemberGroup(s.anyOf + s.oneOf, c, false, seen)
  {
    PartsAreLeaves(s, c, seen);
  }

  lemma PartsAreLeaves(s: Schema, c: Components, seen: set<string>)
    ensures forall p, r :: p in Parts(s) ==> PartLeaves(s, p, c, r, seen) == Leaves(p, c, r, seen)
  {
  }

  /* ---- `required` reaches only the root ---- */

  /** A schema flattened as required and as optional differs in its root alone. */
  lemma {:induction false} RequiredReachesOnlyTheRoot(s: Schema, c: Components, r: bool, q: bool, seen: set<string>)
    ensures Below(Leaves(s, c, r, seen)) == Below(Leaves(s, c, q, seen))
    decreases AllRefs(s, c) - seen, s, 2
  {
    if !s.ref.Ref? {
      BodyReachesOnlyTheRoot(s, c, r, q, seen);
    } else if s.ref.uri !in seen {
      ResolvedRefs(s, c);
      BodyReachesOnlyTheRoot(Resolve(s.ref.uri, c), c, r, q, seen + {s.ref.uri});
    }
  }

  lemma {:induction false} BodyReachesOnlyTheRoot(s: Schema, c: Components, r: bool, q: bool, seen: set<string>)
    ensures Below(BodyLeaves(s, c, r, seen)) == Below(BodyLeaves(s, c, q, seen))
    decreases AllRefs(s, c) - seen, s, 1
  {
    PartsAreLeaves(s, c, seen);
    forall m | m in s.allOf ensures Below(PartLeaves(s, m, c, r, seen)) == Below(PartLeaves(s, m, c, q, seen)) {
      PartRefs(s, m, c);
      RequiredReachesOnlyTheRoot(m, c, r, q, seen);
    }
    SameBelow(s, c, r, q, seen);
  }

  lemma SameBelow(s: Schema, c: Components, r: bool, q: bool, seen: set<string>)
    requires forall m :: m in s.allOf ==> Below(PartLeaves(s, m, c, r, seen)) == Below(PartLeaves(s, m, c, q, seen))
    ensures Below(BodyLeaves(s, c, r, seen)) == Below(BodyLeaves(s, c, q, seen))
  {
    assert AllOfLeaves(s, c, r, seen) == AllOfLeaves(s, c, q, seen) by {
      forall m, l: Leaf | m in s.allOf && l.path != []
        ensures l in PartLeaves(s, m, c, r, seen) <==> l in PartLeaves(s, m, c, q, seen)
      {
        assert l in PartLeaves(s, m, c, r, seen) <==> l in Below(PartLeaves(s, m, c, r, seen));
        assert l in PartLeaves(s, m, c, q, seen) <==> l in Below(PartLeaves(s, m, c, q, seen));
      }
    }
    BelowBody(s, c, r, seen);
    BelowBody(s, c, q, seen);
  }

  /** Everything below the root of a body, with no mention of `required` but in the allOf members. */
  ghost function Inner(s: Schema, c: Components, seen: set<string>): set<Leaf>
  {
    PropertyLeaves(s, c, seen)
    + (if s.items.None? then {} else Shift(Items, PartLeaves(s, s.items.value, c, true, seen)))
    + (if s.extra.None? then {} else Shift(Extra, PartLeaves(s, s.extra.value, c, false, seen)))
    + UnionLeaves(s, c, seen)
  }

  lemma BelowRooted(root: Leaf, inner: set<Leaf>)
    requires root.path == [] && forall l: Leaf :: l in inner ==> l.path != []
    ensures Below({root} + inner) == inner
  {
  }

  lemma InnerPaths(s: Schema, c: Components, r: bool, seen: set<string>)
    ensures forall l: Leaf :: l in Inner(s, c, seen) + AllOfLeaves(s, c, r, seen) ==> l.path != []
  {
  }

  lemma Regroup<T>(a: set<T>, b: set<T>, c: set<T>, d: set<T>, e: set<T>, f: set<T>)
    ensures a + b + c + d + e + f == a + (b + c + d + f + e)
  {
  }

  lemma BelowBody(s: Schema, c: Components, r: bool, seen: set<string>)
    ensures Below(BodyLeaves(s, c, r, seen)) == Inner(s, c, seen) + AllOfLeaves(s, c, r, seen)
  {
    InnerPaths(s, c, r, seen);
    BelowRooted(RootLeaf(s, c, r), Inner(s, c, seen) + AllOfLeaves(s, c, r, seen));
    Regroup({RootLeaf(s, c, r)}, PropertyLeaves(s, c, seen),
            if s.items.None? then {} else Shift(Items, PartLeaves(s, s.items.value, c, true, seen)),
            if s.extra.None? then {} else Shift(Extra, PartLeaves(s, s.extra.value, c, false, seen)),
            AllOfLeaves(s, c, r, seen), UnionLeaves(s, c, seen));
  }

  /** What the members of allOf, anyOf or oneOf add does not depend on the `required` they are given. */
  lemma MembersIgnoreRequired(ms: seq<Schema>, c: Components, r: bool, q: bool, seen: set<string>)
    ensures MemberGroup(ms, c, r, seen) == MemberGroup(ms, c, q, seen)
  {
    forall m, l: Leaf | m in ms && l.path != [] ensures l in Leaves(m, c, r, seen) <==> l in Leaves(m, c, q, seen) {
      RequiredReachesOnlyTheRoot(m, c, r, q, seen);
      assert l in Leaves(m, c, r, seen) <==> l in Below(Leaves(m, c, r, seen));
      assert l in Leaves(m, c, q, seen) <==> l in Below(Leaves(m, c, q, seen));
    }
  }

  /* ---- joining contributions ---- */

  /** An absent enum leaves the other side's as it is. */
  function MergeEnums(a: Option<set<string>>, b: Option<set<string>>): Option<set<string>> {
    if a.None? then b else if b.None? then a else Some(a.value + b.value)
  }

  function MergeField(a: Field, b: Field): Field {
    Field(a.types + b.types, a.required && b.required, MergeEnums(a.enum, b.enum))
  }

  /** All types, required only if every contribution is, and every listed value. */
  ghost function Join(fs: set<Field>): Field {
    Field(set f, t | f in fs && t in f.types :: t,
          forall f :: f in fs ==> f.required,
          if forall f :: f in fs ==> f.enum.None? then None
          else Some(set f, v | f in fs && f.enum.Some? && v in f.enum.value :: v))
  }

  lemma JoinUnion(a: set<Field>, b: set<Field>)
    ensures Join(a + b) == MergeField(Join(a), Join(b))
  {
    assert Join(a + b).types == Join(a).types + Join(b).types;
    assert Join(a + b).enum.Some? && Join(a).enum.None? ==> Join(a + b).enum.value == Join(b).enum.value;
    assert Join(a + b).enum.Some? && Join(b).enum.None? ==> Join(a + b).enum.value == Join(a).enum.value;
    assert Join(a).enum.Some? && Join(b).enum.Some? ==>
      Join(a + b).enum.value == Join(a).enum.value + Join(b).enum.value;
  }

  lemma JoinOne(f: Field)
    ensures Join({f}) == f
  {
    assert Join({f}).types == f.types;
    assert f.enum.Some? ==> Join({f}).enum.value == f.enum.value;
  }

  ghost function At(ls: set<Leaf>, path: Path): set<Field> {
    set l | l in ls && l.path == path :: l.field
  }

  ghost function PathsOf(prefix: Path, ls: set<Leaf>): set<Path> {
    set l | l in ls :: prefix + l.path
  }

  /** The dictionary of fields a set of leaves denotes below `prefix`. */
  ghost function Collect(prefix: Path, ls: set<Leaf>): Fields {
    map p | p in PathsOf(prefix, ls) :: Join(At(ls, p[|prefix|..]))
  }

  lemma CollectIn(prefix: Path, ls: set<Leaf>, p: Path)
    ensures p in Collect(prefix, ls) <==> prefix <= p && At(ls, p[|prefix|..]) != {}
    ensures p in Collect(prefix, ls) ==> Collect(prefix, ls)[p] == Join(At(ls, p[|prefix|..]))
  {
    if p in PathsOf(prefix, ls) {
      var l :| l in ls && prefix + l.path == p;
      assert l.field in At(ls, p[|prefix|..]);
    }
    if prefix <= p && At(ls, p[|prefix|..]) != {} {
      var f :| f in At(ls, p[|prefix|..]);
      var l :| l in ls && l.path == p[|prefix|..] && l.field == f;
      assert prefix + l.path == p;
      assert p in PathsOf(prefix, ls);
    }
  }

  /** Two dictionaries are the same when they agree at every path. */
  ghost predicate Agree(a: Fields, b: Fields, p: Path) {
    (p in a <==> p in b) && (p in a ==> a[p] == b[p])
  }

  lemma AgreeEverywhere(a: Fields, b: Fields)
    requires forall p :: Agree(a, b, p)
    ensures a == b
  {
    forall p ensures p in a <==> p in b {
      assert Agree(a, b, p);
    }
    forall p | p in a ensures a[p] == b[p] {
      assert Agree(a, b, p);
    }
  }

  /** `fields.update` with the fields of a child: no path is shared with what is there. */
  lemma CollectChild(prefix: Path, head: Segment, ls: set<Leaf>, child: set<Leaf>)
    requires forall l :: l in ls && l.path != [] ==> l.path[0] != head
    ensures Collect(prefix, ls + Shift(head, child)) == Collect(prefix, ls) + Collect(prefix + [head], child)
  {
    var whole, parts := Collect(prefix, ls + Shift(head, child)), Collect(prefix, ls) + Collect(prefix + [head], child);
    forall p ensures Agree(whole, parts, p) {
      CollectChildAt(prefix, head, ls, child, p);
    }
    AgreeEverywhere(whole, parts);
  }

  lemma CollectChildAt(prefix: Path, head: Segment, ls: set<Leaf>, child: set<Leaf>, p: Path)
    requires forall l :: l in ls && l.path != [] ==> l.path[0] != head
    ensures Agree(Collect(prefix, ls + Shift(head, child)), Collect(prefix, ls) + Collect(prefix + [head], child), p)
  {
    CollectIn(prefix, ls + Shift(head, child), p);
    CollectIn(prefix, ls, p);
    CollectIn(prefix + [head], child, p);
    if prefix <= p {
      var q := p[|prefix|..];
      ShiftedAt(head, ls, child, q);
      if q != [] && q[0] == head {
        assert At(ls, q) == {};
        assert p[|prefix + [head]|..] == q[1..];
        assert prefix + [head] <= p;
      } else {
        assert !(prefix + [head] <= p);
      }
    }
  }

  lemma ShiftedAt(head: Segment, ls: set<Leaf>, child: set<Leaf>, q: Path)
    requires forall l :: l in ls && l.path != [] ==> l.path[0] != head
    ensures At(ls + Shift(head, child), q)
         == if q != [] && q[0] == head then At(child, q[1..]) else At(ls, q)
  {
    var shifted := Shift(head, child);
    if q != [] && q[0] == head {
      assert At(ls, q) == {};
      forall l | l in child && l.path == q[1..] ensures l.field in At(shifted, q) {
        assert Under(head, l) in shifted && Under(head, l).path == q;
      }
    }
  }

  /* ---- the dictionary-filling recursion ---- */

  ghost predicate WellNamed(s: Schema)
    decreases s
  {
    (forall i, j :: 0 <= i < j < |Props(s)| ==> Props(s)[i].name != Props(s)[j].name)
    && forall p :: p in Parts(s) ==> WellNamed(p)
  }

  ghost predicate WellNamedAll(c: Components) {
    forall n :: n in c ==> WellNamed(c[n])
  }

  /** Whether flattening `s` ends: the enum of every schema it comes to can be read. */
  ghost predicate Readable(s: Schema, c: Components, seen: set<string>)
    decreases AllRefs(s, c) - seen, s, 2
  {
    if !s.ref.Ref? then BodyReadable(s, c, seen)
    else if s.ref.uri in seen then true
    else
      ResolvedRefs(s, c);
      BodyReadable(Resolve(s.ref.uri, c), c, seen + {s.ref.uri})
  }

  ghost predicate BodyReadable(s: Schema, c: Components, seen: set<string>)
    decreases AllRefs(s, c) - seen, s, 1
  {
    EnumHalts(s, c) && forall p :: p in Parts(s) ==> PartReadable(s, p, c, seen)
  }

  ghost predicate PartReadable(s: Schema, p: Schema, c: Components, seen: set<string>)
    requires p in Parts(s)
    decreases AllRefs(s, c) - seen, s, 0
  {
    PartRefs(s, p, c);
    Readable(p, c, seen)
  }

  /** When reading enums ends on the components, flattening ends on every schema. */
  lemma {:induction false} EverySchemaReadable(s: Schema, c: Components, seen: set<string>)
    requires HaltsAll(c)
    ensures Readable(s, c, seen)
    decreases AllRefs(s, c) - seen, s, 2
  {
    if !s.ref.Ref? {
      EveryBodyReadable(s, c, seen);
    } else if s.ref.uri !in seen {
      ResolvedRefs(s, c);
      EveryBodyReadable(Resolve(s.ref.uri, c), c, seen + {s.ref.uri});
    }
  }

  lemma {:induction false} EveryBodyReadable(s: Schema, c: Components, seen: set<string>)
    requires HaltsAll(c)
    ensures BodyReadable(s, c, seen)
    decreases AllRefs(s, c) - seen, s, 1
  {
    EverySchemaHalts(s, c);
    forall p | p in Parts(s) ensures PartReadable(s, p, c, seen) {
      PartRefs(s, p, c);
      EverySchemaReadable(p, c, seen);
    }
  }

  /** The fields after one member's fields are merged in, its own root aside. */
  ghost function MergedIn(fields: Fields, merged: Fields, prefix: Path): Fields {
    map k | k in fields.Keys + (merged.Keys - {prefix}) ::
      if k in merged && k != prefix then (if k in fields then MergeField(fields[k], merged[k]) else merged[k])
      else fields[k]
  }

  ghost function Among(merged: Fields, keys: set<Path>): Fields {
    map k | k in merged && k in keys :: merged[k]
  }

  /** What one more key adds, when it has not been merged yet. */
  lemma MergeStep(fields: Fields, merged: Fields, prefix: Path, keys: set<Path>, key: Path)
    requires key in merged && key !in keys
    ensures var before, after :=
      MergedIn(fields, Among(merged, keys), prefix), MergedIn(fields, Among(merged, keys + {key}), prefix);
      after == if key == prefix then before
               else before[key := if key in before then MergeField(before[key], merged[key]) else merged[key]]
  {
    var before, after :=
      MergedIn(fields, Among(merged, keys), prefix), MergedIn(fields, Among(merged, keys + {key}), prefix);
    var step := if key == prefix then before
                else before[key := if key in before then MergeField(before[key], merged[key]) else merged[key]];
    forall p ensures Agree(after, step, p) {
    }
    AgreeEverywhere(after, step);
  }

  method MergeMember(fields: Fields, merged: Fields, prefix: Path) returns (result: Fields)
    ensures result == MergedIn(fields, merged, prefix)
  {
    result := fields;
    var todo := merged.Keys;
    assert Among(merged, merged.Keys - todo) == map[];
    while todo != {}
      invariant todo <= merged.Keys
      invariant result == MergedIn(fields, Among(merged, merged.Keys - todo), prefix)
    {
      var key :| key in todo;
      MergeStep(fields, merged, prefix, merged.Keys - todo, key);
      assert merged.Keys - (todo - {key}) == merged.Keys - todo + {key};
      todo := todo - {key};
      if key != prefix {
        result := result[key := if key in result then MergeField(result[key], merged[key]) else merged[key]];
      }
    }
    assert Among(merged, merged.Keys - todo) == merged;
  }

  lemma CollectMember(prefix: Path, ls: set<Leaf>, member: set<Leaf>)
    ensures Collect(prefix, ls + Below(member)) == MergedIn(Collect(prefix, ls), Collect(prefix, member), prefix)
  {
    var whole, merged :=
      Collect(prefix, ls + Below(member)), MergedIn(Collect(prefix, ls), Collect(prefix, member), prefix);
    forall p ensures Agree(whole, merged, p) {
      CollectMemberAt(prefix, ls, member, p);
    }
    AgreeEverywhere(whole, merged);
  }

  lemma CollectMemberAt(prefix: Path, ls: set<Leaf>, member: set<Leaf>, p: Path)
    ensures Agree(Collect(prefix, ls + Below(member)), MergedIn(Collect(prefix, ls), Collect(prefix, member), prefix),
      p)
  {
    CollectIn(prefix, ls + Below(member), p);
    CollectIn(prefix, ls, p);
    CollectIn(prefix, member, p);
    if prefix <= p {
      var q := p[|prefix|..];
      assert p == prefix + q;
      MemberAt(ls, member, q);
      JoinedAt(At(ls, q), At(member, q));
    }
  }

  lemma JoinedAt(a: set<Field>, b: set<Field>)
    ensures a == {} ==> Join(a + b) == Join(b)
    ensures b == {} ==> Join(a + b) == Join(a)
    ensures Join(a + b) == MergeField(Join(a), Join(b))
  {
    JoinUnion(a, b);
    assert a == {} ==> a + b == b;
    assert b == {} ==> a + b == a;
  }

  lemma MemberAt(ls: set<Leaf>, member: set<Leaf>, q: Path)
    ensures At(ls + Below(member), q) == if q == [] then At(ls, q) else At(ls, q) + At(member, q)
  {
  }

  lemma CollectOne(prefix: Path, field: Field)
    ensures Collect(prefix, {Leaf([], field)}) == map[prefix := field]
  {
    forall p ensures Agree(Collect(prefix, {Leaf([], field)}), map[prefix := field], p) {
      CollectIn(prefix, {Leaf([], field)}, p);
      if prefix <= p {
        assert p == prefix + p[|prefix|..];
        if p == prefix {
          assert At({Leaf([], field)}, p[|prefix|..]) == {field};
          JoinOne(field);
        }
      }
    }
    AgreeEverywhere(Collect(prefix, {Leaf([], field)}), map[prefix := field]);
  }

  lemma PropertyStep(ps: seq<Property>, i: nat, names: seq<string>, c: Components, seen: set<string>)
    requires i < |ps|
    ensures PropertyGroup(ps[..i + 1], names, c, seen)
         == PropertyGroup(ps[..i], names, c, seen)
            + Shift(Named(ps[i].name), Leaves(ps[i].schema, c, ps[i].name in names, seen))
  {
    assert forall p :: p in ps[..i + 1] <==> p in ps[..i] || p == ps[i];
  }

  lemma MemberStep(ms: seq<Schema>, i: nat, c: Components, required: bool, seen: set<string>)
    requires i < |ms|
    ensures MemberGroup(ms[..i + 1], c, required, seen)
         == MemberGroup(ms[..i], c, required, seen) + Below(Leaves(ms[i], c, required, seen))
  {
    assert forall m :: m in ms[..i + 1] <==> m in ms[..i] || m == ms[i];
  }

  lemma CollectMemberStep(prefix: Path, done: set<Leaf>, ms: seq<Schema>, i: nat, c: Components, required: bool,
      seen: set<string>)
    requires i < |ms|
    ensures Collect(prefix, done + MemberGroup(ms[..i + 1], c, required, seen))
         == MergedIn(Collect(prefix, done + MemberGroup(ms[..i], c, required, seen)),
                     Collect(prefix, Leaves(ms[i], c, required, seen)), prefix)
  {
    MemberStep(ms, i, c, required, seen);
    CollectMember(prefix, done + MemberGroup(ms[..i], c, required, seen), Leaves(ms[i], c, required, seen));
    assert done + MemberGroup(ms[..i + 1], c, required, seen)
        == done + MemberGroup(ms[..i], c, required, seen) + Below(Leaves(ms[i], c, required, seen));
  }

  method Flatten(s: Schema, c: Components, prefix: Path, required: bool, seen: set<string>) returns (fields: Fields)
    requires WellNamedAll(c) && WellNamed(s) && Readable(s, c, seen)
    ensures fields == Collect(prefix, Leaves(s, c, required, seen))
    decreases AllRefs(s, c) - seen, s, 2
  {
    if !s.ref.Ref? {
      fields := FlattenBody(s, c, prefix, required, seen);
    } else if s.ref.uri in seen {
      CollectOne(prefix, Field(RECURSION_MARKER, required, None));
      fields := map[prefix := Field(RECURSION_MARKER, required, None)];
    } else {
      ResolvedRefs(s, c);
      fields := FlattenBody(Resolve(s.ref.uri, c), c, prefix, required, seen + {s.ref.uri});
    }
  }

  method FlattenBody(s: Schema, c: Components, prefix: Path, required: bool, seen: set<string>) returns (fields: Fields)
    requires WellNamedAll(c) && WellNamed(s) && BodyReadable(s, c, seen)
    ensures fields == Collect(prefix, BodyLeaves(s, c, required, seen))
    decreases AllRefs(s, c) - seen, s, 1
  {
    var values := ReadEnum(s, c);
    CollectOne(prefix, Field(TypeNames(s), required, values));
    fields := map[prefix := Field(TypeNames(s), required, values)];
    ghost var root := {RootLeaf(s, c, required)};
    fields := FlattenProperties(s, c, prefix, seen, fields, root);
    ghost var named := root + PropertyGroup(Props(s), s.required, c, seen);
    NamedHeads(root, Props(s), s.required, c, seen);
    fields := FlattenChild(s, Items, s.items, c, prefix, true, seen, fields, named);
    ghost var listed := named + ChildGroup(Items, s.items, c, true, seen);
    fields := FlattenChild(s, Extra, s.extra, c, prefix, false, seen, fields, listed);
    ghost var keyed := listed + ChildGroup(Extra, s.extra, c, false, seen);
    fields := FlattenMembers(s, s.allOf, c, prefix, required, seen, fields, keyed);
    fields := FlattenMembers(s, s.anyOf + s.oneOf, c, prefix, false, seen, fields,
                             keyed + MemberGroup(s.allOf, c, required, seen));
    BodyGroups(s, c, required, seen);
  }

  lemma NamedHeads(root: set<Leaf>, ps: seq<Property>, names: seq<string>, c: Components, seen: set<string>)
    requires forall l :: l in root ==> l.path == []
    ensures forall l :: l in root + PropertyGroup(ps, names, c, seen) && l.path != [] ==>
      l.path[0].Named? && exists p :: p in ps && p.name == l.path[0].name
  {
  }

  method FlattenChild(s: Schema, head: Segment, child: Option<Schema>, c: Components, prefix: Path, required: bool,
                      seen: set<string>, before: Fields, ghost done: set<Leaf>)
      returns (fields: Fields)
    requires WellNamedAll(c) && WellNamed(s) && BodyReadable(s, c, seen)
    requires child.Some? ==> child.value in Parts(s)
    requires before == Collect(prefix, done) && forall l :: l in done && l.path != [] ==> l.path[0] != head
    ensures fields == Collect(prefix, done + ChildGroup(head, child, c, required, seen))
    decreases AllRefs(s, c) - seen, s, 0
  {
    if child.None? {
      assert done + ChildGroup(head, child, c, required, seen) == done;
      return before;
    }
    PartRefs(s, child.value, c);
    var below := Flatten(child.value, c, prefix + [head], required, seen);
    CollectChild(prefix, head, done, Leaves(child.value, c, required, seen));
    fields := before + below;
  }

  method FlattenProperties(s: Schema, c: Components, prefix: Path, seen: set<string>, before: Fields,
      ghost done: set<Leaf>)
      returns (fields: Fields)
    requires WellNamedAll(c) && WellNamed(s) && BodyReadable(s, c, seen)
    requires before == Collect(prefix, done) && forall l :: l in done ==> l.path == []
    ensures fields == Collect(prefix, done + PropertyGroup(Props(s), s.required, c, seen))
    decreases AllRefs(s, c) - seen, s, 0
  {
    var ps := Props(s);
    fields := before;
    assert done + PropertyGroup(ps[..0], s.required, c, seen) == done;
    for i := 0 to |ps|
      invariant fields == Collect(prefix, done + PropertyGroup(ps[..i], s.required, c, seen))
    {
      var p := ps[i];
      PartRefs(s, p.schema, c);
      var child := Flatten(p.schema, c, prefix + [Named(p.name)], p.name in s.required, seen);
      NamedHeads(done, ps[..i], s.required, c, seen);
      CollectChild(prefix, Named(p.name), done + PropertyGroup(ps[..i], s.required, c, seen),
                   Leaves(p.schema, c, p.name in s.required, seen));
      PropertyStep(ps, i, s.required, c, seen);
      assert done + PropertyGroup(ps[..i + 1], s.required, c, seen)
          == done + PropertyGroup(ps[..i], s.required, c, seen)
             + Shift(Named(p.name), Leaves(p.schema, c, p.name in s.required, seen));
      fields := fields + child;
    }
    assert ps[..|ps|] == ps;
  }

  method FlattenMembers(s: Schema, ms: seq<Schema>, c: Components, prefix: Path, required: bool, seen: set<string>,
                        before: Fields, ghost done: set<Leaf>)
      returns (fields: Fields)
    requires WellNamedAll(c) && WellNamed(s) && BodyReadable(s, c, seen)
    requires before == Collect(prefix, done) && forall m :: m in ms ==> m in Parts(s)
    ensures forall r :: fields == Collect(prefix, done + MemberGroup(ms, c, r, seen))
    decreases AllRefs(s, c) - seen, s, 0
  {
    fields := before;
    assert done + MemberGroup(ms[..0], c, required, seen) == done;
    for i := 0 to |ms|
      invariant fields == Collect(prefix, done + MemberGroup(ms[..i], c, required, seen))
    {
      PartRefs(s, ms[i], c);
      var merged := Flatten(ms[i], c, prefix, required, seen);
      CollectMemberStep(prefix, done, ms, i, c, required, seen);
      fields := MergeMember(fields, merged, prefix);
    }
    assert ms[..|ms|] == ms;
    forall r ensures MemberGroup(ms, c, r, seen) == MemberGroup(ms, c, required, seen) {
      MembersIgnoreRequired(ms, c, r, required, seen);
    }
  }
}
