/** Order independence: documents that differ in the order of what they list have the same fields. */
module OpenApiReorder {

  // Writing the properties, enum values, required names, type names or the members
  // of allOf, anyOf and oneOf in another order, anywhere in a document, leaves every
  // flattened field as it was. Two documents that differ only in such orders are
  // related by a pairing of their schemas: paired schemas look alike one level deep,
  // up to order, and their parts are paired again.

  import opened Basics
  import opened OpenApiSchema
  import opened OpenApiFlatten

  type Pairing = iset<(Schema, Schema)>

  ghost predicate SameTypeDecl(a: TypeDecl, b: TypeDecl) {
    a == b || (a.Several? && b.Several? && Elements(a.names) == Elements(b.names))
  }

  ghost predicate SameValues(a: Option<seq<string>>, b: Option<seq<string>>) {
    a == b || (a.Some? && b.Some? && Elements(a.value) == Elements(b.value))
  }

  ghost predicate HasRight(x: Schema, ys: seq<Schema>, r: Pairing) {
    exists y :: y in ys && (x, y) in r
  }

  ghost predicate HasLeft(xs: seq<Schema>, y: Schema, r: Pairing) {
    exists x :: x in xs && (x, y) in r
  }

  ghost predicate Matched(xs: seq<Schema>, ys: seq<Schema>, r: Pairing) {
    (forall x {:trigger HasRight(x, ys, r)} :: x in xs ==> HasRight(x, ys, r))
    && (forall y {:trigger HasLeft(xs, y, r)} :: y in ys ==> HasLeft(xs, y, r))
  }

  ghost predicate PropertyRight(p: Property, qs: seq<Property>, r: Pairing) {
    exists q :: q in qs && p.name == q.name && (p.schema, q.schema) in r
  }

  ghost predicate PropertyLeft(ps: seq<Property>, q: Property, r: Pairing) {
    exists p :: p in ps && p.name == q.name && (p.schema, q.schema) in r
  }

  ghost predicate MatchedProperties(ps: seq<Property>, qs: seq<Property>, r: Pairing) {
    (forall p {:trigger PropertyRight(p, qs, r)} :: p in ps ==> PropertyRight(p, qs, r))
    && (forall q {:trigger PropertyLeft(ps, q, r)} :: q in qs ==> PropertyLeft(ps, q, r))
  }

  ghost predicate MatchedOption(a: Option<Schema>, b: Option<Schema>, r: Pairing) {
    a.Some? == b.Some? && (a.Some? ==> (a.value, b.value) in r)
  }

  /** Alike one level deep, up to the order and repetition of what is listed. */
  ghost predicate Alike(s: Schema, t: Schema, r: Pairing) {
    && s.ref == t.ref && SameTypeDecl(s.typ, t.typ) && SameValues(s.enum, t.enum) && s.const_ == t.const_
    && s.properties.Table? == t.properties.Table? && Elements(s.required) == Elements(t.required)
    && MatchedProperties(Props(s), Props(t), r)
    && MatchedOption(s.items, t.items, r) && MatchedOption(s.extra, t.extra, r)
    && Matched(s.allOf, t.allOf, r) && Matched(s.anyOf, t.anyOf, r) && Matched(s.oneOf, t.oneOf, r)
  }

  ghost predicate Consistent(r: Pairing) {
    forall s, t {:trigger Alike(s, t, r)} :: (s, t) in r ==> Alike(s, t, r)
  }

  /** The components of two documents that differ only in the order of what is listed. */
  ghost predicate Reordered(c: Components, d: Components, r: Pairing) {
    Consistent(r) && (EMPTY_SCHEMA, EMPTY_SCHEMA) in r
    && c.Keys == d.Keys && forall n :: n in c ==> (c[n], d[n]) in r
  }

  lemma DerefPaired(m: Schema, n: Schema, c: Components, d: Components, r: Pairing)
    requires Reordered(c, d, r) && (m, n) in r
    ensures (Deref(m, c), Deref(n, d)) in r
  {
    assert Alike(m, n, r);
  }

  /* ---- type names ---- */

  lemma {:induction false} TypeNamesReordered(s: Schema, t: Schema, r: Pairing)
    requires Consistent(r) && (s, t) in r
    ensures TypeNames(s) == TypeNames(t)
    decreases s, 1
  {
    assert Alike(s, t, r);
    UnionNamesReordered(s.anyOf, t.anyOf, r);
    UnionNamesReordered(s.oneOf, t.oneOf, r);
  }

  lemma {:induction false} UnionNamesReordered(xs: seq<Schema>, ys: seq<Schema>, r: Pairing)
    requires Consistent(r) && Matched(xs, ys, r)
    ensures UnionNames(xs) == UnionNames(ys)
    decreases xs, 0
  {
    forall x, y | x in xs && y in ys && (x, y) in r ensures MemberNames(x) == MemberNames(y) {
      TypeNamesReordered(x, y, r);
    }
    forall n | n in UnionNames(xs) ensures n in UnionNames(ys) {
      var x :| x in xs && n in MemberNames(x);
      assert HasRight(x, ys, r);
      var y :| y in ys && (x, y) in r;
    }
    forall n | n in UnionNames(ys) ensures n in UnionNames(xs) {
      var y :| y in ys && n in MemberNames(y);
      assert HasLeft(xs, y, r);
      var x :| x in xs && (x, y) in r;
    }
  }

  /* ---- enum values ---- */

  lemma UnionMembersMatch(s: Schema, t: Schema, r: Pairing)
    requires Consistent(r) && (s, t) in r
    ensures Matched(s.anyOf + s.oneOf, t.anyOf + t.oneOf, r)
  {
    assert Alike(s, t, r);
    var xs, ys := s.anyOf + s.oneOf, t.anyOf + t.oneOf;
    forall x | x in xs ensures HasRight(x, ys, r) {
      assert HasRight(x, t.anyOf, r) || HasRight(x, t.oneOf, r);
    }
    forall y | y in ys ensures HasLeft(xs, y, r) {
      assert HasLeft(s.anyOf, y, r) || HasLeft(s.oneOf, y, r);
    }
  }

  lemma {:induction false} CompletesReordered(s: Schema, t: Schema, c: Components, d: Components, r: Pairing,
      depth: nat)
    requires Reordered(c, d, r) && (s, t) in r
    ensures Completes(s, c, depth) <==> Completes(t, d, depth)
    decreases depth
  {
    assert Alike(s, t, r);
    if depth > 0 && s.enum.None? && s.const_.None? {
      var xs, ys := s.anyOf + s.oneOf, t.anyOf + t.oneOf;
      UnionMembersMatch(s, t, r);
      forall x, y | x in xs && y in ys && (x, y) in r
        ensures Completes(Deref(x, c), c, depth - 1) <==> Completes(Deref(y, d), d, depth - 1)
      {
        DerefPaired(x, y, c, d, r);
        CompletesReordered(Deref(x, c), Deref(y, d), c, d, r, depth - 1);
      }
      forall x | x in xs && Completes(t, d, depth) ensures Completes(Deref(x, c), c, depth - 1) {
        assert HasRight(x, ys, r);
      }
      forall y | y in ys && Completes(s, c, depth) ensures Completes(Deref(y, d), d, depth - 1) {
        assert HasLeft(xs, y, r);
      }
    }
  }

  lemma HaltsReordered(s: Schema, t: Schema, c: Components, d: Components, r: Pairing)
    requires Reordered(c, d, r) && (s, t) in r
    ensures EnumHalts(s, c) <==> EnumHalts(t, d)
  {
    forall depth: nat ensures Completes(s, c, depth) <==> Completes(t, d, depth) {
      CompletesReordered(s, t, c, d, r, depth);
    }
  }

  lemma HaltsAllReordered(c: Components, d: Components, r: Pairing)
    requires Reordered(c, d, r) && HaltsAll(c)
    ensures HaltsAll(d)
  {
    forall n | n in d ensures EnumHalts(d[n], d) {
      HaltsReordered(c[n], d[n], c, d, r);
    }
  }

  lemma {:induction false} EnumReordered(s: Schema, t: Schema, c: Components, d: Components, r: Pairing)
    requires Reordered(c, d, r) && (s, t) in r && EnumHalts(s, c)
    ensures EnumHalts(t, d) && EnumValues(s, c) == EnumValues(t, d)
    decreases EnumDepth(s, c)
  {
    assert Alike(s, t, r);
    HaltsReordered(s, t, c, d, r);
    if s.enum.None? && s.const_.None? {
      var xs, ys := s.anyOf + s.oneOf, t.anyOf + t.oneOf;
      UnionMembersMatch(s, t, r);
      forall x, y | x in xs && y in ys && (x, y) in r
        ensures Closed(x, c) == Closed(y, d) && forall v :: Lists(x, c, v) <==> Lists(y, d, v)
      {
        DerefPaired(x, y, c, d, r);
        MemberHalts(s, c, x);
        EnumReordered(Deref(x, c), Deref(y, d), c, d, r);
      }
      SameListing(xs, ys, c, d, r);
      UnionValues(s, c);
      UnionValues(t, d);
      if EnumValues(s, c).Some? {
        assert EnumValues(s, c).value == EnumValues(t, d).value;
      }
    }
  }

  lemma SameListing(xs: seq<Schema>, ys: seq<Schema>, c: Components, d: Components, r: Pairing)
    requires Matched(xs, ys, r)
    requires forall x, y :: x in xs && y in ys && (x, y) in r ==>
      Closed(x, c) == Closed(y, d) && forall v :: Lists(x, c, v) <==> Lists(y, d, v)
    ensures (exists x :: x in xs && Closed(x, c)) <==> (exists y :: y in ys && Closed(y, d))
    ensures forall v :: Offers(xs, c, v) <==> Offers(ys, d, v)
  {
    forall x | x in xs ensures HasRight(x, ys, r) {
    }
    forall y | y in ys ensures HasLeft(xs, y, r) {
    }
  }

  /* ---- leaves ---- */

  lemma {:induction false} LeavesReordered(s: Schema, t: Schema, c: Components, d: Components, r: Pairing,
                                           required: bool, seen: set<string>)
    requires Reordered(c, d, r) && (s, t) in r
    ensures Leaves(s, c, required, seen) == Leaves(t, d, required, seen)
    decreases AllRefs(s, c) - seen, s, 2
  {
    assert Alike(s, t, r);
    if !s.ref.Ref? {
      BodyReordered(s, t, c, d, r, required, seen);
    } else if s.ref.uri !in seen {
      ResolvedRefs(s, c);
      DerefPaired(s, t, c, d, r);
      BodyReordered(Resolve(s.ref.uri, c), Resolve(t.ref.uri, d), c, d, r, required, seen + {s.ref.uri});
    }
  }

  lemma {:induction false} BodyReordered(s: Schema, t: Schema, c: Components, d: Components, r: Pairing,
                                         required: bool, seen: set<string>)
    requires Reordered(c, d, r) && (s, t) in r
    ensures BodyLeaves(s, c, required, seen) == BodyLeaves(t, d, required, seen)
    decreases AllRefs(s, c) - seen, s, 1
  {
    assert Alike(s, t, r);
    RootReordered(s, t, c, d, r, required);
    PropertiesReordered(s, t, c, d, r, seen);
    ChildReordered(s, Items, s.items, t.items, c, d, r, true, seen);
    ChildReordered(s, Extra, s.extra, t.extra, c, d, r, false, seen);
    MembersReordered(s, s.allOf, t.allOf, c, d, r, required, seen);
    UnionMembersMatch(s, t, r);
    MembersReordered(s, s.anyOf + s.oneOf, t.anyOf + t.oneOf, c, d, r, false, seen);
    BodyGroups(s, c, required, seen);
    BodyGroups(t, d, required, seen);
  }

  lemma RootReordered(s: Schema, t: Schema, c: Components, d: Components, r: Pairing, required: bool)
    requires Reordered(c, d, r) && (s, t) in r
    ensures RootLeaf(s, c, required) == RootLeaf(t, d, required)
  {
    TypeNamesReordered(s, t, r);
    HaltsReordered(s, t, c, d, r);
    if EnumHalts(s, c) {
      EnumReordered(s, t, c, d, r);
    }
  }

  lemma {:induction false} PartReordered(s: Schema, p: Schema, q: Schema, c: Components, d: Components, r: Pairing,
                                         required: bool, seen: set<string>)
    requires p in Parts(s) && (p, q) in r && Reordered(c, d, r)
    ensures Leaves(p, c, required, seen) == Leaves(q, d, required, seen)
    decreases AllRefs(s, c) - seen, s, 0, 0
  {
    PartRefs(s, p, c);
    LeavesReordered(p, q, c, d, r, required, seen);
  }

  lemma {:induction false} ChildReordered(s: Schema, head: Segment, a: Option<Schema>, b: Option<Schema>,
                                          c: Components, d: Components, r: Pairing, required: bool, seen: set<string>)
    requires MatchedOption(a, b, r) && Reordered(c, d, r)
    requires a.Some? ==> a.value in Parts(s)
    ensures ChildGroup(head, a, c, required, seen) == ChildGroup(head, b, d, required, seen)
    decreases AllRefs(s, c) - seen, s, 0, 1
  {
    if a.Some? {
      PartReordered(s, a.value, b.value, c, d, r, required, seen);
    }
  }

  lemma {:induction false} PropertiesReordered(s: Schema, t: Schema, c: Components, d: Components, r: Pairing,
      seen: set<string>)
    requires Reordered(c, d, r) && (s, t) in r
    ensures PropertyGroup(Props(s), s.required, c, seen) == PropertyGroup(Props(t), t.required, d, seen)
    decreases AllRefs(s, c) - seen, s, 0, 1
  {
    assert Alike(s, t, r);
    var ps, qs := Props(s), Props(t);
    assert forall n :: n in s.required <==> n in Elements(s.required);
    assert forall n :: n in t.required <==> n in Elements(t.required);
    forall p, q | p in ps && q in qs && p.name == q.name && (p.schema, q.schema) in r
      ensures Leaves(p.schema, c, p.name in s.required, seen) == Leaves(q.schema, d, q.name in t.required, seen)
    {
      assert p.schema in Parts(s);
      PartReordered(s, p.schema, q.schema, c, d, r, p.name in s.required, seen);
    }
    SameGroup(ps, qs, s.required, t.required, c, d, r, seen);
  }

  lemma SameGroup(ps: seq<Property>, qs: seq<Property>, names: seq<string>, others: seq<string>,
                  c: Components, d: Components, r: Pairing, seen: set<string>)
    requires MatchedProperties(ps, qs, r)
    requires forall p, q :: p in ps && q in qs && p.name == q.name && (p.schema, q.schema) in r ==>
      Leaves(p.schema, c, p.name in names, seen) == Leaves(q.schema, d, q.name in others, seen)
    ensures PropertyGroup(ps, names, c, seen) == PropertyGroup(qs, others, d, seen)
  {
    forall l | l in PropertyGroup(ps, names, c, seen) ensures l in PropertyGroup(qs, others, d, seen) {
      var p, k :| p in ps && k in Leaves(p.schema, c, p.name in names, seen) && l == Under(Named(p.name), k);
      assert PropertyRight(p, qs, r);
      var q :| q in qs && p.name == q.name && (p.schema, q.schema) in r;
      assert k in Leaves(q.schema, d, q.name in others, seen);
    }
    forall l | l in PropertyGroup(qs, others, d, seen) ensures l in PropertyGroup(ps, names, c, seen) {
      var q, k :| q in qs && k in Leaves(q.schema, d, q.name in others, seen) && l == Under(Named(q.name), k);
      assert PropertyLeft(ps, q, r);
      var p :| p in ps && p.name == q.name && (p.schema, q.schema) in r;
      assert k in Leaves(p.schema, c, p.name in names, seen);
    }
  }

  lemma {:induction false} MembersReordered(s: Schema, xs: seq<Schema>, ys: seq<Schema>, c: Components, d: Components,
                                            r: Pairing, required: bool, seen: set<string>)
    requires Matched(xs, ys, r) && Reordered(c, d, r)
    requires forall x :: x in xs ==> x in Parts(s)
    ensures MemberGroup(xs, c, required, seen) == MemberGroup(ys, d, required, seen)
    decreases AllRefs(s, c) - seen, s, 0, 1
  {
    forall x, y | x in xs && y in ys && (x, y) in r
      ensures Leaves(x, c, required, seen) == Leaves(y, d, required, seen)
    {
      PartReordered(s, x, y, c, d, r, required, seen);
    }
    SameMembers(xs, ys, c, d, r, required, seen);
  }

  lemma SameMembers(xs: seq<Schema>, ys: seq<Schema>, c: Components, d: Components, r: Pairing,
                    required: bool, seen: set<string>)
    requires Matched(xs, ys, r)
    requires forall x, y :: x in xs && y in ys && (x, y) in r ==>
      Leaves(x, c, required, seen) == Leaves(y, d, required, seen)
    ensures MemberGroup(xs, c, required, seen) == MemberGroup(ys, d, required, seen)
  {
    forall l | l in MemberGroup(xs, c, required, seen) ensures l in MemberGroup(ys, d, required, seen) {
      var x :| x in xs && l in Leaves(x, c, required, seen);
      assert HasRight(x, ys, r);
      var y :| y in ys && (x, y) in r;
      assert l in Leaves(y, d, required, seen);
    }
    forall l | l in MemberGroup(ys, d, required, seen) ensures l in MemberGroup(xs, c, required, seen) {
      var y :| y in ys && l in Leaves(y, d, required, seen);
      assert HasLeft(xs, y, r);
      var x :| x in xs && (x, y) in r;
      assert l in Leaves(x, c, required, seen);
    }
  }
}
