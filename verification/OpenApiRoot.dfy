/** What `required` of a union member comes to, and the root field, which is never compared. */
module OpenApiRoot {
  import opened Basics
  import opened OpenApiSchema
  import opened OpenApiFlatten
  import opened OpenApiCompare
  import opened OpenApiCompatibility

  /* ---- what makes a field of a union required ---- */

  /** Every contribution at a path is required. */
  ghost predicate RequiredAt(ls: set<Leaf>, p: Path) {
    forall l: Leaf :: l in ls && l.path == p ==> l.field.required
  }

  /** A field of any schema is required exactly when every contribution to it is. */
  lemma JoinedRequired(ls: set<Leaf>, p: Path)
    requires p in Collect([], ls)
    ensures Collect([], ls)[p].required <==> RequiredAt(ls, p)
  {
    CollectIn([], ls, p);
    assert p[0..] == p;
    assert forall l: Leaf :: l in ls && l.path == p ==> l.field in At(ls, p);
  }

  /** What a schema contributes below its root apart from its union. */
  ghost function OwnLeaves(s: Schema, c: Components, required: bool, seen: set<string>): set<Leaf> {
    PropertyGroup(Props(s), s.required, c, seen)
    + ChildGroup(Items, s.items, c, true, seen) + ChildGroup(Extra, s.extra, c, false, seen)
    + MemberGroup(s.allOf, c, required, seen)
  }

  ghost function UnionGroup(s: Schema, c: Components, required: bool, seen: set<string>): set<Leaf> {
    MemberGroup(s.anyOf + s.oneOf, c, required, seen)
  }

  lemma BodyOfParts(s: Schema, c: Components, required: bool, seen: set<string>)
    ensures BodyLeaves(s, c, required, seen)
         == {RootLeaf(s, c, required)} + (OwnLeaves(s, c, required, seen) + UnionGroup(s, c, required, seen))
  {
    BodyGroups(s, c, required, seen);
    MembersIgnoreRequired(s.anyOf + s.oneOf, c, false, required, seen);
  }

  lemma RequiredInParts(root: Leaf, own: set<Leaf>, union: set<Leaf>, ls: set<Leaf>, p: Path)
    requires root.path == [] && ls == {root} + (own + union) && p != [] && p in Collect([], ls)
    ensures Collect([], ls)[p].required <==> RequiredAt(own, p) && RequiredAt(union, p)
  {
    JoinedRequired(ls, p);
  }

  lemma BodyRequires(s: Schema, c: Components, required: bool, seen: set<string>, p: Path)
    requires p != [] && p in Collect([], BodyLeaves(s, c, required, seen))
    ensures Collect([], BodyLeaves(s, c, required, seen))[p].required <==>
      RequiredAt(OwnLeaves(s, c, required, seen), p) && RequiredAt(UnionGroup(s, c, required, seen), p)
  {
    BodyOfParts(s, c, required, seen);
    RequiredInParts(RootLeaf(s, c, required), OwnLeaves(s, c, required, seen), UnionGroup(s, c, required, seen),
                    BodyLeaves(s, c, required, seen), p);
  }

  /** A field below any schema is required exactly when its own contributions are and every contribution
      of a union member is: a member without the field does not relax it, and whatever `required` the
      members are given makes no difference. */
  lemma UnionRequires(s: Schema, c: Components, required: bool, seen: set<string>, p: Path)
    requires p != [] && p in Collect([], Leaves(s, c, required, seen))
    ensures var t, after := Deref(s, c), Followed(s, seen);
      Collect([], Leaves(s, c, required, seen))[p].required <==>
        RequiredAt(OwnLeaves(t, c, required, after), p) && RequiredAt(UnionGroup(t, c, required, after), p)
    ensures forall q :: UnionGroup(Deref(s, c), c, q, Followed(s, seen))
                     == UnionGroup(Deref(s, c), c, required, Followed(s, seen))
  {
    if s.ref.Ref? && s.ref.uri in seen {
      CollectOne([], Field(RECURSION_MARKER, required, None));
    } else {
      BodyRequires(Deref(s, c), c, required, Followed(s, seen), p);
    }
    var t := Deref(s, c);
    forall q ensures UnionGroup(t, c, q, Followed(s, seen)) == UnionGroup(t, c, required, Followed(s, seen)) {
      MembersIgnoreRequired(t.anyOf + t.oneOf, c, q, required, Followed(s, seen));
    }
  }

  /* ---- the root is never compared ---- */

  lemma ParentsAlike(n: Path, f: Fields, g: Fields, x: Field, y: Field)
    ensures OptionalNewParent(n, f[[] := x], g[[] := y]) <==> OptionalNewParent(n, f, g)
  {
    var f', g' := f[[] := x], g[[] := y];
    assert forall q :: q != [] ==> (q in f' <==> q in f) && (q in g' <==> q in g) && (q in g ==> g'[q] == g[q]);
  }

  lemma OldSideAlike(f: Fields, g: Fields, x: Field, y: Field, where: Where, kind: Kind, dir: Direction)
    ensures var f', g' := f[[] := x], g[[] := y];
      FromOld(f'.Keys, f', g', where, kind, dir) == FromOld(f.Keys, f, g, where, kind, dir)
  {
    var f', g' := f[[] := x], g[[] := y];
    forall n | n != [] && n in f
      ensures n in f' && OldNameChanges(where, kind, dir, n, f'[n], g') == OldNameChanges(where, kind, dir, n, f[n], g)
    {
    }
    var left, right := FromOld(f'.Keys, f', g', where, kind, dir), FromOld(f.Keys, f, g, where, kind, dir);
    forall ch | ch in left ensures ch in right {
      var n :| n in f' && n != [] && ch in OldNameChanges(where, kind, dir, n, f'[n], g');
      assert n in f;
    }
    forall ch | ch in right ensures ch in left {
      var n :| n in f && n != [] && ch in OldNameChanges(where, kind, dir, n, f[n], g);
      assert n in f';
    }
  }

  lemma NewSideAlike(f: Fields, g: Fields, x: Field, y: Field, where: Where, kind: Kind, dir: Direction)
    ensures var f', g' := f[[] := x], g[[] := y];
      FromNew(g'.Keys, f', g', where, kind, dir) == FromNew(g.Keys, f, g, where, kind, dir)
  {
    var f', g' := f[[] := x], g[[] := y];
    forall n | n != [] && n in g
      ensures n in g' && NewNameChange(where, kind, dir, n, f', g') == NewNameChange(where, kind, dir, n, f, g)
    {
      ParentsAlike(n, f, g, x, y);
    }
    var left, right := FromNew(g'.Keys, f', g', where, kind, dir), FromNew(g.Keys, f, g, where, kind, dir);
    forall ch | ch in left ensures ch in right {
      var n :| n in g' && n != [] && n !in f' && ch == NewNameChange(where, kind, dir, n, f', g');
      assert n in g && n !in f;
    }
    forall ch | ch in right ensures ch in left {
      var n :| n in g && n != [] && n !in f && ch == NewNameChange(where, kind, dir, n, f, g);
      assert n in g' && n !in f';
    }
  }

  /** Whatever stands at the two roots, the comparison reports the same changes and the same verdict. */
  lemma RootNeverCompared(f: Fields, g: Fields, x: Field, y: Field, where: Where, kind: Kind, dir: Direction)
    ensures FieldChanges(f[[] := x], g[[] := y], where, kind, dir) == FieldChanges(f, g, where, kind, dir)
    ensures FieldsKept(f[[] := x], g[[] := y], dir) <==> FieldsKept(f, g, dir)
  {
    OldSideAlike(f, g, x, y, where, kind, dir);
    NewSideAlike(f, g, x, y, where, kind, dir);
    FieldsHarmless(f[[] := x], g[[] := y], where, kind, dir);
    FieldsHarmless(f, g, where, kind, dir);
  }
}
