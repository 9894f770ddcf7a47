/**
 * The leaves of a schema form a tree, and a stalk put beside it widens one field.
 *
 * A stalk is a schema with one field of one type at a path, and untyped required
 * fields above it. Flattened beside another schema that has the path, it adds its
 * type there and changes nothing else.
 */
module OpenApiStalks {

  import opened Basics
  import opened OpenApiSchema
  import opened OpenApiFlatten

  /* ---- the leaves of a schema form a tree ---- */

  ghost predicate HasPath(ls: set<Leaf>, p: Path) {
    exists l :: l in ls && l.path == p
  }

  /** The path above is there too, and a field of a free-form map is never required. */
  ghost predicate Fits(ls: set<Leaf>, l: Leaf) {
    l.path != [] ==>
      && HasPath(ls, l.path[..|l.path| - 1])
      && !l.path[|l.path| - 1].Param?
      && (l.path[|l.path| - 1].Extra? ==> !l.field.required)
  }

  ghost predicate Grows(part: set<Leaf>, whole: set<Leaf>) {
    forall l :: l in part ==> Fits(whole, l)
  }

  /** One root, with the given flag, and everything else grows from it. */
  ghost predicate Tree(ls: set<Leaf>, required: bool) {
    && HasPath(ls, [])
    && (forall l :: l in ls && l.path == [] ==> l.field.required == required)
    && Grows(ls, ls)
  }

  lemma ShiftFits(head: Segment, child: set<Leaf>, required: bool, whole: set<Leaf>, k: Leaf)
    requires Tree(child, required) && k in child && !head.Param? && (head.Extra? ==> !required)
    requires HasPath(whole, []) && Shift(head, child) <= whole
    ensures Fits(whole, Under(head, k))
  {
    var l := Under(head, k);
    if k.path == [] {
      assert l.path == [head] && l.path[..0] == [];
    } else {
      assert Fits(child, k);
      var up :| up in child && up.path == k.path[..|k.path| - 1];
      assert Under(head, up) in Shift(head, child);
      assert l.path[..|l.path| - 1] == [head] + up.path;
    }
  }

  lemma ShiftGrows(head: Segment, child: set<Leaf>, required: bool, whole: set<Leaf>)
    requires Tree(child, required) && !head.Param? && (head.Extra? ==> !required)
    requires HasPath(whole, []) && Shift(head, child) <= whole
    ensures Grows(Shift(head, child), whole)
  {
    forall l | l in Shift(head, child) ensures Fits(whole, l) {
      var k :| k in child && l == Under(head, k);
      ShiftFits(head, child, required, whole, k);
    }
  }

  lemma BelowGrows(member: set<Leaf>, required: bool, whole: set<Leaf>)
    requires Tree(member, required) && HasPath(whole, []) && Below(member) <= whole
    ensures Grows(Below(member), whole)
  {
    forall l | l in Below(member) ensures Fits(whole, l) {
      assert Fits(member, l);
      var up :| up in member && up.path == l.path[..|l.path| - 1];
      assert up.path != [] ==> up in Below(member);
    }
  }

  lemma {:induction false} LeavesAreTree(s: Schema, c: Components, required: bool, seen: set<string>)
    ensures Tree(Leaves(s, c, required, seen), required)
    decreases AllRefs(s, c) - seen, s, 2
  {
    if !s.ref.Ref? {
      BodyIsTree(s, c, required, seen);
    } else if s.ref.uri !in seen {
      ResolvedRefs(s, c);
      BodyIsTree(Resolve(s.ref.uri, c), c, required, seen + {s.ref.uri});
    } else {
      var marker := Leaf([], Field(RECURSION_MARKER, required, None));
      assert marker in Leaves(s, c, required, seen);
    }
  }

  lemma {:induction false} BodyIsTree(s: Schema, c: Components, required: bool, seen: set<string>)
    ensures Tree(BodyLeaves(s, c, required, seen), required)
    decreases AllRefs(s, c) - seen, s, 1
  {
    PartsAreLeaves(s, c, seen);
    forall p, r | p in Parts(s) ensures Tree(Leaves(p, c, r, seen), r) {
      PartRefs(s, p, c);
      LeavesAreTree(p, c, r, seen);
    }
    BodyGroups(s, c, required, seen);
    TreeOfParts(s, c, required, seen, BodyLeaves(s, c, required, seen));
  }

  ghost predicate PartsAreTrees(s: Schema, c: Components, seen: set<string>) {
    forall p, r :: p in Parts(s) ==> Tree(Leaves(p, c, r, seen), r)
  }

  lemma TreeOfParts(s: Schema, c: Components, required: bool, seen: set<string>, whole: set<Leaf>)
    requires PartsAreTrees(s, c, seen)
    requires whole == {RootLeaf(s, c, required)} + PropertyGroup(Props(s), s.required, c, seen)
                      + ChildGroup(Items, s.items, c, true, seen) + ChildGroup(Extra, s.extra, c, false, seen)
                      + MemberGroup(s.allOf, c, required, seen) + MemberGroup(s.anyOf + s.oneOf, c, false, seen)
    ensures Tree(whole, required)
  {
    assert RootLeaf(s, c, required) in whole;
    PropertiesGrow(s, c, seen, whole);
    ChildGrows(s, Items, s.items, c, true, seen, whole);
    ChildGrows(s, Extra, s.extra, c, false, seen, whole);
    MembersGrow(s, s.allOf, c, required, seen, whole);
    MembersGrow(s, s.anyOf + s.oneOf, c, false, seen, whole);
  }

  lemma PropertiesGrow(s: Schema, c: Components, seen: set<string>, whole: set<Leaf>)
    requires PartsAreTrees(s, c, seen) && HasPath(whole, []) && PropertyGroup(Props(s), s.required, c, seen) <= whole
    ensures Grows(PropertyGroup(Props(s), s.required, c, seen), whole)
    ensures forall l :: l in PropertyGroup(Props(s), s.required, c, seen) ==> l.path != []
  {
    forall l | l in PropertyGroup(Props(s), s.required, c, seen) ensures Fits(whole, l) && l.path != [] {
      var p, k :| p in Props(s) && k in Leaves(p.schema, c, p.name in s.required, seen) && l == Under(Named(p.name), k);
      assert p.schema in Parts(s);
      ShiftFits(Named(p.name), Leaves(p.schema, c, p.name in s.required, seen), p.name in s.required, whole, k);
    }
  }

  lemma ChildGrows(s: Schema, head: Segment, child: Option<Schema>, c: Components, required: bool, seen: set<string>,
      whole: set<Leaf>)
    requires PartsAreTrees(s, c, seen) && HasPath(whole, []) && ChildGroup(head, child, c, required, seen) <= whole
    requires (child.Some? ==> child.value in Parts(s)) && !head.Param? && (head.Extra? ==> !required)
    ensures Grows(ChildGroup(head, child, c, required, seen), whole)
    ensures forall l :: l in ChildGroup(head, child, c, required, seen) ==> l.path != []
  {
    if child.Some? {
      ShiftGrows(head, Leaves(child.value, c, required, seen), required, whole);
    }
  }

  lemma MembersGrow(s: Schema, ms: seq<Schema>, c: Components, required: bool, seen: set<string>, whole: set<Leaf>)
    requires PartsAreTrees(s, c, seen) && HasPath(whole, []) && MemberGroup(ms, c, required, seen) <= whole
    requires forall m :: m in ms ==> m in Parts(s)
    ensures Grows(MemberGroup(ms, c, required, seen), whole)
  {
    forall l | l in MemberGroup(ms, c, required, seen) ensures Fits(whole, l) {
      var m :| m in ms && l in Leaves(m, c, required, seen) && l.path != [];
      var member := Leaves(m, c, required, seen);
      assert Below(member) <= MemberGroup(ms, c, required, seen);
      BelowGrows(member, required, whole);
      assert l in Below(member);
    }
  }

  lemma AboveOne(ls: set<Leaf>, required: bool, p: Path)
    requires Tree(ls, required) && HasPath(ls, p) && p != []
    ensures HasPath(ls, p[..|p| - 1]) && !p[|p| - 1].Param?
    ensures p[|p| - 1].Extra? ==> forall l :: l in ls && l.path == p ==> !l.field.required
  {
    var l :| l in ls && l.path == p;
    assert Fits(ls, l);
    forall k | k in ls && k.path == p ensures p[|p| - 1].Extra? ==> !k.field.required {
      assert Fits(ls, k);
    }
  }

  /** The path above is there. */
  ghost predicate Stands(ls: set<Leaf>, p: Path) {
    p != [] && HasPath(ls, p) ==> HasPath(ls, p[..|p| - 1]) && !p[|p| - 1].Param?
  }

  ghost predicate AllStand(ls: set<Leaf>) {
    forall p :: Stands(ls, p)
  }

  lemma TreeStands(ls: set<Leaf>, required: bool)
    requires Tree(ls, required)
    ensures AllStand(ls)
  {
    forall p ensures Stands(ls, p) {
      if p != [] && HasPath(ls, p) {
        AboveOne(ls, required, p);
      }
    }
  }

  /** Every path above a leaf is one, and none holds the name of a parameter. */
  lemma {:induction false} Above(ls: set<Leaf>, p: Path, n: nat)
    requires AllStand(ls) && HasPath(ls, p) && n <= |p|
    ensures HasPath(ls, p[..n])
    ensures forall i :: n <= i < |p| ==> !p[i].Param?
    decreases |p|
  {
    if n == |p| {
      assert p[..n] == p;
    } else {
      var up := p[..|p| - 1];
      assert Stands(ls, p);
      Above(ls, up, n);
      assert up[..n] == p[..n];
    }
  }

  /* ---- a stalk ---- */

  ghost predicate Plain(q: Path) {
    forall i :: 0 <= i < |q| ==> !q[i].Param?
  }

  /** One field of type `t` at `q`, and untyped fields above it. */
  function Stalk(q: Path, t: string): Schema
    requires Plain(q)
  {
    if q == [] then EMPTY_SCHEMA.(typ := Single(t))
    else
      var child := Stalk(q[1..], t);
      match q[0]
      case Named(name) =>
        EMPTY_SCHEMA.(typ := Several([]), properties := Table([Property(name, child)]), required := [name])
      case Items => EMPTY_SCHEMA.(typ := Several([]), items := Some(child))
      case Extra => EMPTY_SCHEMA.(typ := Several([]), extra := Some(child))
  }

  function StalkField(q: Path, p: Path, t: string): Field {
    Field(if p == q then {t} else {}, p != [] ==> !p[|p| - 1].Extra?, None)
  }

  lemma StalkIsOpen(q: Path, t: string, c: Components)
    requires Plain(q)
    ensures EnumHalts(Stalk(q, t), c) && EnumValues(Stalk(q, t), c) == None
  {
    assert Completes(Stalk(q, t), c, 1);
  }

  ghost function ChildOfStalk(q: Path, t: string, c: Components, seen: set<string>): set<Leaf>
    requires Plain(q) && q != []
  {
    Shift(q[0], Leaves(Stalk(q[1..], t), c, !q[0].Extra?, seen))
  }

  lemma NothingGiven(c: Components, names: seq<string>, head: Segment, required: bool, seen: set<string>)
    ensures PropertyGroup([], names, c, seen) == {} && MemberGroup([], c, required, seen) == {}
    ensures ChildGroup(head, None, c, required, seen) == {}
  {
  }

  lemma OneProperty(p: Property, names: seq<string>, c: Components, seen: set<string>)
    ensures PropertyGroup([p], names, c, seen) == Shift(Named(p.name), Leaves(p.schema, c, p.name in names, seen))
  {
  }

  /** The groups of a schema with neither members nor a reference. */
  lemma ChildrenOnly(s: Schema, c: Components, required: bool, seen: set<string>)
    requires !s.ref.Ref? && s.allOf == [] && s.anyOf == [] && s.oneOf == []
    ensures Leaves(s, c, required, seen)
         == {RootLeaf(s, c, required)} + (PropertyGroup(Props(s), s.required, c, seen)
            + ChildGroup(Items, s.items, c, true, seen) + ChildGroup(Extra, s.extra, c, false, seen))
  {
    BodyGroups(s, c, required, seen);
    NothingGiven(c, s.required, Items, required, seen);
    NothingGiven(c, s.required, Items, false, seen);
    assert s.anyOf + s.oneOf == [];
  }

  lemma StalkChildren(q: Path, t: string, c: Components, seen: set<string>)
    requires Plain(q) && q != []
    ensures var s := Stalk(q, t);
      PropertyGroup(Props(s), s.required, c, seen) + ChildGroup(Items, s.items, c, true, seen)
      + ChildGroup(Extra, s.extra, c, false, seen) == ChildOfStalk(q, t, c, seen)
  {
    var s := Stalk(q, t);
    NothingGiven(c, s.required, Items, true, seen);
    NothingGiven(c, s.required, Extra, false, seen);
    if q[0].Named? {
      OneProperty(Property(q[0].name, Stalk(q[1..], t)), s.required, c, seen);
    }
  }

  lemma StalkRoot(q: Path, t: string, c: Components, required: bool)
    requires Plain(q)
    ensures RootLeaf(Stalk(q, t), c, required) == Leaf([], Field(if q == [] then {t} else {}, required, None))
  {
    StalkIsOpen(q, t, c);
  }

  lemma StalkLeaves(q: Path, t: string, c: Components, required: bool, seen: set<string>)
    requires Plain(q)
    ensures var root := {Leaf([], Field(if q == [] then {t} else {}, required, None))};
      Leaves(Stalk(q, t), c, required, seen) == if q == [] then root else root + ChildOfStalk(q, t, c, seen)
  {
    var s := Stalk(q, t);
    ChildrenOnly(s, c, required, seen);
    StalkRoot(q, t, c, required);
    if q == [] {
      NothingGiven(c, s.required, Items, true, seen);
      NothingGiven(c, s.required, Extra, false, seen);
    } else {
      StalkChildren(q, t, c, seen);
    }
  }

  lemma PathsSplit(p: Path, q: Path)
    requires p != [] && q != [] && p[0] == q[0]
    ensures p[1..] <= q[1..] <==> p <= q
    ensures p[1..] == q[1..] <==> p == q
  {
    assert p == [p[0]] + p[1..] && q == [q[0]] + q[1..];
  }

  /** Below its root a stalk has one contribution at each path down to `q`. */
  lemma {:induction false} StalkAt(q: Path, t: string, c: Components, required: bool, seen: set<string>, p: Path)
    requires Plain(q) && p != []
    ensures At(Leaves(Stalk(q, t), c, required, seen), p) == if p <= q then {StalkField(q, p, t)} else {}
    decreases |q|
  {
    var root := {Leaf([], Field(if q == [] then {t} else {}, required, None))};
    StalkLeaves(q, t, c, required, seen);
    assert At(root, p) == {};
    if q != [] {
      var child := Leaves(Stalk(q[1..], t), c, !q[0].Extra?, seen);
      ShiftedAt(q[0], root, child, p);
      if p[0] == q[0] {
        PathsSplit(p, q);
        if |p| > 1 {
          StalkAt(q[1..], t, c, !q[0].Extra?, seen, p[1..]);
        } else {
          StalkTop(q[1..], t, c, !q[0].Extra?, seen);
        }
      }
    }
  }

  lemma StalkTop(q: Path, t: string, c: Components, required: bool, seen: set<string>)
    requires Plain(q)
    ensures At(Leaves(Stalk(q, t), c, required, seen), []) == {Field(if q == [] then {t} else {}, required, None)}
  {
    var root := {Leaf([], Field(if q == [] then {t} else {}, required, None))};
    StalkLeaves(q, t, c, required, seen);
    assert At(root, []) == {Field(if q == [] then {t} else {}, required, None)};
    if q != [] {
      ShiftedAt(q[0], root, Leaves(Stalk(q[1..], t), c, !q[0].Extra?, seen), []);
    }
  }

  /* ---- a schema beside a stalk ---- */

  /** A stalk's contribution changes the types of a field and nothing else. */
  lemma StalkJoins(fs: set<Field>, more: Field)
    requires fs != {} && more.enum.None? && (!more.required ==> exists f :: f in fs && !f.required)
    ensures Join(fs + {more}) == Join(fs).(types := Join(fs).types + more.types)
  {
    JoinUnion(fs, {more});
    JoinOne(more);
  }

  /** The fields with one more type at `n`. */
  function Widened(f: Fields, n: Path, t: string): Fields
    requires n in f
  {
    f[n := f[n].(types := f[n].types + {t})]
  }

  lemma AtHas(ls: set<Leaf>, p: Path)
    ensures At(ls, p) != {} <==> HasPath(ls, p)
  {
    if HasPath(ls, p) {
      var l :| l in ls && l.path == p;
      assert l.field in At(ls, p);
    }
  }

  /** What a stalk adds at one path of a tree. */
  lemma StalkAdds(ls: set<Leaf>, q: Path, t: string, c: Components, required: bool, p: Path)
    requires Tree(ls, required) && HasPath(ls, q) && Plain(q) && q != []
    ensures var all := At(ls + Below(Leaves(Stalk(q, t), c, required, {})), p);
      && (all == {} <==> At(ls, p) == {})
      && (all != {} ==>
        Join(all) == if p == q then Join(At(ls, p)).(types := Join(At(ls, p)).types + {t}) else Join(At(ls, p)))
  {
    MemberAt(ls, Leaves(Stalk(q, t), c, required, {}), p);
    if p != [] {
      StalkAt(q, t, c, required, {}, p);
      if p <= q {
        TreeStands(ls, required);
        Above(ls, q, |p|);
        assert q[..|p|] == p;
        StalkJoinsTree(ls, required, q, p, t);
      } else {
        assert At(ls, p) + {} == At(ls, p);
      }
    }
  }

  lemma StalkJoinsTree(ls: set<Leaf>, required: bool, q: Path, p: Path, t: string)
    requires Tree(ls, required) && p != [] && HasPath(ls, p)
    ensures At(ls, p) != {}
    ensures Join(At(ls, p) + {StalkField(q, p, t)})
         == if p == q then Join(At(ls, p)).(types := Join(At(ls, p)).types + {t}) else Join(At(ls, p))
  {
    AtHas(ls, p);
    AboveOne(ls, required, p);
    var l :| l in ls && l.path == p;
    assert l.field in At(ls, p);
    StalkJoins(At(ls, p), StalkField(q, p, t));
    assert Join(At(ls, p)).types + {} == Join(At(ls, p)).types;
  }

  lemma StalkWidens(prefix: Path, ls: set<Leaf>, q: Path, t: string, c: Components, required: bool)
    requires Tree(ls, required) && HasPath(ls, q) && Plain(q) && q != []
    ensures prefix + q in Collect(prefix, ls)
    ensures Collect(prefix, ls + Below(Leaves(Stalk(q, t), c, required, {})))
      == Widened(Collect(prefix, ls), prefix + q, t)
  {
    var more := ls + Below(Leaves(Stalk(q, t), c, required, {}));
    CollectIn(prefix, ls, prefix + q);
    AtHas(ls, q);
    assert (prefix + q)[|prefix|..] == q;
    var f, g := Collect(prefix, more), Widened(Collect(prefix, ls), prefix + q, t);
    forall p ensures Agree(f, g, p) {
      CollectIn(prefix, ls, p);
      CollectIn(prefix, more, p);
      if prefix <= p {
        var x := p[|prefix|..];
        assert p == prefix + x;
        StalkAdds(ls, q, t, c, required, x);
      }
    }
    AgreeEverywhere(f, g);
  }

  lemma RootWidens(prefix: Path, root: Field, below: set<Leaf>, t: string)
    requires forall l: Leaf :: l in below ==> l.path != []
    ensures var ls, more := {Leaf([], root)} + below, {Leaf([], root.(types := root.types + {t}))} + below;
      prefix in Collect(prefix, ls) && Collect(prefix, ls)[prefix] == root
      && Collect(prefix, more) == Widened(Collect(prefix, ls), prefix, t)
  {
    var wide := root.(types := root.types + {t});
    var ls, more := {Leaf([], root)} + below, {Leaf([], wide)} + below;
    assert At(ls, []) == {root} && At(more, []) == {wide};
    JoinOne(root);
    JoinOne(wide);
    CollectIn(prefix, ls, prefix);
    assert prefix[|prefix|..] == [];
    var f, g := Collect(prefix, more), Widened(Collect(prefix, ls), prefix, t);
    forall p ensures Agree(f, g, p) {
      CollectIn(prefix, ls, p);
      CollectIn(prefix, more, p);
      if prefix <= p {
        var x := p[|prefix|..];
        assert p == prefix + x;
        assert x != [] ==> At(ls, x) == At(more, x);
      }
    }
    AgreeEverywhere(f, g);
  }
}
