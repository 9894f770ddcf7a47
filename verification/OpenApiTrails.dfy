/** Every field of a flattened schema, by the trails through the document that lead to it. */
module OpenApiTrails {

  // A trail walks a schema from part to part, follows references, and follows
  // none twice. It is judged by its positions alone: each step must be written
  // in the schema reached so far, and what the trail contributes is decided by
  // its last schema and its last step.

  import opened Basics
  import opened OpenApiSchema
  import opened OpenApiTypes
  import opened OpenApiFlatten

  /** One step: to a part at a new segment, or to a member of a composition at the same path. */
  datatype Step = Step(head: Option<Segment>, to: Schema)

  predicate Leads(t: Schema, step: Step) {
    match step.head
    case Some(Named(name)) => Property(name, step.to) in Props(t)
    case Some(Items) => t.items == Some(step.to)
    case Some(Extra) => t.extra == Some(step.to)
    case Some(Param(_, _)) => false
    case None => step.to in t.allOf || step.to in t.anyOf || step.to in t.oneOf
  }

  /** The schema as written at a place of the trail. */
  function Node(s: Schema, trail: seq<Step>, i: nat): Schema
    requires i <= |trail|
  {
    if i == 0 then s else trail[i - 1].to
  }

  /** The schema there is a reference that was followed before. */
  ghost predicate Repeats(s: Schema, trail: seq<Step>, seen: set<string>, i: nat)
    requires i <= |trail|
  {
    Node(s, trail, i).ref.Ref?
    && (Node(s, trail, i).ref.uri in seen || exists j :: 0 <= j < i && Node(s, trail, j).ref == Node(s, trail, i).ref)
  }

  ghost predicate Trail(s: Schema, c: Components, seen: set<string>, trail: seq<Step>) {
    forall i :: 0 <= i < |trail| ==> Goes(s, c, seen, trail, i)
  }

  ghost predicate Goes(s: Schema, c: Components, seen: set<string>, trail: seq<Step>, i: nat)
    requires i < |trail|
  {
    !Repeats(s, trail, seen, i) && Leads(Deref(Node(s, trail, i), c), trail[i])
  }

  function HeadPath(head: Option<Segment>): Path {
    if head.Some? then [head.value] else []
  }

  function TrailPath(trail: seq<Step>): Path {
    if trail == [] then [] else HeadPath(trail[0].head) + TrailPath(trail[1..])
  }

  /** Only where a trail comes to a new path does it contribute: a member's own root adds nothing. */
  predicate Arrives(trail: seq<Step>) {
    trail == [] || trail[|trail| - 1].head.Some?
  }

  /** A property is required when its owner lists it, items always are and additional properties never. */
  predicate EndRequired(s: Schema, c: Components, required: bool, trail: seq<Step>) {
    if trail == [] then required
    else
      match trail[|trail| - 1].head
      case Some(Named(name)) => name in Deref(Node(s, trail, |trail| - 1), c).required
      case Some(Items) => true
      case _ => false
  }

  ghost function EndField(s: Schema, c: Components, required: bool, seen: set<string>, trail: seq<Step>): Field {
    var t := Deref(Node(s, trail, |trail|), c);
    if Repeats(s, trail, seen, |trail|) then Field({MARKER_NAME}, EndRequired(s, c, required, trail), None)
    else Field(TypeNames(t), EndRequired(s, c, required, trail), if EnumHalts(t, c) then EnumValues(t, c) else None)
  }

  ghost predicate Contributes(s: Schema, c: Components, required: bool, seen: set<string>, trail: seq<Step>, l: Leaf) {
    Trail(s, c, seen, trail) && Arrives(trail)
    && l == Leaf(TrailPath(trail), EndField(s, c, required, seen, trail))
  }

  /* ---- one step ---- */

  predicate Stuck(s: Schema, seen: set<string>) {
    s.ref.Ref? && s.ref.uri in seen
  }

  /** What a part is told about being required; a member of a composition passes it on. */
  predicate StepRequired(t: Schema, required: bool, step: Step) {
    match step.head
    case Some(Named(name)) => name in t.required
    case Some(Items) => true
    case Some(_) => false
    case None => required
  }

  ghost predicate StepGives(t: Schema, c: Components, required: bool, seen: set<string>, step: Step, l: Leaf,
      below: Leaf)
  {
    Leads(t, step) && below in Leaves(step.to, c, StepRequired(t, required, step), seen)
    && (step.head.None? ==> below.path != []) && l == Leaf(HeadPath(step.head) + below.path, below.field)
  }

  ghost predicate Given(t: Schema, c: Components, required: bool, seen: set<string>, l: Leaf) {
    exists step, below :: StepGives(t, c, required, seen, step, l, below)
  }

  lemma PropertyGiven(t: Schema, c: Components, required: bool, seen: set<string>, l: Leaf)
    requires l in PropertyGroup(Props(t), t.required, c, seen)
    ensures Given(t, c, required, seen, l)
  {
    var p, below :| p in Props(t) && below in Leaves(p.schema, c, p.name in t.required, seen)
                    && l == Under(Named(p.name), below);
    assert p == Property(p.name, p.schema);
    assert StepGives(t, c, required, seen, Step(Some(Named(p.name)), p.schema), l, below);
  }

  lemma ChildGiven(t: Schema, c: Components, required: bool, seen: set<string>, l: Leaf)
    requires l in ChildGroup(Items, t.items, c, true, seen) + ChildGroup(Extra, t.extra, c, false, seen)
    ensures Given(t, c, required, seen, l)
  {
    if l in ChildGroup(Items, t.items, c, true, seen) {
      var below :| below in Leaves(t.items.value, c, true, seen) && l == Under(Items, below);
      assert StepGives(t, c, required, seen, Step(Some(Items), t.items.value), l, below);
    } else {
      var below :| below in Leaves(t.extra.value, c, false, seen) && l == Under(Extra, below);
      assert StepGives(t, c, required, seen, Step(Some(Extra), t.extra.value), l, below);
    }
  }

  lemma MemberGiven(t: Schema, c: Components, required: bool, seen: set<string>, m: Schema, l: Leaf)
    requires m in t.allOf || m in t.anyOf || m in t.oneOf
    requires l in Leaves(m, c, required, seen) && l.path != []
    ensures Given(t, c, required, seen, l)
  {
    assert l == Leaf([] + l.path, l.field);
    assert StepGives(t, c, required, seen, Step(None, m), l, l);
  }

  /** Below its root a body contributes what one step gives. */
  lemma BodyStep(t: Schema, c: Components, required: bool, seen: set<string>, l: Leaf)
    requires l in BodyLeaves(t, c, required, seen) && l != RootLeaf(t, c, required)
    ensures Given(t, c, required, seen, l)
  {
    BodyGroups(t, c, required, seen);
    if l in PropertyGroup(Props(t), t.required, c, seen) {
      PropertyGiven(t, c, required, seen, l);
    } else if l in MemberGroup(t.allOf, c, required, seen) {
      var m :| m in t.allOf && l in Leaves(m, c, required, seen);
      MemberGiven(t, c, required, seen, m, l);
    } else if l in MemberGroup(t.anyOf + t.oneOf, c, false, seen) {
      MembersIgnoreRequired(t.anyOf + t.oneOf, c, false, required, seen);
      var m :| m in t.anyOf + t.oneOf && l in Leaves(m, c, required, seen);
      MemberGiven(t, c, required, seen, m, l);
    } else {
      ChildGiven(t, c, required, seen, l);
    }
  }

  lemma GivenIsLeaf(t: Schema, c: Components, required: bool, seen: set<string>, step: Step, l: Leaf, below: Leaf)
    requires StepGives(t, c, required, seen, step, l, below)
    ensures l in BodyLeaves(t, c, required, seen)
  {
    BodyGroups(t, c, required, seen);
    match step.head
    case Some(Named(name)) =>
      NamedIsLeaf(t, c, seen, name, step.to, below);
    case Some(Items) =>
      assert l == Under(Items, below);
      assert l in ChildGroup(Items, t.items, c, true, seen);
    case Some(Extra) =>
      assert l == Under(Extra, below);
      assert l in ChildGroup(Extra, t.extra, c, false, seen);
    case Some(Param(_, _)) =>
    case None =>
      assert l.path == below.path && l == below;
      if step.to in t.allOf {
        assert l in MemberGroup(t.allOf, c, required, seen);
      } else {
        MembersIgnoreRequired(t.anyOf + t.oneOf, c, false, required, seen);
        assert l in MemberGroup(t.anyOf + t.oneOf, c, required, seen);
      }
  }

  lemma NamedIsLeaf(t: Schema, c: Components, seen: set<string>, name: string, to: Schema, below: Leaf)
    requires Property(name, to) in Props(t) && below in Leaves(to, c, name in t.required, seen)
    ensures Leaf([Named(name)] + below.path, below.field) in PropertyGroup(Props(t), t.required, c, seen)
  {
    assert Under(Named(name), below) in PropertyGroup(Props(t), t.required, c, seen) by {
      assert Property(name, to).schema == to;
    }
  }

  /* ---- a trail begins with a step ---- */

  lemma NodesAfter(s: Schema, step: Step, rest: seq<Step>, seen: set<string>, i: nat)
    requires i <= |rest|
    ensures Node(s, [step] + rest, i + 1) == Node(step.to, rest, i)
    ensures Repeats(s, [step] + rest, seen, i + 1) <==> Repeats(step.to, rest, Followed(s, seen), i)
  {
    var trail := [step] + rest;
    forall j | 0 <= j <= i ensures Node(s, trail, j + 1) == Node(step.to, rest, j) {
    }
    if j :| 0 <= j < i + 1 && Node(s, trail, j).ref == Node(s, trail, i + 1).ref {
      if j > 0 {
        assert Node(step.to, rest, j - 1).ref == Node(step.to, rest, i).ref;
      }
    }
    if j :| 0 <= j < i && Node(step.to, rest, j).ref == Node(step.to, rest, i).ref {
      assert Node(s, trail, j + 1).ref == Node(s, trail, i + 1).ref;
    }
    assert Node(s, trail, 0) == s;
  }

  lemma TrailBegins(s: Schema, c: Components, seen: set<string>, step: Step, rest: seq<Step>)
    ensures Trail(s, c, seen, [step] + rest) <==>
      !Stuck(s, seen) && Leads(Deref(s, c), step) && Trail(step.to, c, Followed(s, seen), rest)
  {
    var trail := [step] + rest;
    assert Goes(s, c, seen, trail, 0) <==> !Stuck(s, seen) && Leads(Deref(s, c), step);
    forall i: nat | i < |rest|
      ensures Goes(s, c, seen, trail, i + 1) <==> Goes(step.to, c, Followed(s, seen), rest, i)
    {
      NodesAfter(s, step, rest, seen, i);
    }
    if Trail(s, c, seen, trail) {
      forall i: nat | i < |rest| ensures Goes(step.to, c, Followed(s, seen), rest, i) {
        assert Goes(s, c, seen, trail, i + 1);
      }
    }
    if Goes(s, c, seen, trail, 0) && Trail(step.to, c, Followed(s, seen), rest) {
      forall i: nat | i < |trail| ensures Goes(s, c, seen, trail, i) {
        if i > 0 {
          assert Goes(step.to, c, Followed(s, seen), rest, i - 1);
        }
      }
    }
  }

  lemma EndAfter(s: Schema, c: Components, required: bool, seen: set<string>, step: Step, rest: seq<Step>)
    ensures (rest == [] ==> step.head.Some?) ==>
      EndField(s, c, required, seen, [step] + rest)
        == EndField(step.to, c, StepRequired(Deref(s, c), required, step), Followed(s, seen), rest)
    ensures TrailPath([step] + rest) == HeadPath(step.head) + TrailPath(rest)
  {
    var trail := [step] + rest;
    assert trail[1..] == rest;
    NodesAfter(s, step, rest, seen, |rest|);
    if rest == [] {
      assert Node(s, trail, 0) == s;
    } else {
      NodesAfter(s, step, rest, seen, |rest| - 1);
      assert trail[|trail| - 1] == rest[|rest| - 1];
    }
  }

  lemma {:induction false} ArrivesSomewhere(trail: seq<Step>)
    requires Arrives(trail) && trail != []
    ensures TrailPath(trail) != []
  {
    if |trail| > 1 {
      ArrivesSomewhere(trail[1..]);
    }
  }

  /* ---- the leaves are the ends of trails ---- */

  lemma {:induction false} LeafHasTrail(s: Schema, c: Components, required: bool, seen: set<string>, l: Leaf)
    requires l in Leaves(s, c, required, seen)
    ensures exists trail :: Contributes(s, c, required, seen, trail, l)
    decreases AllRefs(s, c) - seen, s
  {
    if Stuck(s, seen) || l == RootLeaf(Deref(s, c), c, required) {
      assert Node(s, [], 0) == s;
      assert Contributes(s, c, required, seen, [], l);
    } else {
      var t, on := Deref(s, c), Followed(s, seen);
      if s.ref.Ref? {
        ResolvedRefs(s, c);
      }
      BodyStep(t, c, required, on, l);
      var step, below :| StepGives(t, c, required, on, step, l, below);
      LeadsToPart(t, step);
      PartRefs(t, step.to, c);
      LeafHasTrail(step.to, c, StepRequired(t, required, step), on, below);
      var rest :| Contributes(step.to, c, StepRequired(t, required, step), on, rest, below);
      TrailBegins(s, c, seen, step, rest);
      EndAfter(s, c, required, seen, step, rest);
      assert Contributes(s, c, required, seen, [step] + rest, l);
    }
  }

  lemma LeadsToPart(t: Schema, step: Step)
    requires Leads(t, step)
    ensures step.to in Parts(t)
  {
    PropsSmaller(t);
    if step.head.Some? && step.head.value.Named? {
      var p := Property(step.head.value.name, step.to);
      assert p in Props(t) && p.schema == step.to;
    }
  }

  lemma {:induction false} TrailHasLeaf(s: Schema, c: Components, required: bool, seen: set<string>, trail: seq<Step>,
      l: Leaf)
    requires Contributes(s, c, required, seen, trail, l)
    ensures l in Leaves(s, c, required, seen)
    decreases |trail|
  {
    if trail == [] {
      assert Node(s, trail, 0) == s;
    } else {
      var step, rest := trail[0], trail[1..];
      assert trail == [step] + rest;
      var t, on := Deref(s, c), Followed(s, seen);
      TrailBegins(s, c, seen, step, rest);
      EndAfter(s, c, required, seen, step, rest);
      var q := StepRequired(t, required, step);
      var below := Leaf(TrailPath(rest), EndField(step.to, c, q, on, rest));
      TrailHasLeaf(step.to, c, q, on, rest, below);
      if rest != [] {
        ArrivesSomewhere(rest);
      }
      assert StepGives(t, c, required, on, step, l, below);
      GivenIsLeaf(t, c, required, on, step, l, below);
    }
  }

  /** A schema contributes exactly what its trails end in. */
  lemma LeavesAreTrails(s: Schema, c: Components, required: bool, seen: set<string>, l: Leaf)
    ensures l in Leaves(s, c, required, seen) <==> exists trail :: Contributes(s, c, required, seen, trail, l)
  {
    if l in Leaves(s, c, required, seen) {
      LeafHasTrail(s, c, required, seen, l);
    }
    if trail :| Contributes(s, c, required, seen, trail, l) {
      TrailHasLeaf(s, c, required, seen, trail, l);
    }
  }

  /* ---- the fields, by the trails to their paths ---- */

  ghost predicate LeadsTo(s: Schema, c: Components, seen: set<string>, trail: seq<Step>, path: Path) {
    Trail(s, c, seen, trail) && Arrives(trail) && TrailPath(trail) == path
  }

  /** The last schema of a trail declares a name, or is a reference met again. */
  ghost predicate EndSays(s: Schema, c: Components, seen: set<string>, trail: seq<Step>, name: string) {
    if Repeats(s, trail, seen, |trail|) then name == MARKER_NAME
    else Declares(Deref(Node(s, trail, |trail|), c), name)
  }

  ghost predicate EndCloses(s: Schema, c: Components, seen: set<string>, trail: seq<Step>) {
    var t := Deref(Node(s, trail, |trail|), c);
    !Repeats(s, trail, seen, |trail|) && EnumHalts(t, c) && exists chain :: ChainCloses(t, chain, c)
  }

  ghost predicate EndLists(s: Schema, c: Components, seen: set<string>, trail: seq<Step>, v: string) {
    var t := Deref(Node(s, trail, |trail|), c);
    !Repeats(s, trail, seen, |trail|) && EnumHalts(t, c) && exists chain :: ChainLists(t, chain, c, v)
  }

  lemma EndTypes(s: Schema, c: Components, required: bool, seen: set<string>, trail: seq<Step>, name: string)
    ensures name in EndField(s, c, required, seen, trail).types <==> EndSays(s, c, seen, trail, name)
  {
    NamesByChains(Deref(Node(s, trail, |trail|), c), name);
  }

  lemma EndEnum(s: Schema, c: Components, required: bool, seen: set<string>, trail: seq<Step>, v: string)
    ensures var enum := EndField(s, c, required, seen, trail).enum;
      (enum.Some? <==> EndCloses(s, c, seen, trail))
      && (enum.Some? && v in enum.value <==> EndLists(s, c, seen, trail, v))
  {
    var t := Deref(Node(s, trail, |trail|), c);
    if EnumHalts(t, c) {
      ClosedByChains(t, c);
      ValuesByChains(t, c, v);
    }
  }

  /** The contributions at a path are the ends of the trails to it. */
  lemma EndsAt(s: Schema, c: Components, required: bool, seen: set<string>, path: Path, f: Field)
    ensures f in At(Leaves(s, c, required, seen), path) <==>
      exists trail :: LeadsTo(s, c, seen, trail, path) && EndField(s, c, required, seen, trail) == f
  {
    var l := Leaf(path, f);
    assert f in At(Leaves(s, c, required, seen), path) <==> l in Leaves(s, c, required, seen);
    LeavesAreTrails(s, c, required, seen, l);
    if trail :| Contributes(s, c, required, seen, trail, l) {
      assert LeadsTo(s, c, seen, trail, path);
    }
    if trail :| LeadsTo(s, c, seen, trail, path) && EndField(s, c, required, seen, trail) == f {
      assert Contributes(s, c, required, seen, trail, l);
    }
  }

  /** A path has a field when some trail leads to it. */
  lemma FieldPresent(s: Schema, c: Components, prefix: Path, required: bool, seen: set<string>, p: Path)
    ensures p in Collect(prefix, Leaves(s, c, required, seen)) <==>
      prefix <= p && exists trail :: LeadsTo(s, c, seen, trail, p[|prefix|..])
  {
    var ls := Leaves(s, c, required, seen);
    CollectIn(prefix, ls, p);
    if prefix <= p {
      var path := p[|prefix|..];
      if trail :| LeadsTo(s, c, seen, trail, path) {
        EndsAt(s, c, required, seen, path, EndField(s, c, required, seen, trail));
      }
      if At(ls, path) != {} {
        var f :| f in At(ls, path);
        EndsAt(s, c, required, seen, path, f);
      }
    }
  }

  /** Its types are the names that the ends of these trails declare. */
  lemma FieldTypes(s: Schema, c: Components, prefix: Path, required: bool, seen: set<string>, p: Path, name: string)
    requires p in Collect(prefix, Leaves(s, c, required, seen))
    ensures name in Collect(prefix, Leaves(s, c, required, seen))[p].types <==>
      prefix <= p && exists trail :: LeadsTo(s, c, seen, trail, p[|prefix|..]) && EndSays(s, c, seen, trail, name)
  {
    var ls := Leaves(s, c, required, seen);
    CollectIn(prefix, ls, p);
    var path := p[|prefix|..];
    if trail :| LeadsTo(s, c, seen, trail, path) && EndSays(s, c, seen, trail, name) {
      EndTypes(s, c, required, seen, trail, name);
      EndsAt(s, c, required, seen, path, EndField(s, c, required, seen, trail));
    }
    if name in Join(At(ls, path)).types {
      var f :| f in At(ls, path) && name in f.types;
      EndsAt(s, c, required, seen, path, f);
      var trail :| LeadsTo(s, c, seen, trail, path) && EndField(s, c, required, seen, trail) == f;
      EndTypes(s, c, required, seen, trail, name);
    }
  }

  /** It is required when the last step of every one of them says so. */
  lemma FieldRequired(s: Schema, c: Components, prefix: Path, required: bool, seen: set<string>, p: Path)
    requires p in Collect(prefix, Leaves(s, c, required, seen))
    ensures Collect(prefix, Leaves(s, c, required, seen))[p].required <==>
      prefix <= p
      && forall trail :: LeadsTo(s, c, seen, trail, p[|prefix|..]) ==> EndRequired(s, c, required, trail)
  {
    var ls := Leaves(s, c, required, seen);
    CollectIn(prefix, ls, p);
    var path := p[|prefix|..];
    if Join(At(ls, path)).required {
      forall trail | LeadsTo(s, c, seen, trail, path) ensures EndRequired(s, c, required, trail) {
        EndsAt(s, c, required, seen, path, EndField(s, c, required, seen, trail));
        assert EndField(s, c, required, seen, trail).required;
      }
    } else {
      var f :| f in At(ls, path) && !f.required;
      EndsAt(s, c, required, seen, path, f);
    }
  }

  /** It is a closed set when the end of some trail lists values, and then of all the values so listed. */
  lemma FieldEnum(s: Schema, c: Components, prefix: Path, required: bool, seen: set<string>, p: Path, v: string)
    requires p in Collect(prefix, Leaves(s, c, required, seen))
    ensures var enum := Collect(prefix, Leaves(s, c, required, seen))[p].enum;
      (enum.Some? <==>
         prefix <= p && exists trail :: LeadsTo(s, c, seen, trail, p[|prefix|..]) && EndCloses(s, c, seen, trail))
      && (enum.Some? && v in enum.value <==>
         prefix <= p && exists trail :: LeadsTo(s, c, seen, trail, p[|prefix|..]) && EndLists(s, c, seen, trail, v))
  {
    var ls := Leaves(s, c, required, seen);
    CollectIn(prefix, ls, p);
    var path := p[|prefix|..];
    forall trail | LeadsTo(s, c, seen, trail, path)
      ensures EndField(s, c, required, seen, trail) in At(ls, path)
      ensures EndField(s, c, required, seen, trail).enum.Some? <==> EndCloses(s, c, seen, trail)
      ensures var e := EndField(s, c, required, seen, trail).enum;
        e.Some? && v in e.value <==> EndLists(s, c, seen, trail, v)
    {
      EndEnum(s, c, required, seen, trail, v);
      EndsAt(s, c, required, seen, path, EndField(s, c, required, seen, trail));
    }
    forall f | f in At(ls, path)
      ensures exists trail :: LeadsTo(s, c, seen, trail, path) && EndField(s, c, required, seen, trail) == f
    {
      EndsAt(s, c, required, seen, path, f);
    }
  }

  /** The root field of a body is what the schema itself declares. */
  lemma RootField(s: Schema, c: Components, required: bool, name: string)
    ensures [] in Collect([], Leaves(s, c, required, {}))
    ensures var root := Collect([], Leaves(s, c, required, {}))[[]];
      root.required == required && (name in root.types <==> Declares(Deref(s, c), name))
  {
    var none: Path := [];
    assert none[0..] == none;
    assert Node(s, [], 0) == s;
    assert LeadsTo(s, c, {}, [], []);
    FieldPresent(s, c, [], required, {}, []);
    forall trail | LeadsTo(s, c, {}, trail, []) ensures trail == [] {
      if trail != [] {
        ArrivesSomewhere(trail);
      }
    }
    FieldTypes(s, c, [], required, {}, [], name);
    FieldRequired(s, c, [], required, {}, []);
  }
}
