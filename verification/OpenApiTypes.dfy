/** Where the type names and the closed values of a schema come from: chains of union members. */
module OpenApiTypes {

  // A union is read through its members, and those through theirs. A chain
  // lists the schemas passed on one way down; what its last schema says for
  // itself is what that way contributes.

  import opened Basics
  import opened OpenApiSchema

  /* ---- type names ---- */

  /** The union whose members are asked for their names. */
  function AskedUnion(s: Schema): seq<Schema> {
    if s.anyOf != [] then s.anyOf else s.oneOf
  }

  /** Each schema but the last has no type of its own, and the next one is a member of the union it asks. */
  ghost predicate TypeChain(chain: seq<Schema>) {
    chain != []
    && forall i :: 0 <= i < |chain| - 1 ==> chain[i].typ.Undeclared? && chain[i + 1] in AskedUnion(chain[i])
  }

  /** What a schema says without asking a union; a member that lists no name at all says "unknown". */
  predicate SaysItself(s: Schema, isMember: bool, name: string) {
    match s.typ
    case Single(own) => name == own
    case Several(names) => name in names || (isMember && names == [] && name == "unknown")
    case Undeclared =>
      s.anyOf == [] && s.oneOf == []
      && name == if s.properties.NoProperties? && s.ref.NoRef? then "any" else "object"
  }

  ghost predicate ChainSays(s: Schema, chain: seq<Schema>, name: string) {
    TypeChain(chain) && chain[0] == s && SaysItself(chain[|chain| - 1], |chain| > 1, name)
  }

  ghost predicate Declares(s: Schema, name: string) {
    exists chain :: ChainSays(s, chain, name)
  }

  /** Only an empty list of types declares nothing, so a union declares something when it has members. */
  lemma {:induction false} NamesMissing(s: Schema)
    ensures TypeNames(s) == {} <==> s.typ == Several([])
    ensures forall ms :: UnionNames(ms) == {} <==> ms == []
  {
    forall ms ensures UnionNames(ms) == {} <==> ms == [] {
      UnionDeclares(ms);
    }
    UnionDeclares(s.anyOf);
    UnionDeclares(s.oneOf);
    if s.typ.Several? && s.typ.names != [] {
      assert s.typ.names[0] in TypeNames(s);
    }
  }

  lemma UnionDeclares(ms: seq<Schema>)
    ensures UnionNames(ms) == {} <==> ms == []
  {
    if ms != [] {
      var m := ms[0];
      assert MemberNames(m) != {};
      var n :| n in MemberNames(m);
      assert n in UnionNames(ms);
    }
  }

  /** The names of a schema are those some chain leads to. */
  lemma {:induction false} NamesByChains(s: Schema, name: string)
    ensures name in TypeNames(s) <==> Declares(s, name)
    decreases s
  {
    if name in TypeNames(s) {
      ChainOfName(s, name);
    }
    if chain :| ChainSays(s, chain, name) {
      NameOfChain(s, chain, false, name);
    }
  }

  lemma {:induction false} ChainOfName(s: Schema, name: string)
    requires name in TypeNames(s)
    ensures Declares(s, name)
    decreases s
  {
    UnionDeclares(s.anyOf);
    UnionDeclares(s.oneOf);
    if s.typ.Undeclared? && AskedUnion(s) != [] {
      var m :| m in AskedUnion(s) && name in MemberNames(m);
      if TypeNames(m) == {} {
        NamesMissing(m);
        assert ChainSays(s, [s, m], name);
      } else {
        ChainOfName(m, name);
        var chain :| ChainSays(m, chain, name);
        LongerChain(s, m, chain, name);
      }
    } else {
      assert ChainSays(s, [s], name);
    }
  }

  lemma LongerChain(s: Schema, m: Schema, chain: seq<Schema>, name: string)
    requires s.typ.Undeclared? && m in AskedUnion(s) && ChainSays(m, chain, name)
    ensures ChainSays(s, [s] + chain, name)
  {
    var longer := [s] + chain;
    forall i | 0 <= i < |longer| - 1
      ensures longer[i].typ.Undeclared? && longer[i + 1] in AskedUnion(longer[i])
    {
      if i > 0 {
        assert longer[i] == chain[i - 1] && longer[i + 1] == chain[i - 1 + 1];
      }
    }
  }

  lemma {:induction false} NameOfChain(s: Schema, chain: seq<Schema>, isMember: bool, name: string)
    requires TypeChain(chain) && chain[0] == s
    requires SaysItself(chain[|chain| - 1], isMember || |chain| > 1, name)
    ensures name in if isMember then MemberNames(s) else TypeNames(s)
    decreases |chain|
  {
    NamesMissing(s);
    if |chain| > 1 {
      var m, rest := chain[1], chain[1..];
      assert s.typ.Undeclared? && m in AskedUnion(s) by {
        assert chain[0 + 1] in AskedUnion(chain[0]);
      }
      forall i | 0 <= i < |rest| - 1 ensures rest[i].typ.Undeclared? && rest[i + 1] in AskedUnion(rest[i]) {
        assert rest[i] == chain[i + 1] && rest[i + 1] == chain[i + 1 + 1];
      }
      NameOfChain(m, rest, true, name);
      assert name in UnionNames(AskedUnion(s));
    }
  }

  /** What a member adds to its union: the names it declares, or "unknown" when it declares none. */
  ghost predicate Adds(m: Schema, name: string) {
    Declares(m, name) || (name == "unknown" && forall n :: !Declares(m, n))
  }

  lemma AddsExactly(m: Schema, name: string)
    ensures Adds(m, name) <==> name in MemberNames(m)
  {
    forall n ensures Declares(m, n) <==> n in TypeNames(m) {
      NamesByChains(m, n);
    }
    if TypeNames(m) != {} {
      var n :| n in TypeNames(m);
      assert Declares(m, n);
    }
  }

  ghost predicate UnionAdds(ms: seq<Schema>, name: string) {
    exists m :: m in ms && Adds(m, name)
  }

  lemma UnionAddsExactly(ms: seq<Schema>, name: string)
    ensures UnionAdds(ms, name) <==> name in UnionNames(ms)
  {
    forall m ensures Adds(m, name) <==> name in MemberNames(m) {
      AddsExactly(m, name);
    }
  }

  /**
   * A schema without a type of its own has the names that the members of the
   * first union that adds any add; without one it is an object when it has
   * properties or refers somewhere, and anything otherwise.
   */
  lemma UndeclaredExactly(s: Schema, name: string)
    requires s.typ.Undeclared?
    ensures name in TypeNames(s) <==>
      if exists n :: UnionAdds(s.anyOf, n) then UnionAdds(s.anyOf, name)
      else if exists n :: UnionAdds(s.oneOf, n) then UnionAdds(s.oneOf, name)
      else name == if s.properties.Table? || s.ref != NoRef then "object" else "any"
  {
    forall n ensures UnionAdds(s.anyOf, n) <==> n in UnionNames(s.anyOf) {
      UnionAddsExactly(s.anyOf, n);
    }
    forall n ensures UnionAdds(s.oneOf, n) <==> n in UnionNames(s.oneOf) {
      UnionAddsExactly(s.oneOf, n);
    }
  }

  /* ---- enum values ---- */

  predicate ListsItself(s: Schema) {
    s.enum.Some? || s.const_.Some?
  }

  /** The values a schema lists for itself: its enum, or else its constant. */
  predicate Itself(s: Schema, v: string) {
    (s.enum.Some? && v in s.enum.value) || (s.enum.None? && s.const_ == Some(v))
  }

  /** Each schema but the last lists nothing itself, and the next one is what one of its members stands for. */
  ghost predicate EnumChain(chain: seq<Schema>, c: Components) {
    chain != [] && forall i :: 0 <= i < |chain| - 1 ==> EnumLink(chain[i], chain[i + 1], c)
  }

  ghost predicate EnumLink(s: Schema, t: Schema, c: Components) {
    !ListsItself(s) && exists m :: m in s.anyOf + s.oneOf && Deref(m, c) == t
  }

  ghost predicate ChainCloses(s: Schema, chain: seq<Schema>, c: Components) {
    EnumChain(chain, c) && chain[0] == s && ListsItself(chain[|chain| - 1])
  }

  ghost predicate ChainLists(s: Schema, chain: seq<Schema>, c: Components, v: string) {
    EnumChain(chain, c) && chain[0] == s && Itself(chain[|chain| - 1], v)
  }

  lemma ChainGrows(s: Schema, chain: seq<Schema>, c: Components)
    requires EnumChain(chain, c) && EnumLink(s, chain[0], c)
    ensures EnumChain([s] + chain, c)
  {
    var longer := [s] + chain;
    forall i | 0 <= i < |longer| - 1 ensures EnumLink(longer[i], longer[i + 1], c) {
      if i > 0 {
        assert longer[i] == chain[i - 1] && longer[i + 1] == chain[i - 1 + 1];
      }
    }
  }

  lemma ChainTail(chain: seq<Schema>, c: Components)
    requires EnumChain(chain, c) && |chain| > 1
    ensures EnumLink(chain[0], chain[1], c) && EnumChain(chain[1..], c)
  {
    assert EnumLink(chain[0], chain[0 + 1], c);
    forall i | 0 <= i < |chain[1..]| - 1 ensures EnumLink(chain[1..][i], chain[1..][i + 1], c) {
      assert EnumLink(chain[i + 1], chain[i + 1 + 1], c);
    }
  }

  /** What a link leads to is read one level lower, and its values are values of the schema. */
  lemma LinkValues(s: Schema, t: Schema, c: Components)
    requires EnumHalts(s, c) && EnumLink(s, t, c)
    ensures EnumHalts(t, c) && EnumDepth(t, c) < EnumDepth(s, c)
    ensures EnumValues(t, c).Some? ==> EnumValues(s, c).Some? && EnumValues(t, c).value <= EnumValues(s, c).value
  {
    var m :| m in s.anyOf + s.oneOf && Deref(m, c) == t;
    MemberHalts(s, c, m);
    UnionValues(s, c);
    if EnumValues(t, c).Some? {
      assert Closed(m, c);
      forall v | v in EnumValues(t, c).value ensures v in EnumValues(s, c).value {
        assert Lists(m, c, v);
        assert Offers(s.anyOf + s.oneOf, c, v);
      }
    }
  }

  /** Values that a schema does not list itself come over some link. */
  lemma LinkOfValue(s: Schema, c: Components, v: string) returns (t: Schema)
    requires EnumHalts(s, c) && !ListsItself(s) && EnumValues(s, c).Some?
    ensures EnumLink(s, t, c) && EnumHalts(t, c) && EnumDepth(t, c) < EnumDepth(s, c) && EnumValues(t, c).Some?
    ensures v in EnumValues(s, c).value ==> v in EnumValues(t, c).value
  {
    UnionValues(s, c);
    var m :| m in s.anyOf + s.oneOf && Closed(m, c);
    if v in EnumValues(s, c).value {
      m :| m in s.anyOf + s.oneOf && Lists(m, c, v);
    }
    MemberHalts(s, c, m);
    t := Deref(m, c);
  }

  /** A schema is a closed set exactly when some chain ends in a schema that lists its values. */
  lemma {:induction false} ClosedByChains(s: Schema, c: Components)
    requires EnumHalts(s, c)
    ensures EnumValues(s, c).Some? <==> exists chain :: ChainCloses(s, chain, c)
    decreases EnumDepth(s, c)
  {
    if ListsItself(s) {
      assert ChainCloses(s, [s], c);
    } else if EnumValues(s, c).Some? {
      var t := LinkOfValue(s, c, "");
      ClosedByChains(t, c);
      var chain :| ChainCloses(t, chain, c);
      ChainGrows(s, chain, c);
      assert ChainCloses(s, [s] + chain, c);
    } else if chain :| ChainCloses(s, chain, c) {
      ChainTail(chain, c);
      LinkValues(s, chain[1], c);
      assert ChainCloses(chain[1], chain[1..], c);
      ClosedByChains(chain[1], c);
    }
  }

  /** The closed set of a schema holds exactly the values that some chain ends in. */
  lemma {:induction false} ValuesByChains(s: Schema, c: Components, v: string)
    requires EnumHalts(s, c)
    ensures (EnumValues(s, c).Some? && v in EnumValues(s, c).value) <==> exists chain :: ChainLists(s, chain, c, v)
  {
    if EnumValues(s, c).Some? && v in EnumValues(s, c).value {
      ChainOfValue(s, c, v);
    }
    if chain :| ChainLists(s, chain, c, v) {
      ValueOfChain(s, chain, c, v);
    }
  }

  lemma {:induction false} ChainOfValue(s: Schema, c: Components, v: string)
    requires EnumHalts(s, c) && EnumValues(s, c).Some? && v in EnumValues(s, c).value
    ensures exists chain :: ChainLists(s, chain, c, v)
    decreases EnumDepth(s, c)
  {
    if ListsItself(s) {
      assert ChainLists(s, [s], c, v);
    } else {
      var t := LinkOfValue(s, c, v);
      ChainOfValue(t, c, v);
      var chain :| ChainLists(t, chain, c, v);
      ChainGrows(s, chain, c);
      assert ChainLists(s, [s] + chain, c, v);
    }
  }

  lemma {:induction false} ValueOfChain(s: Schema, chain: seq<Schema>, c: Components, v: string)
    requires EnumHalts(s, c) && ChainLists(s, chain, c, v)
    ensures EnumValues(s, c).Some? && v in EnumValues(s, c).value
    decreases |chain|
  {
    if |chain| > 1 {
      ChainTail(chain, c);
      LinkValues(s, chain[1], c);
      ValueOfChain(chain[1], chain[1..], c, v);
    }
  }
}
