/** Permuting the lists of a schema, and of every schema inside it, is a reordering. */
module OpenApiPermuted {
  import opened Basics
  import opened OpenApiSchema
  import opened OpenApiFlatten
  import opened OpenApiReorder
  import opened OpenApiSurface
  import opened OpenApiCompare
  import opened OpenApiCompatibility

  /** `p` lists every place below `n`, and nothing else. */
  ghost predicate Permutes(p: seq<nat>, n: nat) {
    |p| == n && (forall i :: 0 <= i < n ==> p[i] < n) && forall j :: 0 <= j < n ==> j in p
  }

  ghost predicate PermutedTexts(a: seq<string>, b: seq<string>) {
    multiset(a) == multiset(b)
  }

  ghost predicate PermutedTypes(a: TypeDecl, b: TypeDecl) {
    a == b || (a.Several? && b.Several? && PermutedTexts(a.names, b.names))
  }

  ghost predicate PermutedEnum(a: Option<seq<string>>, b: Option<seq<string>>) {
    a.Some? == b.Some? && (a.Some? ==> PermutedTexts(a.value, b.value))
  }

  /** `t` is `s` with any of its lists, and any list of a schema inside it, in another order. */
  ghost predicate Permuted(s: Schema, t: Schema)
    decreases s, 0
  {
    assert s.items.Some? ==> s.items.value < s.items;
    assert s.extra.Some? ==> s.extra.value < s.extra;
    && s.ref == t.ref && s.const_ == t.const_
    && PermutedTypes(s.typ, t.typ) && PermutedEnum(s.enum, t.enum) && PermutedTexts(s.required, t.required)
    && s.properties.Table? == t.properties.Table?
    && (s.properties.Table? ==> PermutedProperties(s.properties.list, t.properties.list))
    && s.items.Some? == t.items.Some? && (s.items.Some? ==> Permuted(s.items.value, t.items.value))
    && s.extra.Some? == t.extra.Some? && (s.extra.Some? ==> Permuted(s.extra.value, t.extra.value))
    && PermutedMembers(s.allOf, t.allOf) && PermutedMembers(s.anyOf, t.anyOf) && PermutedMembers(s.oneOf, t.oneOf)
  }

  ghost predicate PermutedMembers(xs: seq<Schema>, ys: seq<Schema>)
    decreases xs, 1
  {
    exists p :: Permutes(p, |xs|) && |ys| == |xs| && forall i :: 0 <= i < |xs| ==> Permuted(xs[i], ys[p[i]])
  }

  ghost predicate PermutedProperties(ps: seq<Property>, qs: seq<Property>)
    decreases ps, 1
  {
    exists p :: Permutes(p, |ps|) && |qs| == |ps|
      && forall i :: 0 <= i < |ps| ==> ps[i].name == qs[p[i]].name && Permuted(ps[i].schema, qs[p[i]].schema)
  }

  ghost function PermutedPairs(): Pairing {
    iset pair: (Schema, Schema) | Permuted(pair.0, pair.1)
  }

  lemma TextsElements(a: seq<string>, b: seq<string>)
    requires PermutedTexts(a, b)
    ensures Elements(a) == Elements(b)
  {
    forall x ensures x in a <==> x in b {
      assert x in a <==> x in multiset(a);
      assert x in b <==> x in multiset(b);
    }
  }

  lemma MembersMatch(xs: seq<Schema>, ys: seq<Schema>)
    requires PermutedMembers(xs, ys)
    ensures Matched(xs, ys, PermutedPairs())
  {
    var r := PermutedPairs();
    var p :| Permutes(p, |xs|) && |ys| == |xs| && forall i :: 0 <= i < |xs| ==> Permuted(xs[i], ys[p[i]]);
    forall x | x in xs ensures HasRight(x, ys, r) {
      var i :| 0 <= i < |xs| && xs[i] == x;
      assert (xs[i], ys[p[i]]) in r;
    }
    forall y | y in ys ensures HasLeft(xs, y, r) {
      var j: nat :| 0 <= j < |ys| && ys[j] == y;
      assert j in p;
      var i :| 0 <= i < |p| && p[i] == j;
      assert (xs[i], ys[p[i]]) in r;
    }
  }

  lemma PropertiesMatch(ps: seq<Property>, qs: seq<Property>)
    requires PermutedProperties(ps, qs)
    ensures MatchedProperties(ps, qs, PermutedPairs())
  {
    var r := PermutedPairs();
    var p :| Permutes(p, |ps|) && |qs| == |ps|
      && forall i :: 0 <= i < |ps| ==> ps[i].name == qs[p[i]].name && Permuted(ps[i].schema, qs[p[i]].schema);
    forall x | x in ps ensures PropertyRight(x, qs, r) {
      var i :| 0 <= i < |ps| && ps[i] == x;
      assert (ps[i].schema, qs[p[i]].schema) in r;
    }
    forall y | y in qs ensures PropertyLeft(ps, y, r) {
      var j: nat :| 0 <= j < |qs| && qs[j] == y;
      assert j in p;
      var i :| 0 <= i < |p| && p[i] == j;
      assert (ps[i].schema, qs[p[i]].schema) in r;
    }
  }

  lemma PermutedIsAlike(s: Schema, t: Schema)
    requires Permuted(s, t)
    ensures Alike(s, t, PermutedPairs())
  {
    MembersMatch(s.allOf, t.allOf);
    MembersMatch(s.anyOf, t.anyOf);
    MembersMatch(s.oneOf, t.oneOf);
    if s.properties.Table? {
      PropertiesMatch(s.properties.list, t.properties.list);
    }
    TextsElements(s.required, t.required);
    if s.typ.Several? && t.typ.Several? && s.typ != t.typ {
      TextsElements(s.typ.names, t.typ.names);
    }
    if s.enum.Some? {
      TextsElements(s.enum.value, t.enum.value);
    }
  }

  lemma EmptyIsPermuted()
    ensures Permuted(EMPTY_SCHEMA, EMPTY_SCHEMA)
  {
    var p: seq<nat> := [];
    assert Permutes(p, 0);
    var none: seq<Schema> := [];
    assert PermutedMembers(none, none);
  }

  /** Documents whose schemas are permutations of each other's are reordered copies. */
  lemma PermutedIsReordered(c: Components, d: Components)
    requires c.Keys == d.Keys && forall n :: n in c ==> Permuted(c[n], d[n])
    ensures Reordered(c, d, PermutedPairs())
  {
    EmptyIsPermuted();
    forall s, t | (s, t) in PermutedPairs() ensures Alike(s, t, PermutedPairs()) {
      PermutedIsAlike(s, t);
    }
  }

  /** Permuting properties, enum values, required names, type names or union members anywhere in a
      document leaves every flattened field as it was. */
  lemma PermutingLeavesFields(s: Schema, t: Schema, c: Components, d: Components, required: bool)
    requires Permuted(s, t) && c.Keys == d.Keys && forall n :: n in c ==> Permuted(c[n], d[n])
    ensures HaltsAll(c) ==> HaltsAll(d)
    ensures Leaves(s, c, required, {}) == Leaves(t, d, required, {})
  {
    PermutedIsReordered(c, d);
    if HaltsAll(c) {
      HaltsAllReordered(c, d, PermutedPairs());
    }
    LeavesReordered(s, t, c, d, PermutedPairs(), required, {});
  }

  /** Comparing a document with a permuted copy of itself reports nothing. */
  lemma PermutedCopyReportsNothing(d: Document, e: Document)
    requires SameItems(d.paths, e.paths, PermutedPairs())
    requires d.schemas.Keys == e.schemas.Keys && forall n :: n in d.schemas ==> Permuted(d.schemas[n], e.schemas[n])
    ensures HaltsAll(d.schemas) ==> HaltsAll(e.schemas)
    ensures SurfaceChanges(DocumentSurface(d), DocumentSurface(e)) == {}
  {
    PermutedIsReordered(d.schemas, e.schemas);
    ReorderedCopyReportsNothing(d, e, PermutedPairs());
  }
}
