/** What the diff promises: a comparison without a breaking change is a compatibility order. */
module OpenApiCompatibility {

  // It is reflexive, transitive through any document free of recursion markers, blind
  // to the order in which a document lists things, and it keeps every payload and
  // every caller that was accepted.

  import opened Basics
  import opened OpenApiSchema
  import opened OpenApiFlatten
  import opened OpenApiSurface
  import opened OpenApiCompare
  import opened OpenApiReorder

  /* ---- no breaking change, said without changes ---- */

  ghost predicate EnumKept(was: Option<set<string>>, now: Option<set<string>>) {
    now.Some? ==> was.Some? && was.value <= now.value
  }

  ghost predicate FieldKept(was: Field, now: Field, dir: Direction) {
    && (was.types == RECURSION_MARKER || now.types == RECURSION_MARKER || was.types <= now.types)
    && (now.required ==> was.required)
    && (dir.Reads? && was.required ==> now.required)
    && EnumKept(was.enum, now.enum)
  }

  ghost predicate FieldsKept(was: Fields, now: Fields, dir: Direction) {
    && (forall n :: n in was && n != [] ==> n in now && FieldKept(was[n], now[n], dir))
    && (forall n :: n in now && n != [] && n !in was && now[n].required && dir.Sends? ==>
      OptionalNewParent(n, was, now))
  }

  ghost predicate SecurityKept(was: Security, now: Security) {
    was == now || (was != multiset{} && Alternatives(was) <= Alternatives(now))
  }

  ghost predicate OperationKept(was: Operation, now: Operation) {
    && was.operationId == now.operationId
    && FieldsKept(was.parameters, now.parameters, Sends)
    && FieldsKept(was.request, now.request, Sends)
    && (forall s :: s in was.responses ==> s in now.responses && FieldsKept(was.responses[s], now.responses[s], Reads))
    && SecurityKept(was.security, now.security)
  }

  ghost predicate SurfaceKept(before: Surface, after: Surface) {
    forall k :: k in before ==> k in after && OperationKept(before[k], after[k])
  }

  ghost predicate Harmless(changes: set<Change>) {
    Breaking(changes) == {}
  }

  lemma HarmlessUnion(a: set<Change>, b: set<Change>)
    ensures Harmless(a + b) <==> Harmless(a) && Harmless(b)
  {
    assert Breaking(a + b) == Breaking(a) + Breaking(b);
  }

  lemma SharedHarmless(where: Where, kind: Kind, dir: Direction, name: Path, was: Field, now: Field)
    ensures Harmless(Elements(SharedChanges(where, kind, dir, name, was, now))) <==> FieldKept(was, now, dir)
  {
    var types := if TypeChange(was, now) then [Change(true, where, TypeChanged(kind, name, was.types, now.types))]
      else [];
    var strict := if !was.required && now.required then [Change(true, where, BecameRequired(kind, name))] else [];
    var loose := if dir.Reads? && was.required && !now.required then [Change(true, where, NoLongerPresent(kind, name))]
      else [];
    var enums := EnumChanges(where, kind, dir, name, was.enum, now.enum);
    ElementsConcat(types, strict);
    ElementsConcat(types + strict, loose);
    ElementsConcat(types + strict + loose, enums);
    HarmlessUnion(Elements(types), Elements(strict));
    HarmlessUnion(Elements(types) + Elements(strict), Elements(loose));
    HarmlessUnion(Elements(types) + Elements(strict) + Elements(loose), Elements(enums));
    OneChange(types);
    OneChange(strict);
    OneChange(loose);
    EnumHarmless(where, kind, dir, name, was.enum, now.enum);
  }

  lemma OneChange(changes: seq<Change>)
    ensures changes == [] ==> Harmless(Elements(changes))
    ensures |changes| == 1 ==> (Harmless(Elements(changes)) <==> !changes[0].breaking)
  {
    if |changes| == 1 {
      assert Elements(changes) == {changes[0]};
      if changes[0].breaking {
        assert changes[0] in Breaking(Elements(changes));
      }
    }
  }

  lemma EnumHarmless(where: Where, kind: Kind, dir: Direction, name: Path, was: Option<set<string>>,
      now: Option<set<string>>)
    ensures Harmless(Elements(EnumChanges(where, kind, dir, name, was, now))) <==> EnumKept(was, now)
  {
    match (was, now)
    case (Some(before), Some(after)) =>
      var lost := if before - after == {} then [] else [Change(true, where, Refuses(kind, name, before - after))];
      var gained := if after - before == {} then []
                    else if dir.Sends? then [Change(false, where, AlsoAccepts(kind, name, after - before))]
                    else [Change(false, where, MayReturn(kind, name, after - before))];
      ElementsConcat(lost, gained);
      HarmlessUnion(Elements(lost), Elements(gained));
      OneChange(lost);
      OneChange(gained);
      assert before <= after ==> before - after == {};
      assert forall v :: v in before && v !in after ==> v in before - after;
    case (_, _) =>
      OneChange(EnumChanges(where, kind, dir, name, was, now));
  }

  lemma OldNameHarmless(was: Fields, now: Fields, where: Where, kind: Kind, dir: Direction, n: Path)
    requires n in was
    ensures Harmless(Elements(OldNameChanges(where, kind, dir, n, was[n], now)))
            <==> n in now && FieldKept(was[n], now[n], dir)
  {
    if n in now {
      SharedHarmless(where, kind, dir, n, was[n], now[n]);
    } else {
      OneChange(OldNameChanges(where, kind, dir, n, was[n], now));
    }
  }

  lemma FromOldHarmless(was: Fields, now: Fields, where: Where, kind: Kind, dir: Direction)
    ensures Harmless(FromOld(was.Keys, was, now, where, kind, dir))
            <==> forall n :: n in was && n != [] ==> n in now && FieldKept(was[n], now[n], dir)
  {
    var changes := FromOld(was.Keys, was, now, where, kind, dir);
    forall n | n in was && n != [] ensures Elements(OldNameChanges(where, kind, dir, n, was[n], now)) <= changes {
    }
    if Harmless(changes) {
      forall n | n in was && n != [] ensures n in now && FieldKept(was[n], now[n], dir) {
        HarmlessSubset(Elements(OldNameChanges(where, kind, dir, n, was[n], now)), changes);
        OldNameHarmless(was, now, where, kind, dir, n);
      }
    }
    if forall n :: n in was && n != [] ==> n in now && FieldKept(was[n], now[n], dir) {
      forall ch | ch in changes ensures !ch.breaking {
        var n :| n in was && n != [] && ch in OldNameChanges(where, kind, dir, n, was[n], now);
        OldNameHarmless(was, now, where, kind, dir, n);
        assert ch !in Breaking(Elements(OldNameChanges(where, kind, dir, n, was[n], now)));
      }
    }
  }

  lemma FromNewHarmless(was: Fields, now: Fields, where: Where, kind: Kind, dir: Direction)
    ensures Harmless(FromNew(now.Keys, was, now, where, kind, dir))
            <==> forall n :: n in now && n != [] && n !in was && now[n].required && dir.Sends? ==>
              OptionalNewParent(n, was, now)
  {
    var changes := FromNew(now.Keys, was, now, where, kind, dir);
    forall n | n in now && n != [] && n !in was
      ensures NewNameChange(where, kind, dir, n, was, now) in changes
    {
    }
    if Harmless(changes) {
      forall n | n in now && n != [] && n !in was ensures !NewNameChange(where, kind, dir, n, was, now).breaking {
        assert NewNameChange(where, kind, dir, n, was, now) !in Breaking(changes);
      }
    }
  }

  lemma FieldsHarmless(was: Fields, now: Fields, where: Where, kind: Kind, dir: Direction)
    ensures Harmless(FieldChanges(was, now, where, kind, dir)) <==> FieldsKept(was, now, dir)
  {
    HarmlessUnion(FromOld(was.Keys, was, now, where, kind, dir), FromNew(now.Keys, was, now, where, kind, dir));
    FromOldHarmless(was, now, where, kind, dir);
    FromNewHarmless(was, now, where, kind, dir);
  }

  lemma HarmlessSubset(a: set<Change>, b: set<Change>)
    requires a <= b && Harmless(b)
    ensures Harmless(a)
  {
    assert Breaking(a) <= Breaking(b);
  }

  lemma SecurityHarmless(was: Security, now: Security, where: Where)
    ensures Harmless(SecurityChanges(was, now, where)) <==> SecurityKept(was, now)
  {
    if was == multiset{} && was != now {
      assert Change(true, where, NowRequiresAuthentication) in Breaking(SecurityChanges(was, now, where));
    } else if was != now {
      var lost, gained := Alternatives(was) - Alternatives(now), Alternatives(now) - Alternatives(was);
      HarmlessUnion(Refused(lost, where), Accepted(gained, where));
      if a :| a in lost {
        assert Change(true, where, CallerRefused(a)) in Breaking(Refused(lost, where));
        assert a in Alternatives(was) && a !in Alternatives(now);
      } else {
        assert Refused(lost, where) == {};
        assert Alternatives(was) <= Alternatives(now) by {
          forall a | a in Alternatives(was) ensures a in Alternatives(now) {
            assert a !in lost;
          }
        }
      }
    }
  }

  lemma StatusHarmless(s: string, was: map<string, Fields>, now: map<string, Fields>, key: OperationKey)
    requires s in was
    ensures Harmless(StatusChanges(s, was, now, key)) <==> s in now && FieldsKept(was[s], now[s], Reads)
  {
    if s in now {
      FieldsHarmless(was[s], now[s], Where(key, Some(s)), ResponseField, Reads);
    } else {
      assert Change(true, Where(key, None), StatusRemoved(s)) in Breaking(StatusChanges(s, was, now, key));
    }
  }

  lemma ResponsesHarmless(was: map<string, Fields>, now: map<string, Fields>, key: OperationKey)
    ensures Harmless(ResponseChanges(was, now, key))
            <==> forall s :: s in was ==> s in now && FieldsKept(was[s], now[s], Reads)
  {
    HarmlessUnion(FromOldStatuses(was.Keys, was, now, key), NewStatuses(now.Keys - was.Keys, key));
    var changes := FromOldStatuses(was.Keys, was, now, key);
    if Harmless(changes) {
      forall s | s in was ensures s in now && FieldsKept(was[s], now[s], Reads) {
        StatusHarmless(s, was, now, key);
        HarmlessSubset(StatusChanges(s, was, now, key), changes);
      }
    }
    if forall s :: s in was ==> s in now && FieldsKept(was[s], now[s], Reads) {
      forall ch | ch in changes ensures !ch.breaking {
        var s :| s in was && ch in StatusChanges(s, was, now, key);
        StatusHarmless(s, was, now, key);
        assert ch !in Breaking(StatusChanges(s, was, now, key));
      }
    }
  }

  lemma OperationHarmless(was: Operation, now: Operation, key: OperationKey)
    ensures Harmless(OperationChanges(was, now, key)) <==> OperationKept(was, now)
  {
    var where := Where(key, None);
    var id := if was.operationId == now.operationId then {}
      else {Change(true, where, OperationIdChanged(was.operationId, now.operationId))};
    var deprecation := if was.deprecated == now.deprecated then {}
      else {Change(false, where, DeprecationChanged(now.deprecated))};
    var parameters := FieldChanges(was.parameters, now.parameters, where, ParameterKind, Sends);
    var request := FieldChanges(was.request, now.request, where, RequestField, Sends);
    var responses := ResponseChanges(was.responses, now.responses, key);
    var security := SecurityChanges(was.security, now.security, where);
    HarmlessUnion(id, deprecation);
    HarmlessUnion(id + deprecation, parameters);
    HarmlessUnion(id + deprecation + parameters, request);
    HarmlessUnion(id + deprecation + parameters + request, responses);
    HarmlessUnion(id + deprecation + parameters + request + responses, security);
    if was.operationId != now.operationId {
      assert Change(true, where, OperationIdChanged(was.operationId, now.operationId)) in Breaking(id);
    }
    FieldsHarmless(was.parameters, now.parameters, where, ParameterKind, Sends);
    FieldsHarmless(was.request, now.request, where, RequestField, Sends);
    ResponsesHarmless(was.responses, now.responses, key);
    SecurityHarmless(was.security, now.security, where);
  }

  lemma KeyHarmless(k: OperationKey, before: Surface, after: Surface)
    requires k in before
    ensures Harmless(KeyChanges(k, before, after)) <==> k in after && OperationKept(before[k], after[k])
  {
    if k in after {
      OperationHarmless(before[k], after[k], k);
    } else {
      assert Change(true, Where(k, None), OperationRemoved) in Breaking(KeyChanges(k, before, after));
    }
  }

  /** The verdict, over whole surfaces: no breaking change exactly when everything published is kept. */
  lemma VerdictIsKept(before: Surface, after: Surface)
    ensures Breaking(SurfaceChanges(before, after)) == {} <==> SurfaceKept(before, after)
  {
    HarmlessUnion(FromOldKeys(before.Keys, before, after), NewKeys(after.Keys - before.Keys));
    var changes := FromOldKeys(before.Keys, before, after);
    if Harmless(changes) {
      forall k | k in before ensures k in after && OperationKept(before[k], after[k]) {
        KeyHarmless(k, before, after);
        HarmlessSubset(KeyChanges(k, before, after), changes);
      }
    }
    if SurfaceKept(before, after) {
      forall ch | ch in changes ensures !ch.breaking {
        var k :| k in before && ch in KeyChanges(k, before, after);
        KeyHarmless(k, before, after);
        assert ch !in Breaking(KeyChanges(k, before, after));
      }
    }
  }

  /* ---- a preorder ---- */

  lemma FieldsUnchanged(f: Fields, where: Where, kind: Kind, dir: Direction)
    ensures FieldChanges(f, f, where, kind, dir) == {}
  {
    forall n | n in f ensures OldNameChanges(where, kind, dir, n, f[n], f) == [] {
      if f[n].enum.Some? {
        assert f[n].enum.value - f[n].enum.value == {};
      }
    }
  }

  lemma OperationUnchanged(op: Operation, key: OperationKey)
    ensures OperationChanges(op, op, key) == {}
  {
    FieldsUnchanged(op.parameters, Where(key, None), ParameterKind, Sends);
    FieldsUnchanged(op.request, Where(key, None), RequestField, Sends);
    forall s | s in op.responses ensures StatusChanges(s, op.responses, op.responses, key) == {} {
      FieldsUnchanged(op.responses[s], Where(key, Some(s)), ResponseField, Reads);
    }
    assert FromOldStatuses(op.responses.Keys, op.responses, op.responses, key) == {};
    assert op.responses.Keys - op.responses.Keys == {};
  }

  /** Reflexivity: comparing a surface with itself reports nothing at all. */
  lemma SurfaceUnchanged(s: Surface)
    ensures SurfaceChanges(s, s) == {}
  {
    forall k | k in s ensures KeyChanges(k, s, s) == {} {
      OperationUnchanged(s[k], k);
    }
    assert FromOldKeys(s.Keys, s, s) == {};
    assert s.Keys - s.Keys == {};
  }

  ghost predicate MarkerFree(f: Fields) {
    forall n :: n in f && n != [] ==> f[n].types != RECURSION_MARKER
  }

  ghost predicate MarkerFreeOperation(op: Operation) {
    MarkerFree(op.parameters) && MarkerFree(op.request) && forall s :: s in op.responses ==> MarkerFree(op.responses[s])
  }

  ghost predicate MarkerFreeSurface(s: Surface) {
    forall k :: k in s ==> MarkerFreeOperation(s[k])
  }

  lemma FieldsTransitive(a: Fields, b: Fields, c: Fields, dir: Direction)
    requires FieldsKept(a, b, dir) && FieldsKept(b, c, dir) && MarkerFree(b)
    ensures FieldsKept(a, c, dir)
  {
    forall n | n in c && n != [] && n !in a && c[n].required && dir.Sends? ensures OptionalNewParent(n, a, c) {
      if n in b {
        var parent :| parent in b && parent != [] && parent !in a && !b[parent].required && parent < n;
        assert parent in c && !c[parent].required;
      } else {
        var parent :| parent in c && parent != [] && parent !in b && !c[parent].required && parent < n;
        assert parent !in a;
      }
    }
  }

  /**
   * The middle document decides: compatibility through `b` always composes
   * exactly when no comparable field of `b` is a recursion marker.
   */
  lemma TransitiveExactlyWithoutMarkers(b: Fields, dir: Direction)
    ensures MarkerFree(b) <==>
      forall a, c :: FieldsKept(a, b, dir) && FieldsKept(b, c, dir) ==> FieldsKept(a, c, dir)
  {
    if MarkerFree(b) {
      forall a, c | FieldsKept(a, b, dir) && FieldsKept(b, c, dir) ensures FieldsKept(a, c, dir) {
        FieldsTransitive(a, b, c, dir);
      }
    } else {
      var n :| n in b && n != [] && b[n].types == RECURSION_MARKER;
      var a := b[n := b[n].(types := {"string"})];
      var c := b[n := b[n].(types := {"integer"})];
      assert a[n].types != RECURSION_MARKER by {
        assert "string" in a[n].types && "string" !in RECURSION_MARKER;
      }
      assert c[n].types != RECURSION_MARKER by {
        assert "integer" in c[n].types && "integer" !in RECURSION_MARKER;
      }
      assert FieldsKept(a, b, dir) && FieldsKept(b, c, dir);
      assert "string" in a[n].types && "string" !in c[n].types;
      assert !FieldKept(a[n], c[n], dir);
      assert !FieldsKept(a, c, dir);
    }
  }

  lemma SurfaceTransitive(a: Surface, b: Surface, c: Surface)
    requires SurfaceKept(a, b) && SurfaceKept(b, c) && MarkerFreeSurface(b)
    ensures SurfaceKept(a, c)
  {
    forall k | k in a ensures k in c && OperationKept(a[k], c[k]) {
      assert OperationKept(a[k], b[k]) && OperationKept(b[k], c[k]) && MarkerFreeOperation(b[k]);
      FieldsTransitive(a[k].parameters, b[k].parameters, c[k].parameters, Sends);
      FieldsTransitive(a[k].request, b[k].request, c[k].request, Sends);
      forall s | s in a[k].responses
        ensures s in c[k].responses && FieldsKept(a[k].responses[s], c[k].responses[s], Reads)
      {
        FieldsTransitive(a[k].responses[s], b[k].responses[s], c[k].responses[s], Reads);
      }
    }
  }

  /* ---- documents ---- */

  ghost predicate NothingBreaks(was: Document, now: Document)
    requires WellFormed(was) && WellFormed(now)
  {
    Breaking(SurfaceChanges(DocumentSurface(was), DocumentSurface(now))) == {}
  }

  lemma CompatibilityIsTransitive(a: Document, b: Document, c: Document)
    requires WellFormed(a) && WellFormed(b) && WellFormed(c)
    requires NothingBreaks(a, b) && NothingBreaks(b, c) && MarkerFreeSurface(DocumentSurface(b))
    ensures NothingBreaks(a, c)
  {
    VerdictIsKept(DocumentSurface(a), DocumentSurface(b));
    VerdictIsKept(DocumentSurface(b), DocumentSurface(c));
    VerdictIsKept(DocumentSurface(a), DocumentSurface(c));
    SurfaceTransitive(DocumentSurface(a), DocumentSurface(b), DocumentSurface(c));
  }

  /* ---- a reordered copy ---- */

  ghost predicate SameContent(a: Option<seq<Media>>, b: Option<seq<Media>>, r: Pairing) {
    a.Some? == b.Some?
    && (a.Some? ==>
      |a.value| == |b.value|
      && forall i :: 0 <= i < |a.value| ==>
        a.value[i].mediaType == b.value[i].mediaType && MatchedOption(a.value[i].schema, b.value[i].schema, r))
  }

  ghost predicate SameParameters(ps: seq<Parameter>, qs: seq<Parameter>, r: Pairing) {
    |ps| == |qs|
    && forall i :: 0 <= i < |ps| ==>
      ps[i].location == qs[i].location && ps[i].name == qs[i].name && ps[i].required == qs[i].required
      && MatchedOption(ps[i].schema, qs[i].schema, r)
  }

  ghost predicate SameResponses(xs: seq<Response>, ys: seq<Response>, r: Pairing) {
    |xs| == |ys| && forall i :: 0 <= i < |xs| ==>
      xs[i].status == ys[i].status && SameContent(xs[i].content, ys[i].content, r)
  }

  ghost predicate SameOperation(a: RawOperation, b: RawOperation, r: Pairing) {
    SameParameters(a.parameters, b.parameters, r) && SameContent(a.requestBody, b.requestBody, r)
    && SameResponses(a.responses, b.responses, r)
    && a.security == b.security && a.operationId == b.operationId && a.deprecated == b.deprecated
  }

  ghost predicate SameOperations(xs: seq<(string, RawOperation)>, ys: seq<(string, RawOperation)>, r: Pairing) {
    |xs| == |ys| && forall i :: 0 <= i < |xs| ==> xs[i].0 == ys[i].0 && SameOperation(xs[i].1, ys[i].1, r)
  }

  ghost predicate SameItems(xs: seq<PathItem>, ys: seq<PathItem>, r: Pairing) {
    |xs| == |ys| && forall i :: 0 <= i < |xs| ==>
      xs[i].path == ys[i].path && SameOperations(xs[i].operations, ys[i].operations, r)
  }

  /** `e` is `d` with the lists inside its schemas written in another order. */
  ghost predicate ReorderedCopy(d: Document, e: Document, r: Pairing) {
    Reordered(d.schemas, e.schemas, r) && SameItems(d.paths, e.paths, r)
  }

  lemma BodySchemaReordered(a: Option<seq<Media>>, b: Option<seq<Media>>, r: Pairing)
    requires SameContent(a, b, r)
    ensures MatchedOption(BodySchema(a), BodySchema(b), r)
  {
    if a.Some? {
      JsonSchemaReordered(a.value, b.value, r);
    }
  }

  lemma {:induction false} JsonSchemaReordered(a: seq<Media>, b: seq<Media>, r: Pairing)
    requires SameContent(Some(a), Some(b), r)
    ensures MatchedOption(JsonSchema(a), JsonSchema(b), r)
  {
    if a != [] && !IsJson(a[0].mediaType) {
      JsonSchemaReordered(a[1..], b[1..], r);
    }
  }

  lemma BodyFieldsReordered(a: Option<Schema>, b: Option<Schema>, c: Components, d: Components, r: Pairing)
    requires MatchedOption(a, b, r) && Reordered(c, d, r)
    ensures BodyFields(a, c) == BodyFields(b, d)
  {
    if a.Some? {
      LeavesReordered(a.value, b.value, c, d, r, true, {});
    }
  }

  lemma {:induction false} ParameterFieldsReordered(ps: seq<Parameter>, qs: seq<Parameter>, c: Components,
      d: Components, r: Pairing)
    requires SameParameters(ps, qs, r) && Reordered(c, d, r)
    ensures ParameterFields(ps, c) == ParameterFields(qs, d)
  {
    if ps != [] {
      var p, q := ps[|ps| - 1], qs[|qs| - 1];
      ParameterFieldsReordered(ps[..|ps| - 1], qs[..|qs| - 1], c, d, r);
      assert (ParameterSchema(p), ParameterSchema(q)) in r;
      LeavesReordered(ParameterSchema(p), ParameterSchema(q), c, d, r, p.required, {});
    }
  }

  lemma {:induction false} ResponseFieldsReordered(xs: seq<Response>, ys: seq<Response>, c: Components, d: Components,
      r: Pairing)
    requires SameResponses(xs, ys, r) && Reordered(c, d, r)
    ensures ResponseFields(xs, c) == ResponseFields(ys, d)
  {
    if xs != [] {
      var x, y := xs[|xs| - 1], ys[|ys| - 1];
      ResponseFieldsReordered(xs[..|xs| - 1], ys[..|ys| - 1], c, d, r);
      BodySchemaReordered(x.content, y.content, r);
      BodyFieldsReordered(BodySchema(x.content), BodySchema(y.content), c, d, r);
    }
  }

  lemma DescribedReordered(a: RawOperation, b: RawOperation, c: Components, d: Components, r: Pairing)
    requires SameOperation(a, b, r) && Reordered(c, d, r)
    ensures Described(a, c) == Described(b, d)
  {
    ParameterFieldsReordered(a.parameters, b.parameters, c, d, r);
    BodySchemaReordered(a.requestBody, b.requestBody, r);
    BodyFieldsReordered(BodySchema(a.requestBody), BodySchema(b.requestBody), c, d, r);
    ResponseFieldsReordered(a.responses, b.responses, c, d, r);
  }

  lemma {:induction false} OperationsReordered(path: string, xs: seq<(string, RawOperation)>,
      ys: seq<(string, RawOperation)>,
                                               c: Components, d: Components, r: Pairing, before: Surface)
    requires SameOperations(xs, ys, r) && Reordered(c, d, r)
    ensures OperationsOf(path, xs, c, before) == OperationsOf(path, ys, d, before)
    decreases xs
  {
    if xs != [] {
      OperationsReordered(path, xs[..|xs| - 1], ys[..|ys| - 1], c, d, r, before);
      DescribedReordered(xs[|xs| - 1].1, ys[|ys| - 1].1, c, d, r);
    }
  }

  lemma {:induction false} SurfaceReordered(xs: seq<PathItem>, ys: seq<PathItem>, c: Components, d: Components,
      r: Pairing)
    requires SameItems(xs, ys, r) && Reordered(c, d, r)
    ensures SurfaceOf(xs, c) == SurfaceOf(ys, d)
  {
    if xs != [] {
      var x, y := xs[|xs| - 1], ys[|ys| - 1];
      SurfaceReordered(xs[..|xs| - 1], ys[..|ys| - 1], c, d, r);
      OperationsReordered(x.path, x.operations, y.operations, c, d, r, SurfaceOf(xs[..|xs| - 1], c));
    }
  }

  /** Comparing a document with a reordered copy of itself reports nothing. */
  lemma ReorderedCopyReportsNothing(d: Document, e: Document, r: Pairing)
    requires ReorderedCopy(d, e, r)
    ensures HaltsAll(d.schemas) ==> HaltsAll(e.schemas)
    ensures SurfaceChanges(DocumentSurface(d), DocumentSurface(e)) == {}
  {
    if HaltsAll(d.schemas) {
      HaltsAllReordered(d.schemas, e.schemas, r);
    }
    SurfaceReordered(d.paths, e.paths, d.schemas, e.schemas, r);
    SurfaceUnchanged(DocumentSurface(d));
  }
}
