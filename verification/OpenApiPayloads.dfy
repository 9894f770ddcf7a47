/** Substitutability: what an integration sends under the old fields is accepted under the new ones. */
module OpenApiPayloads {

  // What it could count on reading is still present, and a caller that was admitted still
  // is. The values it reads may be new: they are ones the old fields admit exactly when
  // the types and enums of shared fields were not widened.

  import opened Basics
  import opened OpenApiFlatten
  import opened OpenApiSurface
  import opened OpenApiCompare
  import opened OpenApiCompatibility

  /** What a value has to look like is left open: which type names admit it, and its rendered text. */
  datatype Reading<!V> = Reading(admits: (string, V) -> bool, rendered: V -> string)

  type Payload<V> = map<Path, V>

  ghost predicate FieldAdmits<V>(r: Reading<V>, f: Field, v: V) {
    (exists t :: t in f.types && r.admits(t, v)) && (f.enum.Some? ==> r.rendered(v) in f.enum.value)
  }

  /** A field is owed once every field above it is present. */
  ghost predicate Owed<V>(fields: Fields, payload: Payload<V>, n: Path) {
    n in fields && n != [] && fields[n].required
    && forall q :: q in fields && q != [] && q < n ==> q in payload
  }

  ghost predicate Complete<V>(fields: Fields, payload: Payload<V>) {
    forall n :: Owed(fields, payload, n) ==> n in payload
  }

  /** Only known fields below the root, each with an admitted value, and every field that is owed. */
  ghost predicate Valid<V>(r: Reading<V>, fields: Fields, payload: Payload<V>) {
    && payload.Keys <= fields.Keys - {[]}
    && (forall n :: n in payload ==> FieldAdmits(r, fields[n], payload[n]))
    && Complete(fields, payload)
  }

  /* ---- what a marker stands for ---- */

  // A recursion marker stands for a reference that repeats, and a value there has one of
  // the types of what is referred to. No JSON value has the type the marker names.

  /** The types a marker at a path stands for. */
  type Meaning = Path -> set<string>

  function UnmarkedTypes(types: set<string>, meant: set<string>): set<string> {
    if MARKER_NAME in types then types - {MARKER_NAME} + meant else types
  }

  function Unmarked(fields: Fields, meaning: Meaning): Fields {
    map n | n in fields :: fields[n].(types := UnmarkedTypes(fields[n].types, meaning(n)))
  }

  /** Nowhere below the root does a marker hide a type that was dropped. */
  ghost predicate MarkersKept(was: Fields, now: Fields, meant: Meaning, means: Meaning) {
    forall n :: n in was && n in now && n != [] && (MARKER_NAME in was[n].types || MARKER_NAME in now[n].types) ==>
      UnmarkedTypes(was[n].types, meant(n)) <= UnmarkedTypes(now[n].types, means(n))
  }

  lemma UnmarkedOwes<V>(fields: Fields, meaning: Meaning, payload: Payload<V>)
    ensures Complete(Unmarked(fields, meaning), payload) <==> Complete(fields, payload)
  {
    forall n ensures Owed(Unmarked(fields, meaning), payload, n) <==> Owed(fields, payload, n) {
    }
  }

  lemma TypesKept(was: Fields, now: Fields, meant: Meaning, means: Meaning, dir: Direction, n: Path)
    requires FieldsKept(was, now, dir) && MarkersKept(was, now, meant, means) && n in was && n != []
    ensures n in now && Unmarked(was, meant)[n].types <= Unmarked(now, means)[n].types
    ensures EnumKept(Unmarked(was, meant)[n].enum, Unmarked(now, means)[n].enum)
  {
    assert FieldKept(was[n], now[n], dir);
    assert MARKER_NAME in RECURSION_MARKER;
  }

  /* ---- payloads are kept ---- */

  lemma CompletenessKept<V>(was: Fields, now: Fields, payload: Payload<V>)
    requires FieldsKept(was, now, Sends) && payload.Keys <= was.Keys - {[]} && Complete(was, payload)
    ensures Complete(now, payload)
  {
    forall n | Owed(now, payload, n) ensures n in payload {
      if n in was {
        assert FieldKept(was[n], now[n], Sends);
        forall q | q in was && q != [] && q < n ensures q in payload {
          assert q in now;
        }
        assert Owed(was, payload, n);
      } else {
        assert false;
      }
    }
  }

  /** Every payload the old fields accept, the new fields accept. */
  lemma Substitutability<V>(r: Reading<V>, was: Fields, now: Fields, meant: Meaning, means: Meaning,
      payload: Payload<V>)
    requires FieldsKept(was, now, Sends) && MarkersKept(was, now, meant, means)
      && Valid(r, Unmarked(was, meant), payload)
    ensures Valid(r, Unmarked(now, means), payload)
  {
    UnmarkedOwes(was, meant, payload);
    CompletenessKept(was, now, payload);
    UnmarkedOwes(now, means, payload);
    forall n | n in payload ensures n in now && FieldAdmits(r, Unmarked(now, means)[n], payload[n]) {
      TypesKept(was, now, meant, means, Sends, n);
      AdmittedMore(r, Unmarked(was, meant)[n], Unmarked(now, means)[n], payload[n]);
    }
  }

  lemma AdmittedMore<V>(r: Reading<V>, f: Field, g: Field, v: V)
    requires f.types <= g.types && EnumKept(f.enum, g.enum) && FieldAdmits(r, f, v)
    ensures FieldAdmits(r, g, v)
  {
    var t :| t in f.types && r.admits(t, v);
    assert t in g.types;
  }

  /* ---- both conditions are exact ---- */

  /** Values that carry their own type name and text. */
  datatype Tagged = Tagged(typ: string, text: string)

  const LITERAL: Reading<Tagged> := Reading((t: string, v: Tagged) => t == v.typ, (v: Tagged) => v.text)

  ghost predicate Allows(f: Field) {
    f.types != {} && f.enum != Some({})
  }

  /** Every field allows some value. */
  ghost predicate Inhabited(fields: Fields) {
    forall n :: n in fields && n != [] ==> Allows(fields[n])
  }

  ghost function Pick(s: set<string>): (t: string)
    requires s != {}
    ensures t in s
  {
    var t :| t in s;
    t
  }

  ghost function TextOf(f: Field): (text: string)
    requires f.enum != Some({})
    ensures f.enum.Some? ==> text in f.enum.value
  {
    if f.enum.None? then "" else Pick(f.enum.value)
  }

  lemma LiteralAdmits(f: Field, v: Tagged)
    ensures FieldAdmits(LITERAL, f, v) <==> v.typ in f.types && (f.enum.Some? ==> v.text in f.enum.value)
  {
    assert LITERAL.admits(v.typ, v);
  }

  /** The payload that sends every field, with type `t` at `at`. */
  ghost function FullPayload(fields: Fields, at: Path, t: string): Payload<Tagged>
    requires Inhabited(fields)
  {
    map n | n in fields && n != [] :: Tagged(if n == at then t else Pick(fields[n].types), TextOf(fields[n]))
  }

  lemma FullPayloadValid(fields: Fields, at: Path, t: string)
    requires Inhabited(fields) && (at in fields && at != [] ==> t in fields[at].types)
    ensures Valid(LITERAL, fields, FullPayload(fields, at, t))
  {
    var payload := FullPayload(fields, at, t);
    forall n | n in payload ensures FieldAdmits(LITERAL, fields[n], payload[n]) {
      LiteralAdmits(fields[n], payload[n]);
    }
  }

  /** No valid payload holds a value of the type that the marker names. */
  lemma NoValueIsMarked(fields: Fields, meaning: Meaning, payload: Payload<Tagged>)
    requires (forall n :: MARKER_NAME !in meaning(n)) && Valid(LITERAL, Unmarked(fields, meaning), payload)
    ensures forall n :: n in payload ==> payload[n].typ != MARKER_NAME
  {
    forall n | n in payload ensures payload[n].typ != MARKER_NAME {
      LiteralAdmits(Unmarked(fields, meaning)[n], payload[n]);
      assert MARKER_NAME !in Unmarked(fields, meaning)[n].types;
    }
  }

  /**
   * Between fields that a comparison calls compatible, every old payload stays
   * valid exactly when no recursion marker hides a dropped type. Where a marker stands
   * for types that JSON values have, no such payload holds a value of the marker's name.
   */
  lemma SubstitutableExactlyWhenMarkersKept(was: Fields, now: Fields, meant: Meaning, means: Meaning)
    requires FieldsKept(was, now, Sends) && Inhabited(Unmarked(was, meant))
    requires forall n :: MARKER_NAME !in meant(n) && MARKER_NAME !in means(n)
    ensures MarkersKept(was, now, meant, means) <==>
      forall payload :: Valid(LITERAL, Unmarked(was, meant), payload) ==> Valid(LITERAL, Unmarked(now, means), payload)
    ensures forall payload: Payload<Tagged>, n :: Valid(LITERAL, Unmarked(was, meant), payload) && n in payload ==>
      payload[n].typ != MARKER_NAME
  {
    forall payload: Payload<Tagged>, n | Valid(LITERAL, Unmarked(was, meant), payload) && n in payload
      ensures payload[n].typ != MARKER_NAME
    {
      NoValueIsMarked(was, meant, payload);
    }
    var before, after := Unmarked(was, meant), Unmarked(now, means);
    if MarkersKept(was, now, meant, means) {
      forall payload | Valid(LITERAL, before, payload) ensures Valid(LITERAL, after, payload) {
        Substitutability(LITERAL, was, now, meant, means, payload);
      }
    } else {
      var n :| n in was && n in now && n != [] && !(before[n].types <= after[n].types);
      var t :| t in before[n].types && t !in after[n].types;
      FullPayloadValid(before, n, t);
      LiteralAdmits(after[n], FullPayload(before, n, t)[n]);
      assert !Valid(LITERAL, after, FullPayload(before, n, t));
    }
  }

  /* ---- a value at the root ---- */

  /** A whole body: a value at the root and the payload below it. */
  ghost predicate ValidBody<V>(r: Reading<V>, fields: Fields, root: V, payload: Payload<V>) {
    ([] in fields ==> FieldAdmits(r, fields[[]], root)) && Valid(r, fields, payload)
  }

  /** What the comparison does not look at: the types and the enum at the root. */
  ghost predicate RootKept(was: Fields, now: Fields) {
    [] in was && [] in now ==> was[[]].types <= now[[]].types && EnumKept(was[[]].enum, now[[]].enum)
  }

  lemma BodiesKept<V>(r: Reading<V>, was: Fields, now: Fields, meant: Meaning, means: Meaning, root: V,
      payload: Payload<V>)
    requires FieldsKept(was, now, Sends) && MarkersKept(was, now, meant, means)
    requires ([] in now ==> [] in was) && RootKept(Unmarked(was, meant), Unmarked(now, means))
    requires ValidBody(r, Unmarked(was, meant), root, payload)
    ensures ValidBody(r, Unmarked(now, means), root, payload)
  {
    Substitutability(r, was, now, meant, means, payload);
    if [] in now {
      AdmittedMore(r, Unmarked(was, meant)[[]], Unmarked(now, means)[[]], root);
    }
  }

  /** Some text is in no finite set of texts. */
  lemma {:induction false} FreshText(texts: set<string>) returns (novel: string)
    ensures novel !in texts
    ensures forall t :: t in texts ==> |t| < |novel|
    decreases |texts|
  {
    if texts == {} {
      novel := "";
    } else {
      var t := Pick(texts);
      var shorter := FreshText(texts - {t});
      novel := shorter + t + "x";
      forall u | u in texts ensures |u| < |novel| {
        assert u == t || u in texts - {t};
      }
    }
  }

  /** A value that one field admits and the other does not. */
  lemma RefusedValue(f: Field, g: Field) returns (v: Tagged)
    requires Allows(f) && !(f.types <= g.types && EnumKept(f.enum, g.enum))
    ensures FieldAdmits(LITERAL, f, v) && !FieldAdmits(LITERAL, g, v)
  {
    if !(f.types <= g.types) {
      var t :| t in f.types && t !in g.types;
      v := Tagged(t, TextOf(f));
    } else if f.enum.None? {
      var novel := FreshText(g.enum.value);
      v := Tagged(Pick(f.types), novel);
    } else {
      var text :| text in f.enum.value && text !in g.enum.value;
      v := Tagged(Pick(f.types), text);
    }
    LiteralAdmits(f, v);
    LiteralAdmits(g, v);
  }

  /**
   * The root is never compared: between compatible fields with their markers kept,
   * every body with a value at the root stays valid exactly when the root's
   * own types and enum are kept.
   */
  lemma BodiesKeptExactlyWhenRootKept(was: Fields, now: Fields, meant: Meaning, means: Meaning)
    requires FieldsKept(was, now, Sends) && MarkersKept(was, now, meant, means)
    requires [] in was && [] in now && Inhabited(Unmarked(was, meant)) && Allows(Unmarked(was, meant)[[]])
    ensures RootKept(Unmarked(was, meant), Unmarked(now, means)) <==>
      forall root, payload :: ValidBody(LITERAL, Unmarked(was, meant), root, payload) ==>
                              ValidBody(LITERAL, Unmarked(now, means), root, payload)
  {
    var before, after := Unmarked(was, meant), Unmarked(now, means);
    if RootKept(before, after) {
      forall root, payload | ValidBody(LITERAL, before, root, payload)
        ensures ValidBody(LITERAL, after, root, payload)
      {
        BodiesKept(LITERAL, was, now, meant, means, root, payload);
      }
    } else {
      var root := RefusedValue(before[[]], after[[]]);
      FullPayloadValid(before, [], "");
      assert ValidBody(LITERAL, before, root, FullPayload(before, [], ""));
      assert !ValidBody(LITERAL, after, root, FullPayload(before, [], ""));
    }
  }

  /* ---- what a reader and a caller keep ---- */

  /** Whatever the new response holds, a field the old one always held is still there. */
  lemma ReaderKeepsPresence<V>(was: Fields, now: Fields, payload: Payload<V>, n: Path)
    requires FieldsKept(was, now, Reads) && Complete(now, payload)
    requires n in was && n != [] && was[n].required
    requires forall q :: q in now && q != [] && q < n ==> q in payload
    ensures n in payload
  {
    assert FieldKept(was[n], now[n], Reads);
    assert Owed(now, payload, n);
  }

  /** Every value at a field that the old description has, too, is one it admits. */
  ghost predicate Understood<V>(r: Reading<V>, was: Fields, payload: Payload<V>) {
    forall n :: n in payload && n in was && n != [] ==> FieldAdmits(r, was[n], payload[n])
  }

  /** No shared field below the root has types or values that it did not have before. */
  ghost predicate NotWidened(was: Fields, now: Fields) {
    forall n :: n in was && n in now && n != [] ==> now[n].types <= was[n].types && EnumKept(now[n].enum, was[n].enum)
  }

  lemma ReaderKeepsValues<V>(r: Reading<V>, was: Fields, now: Fields, payload: Payload<V>)
    requires NotWidened(was, now) && Valid(r, now, payload)
    ensures Understood(r, was, payload)
  {
    forall n | n in payload && n in was && n != [] ensures FieldAdmits(r, was[n], payload[n]) {
      AdmittedMore(r, now[n], was[n], payload[n]);
    }
  }

  /**
   * Every value of every new response is one the old fields admit exactly when no
   * shared field was widened.
   */
  lemma ReaderKeepsValuesExactly(was: Fields, now: Fields)
    requires Inhabited(now)
    ensures NotWidened(was, now) <==>
      forall payload :: Valid(LITERAL, now, payload) ==> Understood(LITERAL, was, payload)
  {
    if NotWidened(was, now) {
      forall payload | Valid(LITERAL, now, payload) ensures Understood(LITERAL, was, payload) {
        ReaderKeepsValues(LITERAL, was, now, payload);
      }
    } else {
      var n :| n in was && n in now && n != [] && !(now[n].types <= was[n].types && EnumKept(now[n].enum, was[n].enum));
      var v := RefusedValue(now[n], was[n]);
      var full := FullPayload(now, [], "");
      FullPayloadValid(now, [], "");
      OtherValue(LITERAL, now, full, n, v);
      assert !Understood(LITERAL, was, full[n := v]);
    }
  }

  /** A payload stays valid when one of its values is replaced by another that the field admits. */
  lemma OtherValue<V>(r: Reading<V>, fields: Fields, payload: Payload<V>, n: Path, v: V)
    requires Valid(r, fields, payload) && n in payload && FieldAdmits(r, fields[n], v)
    ensures Valid(r, fields, payload[n := v])
  {
    forall q ensures Owed(fields, payload[n := v], q) <==> Owed(fields, payload, q) {
    }
  }

  type Credentials = map<string, set<string>>

  /** A caller meets an alternative by holding every scheme of it, with its scopes. */
  ghost predicate Meets(held: Credentials, alternative: Alternative) {
    forall scheme :: scheme in alternative ==>
      scheme in held && forall scope :: scope in alternative[scheme] ==> scope in held[scheme]
  }

  /** No alternatives at all means that no authentication is required. */
  ghost predicate Admitted(security: Security, held: Credentials) {
    security == multiset{} || exists a :: a in security && Meets(held, a)
  }

  lemma CallersKept(was: Security, now: Security, held: Credentials)
    requires SecurityKept(was, now) && Admitted(was, held)
    ensures Admitted(now, held)
  {
    if was != now {
      var a :| a in was && Meets(held, a);
      assert a in Alternatives(was);
    }
  }

  /* ---- for whole documents ---- */

  /** What the markers of an operation stand for, in its parameters and in its body. */
  datatype Meanings = Meanings(parameters: Meaning, request: Meaning)

  /** A call: who makes it, its parameters, and its body with the value at its root. */
  datatype Call<V> = Call(held: Credentials, parameters: Payload<V>, root: V, body: Payload<V>)

  ghost predicate AcceptedCall<V>(r: Reading<V>, op: Operation, m: Meanings, call: Call<V>) {
    && Admitted(op.security, call.held)
    && Valid(r, Unmarked(op.parameters, m.parameters), call.parameters)
    && ValidBody(r, Unmarked(op.request, m.request), call.root, call.body)
  }

  /** What the comparison of an operation leaves unseen: types behind markers, and the root of the body. */
  ghost predicate UnseenKept(was: Operation, now: Operation, meant: Meanings, means: Meanings) {
    && MarkersKept(was.parameters, now.parameters, meant.parameters, means.parameters)
    && MarkersKept(was.request, now.request, meant.request, means.request)
    && ([] in now.request ==> [] in was.request)
    && RootKept(Unmarked(was.request, meant.request), Unmarked(now.request, means.request))
  }

  /** After a comparison without breaking changes, every accepted call is still accepted. */
  lemma CallsKeepWorking<V>(r: Reading<V>, was: Document, now: Document, key: OperationKey, meant: Meanings,
      means: Meanings, call: Call<V>)
    requires WellFormed(was) && WellFormed(now) && NothingBreaks(was, now)
    requires key in DocumentSurface(was) && AcceptedCall(r, DocumentSurface(was)[key], meant, call)
    requires key in DocumentSurface(now) ==>
      UnseenKept(DocumentSurface(was)[key], DocumentSurface(now)[key], meant, means)
    ensures key in DocumentSurface(now) && AcceptedCall(r, DocumentSurface(now)[key], means, call)
  {
    var before, after := DocumentSurface(was), DocumentSurface(now);
    VerdictIsKept(before, after);
    assert OperationKept(before[key], after[key]);
    Substitutability(r, before[key].parameters, after[key].parameters, meant.parameters, means.parameters,
      call.parameters);
    BodiesKept(r, before[key].request, after[key].request, meant.request, means.request, call.root, call.body);
    CallersKept(before[key].security, after[key].security, call.held);
  }
}
