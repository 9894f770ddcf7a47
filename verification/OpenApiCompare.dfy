/** The compatibility diff: what changed from one document to the next, and which changes break. */
module OpenApiCompare {

  // The changes are a set; the sorted order in which they are listed, and their
  // wording, are not part of the model.

  import opened Basics
  import opened OpenApiFlatten
  import opened OpenApiSurface

  /** Who writes the fields: the integrator sends them, or reads them. */
  datatype Direction = Sends | Reads

  datatype Kind = ParameterKind | RequestField | ResponseField

  datatype Where = Where(key: OperationKey, status: Option<string>)

  datatype Note =
    | OperationRemoved | OperationNew
    | OperationIdChanged(was: Option<string>, now: Option<string>)
    | DeprecationChanged(marked: bool)
    | StatusRemoved(status: string) | StatusNew(status: string)
    | FieldRemoved(kind: Kind, name: Path)
    | TypeChanged(kind: Kind, name: Path, from: set<string>, to: set<string>)
    | BecameRequired(kind: Kind, name: Path)
    | NoLongerPresent(kind: Kind, name: Path)
    | Refuses(kind: Kind, name: Path, values: set<string>)
    | AlsoAccepts(kind: Kind, name: Path, values: set<string>)
    | MayReturn(kind: Kind, name: Path, values: set<string>)
    | NoLongerClosed(kind: Kind, name: Path)
    | BecameClosed(kind: Kind, name: Path, values: set<string>)
    | FieldNew(kind: Kind, name: Path)
    | NowRequiresAuthentication
    | CallerRefused(alternative: Alternative) | CallerAccepted(alternative: Alternative)

  datatype Change = Change(breaking: bool, where: Where, note: Note)

  /* ---- one field ---- */

  predicate TypeChange(was: Field, now: Field) {
    was.types != RECURSION_MARKER && now.types != RECURSION_MARKER && !(was.types <= now.types)
  }

  function EnumChanges(where: Where, kind: Kind, dir: Direction, name: Path,
                       was: Option<set<string>>, now: Option<set<string>>): seq<Change>
  {
    match (was, now)
    case (Some(before), Some(after)) =>
      (if before - after == {} then [] else [Change(true, where, Refuses(kind, name, before - after))])
      + (if after - before == {} then []
         else if dir.Sends? then [Change(false, where, AlsoAccepts(kind, name, after - before))]
         else [Change(false, where, MayReturn(kind, name, after - before))])
    case (Some(_), None) => [Change(false, where, NoLongerClosed(kind, name))]
    case (None, Some(after)) => [Change(true, where, BecameClosed(kind, name, after))]
    case (None, None) => []
  }

  function SharedChanges(where: Where, kind: Kind, dir: Direction, name: Path, was: Field, now: Field): seq<Change> {
    (if TypeChange(was, now) then [Change(true, where, TypeChanged(kind, name, was.types, now.types))] else [])
    + (if !was.required && now.required then [Change(true, where, BecameRequired(kind, name))] else [])
    + (if dir.Reads? && was.required && !now.required then [Change(true, where, NoLongerPresent(kind, name))] else [])
    + EnumChanges(where, kind, dir, name, was.enum, now.enum)
  }

  function OldNameChanges(where: Where, kind: Kind, dir: Direction, name: Path, was: Field, now: Fields): seq<Change> {
    if name !in now then [Change(true, where, FieldRemoved(kind, name))]
    else SharedChanges(where, kind, dir, name, was, now[name])
  }

  /** Some optional field that is itself new lies above `name`. */
  predicate OptionalNewParent(name: Path, was: Fields, now: Fields) {
    exists parent :: parent in now && parent != [] && parent !in was && !now[parent].required && parent < name
  }

  function NewNameChange(where: Where, kind: Kind, dir: Direction, name: Path, was: Fields, now: Fields): Change
    requires name in now
  {
    Change(now[name].required && dir.Sends? && !OptionalNewParent(name, was, now), where, FieldNew(kind, name))
  }

  /* ---- all fields of a body, or of the parameters ---- */

  lemma ElementsConcat(a: seq<Change>, b: seq<Change>)
    ensures Elements(a + b) == Elements(a) + Elements(b)
  {
  }

  function FromOld(names: set<Path>, was: Fields, now: Fields, where: Where, kind: Kind, dir: Direction): set<Change>
    requires names <= was.Keys
  {
    set n, ch | n in names && n != [] && ch in OldNameChanges(where, kind, dir, n, was[n], now) :: ch
  }

  function FromNew(names: set<Path>, was: Fields, now: Fields, where: Where, kind: Kind, dir: Direction): set<Change>
    requires names <= now.Keys
  {
    set n | n in names && n != [] && n !in was :: NewNameChange(where, kind, dir, n, was, now)
  }

  lemma FromOldStep(names: set<Path>, n: Path, was: Fields, now: Fields, where: Where, kind: Kind, dir: Direction)
    requires names <= was.Keys && n in was
    ensures FromOld(names + {n}, was, now, where, kind, dir)
         == FromOld(names, was, now, where, kind, dir)
            + (if n == [] then {} else Elements(OldNameChanges(where, kind, dir, n, was[n], now)))
  {
  }

  lemma FromNewStep(names: set<Path>, n: Path, was: Fields, now: Fields, where: Where, kind: Kind, dir: Direction)
    requires names <= now.Keys && n in now
    ensures FromNew(names + {n}, was, now, where, kind, dir)
         == FromNew(names, was, now, where, kind, dir)
            + (if n == [] || n in was then {} else {NewNameChange(where, kind, dir, n, was, now)})
  {
  }

  function FieldChanges(was: Fields, now: Fields, where: Where, kind: Kind, dir: Direction): set<Change> {
    FromOld(was.Keys, was, now, where, kind, dir) + FromNew(now.Keys, was, now, where, kind, dir)
  }

  method CompareFields(was: Fields, now: Fields, where: Where, kind: Kind, dir: Direction)
      returns (changes: seq<Change>)
    ensures Elements(changes) == FieldChanges(was, now, where, kind, dir)
  {
    changes := [];
    var todo := was.Keys;
    while todo != {}
      invariant todo <= was.Keys
      invariant Elements(changes) == FromOld(was.Keys - todo, was, now, where, kind, dir)
    {
      var name :| name in todo;
      FromOldStep(was.Keys - todo, name, was, now, where, kind, dir);
      assert was.Keys - (todo - {name}) == (was.Keys - todo) + {name};
      todo := todo - {name};
      if name != [] {
        var found := OldNameChanges(where, kind, dir, name, was[name], now);
        ElementsConcat(changes, found);
        changes := changes + found;
      }
    }
    assert was.Keys - todo == was.Keys;
    ghost var shared := Elements(changes);
    todo := now.Keys;
    while todo != {}
      invariant todo <= now.Keys
      invariant Elements(changes) == shared + FromNew(now.Keys - todo, was, now, where, kind, dir)
    {
      var name :| name in todo;
      FromNewStep(now.Keys - todo, name, was, now, where, kind, dir);
      assert now.Keys - (todo - {name}) == (now.Keys - todo) + {name};
      todo := todo - {name};
      if name != [] && name !in was {
        var found := NewNameChange(where, kind, dir, name, was, now);
        ElementsConcat(changes, [found]);
        changes := changes + [found];
      }
    }
    assert now.Keys - todo == now.Keys;
  }

  /* ---- security, and the whole document ---- */

  function Refused(alternatives: set<Alternative>, where: Where): set<Change> {
    set a | a in alternatives :: Change(true, where, CallerRefused(a))
  }

  function Accepted(alternatives: set<Alternative>, where: Where): set<Change> {
    set a | a in alternatives :: Change(false, where, CallerAccepted(a))
  }

  function Alternatives(security: Security): set<Alternative> {
    set a | a in security
  }

  function SecurityChanges(was: Security, now: Security, where: Where): set<Change> {
    if was == now then {}
    else if was == multiset{} then {Change(true, where, NowRequiresAuthentication)}
    else Refused(Alternatives(was) - Alternatives(now), where) + Accepted(Alternatives(now) - Alternatives(was), where)
  }

  function FromOldStatuses(statuses: set<string>, was: map<string, Fields>, now: map<string, Fields>,
      key: OperationKey): set<Change>
    requires statuses <= was.Keys
  {
    set s, ch | s in statuses && ch in StatusChanges(s, was, now, key) :: ch
  }

  function StatusChanges(s: string, was: map<string, Fields>, now: map<string, Fields>, key: OperationKey): set<Change>
    requires s in was
  {
    if s !in now then {Change(true, Where(key, None), StatusRemoved(s))}
    else FieldChanges(was[s], now[s], Where(key, Some(s)), ResponseField, Reads)
  }

  function NewStatuses(statuses: set<string>, key: OperationKey): set<Change> {
    set s | s in statuses :: Change(false, Where(key, None), StatusNew(s))
  }

  function ResponseChanges(was: map<string, Fields>, now: map<string, Fields>, key: OperationKey): set<Change> {
    FromOldStatuses(was.Keys, was, now, key) + NewStatuses(now.Keys - was.Keys, key)
  }

  function OperationChanges(was: Operation, now: Operation, key: OperationKey): set<Change> {
    var where := Where(key, None);
    (if was.operationId == now.operationId then {}
      else {Change(true, where, OperationIdChanged(was.operationId, now.operationId))})
    + (if was.deprecated == now.deprecated then {} else {Change(false, where, DeprecationChanged(now.deprecated))})
    + FieldChanges(was.parameters, now.parameters, where, ParameterKind, Sends)
    + FieldChanges(was.request, now.request, where, RequestField, Sends)
    + ResponseChanges(was.responses, now.responses, key)
    + SecurityChanges(was.security, now.security, where)
  }

  function KeyChanges(k: OperationKey, before: Surface, after: Surface): set<Change>
    requires k in before
  {
    if k !in after then {Change(true, Where(k, None), OperationRemoved)} else OperationChanges(before[k], after[k], k)
  }

  function FromOldKeys(keys: set<OperationKey>, before: Surface, after: Surface): set<Change>
    requires keys <= before.Keys
  {
    set k, ch | k in keys && ch in KeyChanges(k, before, after) :: ch
  }

  function NewKeys(keys: set<OperationKey>): set<Change> {
    set k | k in keys :: Change(false, Where(k, None), OperationNew)
  }

  function SurfaceChanges(before: Surface, after: Surface): set<Change> {
    FromOldKeys(before.Keys, before, after) + NewKeys(after.Keys - before.Keys)
  }

  method CompareSecurity(was: Security, now: Security, where: Where) returns (changes: seq<Change>)
    ensures Elements(changes) == SecurityChanges(was, now, where)
  {
    changes := [];
    if was == now {
      return;
    }
    if was == multiset{} {
      return [Change(true, where, NowRequiresAuthentication)];
    }
    var removed := Alternatives(was) - Alternatives(now);
    var todo := removed;
    while todo != {}
      invariant todo <= removed
      invariant Elements(changes) == Refused(removed - todo, where)
    {
      var a :| a in todo;
      todo := todo - {a};
      ElementsConcat(changes, [Change(true, where, CallerRefused(a))]);
      changes := changes + [Change(true, where, CallerRefused(a))];
    }
    assert removed - todo == removed;
    var added := Alternatives(now) - Alternatives(was);
    todo := added;
    while todo != {}
      invariant todo <= added
      invariant Elements(changes) == Refused(removed, where) + Accepted(added - todo, where)
    {
      var a :| a in todo;
      todo := todo - {a};
      ElementsConcat(changes, [Change(false, where, CallerAccepted(a))]);
      changes := changes + [Change(false, where, CallerAccepted(a))];
    }
    assert added - todo == added;
  }

  method CompareOperations(was: Operation, now: Operation, key: OperationKey) returns (changes: seq<Change>)
    ensures Elements(changes) == OperationChanges(was, now, key)
  {
    var where := Where(key, None);
    changes := [];
    if was.operationId != now.operationId {
      changes := changes + [Change(true, where, OperationIdChanged(was.operationId, now.operationId))];
    }
    if was.deprecated != now.deprecated {
      changes := changes + [Change(false, where, DeprecationChanged(now.deprecated))];
    }
    var parameters := CompareFields(was.parameters, now.parameters, where, ParameterKind, Sends);
    var request := CompareFields(was.request, now.request, where, RequestField, Sends);
    var responses := CompareResponses(was.responses, now.responses, key);
    var security := CompareSecurity(was.security, now.security, where);
    changes := changes + parameters + request + responses + security;
  }

  method CompareResponses(was: map<string, Fields>, now: map<string, Fields>, key: OperationKey)
      returns (changes: seq<Change>)
    ensures Elements(changes) == ResponseChanges(was, now, key)
  {
    changes := [];
    var todo := was.Keys;
    while todo != {}
      invariant todo <= was.Keys
      invariant Elements(changes) == FromOldStatuses(was.Keys - todo, was, now, key)
    {
      var s :| s in todo;
      todo := todo - {s};
      var found := [Change(true, Where(key, None), StatusRemoved(s))];
      if s in now {
        found := CompareFields(was[s], now[s], Where(key, Some(s)), ResponseField, Reads);
      }
      ElementsConcat(changes, found);
      assert Elements(found) == StatusChanges(s, was, now, key);
      changes := changes + found;
    }
    assert was.Keys - todo == was.Keys;
    var added := now.Keys - was.Keys;
    todo := added;
    while todo != {}
      invariant todo <= added
      invariant Elements(changes) == FromOldStatuses(was.Keys, was, now, key) + NewStatuses(added - todo, key)
    {
      var s :| s in todo;
      todo := todo - {s};
      ElementsConcat(changes, [Change(false, Where(key, None), StatusNew(s))]);
      changes := changes + [Change(false, Where(key, None), StatusNew(s))];
    }
    assert added - todo == added;
  }

  method CompareSurfaces(before: Surface, after: Surface) returns (changes: seq<Change>)
    ensures Elements(changes) == SurfaceChanges(before, after)
  {
    changes := [];
    var todo := before.Keys;
    while todo != {}
      invariant todo <= before.Keys
      invariant Elements(changes) == FromOldKeys(before.Keys - todo, before, after)
    {
      var k :| k in todo;
      todo := todo - {k};
      var found := [Change(true, Where(k, None), OperationRemoved)];
      if k in after {
        found := CompareOperations(before[k], after[k], k);
      }
      ElementsConcat(changes, found);
      assert Elements(found) == KeyChanges(k, before, after);
      changes := changes + found;
    }
    assert before.Keys - todo == before.Keys;
    var added := after.Keys - before.Keys;
    todo := added;
    while todo != {}
      invariant todo <= added
      invariant Elements(changes) == FromOldKeys(before.Keys, before, after) + NewKeys(added - todo)
    {
      var k :| k in todo;
      todo := todo - {k};
      ElementsConcat(changes, [Change(false, Where(k, None), OperationNew)]);
      changes := changes + [Change(false, Where(k, None), OperationNew)];
    }
    assert added - todo == added;
  }

  method Compare(was: Document, now: Document) returns (changes: seq<Change>)
    requires WellFormed(was) && WellFormed(now)
    ensures Elements(changes) == SurfaceChanges(DocumentSurface(was), DocumentSurface(now))
  {
    var before := ReadSurface(was);
    var after := ReadSurface(now);
    changes := CompareSurfaces(before, after);
  }

  /** The changes an integration could notice. */
  function Breaking(changes: set<Change>): set<Change> {
    set ch | ch in changes && ch.breaking
  }
}
