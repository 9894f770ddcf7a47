/** Which changes a comparison reports, kind by kind: each exactly when its condition on the two sides holds. */
module OpenApiReports {
  import opened Basics
  import opened OpenApiFlatten
  import opened OpenApiSurface
  import opened OpenApiCompare

  /* ---- the fields of one body ---- */

  /** A field below the root that both sides have. */
  predicate Shared(was: Fields, now: Fields, name: Path) {
    name != [] && name in was && name in now
  }

  /** No optional field that is new itself stands above `name`. */
  ghost predicate UnderKnownParents(was: Fields, now: Fields, name: Path) {
    forall n: nat :: 0 < n < |name| && name[..n] in now && name[..n] !in was ==> now[name[..n]].required
  }

  ghost predicate FieldReported(was: Fields, now: Fields, kind: Kind, dir: Direction, breaking: bool, note: Note) {
    match note
    case FieldRemoved(k, n) => k == kind && breaking && n != [] && n in was && n !in now
    case TypeChanged(k, n, from, to) =>
      k == kind && breaking && Shared(was, now, n) && from == was[n].types && to == now[n].types
      && from != {MARKER_NAME} && to != {MARKER_NAME} && exists t :: t in from && t !in to
    case BecameRequired(k, n) =>
      k == kind && breaking && Shared(was, now, n) && !was[n].required && now[n].required
    case NoLongerPresent(k, n) =>
      k == kind && breaking && dir == Reads && Shared(was, now, n) && was[n].required && !now[n].required
    case Refuses(k, n, values) =>
      k == kind && breaking && Shared(was, now, n) && was[n].enum.Some? && now[n].enum.Some?
      && values == was[n].enum.value - now[n].enum.value && values != {}
    case AlsoAccepts(k, n, values) =>
      k == kind && !breaking && dir == Sends && Shared(was, now, n) && was[n].enum.Some? && now[n].enum.Some?
      && values == now[n].enum.value - was[n].enum.value && values != {}
    case MayReturn(k, n, values) =>
      k == kind && !breaking && dir == Reads && Shared(was, now, n) && was[n].enum.Some? && now[n].enum.Some?
      && values == now[n].enum.value - was[n].enum.value && values != {}
    case NoLongerClosed(k, n) =>
      k == kind && !breaking && Shared(was, now, n) && was[n].enum.Some? && now[n].enum.None?
    case BecameClosed(k, n, values) =>
      k == kind && breaking && Shared(was, now, n) && was[n].enum.None? && now[n].enum == Some(values)
    case FieldNew(k, n) =>
      k == kind && n != [] && n in now && n !in was
      && (breaking <==> dir == Sends && now[n].required && UnderKnownParents(was, now, n))
    case _ => false
  }

  lemma SharedReported(was: Fields, now: Fields, where: Where, kind: Kind, dir: Direction, name: Path, ch: Change)
    requires Shared(was, now, name)
    ensures ch in SharedChanges(where, kind, dir, name, was[name], now[name]) <==>
      ch.where == where && NameOf(ch.note) == Some(name) && !ch.note.FieldRemoved? && !ch.note.FieldNew?
      && FieldReported(was, now, kind, dir, ch.breaking, ch.note)
  {
    var f, g := was[name], now[name];
    var enums := EnumChanges(where, kind, dir, name, f.enum, g.enum);
    EnumReported(where, kind, dir, name, f.enum, g.enum, ch);
  }

  /** The field a change is about. */
  function NameOf(note: Note): Option<Path> {
    match note
    case FieldRemoved(_, n) => Some(n)
    case TypeChanged(_, n, _, _) => Some(n)
    case BecameRequired(_, n) => Some(n)
    case NoLongerPresent(_, n) => Some(n)
    case Refuses(_, n, _) => Some(n)
    case AlsoAccepts(_, n, _) => Some(n)
    case MayReturn(_, n, _) => Some(n)
    case NoLongerClosed(_, n) => Some(n)
    case BecameClosed(_, n, _) => Some(n)
    case FieldNew(_, n) => Some(n)
    case _ => None
  }

  ghost predicate EnumNoted(kind: Kind, dir: Direction, name: Path, was: Option<set<string>>, now: Option<set<string>>,
      breaking: bool, note: Note)
  {
    match note
    case Refuses(k, n, values) =>
      k == kind && n == name && breaking && was.Some? && now.Some? && values == was.value - now.value && values != {}
    case AlsoAccepts(k, n, values) =>
      k == kind && n == name && !breaking && dir == Sends && was.Some? && now.Some? && values == now.value - was.value
      && values != {}
    case MayReturn(k, n, values) =>
      k == kind && n == name && !breaking && dir == Reads && was.Some? && now.Some? && values == now.value - was.value
      && values != {}
    case NoLongerClosed(k, n) => k == kind && n == name && !breaking && was.Some? && now.None?
    case BecameClosed(k, n, values) => k == kind && n == name && breaking && was.None? && now == Some(values)
    case _ => false
  }

  lemma EnumReported(where: Where, kind: Kind, dir: Direction, name: Path, was: Option<set<string>>,
      now: Option<set<string>>, ch: Change)
    ensures ch in EnumChanges(where, kind, dir, name, was, now) <==>
      ch.where == where && EnumNoted(kind, dir, name, was, now, ch.breaking, ch.note)
  {
  }

  lemma ParentsByLength(was: Fields, now: Fields, name: Path)
    ensures OptionalNewParent(name, was, now) <==> !UnderKnownParents(was, now, name)
  {
    if parent :| parent in now && parent != [] && parent !in was && !now[parent].required && parent < name {
      assert name[..|parent|] == parent;
    }
    if n: nat :| 0 < n < |name| && name[..n] in now && name[..n] !in was && !now[name[..n]].required {
      assert name[..n] < name;
    }
  }

  lemma OldNameReported(was: Fields, now: Fields, where: Where, kind: Kind, dir: Direction, name: Path, ch: Change)
    requires name != [] && name in was
    ensures ch in OldNameChanges(where, kind, dir, name, was[name], now) <==>
      ch.where == where && NameOf(ch.note) == Some(name) && !ch.note.FieldNew?
      && FieldReported(was, now, kind, dir, ch.breaking, ch.note)
  {
    if name in now {
      SharedReported(was, now, where, kind, dir, name, ch);
    }
  }

  lemma OldReported(was: Fields, now: Fields, where: Where, kind: Kind, dir: Direction, ch: Change)
    ensures ch in FromOld(was.Keys, was, now, where, kind, dir) <==>
      ch.where == where && !ch.note.FieldNew? && FieldReported(was, now, kind, dir, ch.breaking, ch.note)
  {
    if ch in FromOld(was.Keys, was, now, where, kind, dir) {
      var name :| name in was && name != [] && ch in OldNameChanges(where, kind, dir, name, was[name], now);
      OldNameReported(was, now, where, kind, dir, name, ch);
    }
    if !ch.note.FieldNew? && FieldReported(was, now, kind, dir, ch.breaking, ch.note) {
      var name := NameOf(ch.note).value;
      OldNameReported(was, now, where, kind, dir, name, ch);
    }
  }

  lemma NewReported(was: Fields, now: Fields, where: Where, kind: Kind, dir: Direction, ch: Change)
    ensures ch in FromNew(now.Keys, was, now, where, kind, dir) <==>
      ch.where == where && ch.note.FieldNew? && FieldReported(was, now, kind, dir, ch.breaking, ch.note)
  {
    if ch.note.FieldNew? {
      ParentsByLength(was, now, ch.note.name);
    }
  }

  /** The changes between two bodies are those whose condition holds. */
  lemma FieldsReported(was: Fields, now: Fields, where: Where, kind: Kind, dir: Direction, ch: Change)
    ensures ch in FieldChanges(was, now, where, kind, dir) <==>
      ch.where == where && FieldReported(was, now, kind, dir, ch.breaking, ch.note)
  {
    OldReported(was, now, where, kind, dir, ch);
    NewReported(was, now, where, kind, dir, ch);
  }

  /* ---- one operation ---- */

  ghost predicate OperationReported(was: Operation, now: Operation, status: Option<string>, breaking: bool,
      note: Note)
  {
    match note
    case OperationRemoved => false
    case OperationNew => false
    case OperationIdChanged(x, y) =>
      status.None? && breaking && x == was.operationId && y == now.operationId && x != y
    case DeprecationChanged(marked) =>
      status.None? && !breaking && was.deprecated != now.deprecated && marked == now.deprecated
    case StatusRemoved(s) => status.None? && breaking && s in was.responses && s !in now.responses
    case StatusNew(s) => status.None? && !breaking && s in now.responses && s !in was.responses
    case NowRequiresAuthentication => status.None? && breaking && was.security == multiset{} != now.security
    case CallerRefused(a) =>
      status.None? && breaking && was.security != multiset{} && a in was.security && a !in now.security
    case CallerAccepted(a) =>
      status.None? && !breaking && was.security != multiset{} && a in now.security && a !in was.security
    case _ =>
      if status.None? then
        FieldReported(was.parameters, now.parameters, ParameterKind, Sends, breaking, note)
        || FieldReported(was.request, now.request, RequestField, Sends, breaking, note)
      else
        status.value in was.responses && status.value in now.responses
        && FieldReported(was.responses[status.value], now.responses[status.value], ResponseField, Reads, breaking, note)
  }

  lemma SecurityReported(was: Security, now: Security, where: Where, ch: Change)
    ensures ch in SecurityChanges(was, now, where) <==>
      ch.where == where
      && match ch.note
         case NowRequiresAuthentication => ch.breaking && was == multiset{} != now
         case CallerRefused(a) => ch.breaking && was != multiset{} && a in was && a !in now
         case CallerAccepted(a) => !ch.breaking && was != multiset{} && a in now && a !in was
         case _ => false
  {
  }

  /** What one status of the old side adds. */
  ghost predicate StatusReported(was: map<string, Fields>, now: map<string, Fields>, key: OperationKey, s: string,
      ch: Change)
  {
    s in was
    && if s in now then
         ch.where == Where(key, Some(s)) && FieldReported(was[s], now[s], ResponseField, Reads, ch.breaking, ch.note)
       else ch == Change(true, Where(key, None), StatusRemoved(s))
  }

  lemma StatusesReported(was: map<string, Fields>, now: map<string, Fields>, key: OperationKey, ch: Change)
    ensures ch in FromOldStatuses(was.Keys, was, now, key) <==>
      exists s :: StatusReported(was, now, key, s, ch)
  {
    forall s | s in was ensures ch in StatusChanges(s, was, now, key) <==> StatusReported(was, now, key, s, ch) {
      if s in now {
        FieldsReported(was[s], now[s], Where(key, Some(s)), ResponseField, Reads, ch);
      }
    }
    if s :| s in was && ch in StatusChanges(s, was, now, key) {
      assert StatusReported(was, now, key, s, ch);
    }
  }

  ghost predicate ResponseReported(was: map<string, Fields>, now: map<string, Fields>, key: OperationKey, ch: Change) {
    ch.where.key == key
    && match ch.note
       case StatusRemoved(s) => ch.where.status.None? && ch.breaking && s in was && s !in now
       case StatusNew(s) => ch.where.status.None? && !ch.breaking && s in now && s !in was
       case _ =>
         ch.where.status.Some? && ch.where.status.value in was && ch.where.status.value in now
         && FieldReported(was[ch.where.status.value], now[ch.where.status.value], ResponseField, Reads, ch.breaking,
                          ch.note)
  }

  lemma ResponsesReported(was: map<string, Fields>, now: map<string, Fields>, key: OperationKey, ch: Change)
    ensures ch in ResponseChanges(was, now, key) <==> ResponseReported(was, now, key, ch)
  {
    StatusesReported(was, now, key, ch);
    if ResponseReported(was, now, key, ch) && !ch.note.StatusNew? {
      var s := if ch.note.StatusRemoved? then ch.note.status else ch.where.status.value;
      assert ch.where == if s in now then Where(key, Some(s)) else Where(key, None);
      assert StatusReported(was, now, key, s, ch);
    }
  }

  lemma OperationsReported(was: Operation, now: Operation, key: OperationKey, ch: Change)
    ensures ch in OperationChanges(was, now, key) <==>
      ch.where.key == key && OperationReported(was, now, ch.where.status, ch.breaking, ch.note)
  {
    var where := Where(key, None);
    FieldsReported(was.parameters, now.parameters, where, ParameterKind, Sends, ch);
    FieldsReported(was.request, now.request, where, RequestField, Sends, ch);
    ResponsesReported(was.responses, now.responses, key, ch);
    SecurityReported(was.security, now.security, where, ch);
  }

  /* ---- the documents ---- */

  ghost predicate Reported(before: Surface, after: Surface, ch: Change) {
    var k := ch.where.key;
    match ch.note
    case OperationRemoved => ch.where.status.None? && ch.breaking && k in before && k !in after
    case OperationNew => ch.where.status.None? && !ch.breaking && k in after && k !in before
    case _ => k in before && k in after && OperationReported(before[k], after[k], ch.where.status, ch.breaking, ch.note)
  }

  /** What one operation of the old side adds. */
  ghost predicate KeyReported(before: Surface, after: Surface, k: OperationKey, ch: Change) {
    k in before && ch.where.key == k
    && if k in after then OperationReported(before[k], after[k], ch.where.status, ch.breaking, ch.note)
       else ch == Change(true, Where(k, None), OperationRemoved)
  }

  lemma KeysReported(before: Surface, after: Surface, ch: Change)
    ensures ch in FromOldKeys(before.Keys, before, after) <==> KeyReported(before, after, ch.where.key, ch)
  {
    forall k | k in before ensures ch in KeyChanges(k, before, after) <==> KeyReported(before, after, k, ch) {
      if k in after {
        OperationsReported(before[k], after[k], k, ch);
      }
    }
    if k :| k in before && ch in KeyChanges(k, before, after) {
      assert KeyReported(before, after, k, ch);
    }
  }

  /** A comparison reports a change exactly when the condition of its kind holds of the two surfaces. */
  lemma ReportedExactly(before: Surface, after: Surface, ch: Change)
    ensures ch in SurfaceChanges(before, after) <==> Reported(before, after, ch)
  {
    KeysReported(before, after, ch);
    assert ch in NewKeys(after.Keys - before.Keys) <==>
      ch.note.OperationNew? && !ch.breaking && ch.where.status.None? && ch.where.key in after
      && ch.where.key !in before;
  }
}
