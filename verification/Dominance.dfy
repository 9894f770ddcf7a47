/**
 * The structural dominance check of the logging audit, and its soundness
 * against executions of structured statements.
 *
 * A syntax node is named by its address: the fields and indices that lead to
 * it from the module. An address stands for the identity of a node.
 */
module Dominance {

  datatype FieldName = Body | OrElse | FinalBody | Handlers | Part

  datatype Step = Step(field: FieldName, index: nat)

  type Address = seq<Step>

  predicate IsStatementField(field: FieldName) {
    field == Body || field == OrElse || field == FinalBody
  }

  /** Nodes in a statement list are statements; handlers and expression parts are not. */
  predicate IsStatement(a: Address) {
    a != [] && IsStatementField(a[|a| - 1].field)
  }

  function Parent(a: Address): Address
    requires a != []
  {
    a[..|a| - 1]
  }

  /** The parent map of a module, from every node but the module itself. */
  ghost predicate IsParentMap(parents: map<Address, Address>) {
    forall a :: a in parents ==> a != [] && parents[a] == Parent(a) && (parents[a] != [] ==> parents[a] in parents)
  }

  /** Both nodes lie in one statement list, the definition strictly before the use or what holds it. */
  predicate Dominates(definition: Address, use: Address) {
    definition != [] && |use| >= |definition|
    && use[..|definition| - 1] == Parent(definition)
    && IsStatement(definition)
    && use[|definition| - 1].field == definition[|definition| - 1].field
    && definition[|definition| - 1].index < use[|definition| - 1].index
  }

  /** The walk up the parent map from the use to the list of the definition. */
  method StatementDominates(definition: Address, use: Address, parents: map<Address, Address>) returns (r: bool)
    requires IsParentMap(parents) && (use != [] ==> use in parents)
    ensures r <==> definition in parents && Dominates(definition, use)
  {
    if definition !in parents {
      return false;
    }
    var container := parents[definition];
    var child := use;
    while child in parents && parents[child] != container
      invariant |child| <= |use| && child == use[..|child|] && (child != [] ==> child in parents)
      invariant Inside(container, use) ==> |container| < |child|
      decreases |child|
    {
      ParentPrefix(use, child);
      child := parents[child];
    }
    if child !in parents || parents[child] != container || !IsStatement(child) {
      LastStep(definition, use, child);
      return false;
    }
    LastStep(definition, use, child);
    var list, other := definition[|definition| - 1], child[|child| - 1];
    return IsStatementField(list.field) && list.field == other.field && list.index < other.index;
  }

  predicate Inside(container: Address, a: Address) {
    |container| < |a| && a[..|container|] == container
  }

  lemma ParentPrefix(use: Address, child: Address)
    requires 0 < |child| <= |use| && child == use[..|child|]
    ensures Parent(child) == use[..|child| - 1]
  {
  }

  /** Where the walk stops decides the declarative test. */
  lemma LastStep(definition: Address, use: Address, child: Address)
    requires definition != [] && |child| <= |use| && child == use[..|child|]
    requires Inside(Parent(definition), use) ==> |definition| <= |child|
    requires child == [] || Parent(child) == Parent(definition)
    ensures Dominates(definition, use) <==>
      child != [] && IsStatement(child) && IsStatement(definition)
      && definition[|definition| - 1].field == child[|child| - 1].field
      && definition[|definition| - 1].index < child[|child| - 1].index
  {
    if child != [] {
      assert |child| == |definition|;
      assert use[..|definition| - 1] == Parent(child);
      assert use[|definition| - 1] == child[|child| - 1];
    }
  }

  /** The innermost statement a node belongs to; the module belongs to none. */
  function StatementOf(a: Address): Address {
    if a == [] || IsStatement(a) then a else StatementOf(Parent(a))
  }

  method NearestStatement(node: Address, parents: map<Address, Address>) returns (current: Address)
    requires IsParentMap(parents) && (node != [] ==> node in parents)
    ensures current == StatementOf(node)
  {
    current := node;
    while current in parents && !IsStatement(current)
      invariant (current != [] ==> current in parents) && StatementOf(current) == StatementOf(node)
      decreases |current|
    {
      current := parents[current];
    }
  }
}
