/**
 * The store of the commitment checker
 * (checkers/commitment/CommitmentStore.java): the dataflow store of
 * AbstractStore plus the set of fields known to be initialized, by
 * composition as in InitializationStore.
 */
module CommitmentStore {
  import opened Wrappers
  import opened FlowExpressions
  import opened AbstractStore

  /** The lub of two initialized-field sets, as addAll then retainAll on an empty set. */
  function MergeInitialized(mine: set<Field>, theirs: set<Field>): (r: set<Field>)
    ensures forall f :: f in r <==> f in mine && f in theirs
  {
    ({} + theirs) * mine
  }

  /** The merged set is no larger than either input, and merging is symmetric. */
  lemma MergeInitializedBelow(a: set<Field>, b: set<Field>)
    ensures MergeInitialized(a, b) <= a && MergeInitialized(a, b) <= b
    ensures MergeInitialized(a, b) == MergeInitialized(b, a)
    ensures MergeInitialized(a, a) == a
  {
  }

  /** CommitmentStore */
  class CommitmentStore<V(==)> {
    const base: CFStore<V>
    var initializedFields: set<Field>

    /** A fresh store knows nothing and has no initialized fields. */
    constructor (sequentialSemantics: bool, mostSpecific: (V, Option<V>) -> V, lub: (V, V) -> Option<V>,
                 canAlias: (Receiver, Receiver) -> bool)
      ensures fresh(base)
      ensures base.State() == EmptyState() && initializedFields == {}
      ensures base.sequentialSemantics == sequentialSemantics && base.mostSpecific == mostSpecific
      ensures base.lub == lub && base.canAlias == canAlias
    {
      base := new CFStore(sequentialSemantics, mostSpecific, lub, canAlias);
      initializedFields := {};
    }

    /** The copy constructor: a separate base store and set with equal contents. */
    constructor Copy(other: CommitmentStore<V>)
      ensures fresh(base)
      ensures base.State() == other.base.State() && initializedFields == other.initializedFields
      ensures base.sequentialSemantics == other.base.sequentialSemantics && base.mostSpecific == other.base.mostSpecific
      ensures base.lub == other.base.lub && base.canAlias == other.base.canAlias
    {
      base := new CFStore.Copy(other.base);
      initializedFields := other.initializedFields;
    }

    /** addInitializedField: f becomes initialized and nothing else changes. */
    method AddInitializedField(f: Field)
      modifies this
      ensures initializedFields == old(initializedFields) + {f}
      ensures IsFieldInitialized(f)
      ensures forall g :: g != f ==> (IsFieldInitialized(g) <==> g in old(initializedFields))
    {
      initializedFields := initializedFields + {f};
    }

    /** isFieldInitialized */
    predicate IsFieldInitialized(f: Field)
      reads this
    {
      f in initializedFields
    }

    /** supersetOf: the other store's initialized fields are all here, and the base stores agree. */
    method IsSupersetOf(other: CommitmentStore<V>) returns (b: bool)
      ensures b <==> other.initializedFields <= initializedFields && SupersetOf(base.State(), other.base.State())
      ensures (exists f :: f in other.initializedFields && f !in initializedFields) ==> !b
    {
      b := ContainsAllOf(initializedFields, other.initializedFields);
      if !b {
        return;
      }
      b := base.IsSupersetOf(other.base);
    }

    /** leastUpperBound: the base lub, and the intersection of the initialized fields. */
    method LeastUpperBound(other: CommitmentStore<V>) returns (result: CommitmentStore<V>)
      ensures fresh(result) && fresh(result.base)
      ensures result.base.State() == Lub(base.State(), other.base.State(), base.lub)
      ensures result.initializedFields == MergeInitialized(initializedFields, other.initializedFields)
    {
      var merged := base.LeastUpperBound(other.base);
      result := new CommitmentStore(base.sequentialSemantics, base.mostSpecific, base.lub, base.canAlias);
      result.base.localVariableValues := merged.localVariableValues;
      result.base.fieldValues := merged.fieldValues;
      result.base.methodValues := merged.methodValues;
      result.initializedFields := result.initializedFields + other.initializedFields;
      result.initializedFields := result.initializedFields * initializedFields;
    }
  }
}
