/**
 * The result of a dataflow analysis (checkers/flow/analysis/AnalysisResult.java):
 * abstract values of nodes, the node of each tree, and the store before
 * each block.  N is the node type, T the tree type, A the abstract value
 * type and I the transfer input.
 */
module AnalysisResult {
  import opened Wrappers

  /** The loop that puts every entry of other into m; other wins on clashes. */
  method PutAll<K, V>(m: map<K, V>, other: map<K, V>) returns (r: map<K, V>)
    ensures r == m + other
  {
    r := m;
    var todo := other.Keys;
    while todo != {}
      invariant todo <= other.Keys
      invariant r == m + map k | k in other && k !in todo :: other[k]
      decreases todo
    {
      var k :| k in todo;
      r := r[k := other[k]];
      todo := todo - {k};
    }
    assert (map k | k in other && k !in todo :: other[k]) == other;
  }

  /** getValue(Tree): the value of the tree's node, or null. */
  function TreeValue<N, T, A>(nodeValues: map<N, A>, treeLookup: map<T, N>, t: T): (v: Option<A>)
    ensures v.Some? <==> t in treeLookup && treeLookup[t] in nodeValues
    ensures v.Some? ==> v.value == nodeValues[treeLookup[t]]
  {
    if t in treeLookup && treeLookup[t] in nodeValues then Some(nodeValues[treeLookup[t]]) else None
  }

  /**
   * After combining, a tree whose node and value both come from other
   * has other's value, and a tree other knows nothing of keeps its value.
   */
  lemma CombinedTreeValue<N, T, A>(nodeValues: map<N, A>, treeLookup: map<T, N>,
                                   otherValues: map<N, A>, otherLookup: map<T, N>, t: T)
    ensures t in otherLookup && otherLookup[t] in otherValues ==>
      TreeValue(nodeValues + otherValues, treeLookup + otherLookup, t) == TreeValue(otherValues, otherLookup, t)
    ensures t !in otherLookup && t in treeLookup && treeLookup[t] !in otherValues ==>
      TreeValue(nodeValues + otherValues, treeLookup + otherLookup, t) == TreeValue(nodeValues, treeLookup, t)
  {
  }

  /** AnalysisResult */
  class AnalysisResult<N(==), T(==), A, I> {
    var nodeValues: map<N, A>
    var treeLookup: map<T, N>
    var stores: map<nat, I>

    /** The constructor takes copies of the node and tree maps. */
    constructor (nodeValues: map<N, A>, stores: map<nat, I>, treeLookup: map<T, N>)
      ensures this.nodeValues == nodeValues && this.treeLookup == treeLookup && this.stores == stores
    {
      this.nodeValues := nodeValues;
      this.treeLookup := treeLookup;
      this.stores := stores;
    }

    /** The empty result. */
    constructor Empty()
      ensures nodeValues == map[] && treeLookup == map[] && stores == map[]
    {
      nodeValues := map[];
      treeLookup := map[];
      stores := map[];
    }

    /** combine: every entry of other is put into this result; other wins on clashes. */
    method Combine(other: AnalysisResult<N, T, A, I>)
      modifies this
      ensures nodeValues == old(nodeValues) + other.nodeValues
      ensures treeLookup == old(treeLookup) + other.treeLookup
      ensures stores == old(stores) + other.stores
      ensures forall n :: n in other.nodeValues ==> nodeValues[n] == other.nodeValues[n]
      ensures forall n :: n in old(nodeValues) && n !in other.nodeValues ==> nodeValues[n] == old(nodeValues)[n]
      ensures forall b :: b in other.stores ==> stores[b] == other.stores[b]
    {
      nodeValues := PutAll(nodeValues, other.nodeValues);
      treeLookup := PutAll(treeLookup, other.treeLookup);
      stores := PutAll(stores, other.stores);
    }

    /** getValue(Node) */
    function GetValue(n: N): (v: Option<A>)
      reads this
      ensures v.Some? <==> n in nodeValues
      ensures v.Some? ==> v.value == nodeValues[n]
    {
      if n in nodeValues then Some(nodeValues[n]) else None
    }

    /** getNodeForTree */
    function GetNodeForTree(t: T): (n: Option<N>)
      reads this
      ensures n.Some? <==> t in treeLookup
      ensures n.Some? ==> n.value == treeLookup[t]
    {
      if t in treeLookup then Some(treeLookup[t]) else None
    }

    /** getValue(Tree): the value of the node looked up for the tree; null for an unknown tree. */
    function GetTreeValue(t: T): (v: Option<A>)
      reads this
      ensures v == TreeValue(nodeValues, treeLookup, t)
    {
      match GetNodeForTree(t)
      case None => None
      case Some(n) => GetValue(n)
    }
  }
}
