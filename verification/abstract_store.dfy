/**
 * The dataflow store of the checker framework
 * (checkers/flow/analysis/checkers/CFAbstractStore.java): abstract values
 * for local variables, field accesses and pure method calls.
 *
 * The abstract values V are a lattice given by two operations:
 * mostSpecific(value, old) (old may be null) and leastUpperBound, which
 * may answer null.  Whether two receivers may alias depends on static
 * types and is the parameter canAlias.
 */
module AbstractStore {
  import opened Wrappers
  import opened FlowExpressions

  /** The three maps of a store. */
  datatype StoreState<V> = StoreState(
    locals: map<string, V>,
    fields: map<Receiver, V>,
    methods: map<Receiver, V>)

  function EmptyState<V>(): StoreState<V>
  {
    StoreState(map[], map[], map[])
  }

  function Lookup<K, V>(m: map<K, V>, k: K): Option<V>
  {
    if k in m then Some(m[k]) else None
  }

  /** The keys a store can hold: field accesses and pure calls without Unknown. */
  predicate WellFormed<V>(st: StoreState<V>)
  {
    && (forall k :: k in st.fields ==> k.FieldAccess? && !ContainsUnknown(k))
    && (forall k :: k in st.methods ==> k.PureMethodCall? && !ContainsUnknown(k))
  }

  /** canInsertReceiver */
  predicate CanInsertReceiver(r: Receiver)
  {
    (r.FieldAccess? || r.LocalVariable? || r.PureMethodCall?) && !ContainsUnknown(r)
  }

  /** The receivers a store keeps values for, of which getValue may be asked. */
  predicate Storable(r: Receiver)
  {
    r.FieldAccess? || r.LocalVariable? || r.PureMethodCall?
  }

  /** getValue(Receiver): null when the store knows nothing. */
  function GetValue<V>(st: StoreState<V>, r: Receiver): Option<V>
    requires Storable(r)
  {
    match r
    case LocalVariable(e) => Lookup(st.locals, e)
    case FieldAccess(_, _) => Lookup(st.fields, r)
    case PureMethodCall(_, _, _) => Lookup(st.methods, r)
  }

  /**
   * insertValue: a null value or a receiver holding Unknown changes
   * nothing; otherwise the new value is combined with the old one by
   * mostSpecific.  Fields are kept only under sequential semantics or when
   * unmodifiable, pure calls only under sequential semantics.
   */
  function Insert<V>(st: StoreState<V>, sequential: bool, mostSpecific: (V, Option<V>) -> V,
                     r: Receiver, value: Option<V>): (res: StoreState<V>)
    ensures WellFormed(st) ==> WellFormed(res)
    ensures value.None? || ContainsUnknown(r) ==> res == st
    ensures !r.LocalVariable? ==> res.locals == st.locals
    ensures !r.FieldAccess? ==> res.fields == st.fields
    ensures !r.PureMethodCall? ==> res.methods == st.methods
  {
    if value.None? || ContainsUnknown(r) then st
    else
      match r
      case LocalVariable(e) =>
        st.(locals := st.locals[e := mostSpecific(value.value, Lookup(st.locals, e))])
      case FieldAccess(_, _) =>
        if sequential || IsUnmodifiableByOtherCode(r) then
          st.(fields := st.fields[r := mostSpecific(value.value, Lookup(st.fields, r))])
        else st
      case PureMethodCall(_, _, _) =>
        if sequential then
          st.(methods := st.methods[r := mostSpecific(value.value, Lookup(st.methods, r))])
        else st
      case _ => st
  }

  /** clearValue: forget r; a receiver holding Unknown is never stored. */
  function Clear<V>(st: StoreState<V>, r: Receiver): (res: StoreState<V>)
    ensures WellFormed(st) ==> WellFormed(res)
    ensures ContainsUnknown(r) ==> res == st
    ensures !r.LocalVariable? ==> res.locals == st.locals
    ensures !r.FieldAccess? ==> res.fields == st.fields
    ensures !r.PureMethodCall? ==> res.methods == st.methods
  {
    if ContainsUnknown(r) then st
    else
      match r
      case LocalVariable(e) => st.(locals := st.locals - {e})
      case FieldAccess(_, _) => st.(fields := st.fields - {r})
      case PureMethodCall(_, _, _) => st.(methods := st.methods - {r})
      case _ => st
  }

  /** replaceValue: clearValue, then insertValue. */
  function Replace<V>(st: StoreState<V>, sequential: bool, mostSpecific: (V, Option<V>) -> V,
                      r: Receiver, value: Option<V>): StoreState<V>
  {
    Insert(Clear(st, r), sequential, mostSpecific, r, value)
  }

  /** Inserting a value for r affects what is known about r and nothing else. */
  lemma InsertThenGet<V>(st: StoreState<V>, sequential: bool, mostSpecific: (V, Option<V>) -> V,
                         r: Receiver, v: V, other: Receiver)
    requires CanInsertReceiver(r) && Storable(other)
    requires sequential || !r.PureMethodCall?
    requires sequential || IsUnmodifiableByOtherCode(r) || !r.FieldAccess?
    ensures GetValue(Insert(st, sequential, mostSpecific, r, Some(v)), r)
      == Some(mostSpecific(v, GetValue(st, r)))
    ensures other != r ==> GetValue(Insert(st, sequential, mostSpecific, r, Some(v)), other) == GetValue(st, other)
  {
  }

  /** canInsertReceiver holds exactly for the receivers that insertValue stores. */
  lemma CanInsertMeansStored<V>(st: StoreState<V>, mostSpecific: (V, Option<V>) -> V, r: Receiver, v: V)
    requires WellFormed(st) && Storable(r)
    ensures CanInsertReceiver(r) <==> GetValue(Insert(st, true, mostSpecific, r, Some(v)), r).Some?
  {
    if !CanInsertReceiver(r) {
      assert ContainsUnknown(r);
    }
  }

  /** After replaceValue no old information about r survives. */
  lemma ReplaceForgets<V>(st: StoreState<V>, sequential: bool, mostSpecific: (V, Option<V>) -> V,
                          r: Receiver, value: Option<V>)
    requires CanInsertReceiver(r)
    ensures value.None? ==> GetValue(Replace(st, sequential, mostSpecific, r, value), r) == None
    ensures value.Some? && (sequential || (r.FieldAccess? && IsUnmodifiableByOtherCode(r)) || r.LocalVariable?)
      ==> GetValue(Replace(st, sequential, mostSpecific, r, value), r) == Some(mostSpecific(value.value, None))
  {
  }

  // ---------------------------------------------------------------------
  // Rebuilding a map entry by entry
  // ---------------------------------------------------------------------

  /** The map that keeps each entry f maps to a value, with that value. */
  function Rebuilt<K, V>(m: map<K, V>, f: (K, V) -> Option<V>): map<K, V>
  {
    map k | k in m && f(k, m[k]).Some? :: f(k, m[k]).value
  }

  /** The loop that builds a new map from the entries of m. */
  method Rebuild<K, V>(m: map<K, V>, f: (K, V) -> Option<V>) returns (r: map<K, V>)
    ensures r == Rebuilt(m, f)
  {
    r := map[];
    var todo := m.Keys;
    while todo != {}
      invariant todo <= m.Keys
      invariant r == map k | k in m && k !in todo && f(k, m[k]).Some? :: f(k, m[k]).value
      decreases todo
    {
      var k :| k in todo;
      var v := f(k, m[k]);
      if v.Some? {
        r := r[k := v.value];
      }
      todo := todo - {k};
    }
  }

  /** Entries present in both maps whose merge is not null, mapped to the merge. */
  function Common<K, V>(mine: map<K, V>, theirs: map<K, V>, lub: (V, V) -> Option<V>): map<K, V>
  {
    map k | k in theirs && k in mine && lub(mine[k], theirs[k]).Some? :: lub(mine[k], theirs[k]).value
  }

  /** The loop of leastUpperBound over the other store's entries. */
  method MergeCommon<K, V>(mine: map<K, V>, theirs: map<K, V>, lub: (V, V) -> Option<V>) returns (r: map<K, V>)
    ensures r == Common(mine, theirs, lub)
  {
    r := map[];
    var todo := theirs.Keys;
    while todo != {}
      invariant todo <= theirs.Keys
      invariant r == map k | k in theirs && k !in todo && k in mine && lub(mine[k], theirs[k]).Some?
        :: lub(mine[k], theirs[k]).value
      decreases todo
    {
      var k :| k in todo;
      if k in mine {
        var merged := lub(mine[k], theirs[k]);
        if merged.Some? {
          r := r[k := merged.value];
        }
      }
      todo := todo - {k};
    }
  }

  /** Every entry of small is in big with an equal value. */
  predicate SubMap<K, V(==)>(small: map<K, V>, big: map<K, V>)
  {
    forall k :: k in small ==> k in big && big[k] == small[k]
  }

  /** The loop of supersetOf over one map, returning at the first miss. */
  method ContainsAll<K, V(==)>(big: map<K, V>, small: map<K, V>) returns (ok: bool)
    ensures ok <==> SubMap(small, big)
  {
    var todo := small.Keys;
    while todo != {}
      invariant todo <= small.Keys
      invariant forall k :: k in small && k !in todo ==> k in big && big[k] == small[k]
      decreases todo
    {
      var k :| k in todo;
      if k !in big || big[k] != small[k] {
        return false;
      }
      todo := todo - {k};
    }
    return true;
  }

  /** The loop that checks every element of small is in big, returning at the first miss. */
  method ContainsAllOf<T>(big: set<T>, small: set<T>) returns (ok: bool)
    ensures ok <==> small <= big
  {
    var todo := small;
    while todo != {}
      invariant todo <= small
      invariant small - todo <= big
      decreases todo
    {
      var x :| x in todo;
      if x !in big {
        return false;
      }
      todo := todo - {x};
    }
    return true;
  }

  // ---------------------------------------------------------------------
  // Updates for assignments and method calls
  // ---------------------------------------------------------------------

  /**
   * removeConflicting(localVar): field entries whose receiver chain holds the
   * variable, and call entries whose receiver or parameters hold it, go.
   */
  function RemoveConflictingLocal<V>(st: StoreState<V>, x: string): (res: StoreState<V>)
    ensures res.locals == st.locals
    ensures res.fields.Keys <= st.fields.Keys && res.methods.Keys <= st.methods.Keys
  {
    var v := LocalVariable(x);
    st.(fields := Rebuilt(st.fields, (k: Receiver, val: V) =>
                    if ContainsSyntacticEqualReceiver(k, v) then None else Some(val)),
        methods := Rebuilt(st.methods, (k: Receiver, val: V) =>
                    if ContainsSyntacticEqualReceiver(k, v)
                       || (k.PureMethodCall? && ContainsSyntacticEqualParameter(k.parameters, v))
                    then None else Some(val)))
  }

  /** updateForAssignment(LocalVariableNode): conflicts go, then the value is overwritten. */
  function AssignLocal<V>(st: StoreState<V>, x: string, val: Option<V>): (res: StoreState<V>)
    ensures val.Some? ==> res.locals == st.locals[x := val.value]
    ensures val.None? ==> res.locals == st.locals
  {
    var cleared := RemoveConflictingLocal(st, x);
    if val.Some? then cleared.(locals := cleared.locals[x := val.value]) else cleared
  }

  /** After assigning x, no remaining field access reads x along its receiver chain. */
  lemma AssignLocalDropsDependents<V>(st: StoreState<V>, x: string, val: Option<V>, k: Receiver)
    requires k in AssignLocal(st, x, val).fields && FieldChain(k)
    ensures !Occurs(LocalVariable(x), k)
    ensures k in st.fields && AssignLocal(st, x, val).fields[k] == st.fields[k]
  {
    if Occurs(LocalVariable(x), k) {
      ContainsReceiverChain(k, LocalVariable(x));
    }
  }

  /** After assigning x, no remaining pure call has x as receiver or in a parameter. */
  lemma AssignLocalDropsCalls<V>(st: StoreState<V>, x: string, val: Option<V>, k: Receiver)
    requires k in AssignLocal(st, x, val).methods && k.PureMethodCall?
    ensures k.receiver != LocalVariable(x) && k != LocalVariable(x)
    ensures forall i :: 0 <= i < |k.parameters| ==> !ContainsSyntacticEqualReceiver(k.parameters[i], LocalVariable(x))
  {
    SyntacticEqualsIsEquality(k, LocalVariable(x));
    SyntacticEqualsIsEquality(k.receiver, LocalVariable(x));
  }

  /**
   * removeConflicting(fieldAccess, val): an entry goes when the assigned
   * access may alias part of its receiver or is the same access; an entry
   * for the same non-final field on a possibly aliased receiver is raised
   * to lub(val, old), or goes when val is null; the rest stays.
   */
  function AfterFieldWrite<V>(canAlias: (Receiver, Receiver) -> bool, lub: (V, V) -> Option<V>,
                              fa: Receiver, val: Option<V>, k: Receiver, prev: V): Option<V>
    requires fa.FieldAccess?
  {
    if !k.FieldAccess? then Some(prev)
    else if ContainsAliasOf(k.receiver, canAlias, fa) || k == fa then None
    else if fa.field == k.field && canAlias(fa.receiver, k.receiver) && !k.field.isFinal then
      (if val.Some? then lub(val.value, prev) else None)
    else Some(prev)
  }

  function RemoveConflictingField<V>(st: StoreState<V>, canAlias: (Receiver, Receiver) -> bool,
                                     lub: (V, V) -> Option<V>, fa: Receiver, val: Option<V>): (res: StoreState<V>)
    requires fa.FieldAccess?
    ensures res.locals == st.locals && res.methods == map[]
    ensures fa !in res.fields
    ensures res.fields.Keys <= st.fields.Keys
  {
    st.(fields := Rebuilt(st.fields, (k: Receiver, prev: V) => AfterFieldWrite(canAlias, lub, fa, val, k, prev)),
        methods := map[])
  }

  /** updateForAssignment(FieldAccessNode) */
  function AssignField<V>(st: StoreState<V>, sequential: bool, canAlias: (Receiver, Receiver) -> bool,
                          lub: (V, V) -> Option<V>, fa: Receiver, val: Option<V>): (res: StoreState<V>)
    requires fa.FieldAccess?
    ensures res.locals == st.locals && res.methods == map[]
    ensures (val.Some? && !ContainsUnknown(fa) && (sequential || IsUnmodifiableByOtherCode(fa)))
      ==> Lookup(res.fields, fa) == val
    ensures !(val.Some? && !ContainsUnknown(fa) && (sequential || IsUnmodifiableByOtherCode(fa)))
      ==> fa !in res.fields
    ensures WellFormed(st) && !ContainsUnknown(fa) ==> WellFormed(res)
  {
    var cleared := RemoveConflictingField(st, canAlias, lub, fa, val);
    if !ContainsUnknown(fa) && val.Some? && (sequential || IsUnmodifiableByOtherCode(fa)) then
      cleared.(fields := cleared.fields[fa := val.value])
    else cleared
  }

  /** Assigning a field keeps an untouched entry only when nothing could alias it. */
  lemma AssignFieldKeeps<V>(st: StoreState<V>, sequential: bool, canAlias: (Receiver, Receiver) -> bool,
                            lub: (V, V) -> Option<V>, fa: Receiver, val: Option<V>, k: Receiver)
    requires fa.FieldAccess? && k.FieldAccess? && k != fa
    requires k in AssignField(st, sequential, canAlias, lub, fa, val).fields
    ensures k in st.fields
    ensures !ContainsAliasOf(k.receiver, canAlias, fa)
    ensures AssignField(st, sequential, canAlias, lub, fa, val).fields[k] != st.fields[k]
      ==> fa.field == k.field && canAlias(fa.receiver, k.receiver) && !k.field.isFinal && val.Some?
  {
  }

  /**
   * updateForUnknownAssignment: a field entry goes when the new Unknown
   * (a fresh object, identity u) may alias part of its receiver; every call
   * entry goes.
   */
  function AssignUnknown<V>(st: StoreState<V>, canAlias: (Receiver, Receiver) -> bool, u: nat): (res: StoreState<V>)
    ensures res.locals == st.locals && res.methods == map[]
    ensures res.fields.Keys <= st.fields.Keys
    ensures forall k :: k in res.fields ==> res.fields[k] == st.fields[k]
  {
    st.(fields := Rebuilt(st.fields, (k: Receiver, prev: V) =>
                    if k.FieldAccess? && ContainsAliasOf(k.receiver, canAlias, Unknown(u)) then None else Some(prev)),
        methods := map[])
  }

  /** A field access whose receiver chain passes through an Unknown is always dropped. */
  lemma AssignUnknownDropsUnknownReceivers<V>(st: StoreState<V>, canAlias: (Receiver, Receiver) -> bool,
                                               u: nat, k: Receiver, id: nat)
    requires k in st.fields && k.FieldAccess? && Occurs(Unknown(id), k.receiver)
    ensures k !in AssignUnknown(st, canAlias, u).fields
  {
    UnknownAliasesAll(k.receiver, canAlias, Unknown(u), id);
  }

  /** Unknown anywhere in a receiver makes it a possible alias of anything. */
  lemma {:induction false} UnknownAliasesAll(a: Receiver, canAlias: (Receiver, Receiver) -> bool, x: Receiver, id: nat)
    requires Occurs(Unknown(id), a)
    ensures ContainsAliasOf(a, canAlias, x)
  {
    match a
    case FieldAccess(recv, _) =>
      UnknownAliasesAll(recv, canAlias, x, id);
    case PureMethodCall(_, recv, ps) =>
      if Occurs(Unknown(id), recv) {
        UnknownAliasesAll(recv, canAlias, x, id);
      } else {
        var i :| 0 <= i < |ps| && Occurs(Unknown(id), ps[i]);
        UnknownAliasesAll(ps[i], canAlias, x, id);
      }
    case _ =>
  }

  /**
   * updateForMethodCall, first part: a call that is not side-effect-free
   * keeps a field entry with its monotonic value if it has one, keeps it
   * unchanged if it is unmodifiable by other code, drops it otherwise, and
   * drops every call entry.  monotonic(k, v) is the value kept for the
   * monotonic annotations of k's field present in v, or null.
   */
  function Havoc<V>(st: StoreState<V>, sideEffectFree: bool, monotonic: (Receiver, V) -> Option<V>): (res: StoreState<V>)
    ensures res.locals == st.locals
    ensures sideEffectFree ==> res == st
    ensures !sideEffectFree ==> res.methods == map[] && res.fields.Keys <= st.fields.Keys
  {
    if sideEffectFree then st
    else
      st.(fields := Rebuilt(st.fields, (k: Receiver, prev: V) =>
                      if monotonic(k, prev).Some? then monotonic(k, prev)
                      else if IsUnmodifiableByOtherCode(k) then Some(prev) else None),
          methods := map[])
  }

  /** updateForMethodCall: havoc, then the call's own value replaces what was known of it. */
  function MethodCall<V>(st: StoreState<V>, sequential: bool, mostSpecific: (V, Option<V>) -> V,
                         sideEffectFree: bool, monotonic: (Receiver, V) -> Option<V>,
                         call: Receiver, val: Option<V>): StoreState<V>
  {
    Replace(Havoc(st, sideEffectFree, monotonic), sequential, mostSpecific, call, val)
  }

  /** Information about unmodifiable fields survives any method call. */
  lemma MethodCallKeepsUnmodifiable<V>(st: StoreState<V>, sideEffectFree: bool,
                                       monotonic: (Receiver, V) -> Option<V>, k: Receiver)
    requires k in st.fields && IsUnmodifiableByOtherCode(k) && monotonic(k, st.fields[k]).None?
    ensures Lookup(Havoc(st, sideEffectFree, monotonic).fields, k) == Some(st.fields[k])
  {
  }

  /** After a side-effecting call, only unmodifiable or monotonic field entries remain. */
  lemma MethodCallDropsModifiable<V>(st: StoreState<V>, monotonic: (Receiver, V) -> Option<V>, k: Receiver)
    requires k in Havoc(st, false, monotonic).fields
    ensures IsUnmodifiableByOtherCode(k) || monotonic(k, st.fields[k]).Some?
  {
  }

  // ---------------------------------------------------------------------
  // Least upper bound and equality
  // ---------------------------------------------------------------------

  /** leastUpperBound: only entries known in both stores survive, merged. */
  function Lub<V>(mine: StoreState<V>, theirs: StoreState<V>, lub: (V, V) -> Option<V>): (res: StoreState<V>)
    ensures res.locals.Keys <= mine.locals.Keys * theirs.locals.Keys
    ensures res.fields.Keys <= mine.fields.Keys * theirs.fields.Keys
    ensures res.methods.Keys <= mine.methods.Keys * theirs.methods.Keys
  {
    StoreState(Common(mine.locals, theirs.locals, lub),
               Common(mine.fields, theirs.fields, lub),
               Common(mine.methods, theirs.methods, lub))
  }

  /** The keys of the lub are exactly the common keys whose merge is not null. */
  lemma LubKeys<V>(mine: StoreState<V>, theirs: StoreState<V>, lub: (V, V) -> Option<V>, x: string)
    ensures x in Lub(mine, theirs, lub).locals <==>
      (x in mine.locals && x in theirs.locals && lub(mine.locals[x], theirs.locals[x]).Some?)
    ensures x in Lub(mine, theirs, lub).locals ==>
      Lub(mine, theirs, lub).locals[x] == lub(mine.locals[x], theirs.locals[x]).value
  {
  }

  /** With a commutative merge the store lub is commutative. */
  lemma LubCommutative<V>(a: StoreState<V>, b: StoreState<V>, lub: (V, V) -> Option<V>)
    requires forall x, y :: lub(x, y) == lub(y, x)
    ensures Lub(a, b, lub) == Lub(b, a, lub)
  {
    assert Common(a.locals, b.locals, lub) == Common(b.locals, a.locals, lub);
    assert Common(a.fields, b.fields, lub) == Common(b.fields, a.fields, lub);
    assert Common(a.methods, b.methods, lub) == Common(b.methods, a.methods, lub);
  }

  /** With an idempotent merge, a store is its own lub. */
  lemma LubIdempotent<V>(a: StoreState<V>, lub: (V, V) -> Option<V>)
    requires forall x :: lub(x, x) == Some(x)
    ensures Lub(a, a, lub) == a
  {
    assert Common(a.locals, a.locals, lub) == a.locals;
    assert Common(a.fields, a.fields, lub) == a.fields;
    assert Common(a.methods, a.methods, lub) == a.methods;
  }

  /** supersetOf: every entry of other is present here with an equal value. */
  predicate SupersetOf<V(==)>(mine: StoreState<V>, other: StoreState<V>)
  {
    SubMap(other.locals, mine.locals) && SubMap(other.fields, mine.fields) && SubMap(other.methods, mine.methods)
  }

  /** equals is mutual supersetOf, which is equality of the three maps. */
  lemma StoreEqualsIsEquality<V>(a: StoreState<V>, b: StoreState<V>)
    ensures (SupersetOf(a, b) && SupersetOf(b, a)) <==> a == b
  {
    if SupersetOf(a, b) && SupersetOf(b, a) {
      assert a.locals == b.locals;
      assert a.fields == b.fields;
      assert a.methods == b.methods;
    }
  }

  /** The lub lies below both stores in the superset order when the merge of equal values is that value. */
  lemma LubOfSuperset<V>(a: StoreState<V>, b: StoreState<V>, lub: (V, V) -> Option<V>)
    requires forall x :: lub(x, x) == Some(x)
    requires SupersetOf(a, b)
    ensures Lub(a, b, lub) == b
  {
    assert Common(a.locals, b.locals, lub) == b.locals;
    assert Common(a.fields, b.fields, lub) == b.fields;
    assert Common(a.methods, b.methods, lub) == b.methods;
  }

  // ---------------------------------------------------------------------
  // The store object
  // ---------------------------------------------------------------------

  /** CFAbstractStore: the three maps are updated in place. */
  class CFStore<V(==)> {
    var localVariableValues: map<string, V>
    var fieldValues: map<Receiver, V>
    var methodValues: map<Receiver, V>
    const sequentialSemantics: bool
    const mostSpecific: (V, Option<V>) -> V
    const lub: (V, V) -> Option<V>
    const canAlias: (Receiver, Receiver) -> bool

    function State(): StoreState<V>
      reads this
    {
      StoreState(localVariableValues, fieldValues, methodValues)
    }

    constructor (sequentialSemantics: bool, mostSpecific: (V, Option<V>) -> V,
                 lub: (V, V) -> Option<V>, canAlias: (Receiver, Receiver) -> bool)
      ensures State() == EmptyState()
      ensures this.sequentialSemantics == sequentialSemantics && this.mostSpecific == mostSpecific
      ensures this.lub == lub && this.canAlias == canAlias
    {
      localVariableValues := map[];
      fieldValues := map[];
      methodValues := map[];
      this.sequentialSemantics := sequentialSemantics;
      this.mostSpecific := mostSpecific;
      this.lub := lub;
      this.canAlias := canAlias;
    }

    /** The copy constructor: equal maps, a separate object. */
    constructor Copy(other: CFStore<V>)
      ensures State() == other.State()
      ensures sequentialSemantics == other.sequentialSemantics && mostSpecific == other.mostSpecific
      ensures lub == other.lub && canAlias == other.canAlias
    {
      localVariableValues := other.localVariableValues;
      fieldValues := other.fieldValues;
      methodValues := other.methodValues;
      sequentialSemantics := other.sequentialSemantics;
      mostSpecific := other.mostSpecific;
      lub := other.lub;
      canAlias := other.canAlias;
    }

    /** initializeMethodParameter */
    method InitializeMethodParameter(p: string, value: Option<V>)
      modifies this
      ensures value.Some? ==> State() == old(State()).(locals := old(localVariableValues)[p := value.value])
      ensures value.None? ==> State() == old(State())
    {
      if value.Some? {
        localVariableValues := localVariableValues[p := value.value];
      }
    }

    method InsertValue(r: Receiver, value: Option<V>)
      modifies this
      ensures State() == Insert(old(State()), sequentialSemantics, mostSpecific, r, value)
    {
      if value.None? {
        return;
      }
      if ContainsUnknown(r) {
        return;
      }
      if r.LocalVariable? {
        var oldValue := Lookup(localVariableValues, r.element);
        localVariableValues := localVariableValues[r.element := mostSpecific(value.value, oldValue)];
      } else if r.FieldAccess? {
        if sequentialSemantics || IsUnmodifiableByOtherCode(r) {
          var oldValue := Lookup(fieldValues, r);
          fieldValues := fieldValues[r := mostSpecific(value.value, oldValue)];
        }
      } else if r.PureMethodCall? {
        if sequentialSemantics {
          var oldValue := Lookup(methodValues, r);
          methodValues := methodValues[r := mostSpecific(value.value, oldValue)];
        }
      }
    }

    method ClearValue(r: Receiver)
      modifies this
      ensures State() == Clear(old(State()), r)
    {
      if ContainsUnknown(r) {
        return;
      }
      if r.LocalVariable? {
        localVariableValues := localVariableValues - {r.element};
      } else if r.FieldAccess? {
        fieldValues := fieldValues - {r};
      } else if r.PureMethodCall? {
        methodValues := methodValues - {r};
      }
    }

    method ReplaceValue(r: Receiver, value: Option<V>)
      modifies this
      ensures State() == Replace(old(State()), sequentialSemantics, mostSpecific, r, value)
    {
      ClearValue(r);
      InsertValue(r, value);
    }

    /** getValue */
    function Get(r: Receiver): (v: Option<V>)
      requires Storable(r)
      reads this
      ensures v == GetValue(State(), r)
    {
      match r
      case LocalVariable(e) => Lookup(localVariableValues, e)
      case FieldAccess(_, _) => Lookup(fieldValues, r)
      case PureMethodCall(_, _, _) => Lookup(methodValues, r)
    }

    /** updateForAssignment(LocalVariableNode) */
    method UpdateForLocalAssignment(x: string, val: Option<V>)
      modifies this
      ensures State() == AssignLocal(old(State()), x, val)
    {
      var v := LocalVariable(x);
      fieldValues := Rebuild(fieldValues, (k: Receiver, value: V) =>
                       if ContainsSyntacticEqualReceiver(k, v) then None else Some(value));
      methodValues := Rebuild(methodValues, (k: Receiver, value: V) =>
                        if ContainsSyntacticEqualReceiver(k, v)
                           || (k.PureMethodCall? && ContainsSyntacticEqualParameter(k.parameters, v))
                        then None else Some(value));
      if val.Some? {
        localVariableValues := localVariableValues[x := val.value];
      }
    }

    /** updateForAssignment(FieldAccessNode) */
    method UpdateForFieldAssignment(fa: Receiver, val: Option<V>)
      requires fa.FieldAccess?
      modifies this
      ensures State() == AssignField(old(State()), sequentialSemantics, canAlias, lub, fa, val)
    {
      var alias, merge := canAlias, lub;
      fieldValues := Rebuild(fieldValues, (k: Receiver, prev: V) => AfterFieldWrite(alias, merge, fa, val, k, prev));
      methodValues := map[];
      if !ContainsUnknown(fa) && val.Some? {
        if sequentialSemantics || IsUnmodifiableByOtherCode(fa) {
          fieldValues := fieldValues[fa := val.value];
        }
      }
    }

    /** updateForUnknownAssignment; u is the identity of the new Unknown. */
    method UpdateForUnknownAssignment(u: nat)
      modifies this
      ensures State() == AssignUnknown(old(State()), canAlias, u)
    {
      var alias := canAlias;
      fieldValues := Rebuild(fieldValues, (k: Receiver, prev: V) =>
                       if k.FieldAccess? && ContainsAliasOf(k.receiver, alias, Unknown(u)) then None else Some(prev));
      methodValues := map[];
    }

    /** updateForMethodCall; call is the receiver the invocation node translates to. */
    method UpdateForMethodCall(sideEffectFree: bool, monotonic: (Receiver, V) -> Option<V>, call: Receiver, val: Option<V>)
      modifies this
      ensures State() == MethodCall(old(State()), sequentialSemantics, mostSpecific, sideEffectFree, monotonic, call, val)
    {
      if !sideEffectFree {
        fieldValues := Rebuild(fieldValues, (k: Receiver, prev: V) =>
                         if monotonic(k, prev).Some? then monotonic(k, prev)
                         else if IsUnmodifiableByOtherCode(k) then Some(prev) else None);
        methodValues := map[];
      }
      ReplaceValue(call, val);
    }

    /** leastUpperBound: a new store; neither input changes. */
    method LeastUpperBound(other: CFStore<V>) returns (newStore: CFStore<V>)
      ensures fresh(newStore)
      ensures newStore.State() == Lub(State(), other.State(), lub)
      ensures newStore.sequentialSemantics == sequentialSemantics
    {
      newStore := new CFStore(sequentialSemantics, mostSpecific, lub, canAlias);
      var locals := MergeCommon(localVariableValues, other.localVariableValues, lub);
      var fields := MergeCommon(fieldValues, other.fieldValues, lub);
      var methods := MergeCommon(methodValues, other.methodValues, lub);
      newStore.localVariableValues := locals;
      newStore.fieldValues := fields;
      newStore.methodValues := methods;
    }

    /** supersetOf */
    method IsSupersetOf(other: CFStore<V>) returns (b: bool)
      ensures b == SupersetOf(State(), other.State())
    {
      b := ContainsAll(localVariableValues, other.localVariableValues);
      if !b {
        return;
      }
      b := ContainsAll(fieldValues, other.fieldValues);
      if !b {
        return;
      }
      b := ContainsAll(methodValues, other.methodValues);
    }

    /** equals: mutual supersetOf, that is, the same three maps. */
    method Equals(other: CFStore<V>) returns (b: bool)
      ensures b <==> State() == other.State()
    {
      var forward := IsSupersetOf(other);
      var backward := other.IsSupersetOf(this);
      b := forward && backward;
      StoreEqualsIsEquality(State(), other.State());
    }
  }
}
