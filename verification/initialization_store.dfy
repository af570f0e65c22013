/**
 * The store of the initialization checker
 * (checkers/initialization/InitializationStore.java): the dataflow store
 * of AbstractStore plus the set of fields of the current object known to
 * be initialized.  The subclass relation is modelled by composition: the
 * store holds the base store it extends.
 */
module InitializationStore {
  import opened Wrappers
  import opened FlowExpressions
  import opened AbstractStore

  /**
   * The fields marked initialized by inserting value for r: the value must
   * lie at or below the invariant annotation and r must be a field access
   * on `this` or on a class name; its field is then added as an element,
   * with no test of whether it is static.
   */
  function InitializedBy<V>(belowInvariant: V -> bool, r: Receiver, value: Option<V>): (fs: set<Field>)
    ensures fs <= (if r.FieldAccess? then {r.field} else {})
    ensures fs != {} <==>
      && value.Some? && belowInvariant(value.value)
      && r.FieldAccess? && (r.receiver.ThisReference? || r.receiver.ClassName?)
  {
    if value.Some? && belowInvariant(value.value) && r.FieldAccess?
       && (r.receiver.ThisReference? || r.receiver.ClassName?)
    then {r.field}
    else {}
  }

  /** The field accesses among ks that insertValue keeps in the field map. */
  function Kept(ks: set<Receiver>, sequential: bool): set<Receiver>
  {
    set k | k in ks && !ContainsUnknown(k) && (sequential || IsUnmodifiableByOtherCode(k))
  }

  /** The base store after inserting v for every field access in ks. */
  function InsertFields<V>(st: StoreState<V>, sequential: bool, mostSpecific: (V, Option<V>) -> V,
                           ks: set<Receiver>, v: V): (res: StoreState<V>)
    ensures res.locals == st.locals && res.methods == st.methods
    ensures res.fields.Keys == st.fields.Keys + Kept(ks, sequential)
  {
    st.(fields := map k | k in st.fields.Keys + Kept(ks, sequential) ::
                    if k in Kept(ks, sequential) then mostSpecific(v, Lookup(st.fields, k)) else st.fields[k])
  }

  /** The initialized fields added by inserting v for every field access in ks. */
  function InitializedByAll<V>(belowInvariant: V -> bool, ks: set<Receiver>, v: V): set<Field>
  {
    set k, f | k in ks && f in InitializedBy(belowInvariant, k, Some(v)) :: f
  }

  /** One more insertion extends both InsertFields and InitializedByAll by one receiver. */
  lemma InsertOneMore<V>(st: StoreState<V>, sequential: bool, mostSpecific: (V, Option<V>) -> V,
                         belowInvariant: V -> bool, done: set<Receiver>, k: Receiver, v: V)
    requires k.FieldAccess? && k !in done
    ensures Insert(InsertFields(st, sequential, mostSpecific, done, v), sequential, mostSpecific, k, Some(v))
      == InsertFields(st, sequential, mostSpecific, done + {k}, v)
    ensures InitializedByAll(belowInvariant, done, v) + InitializedBy(belowInvariant, k, Some(v))
      == InitializedByAll(belowInvariant, done + {k}, v)
  {
    var before := InsertFields(st, sequential, mostSpecific, done, v);
    var after := InsertFields(st, sequential, mostSpecific, done + {k}, v);
    assert Lookup(before.fields, k) == Lookup(st.fields, k);
    if !ContainsUnknown(k) && (sequential || IsUnmodifiableByOtherCode(k)) {
      assert Kept(done + {k}, sequential) == Kept(done, sequential) + {k};
      assert before.fields[k := mostSpecific(v, Lookup(before.fields, k))] == after.fields;
    } else {
      assert Kept(done + {k}, sequential) == Kept(done, sequential);
    }
  }

  /** The field accesses in the field map whose field declares the invariant annotation. */
  function InvariantFields<V>(fields: map<Receiver, V>, declaredInvariant: Field -> bool): (ks: set<Receiver>)
    ensures ks <= fields.Keys
  {
    set k | k in fields && k.FieldAccess? && declaredInvariant(k.field)
  }

  /** The two parts of an initialization store. */
  datatype InitState<V> = InitState(store: StoreState<V>, initialized: set<Field>)

  /**
   * updateForMethodCall: the base update, after which every field access
   * that was in the store with a field declaring the invariant annotation
   * gets the invariant value inserted again.
   */
  function InitMethodCall<V>(st: InitState<V>, sequential: bool, mostSpecific: (V, Option<V>) -> V,
                             belowInvariant: V -> bool, invariantValue: V, declaredInvariant: Field -> bool,
                             sideEffectFree: bool, monotonic: (Receiver, V) -> Option<V>,
                             call: Receiver, val: Option<V>): InitState<V>
  {
    var ks := InvariantFields(st.store.fields, declaredInvariant);
    var after := MethodCall(st.store, sequential, mostSpecific, sideEffectFree, monotonic, call, val);
    InitState(InsertFields(after, sequential, mostSpecific, ks, invariantValue),
              st.initialized + InitializedByAll(belowInvariant, ks, invariantValue))
  }

  /** A field with the invariant annotation that was in the store is in it again after any call. */
  lemma MethodCallRestoresInvariant<V>(st: InitState<V>, sequential: bool, mostSpecific: (V, Option<V>) -> V,
                                       belowInvariant: V -> bool, invariantValue: V, declaredInvariant: Field -> bool,
                                       sideEffectFree: bool, monotonic: (Receiver, V) -> Option<V>,
                                       call: Receiver, val: Option<V>, k: Receiver)
    requires k in st.store.fields && k.FieldAccess? && declaredInvariant(k.field) && !ContainsUnknown(k)
    requires sequential || IsUnmodifiableByOtherCode(k)
    ensures k in InitMethodCall(st, sequential, mostSpecific, belowInvariant, invariantValue, declaredInvariant,
                                sideEffectFree, monotonic, call, val).store.fields
  {
    assert k in Kept(InvariantFields(st.store.fields, declaredInvariant), sequential);
  }

  /** Initialized fields are never lost by a method call. */
  lemma MethodCallKeepsInitialized<V>(st: InitState<V>, sequential: bool, mostSpecific: (V, Option<V>) -> V,
                                      belowInvariant: V -> bool, invariantValue: V, declaredInvariant: Field -> bool,
                                      sideEffectFree: bool, monotonic: (Receiver, V) -> Option<V>,
                                      call: Receiver, val: Option<V>)
    ensures st.initialized <= InitMethodCall(st, sequential, mostSpecific, belowInvariant, invariantValue,
                                             declaredInvariant, sideEffectFree, monotonic, call, val).initialized
  {
  }

  /** InitializationStore: the base store and the initialized fields. */
  class InitStore<V(==)> {
    const base: CFStore<V>
    var initializedFields: set<Field>
    /** Whether some annotation of a value is at or below the field invariant annotation. */
    const belowInvariant: V -> bool
    /** The value made from the field invariant annotation. */
    const invariantValue: V

    function State(): InitState<V>
      reads this, base
    {
      InitState(base.State(), initializedFields)
    }

    constructor (sequentialSemantics: bool, mostSpecific: (V, Option<V>) -> V, lub: (V, V) -> Option<V>,
                 canAlias: (Receiver, Receiver) -> bool, belowInvariant: V -> bool, invariantValue: V)
      ensures fresh(base)
      ensures State() == InitState(EmptyState(), {})
      ensures base.sequentialSemantics == sequentialSemantics && base.mostSpecific == mostSpecific
      ensures base.lub == lub && base.canAlias == canAlias
      ensures this.belowInvariant == belowInvariant && this.invariantValue == invariantValue
    {
      base := new CFStore(sequentialSemantics, mostSpecific, lub, canAlias);
      initializedFields := {};
      this.belowInvariant := belowInvariant;
      this.invariantValue := invariantValue;
    }

    /** The copy constructor: an equal but separate base store and set. */
    constructor Copy(other: InitStore<V>)
      ensures fresh(base)
      ensures State() == other.State()
      ensures base.sequentialSemantics == other.base.sequentialSemantics && base.mostSpecific == other.base.mostSpecific
      ensures base.lub == other.base.lub && base.canAlias == other.base.canAlias
      ensures belowInvariant == other.belowInvariant && invariantValue == other.invariantValue
    {
      base := new CFStore.Copy(other.base);
      initializedFields := other.initializedFields;
      belowInvariant := other.belowInvariant;
      invariantValue := other.invariantValue;
    }

    /** insertValue: the base insertion, then the field may become initialized. */
    method InsertValue(r: Receiver, value: Option<V>)
      modifies this, base
      ensures base.State() == Insert(old(base.State()), base.sequentialSemantics, base.mostSpecific, r, value)
      ensures initializedFields == old(initializedFields) + InitializedBy(belowInvariant, r, value)
    {
      if value.None? {
        return;
      }
      base.InsertValue(r, value);
      if belowInvariant(value.value) && r.FieldAccess? {
        if r.receiver.ThisReference? || r.receiver.ClassName? {
          AddInitializedField(r.field);
        }
      }
    }

    /** addInitializedField(FieldAccess): only a field on `this` or a static field. */
    method AddInitializedFieldAccess(fa: Receiver)
      requires fa.FieldAccess?
      modifies this
      ensures fa.receiver.ThisReference? || fa.field.isStatic ==> initializedFields == old(initializedFields) + {fa.field}
      ensures !(fa.receiver.ThisReference? || fa.field.isStatic) ==> initializedFields == old(initializedFields)
    {
      if fa.receiver.ThisReference? || fa.field.isStatic {
        initializedFields := initializedFields + {fa.field};
      }
    }

    /** addInitializedField(Element) */
    method AddInitializedField(f: Field)
      modifies this
      ensures initializedFields == old(initializedFields) + {f}
    {
      initializedFields := initializedFields + {f};
    }

    /** isFieldInitialized */
    predicate IsFieldInitialized(f: Field)
      reads this
    {
      f in initializedFields
    }

    /**
     * updateForMethodCall; declaredInvariant tells which fields declare the
     * invariant annotation.
     */
    method UpdateForMethodCall(declaredInvariant: Field -> bool, sideEffectFree: bool,
                               monotonic: (Receiver, V) -> Option<V>, call: Receiver, val: Option<V>)
      modifies this, base
      ensures State() == InitMethodCall(old(State()), base.sequentialSemantics, base.mostSpecific, belowInvariant,
                                        invariantValue, declaredInvariant, sideEffectFree, monotonic, call, val)
    {
      var invariantFields := InvariantFields(base.fieldValues, declaredInvariant);
      base.UpdateForMethodCall(sideEffectFree, monotonic, call, val);
      InsertInvariant(invariantFields);
    }

    /** The second loop of updateForMethodCall: insert the invariant value for each of ks. */
    method InsertInvariant(ks: set<Receiver>)
      requires forall k :: k in ks ==> k.FieldAccess?
      modifies this, base
      ensures base.State()
        == InsertFields(old(base.State()), base.sequentialSemantics, base.mostSpecific, ks, invariantValue)
      ensures initializedFields == old(initializedFields) + InitializedByAll(belowInvariant, ks, invariantValue)
    {
      ghost var before := base.State();
      ghost var init0 := initializedFields;
      var todo := ks;
      while todo != {}
        invariant todo <= ks
        invariant base.State()
          == InsertFields(before, base.sequentialSemantics, base.mostSpecific, ks - todo, invariantValue)
        invariant initializedFields == init0 + InitializedByAll(belowInvariant, ks - todo, invariantValue)
        decreases todo
      {
        var k :| k in todo;
        InsertOneMore(before, base.sequentialSemantics, base.mostSpecific, belowInvariant, ks - todo, k, invariantValue);
        assert (ks - todo) + {k} == ks - (todo - {k});
        InsertValue(k, Some(invariantValue));
        todo := todo - {k};
      }
    }

    /** supersetOf: the other store's initialized fields are all here, and the base stores agree. */
    method IsSupersetOf(other: InitStore<V>) returns (b: bool)
      ensures b <==> other.initializedFields <= initializedFields && SupersetOf(base.State(), other.base.State())
    {
      b := ContainsAllOf(initializedFields, other.initializedFields);
      if !b {
        return;
      }
      b := base.IsSupersetOf(other.base);
    }

    /** leastUpperBound: the base lub, and the intersection of the initialized fields. */
    method LeastUpperBound(other: InitStore<V>) returns (result: InitStore<V>)
      ensures fresh(result) && fresh(result.base)
      ensures result.base.State() == Lub(base.State(), other.base.State(), base.lub)
      ensures result.initializedFields == initializedFields * other.initializedFields
    {
      var merged := base.LeastUpperBound(other.base);
      result := new InitStore(base.sequentialSemantics, base.mostSpecific, base.lub, base.canAlias,
                              belowInvariant, invariantValue);
      result.base.localVariableValues := merged.localVariableValues;
      result.base.fieldValues := merged.fieldValues;
      result.base.methodValues := merged.methodValues;
      result.initializedFields := result.initializedFields + other.initializedFields;
      result.initializedFields := result.initializedFields * initializedFields;
    }
  }
}
