/**
 * The generic transfer rules of the checker framework
 * (checkers/flow/analysis/checkers/CFAbstractTransfer.java), over the
 * store values of AbstractStore.  Flow expressions are already translated
 * to receivers, and postcondition expressions already parsed; those that
 * fail to parse are ignored by the source and are absent here.
 */
module Transfer {
  import opened Wrappers
  import opened FlowExpressions
  import opened AbstractStore

  /** moreSpecificValue: a null side yields the other; otherwise value1.mostSpecific(value2). */
  function MoreSpecificValue<V>(mostSpecific: (V, Option<V>) -> V, value1: Option<V>, value2: Option<V>): (r: Option<V>)
    ensures value1.None? ==> r == value2
    ensures value2.None? ==> r == value1
    ensures r.None? <==> value1.None? && value2.None?
    ensures value1.Some? && value2.Some? ==> r == Some(mostSpecific(value1.value, value2))
  {
    if value1.None? then value2
    else if value2.None? then value1
    else Some(mostSpecific(value1.value, value2))
  }

  /** A transfer result: a value and either one store or a then/else pair. */
  datatype TransferResult<V> =
    | RegularResult(value: Option<V>, store: StoreState<V>)
    | ConditionalResult(value: Option<V>, thenStore: StoreState<V>, elseStore: StoreState<V>)

  function ThenOf<V>(r: TransferResult<V>): StoreState<V>
  {
    if r.RegularResult? then r.store else r.thenStore
  }

  function ElseOf<V>(r: TransferResult<V>): StoreState<V>
  {
    if r.RegularResult? then r.store else r.elseStore
  }

  /** The input of a transfer function: one store, or a then/else pair. */
  datatype TransferInput<V> =
    | RegularInput(store: StoreState<V>)
    | ConditionalInput(thenStore: StoreState<V>, elseStore: StoreState<V>)

  /** The regular store of an input: for a pair, the lub of its two stores. */
  function RegularStoreOf<V>(input: TransferInput<V>, lub: (V, V) -> Option<V>): StoreState<V>
  {
    match input
    case RegularInput(s) => s
    case ConditionalInput(t, e) => Lub(t, e, lub)
  }

  /** visitTernaryExpression: the lub of both branch values, null when either is null. */
  function TernaryValue<V>(lub: (V, V) -> Option<V>, thenValue: Option<V>, elseValue: Option<V>): (r: Option<V>)
    ensures thenValue.None? || elseValue.None? ==> r.None?
    ensures thenValue.Some? && elseValue.Some? ==> r == lub(thenValue.value, elseValue.value)
  {
    if thenValue.Some? && elseValue.Some? then lub(thenValue.value, elseValue.value) else None
  }

  /** visitConditionalNot: the operand's then-store becomes the else-store and vice versa. */
  function ConditionalNot<V>(r: TransferResult<V>): (res: TransferResult<V>)
    ensures ThenOf(res) == ElseOf(r) && ElseOf(res) == ThenOf(r) && res.value == r.value
  {
    ConditionalResult(r.value, ElseOf(r), ThenOf(r))
  }

  /** Negating twice gives back the operand's stores. */
  lemma ConditionalNotTwice<V>(r: TransferResult<V>)
    ensures ThenOf(ConditionalNot(ConditionalNot(r))) == ThenOf(r)
    ensures ElseOf(ConditionalNot(ConditionalNot(r))) == ElseOf(r)
  {
  }

  /** The branch store a comparison refines: the then-store for ==, the else-store for !=. */
  function Refined<V>(r: TransferResult<V>, notEqualTo: bool): StoreState<V>
  {
    if notEqualTo then ElseOf(r) else ThenOf(r)
  }

  /** insertValue keeps a value for r: a local, an unmodifiable field, or anything under sequential semantics. */
  predicate Retains(sequential: bool, r: Receiver)
  {
    sequential || (r.FieldAccess? && IsUnmodifiableByOtherCode(r)) || r.LocalVariable?
  }

  /**
   * strengthenAnnotationOfEqualTo: when firstValue is non-null, differs
   * from secondValue and the second receiver can be stored, firstValue is
   * inserted for it into the then-store (==) or the else-store (!=).
   */
  function Strengthen<V(==)>(res: TransferResult<V>, sequential: bool, mostSpecific: (V, Option<V>) -> V,
                             second: Receiver, firstValue: Option<V>, secondValue: Option<V>,
                             notEqualTo: bool): (r: TransferResult<V>)
    ensures firstValue.None? || firstValue == secondValue || !CanInsertReceiver(second) ==> r == res
    ensures notEqualTo ==> ThenOf(r) == ThenOf(res)
    ensures !notEqualTo ==> ElseOf(r) == ElseOf(res)
    ensures firstValue.Some? && firstValue != secondValue && CanInsertReceiver(second) && Retains(sequential, second)
      ==> GetValue(Refined(r, notEqualTo), second) == Some(mostSpecific(firstValue.value, GetValue(Refined(res, notEqualTo), second)))
    ensures forall o :: o != second && Storable(o) ==> GetValue(Refined(r, notEqualTo), o) == GetValue(Refined(res, notEqualTo), o)
  {
    if firstValue.Some? && firstValue != secondValue && CanInsertReceiver(second) then
      assert Retains(sequential, second) ==>
        GetValue(Insert(Refined(res, notEqualTo), sequential, mostSpecific, second, firstValue), second)
        == Some(mostSpecific(firstValue.value, GetValue(Refined(res, notEqualTo), second))) by {
        if Retains(sequential, second) {
          InsertThenGet(Refined(res, notEqualTo), sequential, mostSpecific, second, firstValue.value, second);
        }
      }
      var t := ThenOf(res);
      var e := ElseOf(res);
      if notEqualTo then ConditionalResult(res.value, t, Insert(e, sequential, mostSpecific, second, firstValue))
      else ConditionalResult(res.value, Insert(t, sequential, mostSpecific, second, firstValue), e)
    else res
  }

  /** visitEqualTo (notEqualTo false) and visitNotEqual (true): strengthen both sides. */
  function EqualityComparison<V(==)>(res: TransferResult<V>, sequential: bool, mostSpecific: (V, Option<V>) -> V,
                                     left: Receiver, right: Receiver, leftValue: Option<V>, rightValue: Option<V>,
                                     notEqualTo: bool): (r: TransferResult<V>)
    ensures notEqualTo ==> ThenOf(r) == ThenOf(res)
    ensures !notEqualTo ==> ElseOf(r) == ElseOf(res)
  {
    var r := Strengthen(res, sequential, mostSpecific, right, leftValue, rightValue, notEqualTo);
    Strengthen(r, sequential, mostSpecific, left, rightValue, leftValue, notEqualTo)
  }

  /**
   * `a == b` refines only the then-store and `a != b` only the else-store.
   * In the refined store each operand whose value the other side's value
   * differs from, and that can be stored, holds the more specific of the
   * other side's value and its own earlier value.
   */
  lemma EqualityRefinesOneBranch<V>(res: TransferResult<V>, sequential: bool, mostSpecific: (V, Option<V>) -> V,
                                    left: Receiver, right: Receiver, leftValue: Option<V>, rightValue: Option<V>,
                                    notEqualTo: bool)
    ensures notEqualTo ==>
      ThenOf(EqualityComparison(res, sequential, mostSpecific, left, right, leftValue, rightValue, notEqualTo)) == ThenOf(res)
    ensures !notEqualTo ==>
      ElseOf(EqualityComparison(res, sequential, mostSpecific, left, right, leftValue, rightValue, notEqualTo)) == ElseOf(res)
    ensures leftValue.Some? && leftValue != rightValue && CanInsertReceiver(right) && Retains(sequential, right) && left != right
      ==> GetValue(Refined(EqualityComparison(res, sequential, mostSpecific, left, right, leftValue, rightValue, notEqualTo),
                           notEqualTo), right)
          == Some(mostSpecific(leftValue.value, GetValue(Refined(res, notEqualTo), right)))
    ensures rightValue.Some? && rightValue != leftValue && CanInsertReceiver(left) && Retains(sequential, left) && left != right
      ==> GetValue(Refined(EqualityComparison(res, sequential, mostSpecific, left, right, leftValue, rightValue, notEqualTo),
                           notEqualTo), left)
          == Some(mostSpecific(rightValue.value, GetValue(Refined(res, notEqualTo), left)))
  {
    var r := Strengthen(res, sequential, mostSpecific, right, leftValue, rightValue, notEqualTo);
    var r2 := Strengthen(r, sequential, mostSpecific, left, rightValue, leftValue, notEqualTo);
    assert r2 == EqualityComparison(res, sequential, mostSpecific, left, right, leftValue, rightValue, notEqualTo);
    if left != right && CanInsertReceiver(right) && CanInsertReceiver(left) {
      assert GetValue(Refined(r2, notEqualTo), right) == GetValue(Refined(r, notEqualTo), right);
      assert GetValue(Refined(r, notEqualTo), left) == GetValue(Refined(res, notEqualTo), left);
    }
  }

  /** The target of an assignment. */
  datatype Target = LocalTarget(name: string) | FieldTarget(access: Receiver) | OtherTarget

  /**
   * processCommonAssignment: a local target updates the local, a field
   * target the field, and any other target (an array element) counts as an
   * unknown assignment with a new Unknown of identity u.  When the
   * right-hand side is a type variable or wildcard and the left-hand side
   * is not, the effective value is used instead of rhsValue.
   */
  function ProcessCommonAssignment<V>(st: StoreState<V>, sequential: bool, canAlias: (Receiver, Receiver) -> bool,
                                      lub: (V, V) -> Option<V>, lhs: Target, rhsValue: Option<V>,
                                      rhsIsTypeVariable: bool, lhsIsTypeVariable: bool, effectiveValue: Option<V>,
                                      u: nat): (r: StoreState<V>)
    requires lhs.FieldTarget? ==> lhs.access.FieldAccess?
    ensures lhs.LocalTarget? ==> r == AssignLocal(st, lhs.name,
      if rhsIsTypeVariable && !lhsIsTypeVariable then effectiveValue else rhsValue)
    ensures lhs.FieldTarget? ==> r == AssignField(st, sequential, canAlias, lub, lhs.access,
      if rhsIsTypeVariable && !lhsIsTypeVariable then effectiveValue else rhsValue)
    ensures lhs.OtherTarget? ==> r == AssignUnknown(st, canAlias, u)
    ensures r.locals == st.locals || lhs.LocalTarget?
  {
    var value := if rhsIsTypeVariable && !lhsIsTypeVariable then effectiveValue else rhsValue;
    match lhs
    case LocalTarget(x) => AssignLocal(st, x, value)
    case FieldTarget(fa) => AssignField(st, sequential, canAlias, lub, fa, value)
    case OtherTarget => AssignUnknown(st, canAlias, u)
  }

  /** An assignment to a local is remembered exactly (no merge with the old value). */
  lemma AssignmentToLocalKnown<V>(st: StoreState<V>, sequential: bool, canAlias: (Receiver, Receiver) -> bool,
                                  lub: (V, V) -> Option<V>, x: string, v: V, u: nat)
    ensures GetValue(ProcessCommonAssignment(st, sequential, canAlias, lub, LocalTarget(x), Some(v),
                                             false, false, None, u), LocalVariable(x)) == Some(v)
  {
  }

  /** Insert each (receiver, value) pair in order. */
  function InsertEach<V>(st: StoreState<V>, sequential: bool, mostSpecific: (V, Option<V>) -> V,
                         posts: seq<(Receiver, V)>): (r: StoreState<V>)
    ensures forall x :: Storable(x) && GetValue(st, x).Some? ==> GetValue(r, x).Some?
    decreases |posts|
  {
    if posts == [] then st
    else InsertEach(Insert(st, sequential, mostSpecific, posts[0].0, Some(posts[0].1)), sequential, mostSpecific, posts[1..])
  }

  /** Insert each conditional postcondition whose result flag is b, in order. */
  function InsertWhen<V>(st: StoreState<V>, sequential: bool, mostSpecific: (V, Option<V>) -> V,
                         posts: seq<(Receiver, V, bool)>, b: bool): (r: StoreState<V>)
    ensures forall x :: Storable(x) && GetValue(st, x).Some? ==> GetValue(r, x).Some?
    decreases |posts|
  {
    if posts == [] then st
    else
      var next := if posts[0].2 == b then Insert(st, sequential, mostSpecific, posts[0].0, Some(posts[0].1)) else st;
      InsertWhen(next, sequential, mostSpecific, posts[1..], b)
  }

  /** Whatever a store knows it still knows after more insertions. */
  lemma InsertKeepsKnown<V>(st: StoreState<V>, sequential: bool, mostSpecific: (V, Option<V>) -> V,
                            r: Receiver, v: Option<V>, x: Receiver)
    requires Storable(x) && GetValue(st, x).Some?
    ensures GetValue(Insert(st, sequential, mostSpecific, r, v), x).Some?
  {
  }

  /** Under sequential semantics every storable postcondition receiver is known afterwards. */
  lemma {:induction false} InsertEachKnows<V>(st: StoreState<V>, mostSpecific: (V, Option<V>) -> V,
                                              posts: seq<(Receiver, V)>, i: nat)
    requires i < |posts| && CanInsertReceiver(posts[i].0)
    ensures GetValue(InsertEach(st, true, mostSpecific, posts), posts[i].0).Some?
    decreases |posts|
  {
    var next := Insert(st, true, mostSpecific, posts[0].0, Some(posts[0].1));
    if i == 0 {
      InsertThenGet(st, true, mostSpecific, posts[0].0, posts[0].1, posts[0].0);
    } else {
      InsertEachKnows(next, mostSpecific, posts[1..], i - 1);
    }
  }

  /** Under sequential semantics every storable receiver of a postcondition with flag b is known afterwards. */
  lemma {:induction false} InsertWhenKnows<V>(st: StoreState<V>, mostSpecific: (V, Option<V>) -> V,
                                              posts: seq<(Receiver, V, bool)>, b: bool, i: nat)
    requires i < |posts| && posts[i].2 == b && CanInsertReceiver(posts[i].0)
    ensures GetValue(InsertWhen(st, true, mostSpecific, posts, b), posts[i].0).Some?
    decreases |posts|
  {
    var next := if posts[0].2 == b then Insert(st, true, mostSpecific, posts[0].0, Some(posts[0].1)) else st;
    if i == 0 {
      InsertThenGet(st, true, mostSpecific, posts[0].0, posts[0].1, posts[0].0);
    } else {
      InsertWhenKnows(next, mostSpecific, posts[1..], b, i - 1);
    }
  }

  /** Without postconditions of flag b, the store is unchanged. */
  lemma {:induction false} InsertWhenNone<V>(st: StoreState<V>, sequential: bool, mostSpecific: (V, Option<V>) -> V,
                                             posts: seq<(Receiver, V, bool)>, b: bool)
    requires forall i :: 0 <= i < |posts| ==> posts[i].2 != b
    ensures InsertWhen(st, sequential, mostSpecific, posts, b) == st
    decreases |posts|
  {
    if posts != [] {
      InsertWhenNone(st, sequential, mostSpecific, posts[1..], b);
    }
  }

  /**
   * visitMethodInvocation: the call's value is the more specific of the
   * factory's and the store's; the store is updated for the call, the
   * postconditions are inserted, then the store is copied and each
   * conditional postcondition goes into the then-store (result=true) or
   * the else-store (result=false).
   */
  function MethodInvocation<V>(st: StoreState<V>, sequential: bool, mostSpecific: (V, Option<V>) -> V,
                               factoryValue: Option<V>, call: Receiver, sideEffectFree: bool,
                               monotonic: (Receiver, V) -> Option<V>, posts: seq<(Receiver, V)>,
                               conditionalPosts: seq<(Receiver, V, bool)>): (r: TransferResult<V>)
    ensures r.ConditionalResult?
    ensures r.value == MoreSpecificValue(mostSpecific, factoryValue, Lookup(st.methods, call))
  {
    var resValue := MoreSpecificValue(mostSpecific, factoryValue, Lookup(st.methods, call));
    var updated := MethodCall(st, sequential, mostSpecific, sideEffectFree, monotonic, call, resValue);
    var withPosts := InsertEach(updated, sequential, mostSpecific, posts);
    ConditionalResult(resValue,
                      InsertWhen(withPosts, sequential, mostSpecific, conditionalPosts, true),
                      InsertWhen(withPosts, sequential, mostSpecific, conditionalPosts, false))
  }

  /**
   * Unconditional postconditions hold in both branch stores of a call; a
   * conditional one holds in the branch its result flag names.
   */
  lemma MethodInvocationPostconditions<V>(st: StoreState<V>, mostSpecific: (V, Option<V>) -> V,
                                          factoryValue: Option<V>, call: Receiver, sideEffectFree: bool,
                                          monotonic: (Receiver, V) -> Option<V>, posts: seq<(Receiver, V)>,
                                          conditionalPosts: seq<(Receiver, V, bool)>)
    ensures forall i :: 0 <= i < |posts| && CanInsertReceiver(posts[i].0) ==>
      GetValue(ThenOf(MethodInvocation(st, true, mostSpecific, factoryValue, call, sideEffectFree, monotonic,
                                       posts, conditionalPosts)), posts[i].0).Some?
      && GetValue(ElseOf(MethodInvocation(st, true, mostSpecific, factoryValue, call, sideEffectFree, monotonic,
                                          posts, conditionalPosts)), posts[i].0).Some?
    ensures forall i :: 0 <= i < |conditionalPosts| && CanInsertReceiver(conditionalPosts[i].0) ==>
      GetValue((if conditionalPosts[i].2 then ThenOf else ElseOf)(
                 MethodInvocation(st, true, mostSpecific, factoryValue, call, sideEffectFree, monotonic,
                                  posts, conditionalPosts)), conditionalPosts[i].0).Some?
  {
    var resValue := MoreSpecificValue(mostSpecific, factoryValue, Lookup(st.methods, call));
    var updated := MethodCall(st, true, mostSpecific, sideEffectFree, monotonic, call, resValue);
    var withPosts := InsertEach(updated, true, mostSpecific, posts);
    forall i | 0 <= i < |posts| && CanInsertReceiver(posts[i].0)
      ensures GetValue(InsertWhen(withPosts, true, mostSpecific, conditionalPosts, true), posts[i].0).Some?
      ensures GetValue(InsertWhen(withPosts, true, mostSpecific, conditionalPosts, false), posts[i].0).Some?
    {
      InsertEachKnows(updated, mostSpecific, posts, i);
    }
    forall i | 0 <= i < |conditionalPosts| && CanInsertReceiver(conditionalPosts[i].0)
      ensures GetValue(InsertWhen(withPosts, true, mostSpecific, conditionalPosts, conditionalPosts[i].2),
                       conditionalPosts[i].0).Some?
    {
      InsertWhenKnows(withPosts, mostSpecific, conditionalPosts, conditionalPosts[i].2, i);
    }
  }

  /** With only result=true conditional postconditions, the else-store is the copy taken before them. */
  lemma MethodInvocationElseIsCopy<V>(st: StoreState<V>, sequential: bool, mostSpecific: (V, Option<V>) -> V,
                                      factoryValue: Option<V>, call: Receiver, sideEffectFree: bool,
                                      monotonic: (Receiver, V) -> Option<V>, posts: seq<(Receiver, V)>,
                                      conditionalPosts: seq<(Receiver, V, bool)>)
    requires forall i :: 0 <= i < |conditionalPosts| ==> conditionalPosts[i].2
    ensures ElseOf(MethodInvocation(st, sequential, mostSpecific, factoryValue, call, sideEffectFree, monotonic,
                                    posts, conditionalPosts))
      == InsertEach(MethodCall(st, sequential, mostSpecific, sideEffectFree, monotonic, call,
                               MoreSpecificValue(mostSpecific, factoryValue, Lookup(st.methods, call))),
                    sequential, mostSpecific, posts)
  {
    var resValue := MoreSpecificValue(mostSpecific, factoryValue, Lookup(st.methods, call));
    InsertWhenNone(InsertEach(MethodCall(st, sequential, mostSpecific, sideEffectFree, monotonic, call, resValue),
                              sequential, mostSpecific, posts), sequential, mostSpecific, conditionalPosts, false);
  }

  /**
   * visitAssert: no value; the then-store when the input holds two stores
   * and assertions are assumed enabled, otherwise the regular store.
   */
  function Assert<V>(input: TransferInput<V>, lub: (V, V) -> Option<V>, assumeAssertsAreEnabled: bool): (r: TransferResult<V>)
    ensures r.RegularResult? && r.value.None?
    ensures input.ConditionalInput? && assumeAssertsAreEnabled ==> r.store == input.thenStore
    ensures !(input.ConditionalInput? && assumeAssertsAreEnabled) ==> r.store == RegularStoreOf(input, lub)
  {
    if input.ConditionalInput? && assumeAssertsAreEnabled then RegularResult(None, input.thenStore)
    else RegularResult(None, RegularStoreOf(input, lub))
  }

  /** visitCase and visitVariableDeclaration: no value, the regular store passes through. */
  function NoValue<V>(input: TransferInput<V>, lub: (V, V) -> Option<V>): (r: TransferResult<V>)
    ensures r.RegularResult? && r.value.None? && r.store == RegularStoreOf(input, lub)
  {
    RegularResult(None, RegularStoreOf(input, lub))
  }
}
