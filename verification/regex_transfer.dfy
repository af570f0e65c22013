/**
 * The regex checker's transfer function for method invocations: calls to
 * RegexUtil.isRegex(s, n) refine the then-branch store with a @Regex fact
 * about s, and calls to RegexUtil.asRegex(s, n) give their result @Regex.
 * The regular store of the base transfer result is a store object that
 * becomes the then-store in place; the else-store is a copy of it.
 */
module RegexTransfer {
  import opened Wrappers
  import opened FlowExpressions
  import opened AbstractStore
  import opened Transfer
  import opened RegexTypeFactory

  const RegexUtilName: string := "RegexUtil"
  const IsRegexSignature: string := "isRegex(java.lang.String,int)"
  const AsRegexSignature: string := "asRegex(java.lang.String,int)"

  predicate EndsWith(s: string, suffix: string)
  {
    |suffix| <= |s| && s[|s| - |suffix|..] == suffix
  }

  /** isRegexUtil: the class is named RegexUtil, unqualified or in some package. */
  function IsRegexUtil(receiver: string): (b: bool)
    ensures b ==> EndsWith(receiver, RegexUtilName)
  {
    receiver == RegexUtilName || EndsWith(receiver, "." + RegexUtilName)
  }

  /** A name ending in RegexUtil qualifies exactly when nothing, or a package separator, precedes it. */
  lemma RegexUtilNames(prefix: string)
    ensures IsRegexUtil(prefix + RegexUtilName) <==> prefix == [] || prefix[|prefix| - 1] == '.'
  {
    var s := prefix + RegexUtilName;
    if prefix == [] {
      assert s == RegexUtilName;
    } else {
      var n := |s| - |"." + RegexUtilName|;
      assert n == |prefix| - 1;
      assert s[n..] == [prefix[|prefix| - 1]] + RegexUtilName;
      assert s != RegexUtilName;
      if prefix[|prefix| - 1] == '.' {
        assert s[n..] == "." + RegexUtilName;
      } else {
        assert s[n..][0] != ("." + RegexUtilName)[0];
      }
    }
  }

  /** A class whose simple name merely ends in RegexUtil is not RegexUtil. */
  lemma IllegalNameIsNotRegexUtil()
    ensures !IsRegexUtil("IllegalNameRegexUtil")
    ensures IsRegexUtil("RegexUtil") && IsRegexUtil("checkers.regex.RegexUtil")
  {
    RegexUtilNames("IllegalName");
    assert "IllegalName" + RegexUtilName == "IllegalNameRegexUtil";
    RegexUtilNames("checkers.regex.");
    assert "checkers.regex." + RegexUtilName == "checkers.regex.RegexUtil";
  }

  /** The group-count argument of the call: an integer literal, or any other expression. */
  datatype CountArg = IntegerLiteral(value: int) | OtherArgument

  /** The invoked method: the receiver's class name when the receiver is a class name, the method's signature, its second argument. */
  datatype Invocation = Invocation(receiverClass: Option<string>, signature: string, count: CountArg)

  /** The annotation for the checked string: @Regex(n) for a literal n, plain @Regex otherwise. */
  function CountAnnotation(count: CountArg): (q: Qual)
    ensures q.Regex?
    ensures GroupCount(q) == (if count.IntegerLiteral? then count.value else 0)
    ensures count.IntegerLiteral? <==> q.groups.Some?
  {
    match count
    case IntegerLiteral(n) => RegexAnnotation(n)
    case OtherArgument => Regex(None)
  }

  predicate IsRegexCall(call: Invocation)
  {
    call.receiverClass.Some? && IsRegexUtil(call.receiverClass.value) && call.signature == IsRegexSignature
  }

  predicate IsAsRegexCall(call: Invocation)
  {
    call.receiverClass.Some? && IsRegexUtil(call.receiverClass.value) && call.signature == AsRegexSignature
  }

  /**
   * The refined transfer result, or None when the base result stands.
   * value and regular are the base result's value and regular store;
   * firstParam is the receiver the first argument denotes (None when it
   * cannot be parsed); single turns an annotation into an abstract value.
   */
  function Refinement<V>(call: Invocation, value: Option<V>, regular: StoreState<V>, sequential: bool,
                         mostSpecific: (V, Option<V>) -> V, firstParam: Option<Receiver>,
                         single: Qual -> V): (r: Option<TransferResult<V>>)
    ensures r.Some? ==> ElseOf(r.value) == regular
    ensures r.Some? && r.value.RegularResult? ==> ThenOf(r.value) == regular
  {
    if IsRegexCall(call) then
      var fact := Some(single(CountAnnotation(call.count)));
      var thenStore := if firstParam.Some? then Insert(regular, sequential, mostSpecific, firstParam.value, fact) else regular;
      Some(ConditionalResult(value, thenStore, regular))
    else if IsAsRegexCall(call) then
      Some(RegularResult(Some(single(CountAnnotation(call.count))), regular))
    else None
  }

  /** After isRegex(s, n) only the then-store learns that s is a regex with n groups; the else-store is the base store. */
  lemma IsRegexRefinesThenStoreOnly<V>(call: Invocation, value: Option<V>, regular: StoreState<V>, sequential: bool,
                                       mostSpecific: (V, Option<V>) -> V, p: Receiver, single: Qual -> V,
                                       other: Receiver)
    requires IsRegexCall(call)
    requires CanInsertReceiver(p) && Storable(other)
    requires sequential || !p.PureMethodCall?
    requires sequential || IsUnmodifiableByOtherCode(p) || !p.FieldAccess?
    ensures Refinement(call, value, regular, sequential, mostSpecific, Some(p), single).Some?
    ensures var r := Refinement(call, value, regular, sequential, mostSpecific, Some(p), single).value;
      && r.ConditionalResult?
      && r.value == value
      && ElseOf(r) == regular
      && GetValue(ThenOf(r), p) == Some(mostSpecific(single(CountAnnotation(call.count)), GetValue(regular, p)))
      && (other != p ==> GetValue(ThenOf(r), other) == GetValue(regular, other))
  {
    InsertThenGet(regular, sequential, mostSpecific, p, single(CountAnnotation(call.count)), other);
  }

  /** After asRegex(s, n) the call's value is @Regex with the literal's group count, and the store is the base store. */
  lemma AsRegexReplacesValue<V>(call: Invocation, value: Option<V>, regular: StoreState<V>, sequential: bool,
                                mostSpecific: (V, Option<V>) -> V, firstParam: Option<Receiver>, single: Qual -> V)
    requires IsAsRegexCall(call)
    ensures Refinement(call, value, regular, sequential, mostSpecific, firstParam, single).Some?
    ensures var r := Refinement(call, value, regular, sequential, mostSpecific, firstParam, single).value;
      && r.RegularResult?
      && ThenOf(r) == regular && ElseOf(r) == regular
      && (exists q :: r.value == Some(single(q)) && q.Regex?
                      && GroupCount(q) == (if call.count.IntegerLiteral? then call.count.value else 0))
  {
    var q := CountAnnotation(call.count);
    assert Refinement(call, value, regular, sequential, mostSpecific, firstParam, single).value.value == Some(single(q));
  }

  /** Every other invocation keeps the base result: a non-class receiver, another class, or another method. */
  lemma OtherCallsKeepResult<V>(call: Invocation, value: Option<V>, regular: StoreState<V>, sequential: bool,
                                mostSpecific: (V, Option<V>) -> V, firstParam: Option<Receiver>, single: Qual -> V)
    ensures Refinement(call, value, regular, sequential, mostSpecific, firstParam, single).None?
      <==> call.receiverClass.None? || !IsRegexUtil(call.receiverClass.value)
           || (call.signature != IsRegexSignature && call.signature != AsRegexSignature)
  {
  }

  /** The transfer result the method builds, with store objects in place of store states. */
  datatype Outcome<V(==)> =
    | RegularOutcome(value: Option<V>, store: CFStore<V>)
    | ConditionalOutcome(value: Option<V>, thenStore: CFStore<V>, elseStore: CFStore<V>)

  function Stores<V(==)>(o: Outcome<V>): set<CFStore<V>>
  {
    if o.RegularOutcome? then {o.store} else {o.thenStore, o.elseStore}
  }

  /** The stores' current contents. */
  function ResultOf<V(==)>(o: Outcome<V>): TransferResult<V>
    reads Stores(o)
  {
    match o
    case RegularOutcome(v, s) => RegularResult(v, s.State())
    case ConditionalOutcome(v, t, e) => ConditionalResult(v, t.State(), e.State())
  }

  /**
   * visitMethodInvocation after the base transfer: value and regular are
   * the base result's value and regular store. For isRegex the regular
   * store becomes the then-store and a copy taken beforehand the else-store;
   * None means the base result is returned.
   */
  method VisitMethodInvocation<V(==)>(call: Invocation, value: Option<V>, regular: CFStore<V>,
                                      firstParam: Option<Receiver>, single: Qual -> V)
    returns (refined: Option<Outcome<V>>)
    modifies regular
    ensures var spec := Refinement(call, value, old(regular.State()), regular.sequentialSemantics,
                                   regular.mostSpecific, firstParam, single);
      && (refined.None? <==> spec.None?)
      && (refined.Some? ==> ResultOf(refined.value) == spec.value)
    ensures refined.None? ==> regular.State() == old(regular.State())
    ensures refined.Some? && refined.value.RegularOutcome? ==> refined.value.store == regular
    ensures refined.Some? && refined.value.ConditionalOutcome? ==>
      refined.value.thenStore == regular && fresh(refined.value.elseStore)
  {
    if call.receiverClass.Some? {
      var receiverName := call.receiverClass.value;
      if IsRegexUtil(receiverName) && call.signature == IsRegexSignature {
        var thenStore := regular;
        var elseStore := new CFStore.Copy(thenStore);
        var newResult := ConditionalOutcome(value, thenStore, elseStore);
        if firstParam.Some? {
          var regexAnnotation := CountAnnotation(call.count);
          thenStore.InsertValue(firstParam.value, Some(single(regexAnnotation)));
        }
        return Some(newResult);
      }
      if IsRegexUtil(receiverName) && call.signature == AsRegexSignature {
        var regexAnnotation := CountAnnotation(call.count);
        return Some(RegularOutcome(Some(single(regexAnnotation)), regular));
      }
    }
    return None;
  }
}
