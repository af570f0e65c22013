/**
 * Flow expressions (checkers/flow/analysis/FlowExpressions.java): the
 * receivers the dataflow stores keep facts about, and the translation of
 * CFG nodes into them.
 */
module FlowExpressions {
  import opened Wrappers

  /** A field element: its name, and whether it is declared final / static. */
  datatype Field = Field(name: string, isFinal: bool, isStatic: bool)

  /**
   * The receiver hierarchy.  Element identities are names; an Unknown
   * carries the identity of the object it stands for, since an Unknown
   * equals only itself.  Static types are not modelled.
   */
  datatype Receiver =
    | FieldAccess(receiver: Receiver, field: Field)
    | ThisReference
    | ClassName(element: string)
    | Unknown(id: nat)
    | LocalVariable(element: string)
    | ValueLiteral(value: string)
    | PureMethodCall(callee: string, receiver: Receiver, parameters: seq<Receiver>)

  /** containsUnknown; a receiver with an Unknown inside can be changed by other code. */
  predicate ContainsUnknown(r: Receiver)
    ensures ContainsUnknown(r) ==> !IsUnmodifiableByOtherCode(r)
  {
    match r
    case FieldAccess(recv, _) => ContainsUnknown(recv)
    case Unknown(_) => true
    case PureMethodCall(_, recv, ps) =>
      ContainsUnknown(recv) || exists i :: 0 <= i < |ps| && ContainsUnknown(ps[i])
    case _ => false
  }

  /** isUnmodifiableByOtherCode: only a chain of final fields, without calls, qualifies. */
  predicate IsUnmodifiableByOtherCode(r: Receiver)
    ensures IsUnmodifiableByOtherCode(r) ==> FieldChain(r)
  {
    match r
    case FieldAccess(recv, f) => f.isFinal && IsUnmodifiableByOtherCode(recv)
    case Unknown(_) => false
    case PureMethodCall(_, _, _) => false
    case _ => true
  }

  /** The number of receiver objects in r, for termination. */
  function Size(r: Receiver): nat
  {
    match r
    case FieldAccess(recv, _) => 1 + Size(recv)
    case PureMethodCall(_, recv, ps) => 1 + Size(recv) + SizeAll(ps)
    case _ => 1
  }

  function SizeAll(rs: seq<Receiver>): (s: nat)
    ensures forall i :: 0 <= i < |rs| ==> Size(rs[i]) <= s
  {
    if rs == [] then 0
    else
      var s := Size(rs[0]) + SizeAll(rs[1..]);
      assert forall i :: 1 <= i < |rs| ==> rs[i] == rs[1..][i - 1];
      s
  }

  /** syntacticEquals; the identity test of the base class is structural equality here. */
  predicate SyntacticEquals(a: Receiver, other: Receiver)
    ensures SyntacticEquals(a, other) ==> a == other
    decreases Size(a) + Size(other)
  {
    match a
    case FieldAccess(recv, f) =>
      other.FieldAccess? && (a == other || (other.field == f && SyntacticEquals(other.receiver, recv)))
    case ThisReference => other.ThisReference?
    case LocalVariable(e) => other.LocalVariable? && other.element == e
    case PureMethodCall(m, recv, ps) =>
      && other.PureMethodCall?
      && SyntacticEquals(recv, other.receiver)
      && |ps| == |other.parameters|
      && (forall i :: 0 <= i < |ps| ==> SyntacticEquals(ps[i], other.parameters[i]))
      && m == other.callee
    case _ => a == other
  }

  /** containsSyntacticEqualReceiver: a pure call looks only one receiver deep. */
  predicate ContainsSyntacticEqualReceiver(a: Receiver, other: Receiver)
  {
    match a
    case FieldAccess(recv, _) => SyntacticEquals(a, other) || ContainsSyntacticEqualReceiver(recv, other)
    case PureMethodCall(_, recv, _) => SyntacticEquals(a, other) || SyntacticEquals(recv, other)
    case _ => SyntacticEquals(a, other)
  }

  /** PureMethodCall.containsSyntacticEqualParameter */
  predicate ContainsSyntacticEqualParameter(parameters: seq<Receiver>, v: Receiver)
  {
    exists i :: 0 <= i < |parameters| && ContainsSyntacticEqualReceiver(parameters[i], v)
  }

  /**
   * containsAliasOf; whether two receivers may alias depends on the
   * store and on static types, so it is the parameter canAlias.  A
   * receiver with an Unknown inside may alias anything.
   */
  predicate ContainsAliasOf(a: Receiver, canAlias: (Receiver, Receiver) -> bool, other: Receiver)
    ensures ContainsUnknown(a) ==> ContainsAliasOf(a, canAlias, other)
  {
    match a
    case Unknown(_) => true
    case FieldAccess(recv, _) =>
      a == other || canAlias(a, other) || ContainsAliasOf(recv, canAlias, other)
    case PureMethodCall(_, recv, ps) =>
      || ContainsAliasOf(recv, canAlias, other)
      || (exists i :: 0 <= i < |ps| && ContainsAliasOf(ps[i], canAlias, other))
      || a == other || canAlias(a, other)
    case _ => a == other || canAlias(a, other)
  }

  /** x appears somewhere inside r (r itself included). */
  predicate Occurs(x: Receiver, r: Receiver)
  {
    x == r ||
    match r
    case FieldAccess(recv, _) => Occurs(x, recv)
    case PureMethodCall(_, recv, ps) => Occurs(x, recv) || exists i :: 0 <= i < |ps| && Occurs(x, ps[i])
    case _ => false
  }

  /** A receiver contains Unknown exactly when some Unknown occurs in it. */
  lemma {:induction false} ContainsUnknownOccurs(r: Receiver)
    ensures ContainsUnknown(r) <==> exists id :: Occurs(Unknown(id), r)
  {
    match r
    case FieldAccess(recv, _) =>
      ContainsUnknownOccurs(recv);
      if ContainsUnknown(r) {
        var id :| Occurs(Unknown(id), recv);
        assert Occurs(Unknown(id), r);
      }
    case Unknown(id) =>
      assert Occurs(Unknown(id), r);
    case PureMethodCall(_, recv, ps) =>
      ContainsUnknownOccurs(recv);
      forall i | 0 <= i < |ps| {
        ContainsUnknownOccurs(ps[i]);
      }
      if ContainsUnknown(r) {
        if ContainsUnknown(recv) {
          var id :| Occurs(Unknown(id), recv);
          assert Occurs(Unknown(id), r);
        } else {
          var i :| 0 <= i < |ps| && ContainsUnknown(ps[i]);
          var id :| Occurs(Unknown(id), ps[i]);
          assert Occurs(Unknown(id), r);
        }
      }
    case _ =>
  }

  /** Syntactic equality coincides with equality of receiver values. */
  lemma {:induction false} SyntacticEqualsIsEquality(a: Receiver, b: Receiver)
    ensures SyntacticEquals(a, b) <==> a == b
    decreases Size(a) + Size(b)
  {
    match a
    case FieldAccess(recv, f) =>
      if b.FieldAccess? {
        SyntacticEqualsIsEquality(b.receiver, recv);
      }
    case PureMethodCall(m, recv, ps) =>
      if b.PureMethodCall? {
        SyntacticEqualsIsEquality(recv, b.receiver);
        if |ps| == |b.parameters| {
          forall i | 0 <= i < |ps| {
            SyntacticEqualsIsEquality(ps[i], b.parameters[i]);
          }
          if (forall i :: 0 <= i < |ps| ==> ps[i] == b.parameters[i]) {
            assert ps == b.parameters;
          }
        }
      }
    case _ =>
  }

  /** A receiver that is a chain of field accesses, without method calls. */
  predicate FieldChain(a: Receiver)
  {
    match a
    case FieldAccess(recv, _) => FieldChain(recv)
    case PureMethodCall(_, _, _) => false
    case _ => true
  }

  /** A field access contains each receiver of its receiver chain. */
  lemma {:induction false} ContainsReceiverChain(a: Receiver, x: Receiver)
    requires Occurs(x, a) && FieldChain(a)
    ensures ContainsSyntacticEqualReceiver(a, x)
  {
    SyntacticEqualsIsEquality(a, x);
    if a != x && a.FieldAccess? {
      assert Occurs(x, a.receiver);
      ContainsReceiverChain(a.receiver, x);
    }
  }

  /** Whatever occurs in a receiver may be an alias of part of it. */
  lemma {:induction false} OccursIsAlias(a: Receiver, canAlias: (Receiver, Receiver) -> bool, x: Receiver)
    requires Occurs(x, a)
    ensures ContainsAliasOf(a, canAlias, x)
  {
    if a != x {
      match a
      case FieldAccess(recv, _) =>
        OccursIsAlias(recv, canAlias, x);
      case PureMethodCall(_, recv, ps) =>
        if Occurs(x, recv) {
          OccursIsAlias(recv, canAlias, x);
        } else {
          var i :| 0 <= i < |ps| && Occurs(x, ps[i]);
          OccursIsAlias(ps[i], canAlias, x);
        }
      case _ =>
    }
  }

  // ---------------------------------------------------------------------
  // The Java equals methods
  // ---------------------------------------------------------------------

  /** r holds a pure method call, itself or along its chain of field receivers. */
  predicate HasCall(r: Receiver)
  {
    r.PureMethodCall? || (r.FieldAccess? && HasCall(r.receiver))
  }

  /**
   * Receiver equality as the Java equals methods compute it.  A field
   * access compares the fields and then asks the OTHER receiver whether it
   * equals its own; a pure call walks its own parameters and indexes the
   * other's list at the same position, so it throws when it has more
   * parameters and never looks at the other's extra ones; every other
   * receiver compares its element or value.
   */
  function JavaEquals(a: Receiver, b: Receiver): (r: Result<bool>)
    ensures !a.PureMethodCall? && !a.FieldAccess? ==> r == Ok(a == b)
    ensures r.Err? ==> HasCall(a) && HasCall(b)
    ensures r == Ok(true) ==> (a.FieldAccess? <==> b.FieldAccess?) && (a.PureMethodCall? <==> b.PureMethodCall?)
    decreases Size(a) + Size(b), 0
  {
    match a
    case FieldAccess(recv, f) =>
      if !b.FieldAccess? || b.field != f then Ok(false)
      else JavaEquals(b.receiver, recv)
    case PureMethodCall(m, recv, ps) =>
      if !b.PureMethodCall? then Ok(false)
      else
        (match ParametersEqual(ps, b.parameters, 0)
         case Err(e) => Err(e)
         case Ok(same) =>
           if !same then Ok(false)
           else
             match JavaEquals(recv, b.receiver)
             case Err(e) => Err(e)
             case Ok(sameReceiver) => Ok(sameReceiver && m == b.callee))
    case _ => Ok(a == b)
  }

  /** The loop over this call's parameters, from position i. */
  function ParametersEqual(ps: seq<Receiver>, qs: seq<Receiver>, i: nat): (r: Result<bool>)
    requires i <= |ps|
    ensures i < |ps| && |qs| < |ps| && r.Ok? ==> !r.value
    decreases SizeAll(ps) + SizeAll(qs), |ps| - i
  {
    if i == |ps| then Ok(true)
    else if i >= |qs| then Err("IndexOutOfBoundsException")
    else
      match JavaEquals(ps[i], qs[i])
      case Err(e) => Err(e)
      case Ok(same) => if !same then Ok(false) else ParametersEqual(ps, qs, i + 1)
  }

  /** A receiver without a call on either side is compared by value. */
  lemma {:induction false} JavaEqualsWithoutCalls(a: Receiver, b: Receiver)
    requires !HasCall(a) || !HasCall(b)
    ensures JavaEquals(a, b) == Ok(a == b)
    decreases Size(a) + Size(b)
  {
    if a.FieldAccess? && b.FieldAccess? && a.field == b.field {
      JavaEqualsWithoutCalls(b.receiver, a.receiver);
    }
  }

  /**
   * The two receivers have the same shape wherever both have a pure call:
   * calls at corresponding places have equally many parameters.
   */
  predicate ArityMatched(a: Receiver, b: Receiver)
    decreases Size(a) + Size(b)
  {
    if a.FieldAccess? && b.FieldAccess? then
      ArityMatched(a.receiver, b.receiver)
    else if a.PureMethodCall? && b.PureMethodCall? then
      && |a.parameters| == |b.parameters|
      && ArityMatched(a.receiver, b.receiver)
      && forall k :: 0 <= k < |a.parameters| ==> ArityMatched(a.parameters[k], b.parameters[k])
    else true
  }

  lemma {:induction false} ArityMatchedSymmetric(a: Receiver, b: Receiver)
    requires ArityMatched(a, b)
    ensures ArityMatched(b, a)
    decreases Size(a) + Size(b)
  {
    if a.FieldAccess? && b.FieldAccess? {
      ArityMatchedSymmetric(a.receiver, b.receiver);
    } else if a.PureMethodCall? && b.PureMethodCall? {
      ArityMatchedSymmetric(a.receiver, b.receiver);
      forall k | 0 <= k < |b.parameters|
        ensures ArityMatched(b.parameters[k], a.parameters[k])
      {
        ArityMatchedSymmetric(a.parameters[k], b.parameters[k]);
      }
    }
  }

  lemma {:induction false} ArityMatchedReflexive(a: Receiver)
    ensures ArityMatched(a, a)
    decreases Size(a)
  {
    match a
    case FieldAccess(recv, _) => ArityMatchedReflexive(recv);
    case PureMethodCall(_, recv, ps) =>
      ArityMatchedReflexive(recv);
      forall k | 0 <= k < |ps| ensures ArityMatched(ps[k], ps[k]) {
        ArityMatchedReflexive(ps[k]);
      }
    case _ =>
  }

  /**
   * Where the calls of the two receivers have equally many parameters
   * throughout, the Java equals never throws and is the value equality the
   * rest of this model uses.
   */
  lemma {:induction false} JavaEqualsSameArity(a: Receiver, b: Receiver)
    requires ArityMatched(a, b)
    ensures JavaEquals(a, b) == Ok(a == b)
    decreases Size(a) + Size(b), 0
  {
    match a
    case FieldAccess(recv, f) =>
      if b.FieldAccess? && b.field == f {
        ArityMatchedSymmetric(recv, b.receiver);
        JavaEqualsSameArity(b.receiver, recv);
      }
    case PureMethodCall(m, recv, ps) =>
      if b.PureMethodCall? {
        ParametersSameArity(ps, b.parameters, 0);
        JavaEqualsSameArity(recv, b.receiver);
        if ps == b.parameters {
          assert ps[0..] == ps;
        } else {
          assert ps[0..] == ps && b.parameters[0..] == b.parameters;
        }
      }
    case _ =>
  }

  lemma {:induction false} ParametersSameArity(ps: seq<Receiver>, qs: seq<Receiver>, i: nat)
    requires i <= |ps| == |qs|
    requires forall k :: 0 <= k < |ps| ==> ArityMatched(ps[k], qs[k])
    ensures ParametersEqual(ps, qs, i) == Ok(ps[i..] == qs[i..])
    decreases SizeAll(ps) + SizeAll(qs), |ps| - i
  {
    if i < |ps| {
      JavaEqualsSameArity(ps[i], qs[i]);
      if ps[i] == qs[i] {
        ParametersSameArity(ps, qs, i + 1);
        assert ps[i..] == [ps[i]] + ps[i + 1..];
        assert qs[i..] == [qs[i]] + qs[i + 1..];
      } else {
        assert ps[i..][0] != qs[i..][0];
      }
    }
  }

  /** Every receiver equals itself under the Java equals. */
  lemma JavaEqualsReflexive(a: Receiver)
    ensures JavaEquals(a, a) == Ok(true)
  {
    ArityMatchedReflexive(a);
    JavaEqualsSameArity(a, a);
  }

  /** The Java equals of a pure call is not symmetric: m(x) equals m(x, y), but not back. */
  lemma JavaEqualsAsymmetric(x: Receiver, y: Receiver)
    ensures var shorter := PureMethodCall("m", ThisReference, [x]);
      var longer := PureMethodCall("m", ThisReference, [x, y]);
      && JavaEquals(shorter, longer) == Ok(true)
      && JavaEquals(longer, shorter).Err?
  {
    var shorter := PureMethodCall("m", ThisReference, [x]);
    var longer := PureMethodCall("m", ThisReference, [x, y]);
    JavaEqualsReflexive(x);
    assert ParametersEqual(shorter.parameters, longer.parameters, 1) == Ok(true);
    assert ParametersEqual(shorter.parameters, longer.parameters, 0) == Ok(true);
    assert ParametersEqual(longer.parameters, shorter.parameters, 1).Err?;
    assert ParametersEqual(longer.parameters, shorter.parameters, 0).Err?;
  }

  /**
   * The equality the Java methods evidently intend: a pure call compares
   * the lengths of the parameter lists before walking them, so it never
   * throws and is symmetric.
   */
  function IntendedEquals(a: Receiver, b: Receiver): (r: bool)
    ensures r <==> a == b
    decreases Size(a) + Size(b), 0
  {
    match a
    case FieldAccess(recv, f) =>
      b.FieldAccess? && b.field == f && IntendedEquals(b.receiver, recv)
    case PureMethodCall(m, recv, ps) =>
      && b.PureMethodCall?
      && |ps| == |b.parameters|
      && IntendedParameters(ps, b.parameters, 0)
      && IntendedEquals(recv, b.receiver)
      && m == b.callee
    case _ => a == b
  }

  /** The corrected parameter loop, for lists of equal length. */
  function IntendedParameters(ps: seq<Receiver>, qs: seq<Receiver>, i: nat): (r: bool)
    requires i <= |ps| == |qs|
    ensures r <==> ps[i..] == qs[i..]
    decreases SizeAll(ps) + SizeAll(qs), |ps| - i
  {
    if i == |ps| then true
    else
      assert ps[i..] == [ps[i]] + ps[i + 1..] && qs[i..] == [qs[i]] + qs[i + 1..];
      IntendedEquals(ps[i], qs[i]) && IntendedParameters(ps, qs, i + 1)
  }

  // ---------------------------------------------------------------------
  // internalReprOf
  // ---------------------------------------------------------------------

  /** The CFG nodes internalReprOf distinguishes; Other is any other node. */
  datatype Node =
    | FieldAccessNode(receiver: Node, field: Field)
    | ThisLiteralNode
    | LocalVariableNode(element: string)
    | ClassNameNode(element: string)
    | ValueLiteralNode(value: string)
    | MethodInvocationNode(callee: string, hasPurityAnnotation: bool, target: Node, arguments: seq<Node>)
    | OtherNode

  /** Whether the translation of n has an Unknown somewhere. */
  predicate HasUnrecognised(n: Node)
  {
    match n
    case FieldAccessNode(recv, _) => HasUnrecognised(recv)
    case MethodInvocationNode(_, pure, t, args) =>
      !pure || HasUnrecognised(t) || exists i :: 0 <= i < |args| && HasUnrecognised(args[i])
    case OtherNode => true
    case _ => false
  }

  /** Every Unknown in r has an identity in [lo, hi). */
  predicate UnknownsIn(r: Receiver, lo: nat, hi: nat)
  {
    match r
    case Unknown(id) => lo <= id < hi
    case FieldAccess(recv, _) => UnknownsIn(recv, lo, hi)
    case PureMethodCall(_, recv, ps) => UnknownsIn(recv, lo, hi) && UnknownsInAll(ps, lo, hi)
    case _ => true
  }

  predicate UnknownsInAll(rs: seq<Receiver>, lo: nat, hi: nat)
  {
    forall i :: 0 <= i < |rs| ==> UnknownsIn(rs[i], lo, hi)
  }

  /** Widening the range keeps every Unknown inside it. */
  lemma {:induction false} UnknownsInWiden(r: Receiver, lo: nat, hi: nat, lo': nat, hi': nat)
    requires UnknownsIn(r, lo, hi) && lo' <= lo && hi <= hi'
    ensures UnknownsIn(r, lo', hi')
  {
    match r
    case FieldAccess(recv, _) => UnknownsInWiden(recv, lo, hi, lo', hi');
    case PureMethodCall(_, recv, ps) =>
      UnknownsInWiden(recv, lo, hi, lo', hi');
      forall i | 0 <= i < |ps| {
        UnknownsInWiden(ps[i], lo, hi, lo', hi');
      }
    case _ =>
  }

  /** A translated receiver and the next unused identity. */
  datatype Translated = Translated(receiver: Receiver, next: nat)

  /** Translated parameters and the next unused identity. */
  datatype TranslatedAll = TranslatedAll(receivers: seq<Receiver>, next: nat)

  /**
   * internalReprOf: each node becomes its receiver; an unrecognised node
   * and a call of a method without a purity annotation become a new
   * Unknown.  New objects are numbered from nextId.
   */
  function InternalReprOf(n: Node, nextId: nat): (res: Translated)
    ensures nextId <= res.next
    ensures res.receiver.Unknown? <==> n.OtherNode? || (n.MethodInvocationNode? && !n.hasPurityAnnotation)
    ensures n.FieldAccessNode? ==> res.receiver.FieldAccess? && res.receiver.field == n.field
    ensures n.LocalVariableNode? ==> res.receiver == LocalVariable(n.element)
    ensures n.MethodInvocationNode? && n.hasPurityAnnotation ==>
      (res.receiver.PureMethodCall? && res.receiver.callee == n.callee
       && |res.receiver.parameters| == |n.arguments|)
    decreases n, 1, 0
  {
    match n
    case FieldAccessNode(recv, f) =>
      var r := InternalReprOf(recv, nextId);
      Translated(FieldAccess(r.receiver, f), r.next)
    case ThisLiteralNode => Translated(ThisReference, nextId)
    case LocalVariableNode(e) => Translated(LocalVariable(e), nextId)
    case ClassNameNode(e) => Translated(ClassName(e), nextId)
    case ValueLiteralNode(v) => Translated(ValueLiteral(v), nextId)
    case MethodInvocationNode(m, pure, t, args) =>
      if pure then
        var ps := InternalReprOfArguments(n, 0, nextId);
        var r := InternalReprOf(t, ps.next);
        Translated(PureMethodCall(m, r.receiver, ps.receivers), r.next)
      else Translated(Unknown(nextId), nextId + 1)
    case OtherNode => Translated(Unknown(nextId), nextId + 1)
  }

  /** The loop over a pure invocation's arguments, from position i. */
  function InternalReprOfArguments(n: Node, i: nat, nextId: nat): (res: TranslatedAll)
    requires n.MethodInvocationNode? && i <= |n.arguments|
    ensures nextId <= res.next
    ensures |res.receivers| == |n.arguments| - i
    decreases n, 0, |n.arguments| - i
  {
    if i == |n.arguments| then TranslatedAll([], nextId)
    else
      var p := InternalReprOf(n.arguments[i], nextId);
      var ps := InternalReprOfArguments(n, i + 1, p.next);
      TranslatedAll([p.receiver] + ps.receivers, ps.next)
  }

  /**
   * The translation contains Unknown exactly when the node has an
   * unrecognised part, and every Unknown in it is a new object.
   */
  lemma {:induction false} InternalReprOfUnknowns(n: Node, nextId: nat)
    ensures ContainsUnknown(InternalReprOf(n, nextId).receiver) <==> HasUnrecognised(n)
    ensures UnknownsIn(InternalReprOf(n, nextId).receiver, nextId, InternalReprOf(n, nextId).next)
    decreases n, 1, 0
  {
    match n
    case FieldAccessNode(recv, f) =>
      InternalReprOfUnknowns(recv, nextId);
    case MethodInvocationNode(m, pure, t, args) =>
      if pure {
        var ps := InternalReprOfArguments(n, 0, nextId);
        InternalReprOfArgumentsUnknowns(n, 0, nextId);
        InternalReprOfUnknowns(t, ps.next);
        var r := InternalReprOf(t, ps.next);
        UnknownsInWiden(r.receiver, ps.next, r.next, nextId, r.next);
        assert args[0..] == args;
        forall k | 0 <= k < |ps.receivers|
          ensures UnknownsIn(ps.receivers[k], nextId, r.next)
        {
          UnknownsInWiden(ps.receivers[k], nextId, ps.next, nextId, r.next);
        }
      }
    case _ =>
  }

  /** Each translated receiver contains Unknown exactly when its node is unrecognised. */
  predicate UnknownsMatch(rs: seq<Receiver>, ns: seq<Node>)
  {
    |rs| == |ns| && forall k :: 0 <= k < |rs| ==> (ContainsUnknown(rs[k]) <==> HasUnrecognised(ns[k]))
  }

  lemma {:induction false} InternalReprOfArgumentsUnknowns(n: Node, i: nat, nextId: nat)
    requires n.MethodInvocationNode? && i <= |n.arguments|
    ensures UnknownsInAll(InternalReprOfArguments(n, i, nextId).receivers, nextId, InternalReprOfArguments(n, i, nextId).next)
    ensures UnknownsMatch(InternalReprOfArguments(n, i, nextId).receivers, n.arguments[i..])
    decreases n, 0, |n.arguments| - i
  {
    if i < |n.arguments| {
      var p := InternalReprOf(n.arguments[i], nextId);
      InternalReprOfUnknowns(n.arguments[i], nextId);
      InternalReprOfArgumentsUnknowns(n, i + 1, p.next);
      var ps := InternalReprOfArguments(n, i + 1, p.next);
      var all := [p.receiver] + ps.receivers;
      assert n.arguments[i..] == [n.arguments[i]] + n.arguments[i + 1..];
      forall k | 0 <= k < |all|
        ensures UnknownsIn(all[k], nextId, ps.next)
      {
        if k == 0 {
          UnknownsInWiden(p.receiver, nextId, p.next, nextId, ps.next);
        } else {
          assert all[k] == ps.receivers[k - 1];
          UnknownsInWiden(ps.receivers[k - 1], p.next, ps.next, nextId, ps.next);
        }
      }
    }
  }
}
