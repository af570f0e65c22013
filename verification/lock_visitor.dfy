/**
 * The held-lock discipline of the lock checker's visitor. The type
 * factory holds the list of locks held at the current point; synchronized
 * blocks, synchronized methods and constructors, @Holding methods and
 * explicit lock()/unlock() calls change it, and every visit restores the
 * list it found on entry when it leaves a block or a method. An
 * invocation of a method that needs locks not all held is reported.
 */
module LockVisitor {
  import opened Wrappers

  /** append(lst, o): lst itself for a null o, otherwise a new list with o at the end. */
  function Append(lst: seq<string>, o: Option<string>): (r: seq<string>)
    ensures o.None? ==> r == lst
    ensures o.Some? ==> |r| == |lst| + 1 && r[..|lst|] == lst && r[|lst|] == o.value
  {
    if o.None? then lst else lst + [o.value]
  }

  /** List.remove(Object): the list without the first occurrence of x, if any. */
  function RemoveFirst(lst: seq<string>, x: string): (r: seq<string>)
    ensures x !in lst ==> r == lst
    ensures x in lst ==> |r| == |lst| - 1
  {
    if lst == [] then []
    else if lst[0] == x then lst[1..]
    else
      assert lst == [lst[0]] + lst[1..];
      [lst[0]] + RemoveFirst(lst[1..], x)
  }

  /** Removing takes away exactly one copy of x, when there is one, and nothing else. */
  lemma {:induction false} RemoveFirstCounts(lst: seq<string>, x: string)
    ensures multiset(RemoveFirst(lst, x)) == multiset(lst) - multiset{x}
  {
    if lst != [] {
      assert lst == [lst[0]] + lst[1..];
      if lst[0] != x {
        RemoveFirstCounts(lst[1..], x);
      }
    }
  }

  /** Removing the first occurrence keeps everything before it. */
  lemma {:induction false} RemoveFirstSplits(lst: seq<string>, x: string, i: nat)
    requires i < |lst| && lst[i] == x && x !in lst[..i]
    ensures RemoveFirst(lst, x) == lst[..i] + lst[i + 1..]
  {
    if i > 0 {
      assert lst[0] in lst[..i];
      assert RemoveFirst(lst, x) == [lst[0]] + RemoveFirst(lst[1..], x);
      assert lst[1..][..i - 1] == lst[1..i];
      assert x !in lst[1..][..i - 1];
      RemoveFirstSplits(lst[1..], x, i - 1);
      assert lst[..i] == [lst[0]] + lst[1..][..i - 1];
      assert lst[i + 1..] == lst[1..][i..];
    }
  }

  /** A lock appended and then unlocked goes away again: the old list comes back when it did not hold the lock. */
  lemma {:induction false} AppendThenRemove(lst: seq<string>, x: string)
    requires x !in lst
    ensures RemoveFirst(Append(lst, Some(x)), x) == lst
  {
    var l2 := lst + [x];
    assert l2[..|lst|] == lst;
    RemoveFirstSplits(l2, x, |lst|);
    assert l2[|lst| + 1..] == [];
  }

  /** A lock already held: unlocking removes the earlier occurrence and the appended one stays. */
  lemma {:induction false} AppendHeldThenRemove(lst: seq<string>, x: string)
    requires x in lst
    ensures RemoveFirst(Append(lst, Some(x)), x) == RemoveFirst(lst, x) + [x]
  {
    FirstOccurrence(lst, x);
    var i :| 0 <= i < |lst| && lst[i] == x && x !in lst[..i];
    var l2 := lst + [x];
    assert l2[..i] == lst[..i] && l2[i] == x;
    RemoveFirstSplits(l2, x, i);
    RemoveFirstSplits(lst, x, i);
    assert l2[i + 1..] == lst[i + 1..] + [x];
    calc {
      RemoveFirst(l2, x);
      l2[..i] + l2[i + 1..];
      lst[..i] + (lst[i + 1..] + [x]);
      (lst[..i] + lst[i + 1..]) + [x];
      RemoveFirst(lst, x) + [x];
    }
  }

  /** A list holding x has a first occurrence of x. */
  lemma {:induction false} FirstOccurrence(lst: seq<string>, x: string)
    requires x in lst
    ensures exists i :: 0 <= i < |lst| && lst[i] == x && x !in lst[..i]
  {
    if lst[0] == x {
      assert lst[0] == x && x !in lst[..0];
    } else {
      FirstOccurrence(lst[1..], x);
      var i :| 0 <= i < |lst[1..]| && lst[1..][i] == x && x !in lst[1..][..i];
      assert lst[..i + 1] == [lst[0]] + lst[1..][..i];
      assert lst[i + 1] == x && x !in lst[..i + 1];
    }
  }

  /** List.containsAll */
  function ContainsAll(held: seq<string>, required: seq<string>): (b: bool)
    ensures b <==> forall l :: l in required ==> l in held
  {
    if required == [] then true
    else required[0] in held && ContainsAll(held, required[1..])
  }

  // ---------------------------------------------------------------------
  // Lock annotations of a method
  // ---------------------------------------------------------------------

  /** The lock annotations on a method declaration: @Holding's values and @GuardedBy's value. */
  datatype LockAnnotations = LockAnnotations(holding: Option<seq<string>>, guardedBy: Option<string>)

  /** methodHolding: the @Holding values followed by the @GuardedBy value. */
  function MethodHolding(a: LockAnnotations): (locks: seq<string>)
    ensures a.holding.None? && a.guardedBy.None? ==> locks == []
    ensures a.holding.Some? ==> |a.holding.value| <= |locks| && locks[..|a.holding.value|] == a.holding.value
    ensures a.guardedBy.Some? ==> locks != [] && locks[|locks| - 1] == a.guardedBy.value
    ensures forall l :: l in locks <==> (a.holding.Some? && l in a.holding.value) || a.guardedBy == Some(l)
  {
    (if a.holding.Some? then a.holding.value else [])
    + (if a.guardedBy.Some? then [a.guardedBy.value] else [])
  }

  /** An invocation is unguarded when its callee needs locks and not all of them are held. */
  predicate Unguarded(held: seq<string>, required: seq<string>)
  {
    required != [] && !ContainsAll(held, required)
  }

  /** checkOverride: the overridden method must require every lock the overrider requires. */
  function OverrideValid(overrider: LockAnnotations, overridden: LockAnnotations): (valid: bool)
    ensures valid <==> forall l :: l in MethodHolding(overrider) ==> l in MethodHolding(overridden)
  {
    ContainsAll(MethodHolding(overridden), MethodHolding(overrider))
  }

  /** An overrider needing no locks is valid, and so is one that keeps its parent's annotations. */
  lemma OverrideValidCases(overrider: LockAnnotations, overridden: LockAnnotations)
    ensures overrider.holding.None? && overrider.guardedBy.None? ==> OverrideValid(overrider, overridden)
    ensures OverrideValid(overridden, overridden)
    ensures overridden.holding.None? && overridden.guardedBy.None? ==>
              (OverrideValid(overrider, overridden) <==> MethodHolding(overrider) == [])
  {
    if MethodHolding(overrider) != [] {
      assert MethodHolding(overrider)[0] in MethodHolding(overrider);
    }
  }

  /** Validity of overriding passes down a chain of overrides. */
  lemma OverrideTransitive(a: LockAnnotations, b: LockAnnotations, c: LockAnnotations)
    requires OverrideValid(a, b) && OverrideValid(b, c)
    ensures OverrideValid(a, c)
  {
  }

  // ---------------------------------------------------------------------
  // The visited code
  // ---------------------------------------------------------------------

  /** The method select of an invocation: a bare name, or a member select on a receiver expression. */
  datatype Selector = Identifier | MemberSelect(expression: string)

  /** receiver: the implicit "this" for a bare name, the receiver expression's text otherwise. */
  function Receiver(sel: Selector): (r: string)
    ensures sel.Identifier? ==> r == "this"
  {
    match sel
    case Identifier => "this"
    case MemberSelect(e) => e
  }

  /**
   * The statements and expressions the visitor reacts to; every other
   * construct is a Block of the parts it scans.
   */
  datatype Stmt =
    | Synchronized(lock: string, body: seq<Stmt>)
    | Invocation(name: string, select: Selector, callee: LockAnnotations, args: seq<Stmt>)
    | Block(body: seq<Stmt>)

  function Parts(s: Stmt): seq<Stmt>
  {
    if s.Invocation? then s.args else s.body
  }

  function Size(s: Stmt): (n: nat)
    ensures n >= 1
  {
    1 + SizeAll(Parts(s))
  }

  function SizeAll(ss: seq<Stmt>): nat
  {
    if ss == [] then 0 else SizeAll(ss[..|ss| - 1]) + Size(ss[|ss| - 1])
  }

  lemma {:induction false} SizeOfElement(ss: seq<Stmt>, i: nat)
    requires i < |ss|
    ensures Size(ss[i]) <= SizeAll(ss)
    decreases |ss|
  {
    if i < |ss| - 1 {
      SizeOfElement(ss[..|ss| - 1], i);
    }
  }

  datatype Report = Report(key: string, locks: seq<string>)

  /** The held locks and the reports issued so far. */
  datatype VisitState = VisitState(held: seq<string>, reports: seq<Report>)

  /** What an invocation does before its parts are scanned: lock/unlock, then the guard check. */
  function InvocationStep(st: VisitState, name: string, select: Selector, callee: LockAnnotations): (r: VisitState)
    ensures name == "lock" ==> r.held == st.held + [Receiver(select)]
    ensures name == "unlock" ==> r.held == RemoveFirst(st.held, Receiver(select))
    ensures name != "lock" && name != "unlock" ==> r.held == st.held
    ensures |r.reports| == |st.reports| + (if Unguarded(r.held, MethodHolding(callee)) then 1 else 0)
    ensures r.reports[..|st.reports|] == st.reports
    ensures Unguarded(r.held, MethodHolding(callee)) ==>
              r.reports[|st.reports|] == Report("unguarded.invocation", MethodHolding(callee))
  {
    var lock := Receiver(select);
    var held :=
      if name == "lock" then Append(st.held, Some(lock))
      else if name == "unlock" then RemoveFirst(st.held, lock)
      else st.held;
    var required := MethodHolding(callee);
    if Unguarded(held, required) then VisitState(held, st.reports + [Report("unguarded.invocation", required)])
    else VisitState(held, st.reports)
  }

  /**
   * Visiting one statement: reports are only ever added, and a
   * synchronized block hands back the locks it found.
   */
  function Visit(s: Stmt, st: VisitState): (r: VisitState)
    ensures |st.reports| <= |r.reports| && r.reports[..|st.reports|] == st.reports
    ensures s.Synchronized? ==> r.held == st.held
    decreases Size(s), 0
  {
    match s
    case Synchronized(lock, body) =>
      var inner := VisitAll(body, st.(held := Append(st.held, Some(lock))));
      inner.(held := st.held)
    case Invocation(name, select, callee, args) =>
      var st1 := InvocationStep(st, name, select, callee);
      var r := VisitAll(args, st1);
      assert r.reports[..|st1.reports|][..|st.reports|] == r.reports[..|st.reports|];
      r
    case Block(body) => VisitAll(body, st)
  }

  /** Visiting statements in order: reports are only ever added. */
  function VisitAll(ss: seq<Stmt>, st: VisitState): (r: VisitState)
    ensures |st.reports| <= |r.reports| && r.reports[..|st.reports|] == st.reports
    decreases SizeAll(ss), 1
  {
    if ss == [] then st
    else
      var st1 := VisitAll(ss[..|ss| - 1], st);
      var r := Visit(ss[|ss| - 1], st1);
      assert r.reports[..|st1.reports|][..|st.reports|] == r.reports[..|st.reports|];
      r
  }

  lemma VisitAllSingle(s: Stmt, st: VisitState)
    ensures VisitAll([s], st) == Visit(s, st)
  {
    assert [s][..0] == [];
  }

  /** Inside synchronized(x), a call to a method that needs only x is not reported. */
  lemma {:induction false} GuardedCallInsideSynchronized(x: string, name: string, callee: LockAnnotations, st: VisitState)
    requires name != "lock" && name != "unlock"
    requires MethodHolding(callee) == [x]
    ensures Visit(Synchronized(x, [Invocation(name, Identifier, callee, [])]), st).reports == st.reports
  {
    var call := Invocation(name, Identifier, callee, []);
    var inner := st.(held := st.held + [x]);
    VisitAllSingle(call, inner);
    assert x in inner.held;
    assert !Unguarded(inner.held, [x]);
    assert Visit(call, inner) == InvocationStep(inner, name, Identifier, callee);
  }

  /** A call to a method needing a lock that is not held is reported, with the locks it needs. */
  lemma UnheldLockIsReported(name: string, select: Selector, callee: LockAnnotations, st: VisitState)
    requires name != "lock" && name != "unlock"
    requires MethodHolding(callee) != [] && MethodHolding(callee)[0] !in st.held
    ensures Visit(Invocation(name, select, callee, []), st).reports
              == st.reports + [Report("unguarded.invocation", MethodHolding(callee))]
  {
    assert !ContainsAll(st.held, MethodHolding(callee));
  }

  /** lock() on a receiver not yet held, followed by unlock() on it, leaves the held locks as they were. */
  lemma {:induction false} LockThenUnlock(select: Selector, a1: LockAnnotations, a2: LockAnnotations, st: VisitState)
    requires Receiver(select) !in st.held
    ensures VisitAll([Invocation("lock", select, a1, []), Invocation("unlock", select, a2, [])], st).held == st.held
  {
    var ss := [Invocation("lock", select, a1, []), Invocation("unlock", select, a2, [])];
    var st1 := InvocationStep(st, "lock", select, a1);
    assert Visit(ss[0], st) == st1;
    assert ss[..1] == [ss[0]];
    VisitAllSingle(ss[0], st);
    var st2 := InvocationStep(st1, "unlock", select, a2);
    assert Visit(ss[1], st1) == st2;
    assert VisitAll(ss, st) == Visit(ss[1], VisitAll(ss[..1], st));
    AppendThenRemove(st.held, Receiver(select));
  }

  // ---------------------------------------------------------------------
  // Method declarations
  // ---------------------------------------------------------------------

  datatype MethodDecl = MethodDecl(
    enclosingClass: string,
    isSynchronized: bool,
    isConstructor: bool,
    isStatic: bool,
    annotations: LockAnnotations,
    body: seq<Stmt>)

  /** The implicit lock of a synchronized method or a constructor: the class object when static, this otherwise. */
  function ImplicitLock(m: MethodDecl): (r: Option<string>)
    ensures r.Some? <==> m.isSynchronized || m.isConstructor
    ensures r.Some? && m.isStatic ==> r.value == m.enclosingClass + ".class"
    ensures r.Some? && !m.isStatic ==> r.value == "this"
  {
    if m.isSynchronized || m.isConstructor then
      Some(if m.isStatic then m.enclosingClass + ".class" else "this")
    else None
  }

  /** The locks held inside a method: the outer ones, its implicit lock, then its @Holding and @GuardedBy locks. */
  function EntryLocks(prev: seq<string>, m: MethodDecl): (locks: seq<string>)
    ensures locks == Append(prev, ImplicitLock(m)) + MethodHolding(m.annotations)
  {
    var locks := Append(prev, ImplicitLock(m));
    var methodLocks := MethodHolding(m.annotations);
    if methodLocks != [] then locks + methodLocks else locks
  }

  /** In a synchronized instance method, every call needing only this is guarded. */
  lemma SynchronizedMethodHoldsThis(prev: seq<string>, m: MethodDecl)
    requires m.isSynchronized && !m.isStatic
    ensures "this" in EntryLocks(prev, m)
  {
    assert EntryLocks(prev, m)[|prev|] == "this";
  }

  /** visitMethod: the body runs with the entry locks, and the outer list is restored afterwards. */
  function VisitMethodDecl(m: MethodDecl, st: VisitState): (r: VisitState)
    ensures r.held == st.held
  {
    var inner := VisitAll(m.body, st.(held := EntryLocks(st.held, m)));
    inner.(held := st.held)
  }

  // ---------------------------------------------------------------------
  // The visitor, updating the factory's held-lock list in place
  // ---------------------------------------------------------------------

  class LockChecker {
    /** The type factory's list of held locks. */
    var heldLocks: seq<string>
    /** The errors reported to the checker. */
    var reports: seq<Report>

    function State(): VisitState
      reads this
    {
      VisitState(heldLocks, reports)
    }

    constructor ()
      ensures heldLocks == [] && reports == []
    {
      heldLocks := [];
      reports := [];
    }

    method VisitSynchronized(lock: string, body: seq<Stmt>)
      modifies this
      ensures State() == Visit(Synchronized(lock, body), old(State()))
      ensures heldLocks == old(heldLocks)
      decreases SizeAll(body) + 1, 0
    {
      var prevLocks := heldLocks;
      var locks := Append(prevLocks, Some(lock));
      heldLocks := locks;
      VisitStmts(body);
      heldLocks := prevLocks;
    }

    method VisitMethodInvocation(name: string, select: Selector, callee: LockAnnotations, args: seq<Stmt>)
      modifies this
      ensures State() == Visit(Invocation(name, select, callee, args), old(State()))
      decreases SizeAll(args) + 1, 0
    {
      ghost var step := InvocationStep(old(State()), name, select, callee);
      var lock := Receiver(select);
      if name == "lock" {
        heldLocks := Append(heldLocks, Some(lock));
      } else if name == "unlock" {
        heldLocks := RemoveFirst(heldLocks, lock);
      }
      assert heldLocks == step.held;
      var methodLocks := MethodHolding(callee);
      if methodLocks != [] && !ContainsAll(heldLocks, methodLocks) {
        reports := reports + [Report("unguarded.invocation", methodLocks)];
      }
      assert State() == step;
      VisitStmts(args);
    }

    method VisitStmt(s: Stmt)
      modifies this
      ensures State() == Visit(s, old(State()))
      decreases Size(s), 1
    {
      match s {
        case Synchronized(lock, body) => VisitSynchronized(lock, body);
        case Invocation(name, select, callee, args) => VisitMethodInvocation(name, select, callee, args);
        case Block(body) => VisitStmts(body);
      }
    }

    method VisitStmts(ss: seq<Stmt>)
      modifies this
      ensures State() == VisitAll(ss, old(State()))
      decreases SizeAll(ss), 2
    {
      for i := 0 to |ss|
        invariant State() == VisitAll(ss[..i], old(State()))
      {
        SizeOfElement(ss, i);
        VisitStmt(ss[i]);
        assert ss[..i + 1][..i] == ss[..i];
      }
      assert ss[..|ss|] == ss;
    }

    method VisitMethod(m: MethodDecl)
      modifies this
      ensures State() == VisitMethodDecl(m, old(State()))
      ensures heldLocks == old(heldLocks)
    {
      var prevLocks := heldLocks;
      var locks := prevLocks;
      var implicit := ImplicitLock(m);
      locks := Append(locks, implicit);
      var methodLocks := MethodHolding(m.annotations);
      if methodLocks != [] {
        locks := locks + methodLocks;
      }
      heldLocks := locks;
      VisitStmts(m.body);
      heldLocks := prevLocks;
    }
  }
}
