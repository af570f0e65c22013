/**
 * The purity checker: a scan over a method body that collects, for the
 * purity kinds the method claims (side-effect-free, deterministic), the
 * reasons why it is not pure. One mutable result object is threaded
 * through the whole scan and its three reason lists grow in place.
 */
module PurityChecker {
  import opened Wrappers
  import opened JavaStrings

  datatype Kind = SideEffectFree | Deterministic

  /** The purity annotation of a called method, if it has one. */
  datatype Annotation = Unannotated | Purity(deterministic: bool, sideEffectFree: bool)

  /** The left-hand side of an assignment. */
  datatype Target = FieldTarget(field: string) | ArrayTarget(array: string) | LocalTarget

  /**
   * The parts of a method body the scan distinguishes. Every node lists
   * the sub-trees it scans, in the order it scans them; constructs that
   * record nothing themselves (blocks, loops, conditionals, operators,
   * identifiers, literals, ...) are Other.
   */
  datatype Tree =
    | MethodInvocation(callee: Annotation, children: seq<Tree>)
    | NewClass(constructorSideEffectFree: bool, children: seq<Tree>)
    | Catch(children: seq<Tree>)
    | Assignment(target: Target, children: seq<Tree>)
    | ClassDecl(children: seq<Tree>)
    | Other(children: seq<Tree>)

  function Size(t: Tree): (n: nat)
    ensures n >= 1
  {
    1 + SizeAll(t.children)
  }

  function SizeAll(ts: seq<Tree>): nat
  {
    if ts == [] then 0 else SizeAll(ts[..|ts| - 1]) + Size(ts[|ts| - 1])
  }

  /** Every element of a list is no larger than the list. */
  lemma {:induction false} SizeOfElement(ts: seq<Tree>, i: nat)
    requires i < |ts|
    ensures Size(ts[i]) <= SizeAll(ts)
    decreases |ts|
  {
    if i < |ts| - 1 {
      SizeOfElement(ts[..|ts| - 1], i);
    }
  }

  // ---------------------------------------------------------------------
  // The three reason lists
  // ---------------------------------------------------------------------

  datatype Reasons = Reasons(notSeFree: seq<string>, notDet: seq<string>, notBoth: seq<string>)

  const NoReasons := Reasons([], [], [])

  predicate Pure(r: Reasons)
  {
    r.notSeFree == [] && r.notDet == [] && r.notBoth == []
  }

  /** r2 is r1 with (possibly no) reasons appended to each list. */
  predicate Extends(r1: Reasons, r2: Reasons)
  {
    |r1.notSeFree| <= |r2.notSeFree| && r2.notSeFree[..|r1.notSeFree|] == r1.notSeFree
    && |r1.notDet| <= |r2.notDet| && r2.notDet[..|r1.notDet|] == r1.notDet
    && |r1.notBoth| <= |r2.notBoth| && r2.notBoth[..|r1.notBoth|] == r1.notBoth
  }

  /** addNotSeFreeReason: recorded only when side-effect freedom is claimed. */
  function AddNotSeFree(r: Reasons, kinds: seq<Kind>, reason: string): (r2: Reasons)
    ensures r2.notDet == r.notDet && r2.notBoth == r.notBoth
    ensures r2.notSeFree == if SideEffectFree in kinds then r.notSeFree + [reason] else r.notSeFree
  {
    if SideEffectFree in kinds then r.(notSeFree := r.notSeFree + [reason]) else r
  }

  /** addNotDetReason: recorded only when determinism is claimed. */
  function AddNotDet(r: Reasons, kinds: seq<Kind>, reason: string): (r2: Reasons)
    ensures r2.notSeFree == r.notSeFree && r2.notBoth == r.notBoth
    ensures r2.notDet == if Deterministic in kinds then r.notDet + [reason] else r.notDet
  {
    if Deterministic in kinds then r.(notDet := r.notDet + [reason]) else r
  }

  /**
   * addNotBothReason: the "both" list when both kinds are claimed,
   * otherwise each single-kind list whose kind is claimed.
   */
  function AddNotBoth(r: Reasons, kinds: seq<Kind>, reason: string): (r2: Reasons)
    ensures Deterministic in kinds && SideEffectFree in kinds ==>
              r2 == r.(notBoth := r.notBoth + [reason])
    ensures !(Deterministic in kinds && SideEffectFree in kinds) ==>
              r2 == AddNotDet(AddNotSeFree(r, kinds, reason), kinds, reason)
  {
    if Deterministic in kinds && SideEffectFree in kinds then r.(notBoth := r.notBoth + [reason])
    else AddNotDet(AddNotSeFree(r, kinds, reason), kinds, reason)
  }

  /** A not-both reason is recorded in exactly one list when any kind is claimed, and nowhere otherwise. */
  lemma AddNotBothRecordsOnce(r: Reasons, kinds: seq<Kind>, reason: string)
    ensures var r2 := AddNotBoth(r, kinds, reason);
      |r2.notSeFree| + |r2.notDet| + |r2.notBoth|
        == |r.notSeFree| + |r.notDet| + |r.notBoth| + (if kinds == [] then 0 else 1)
  {
    if kinds != [] {
      if kinds[0] == SideEffectFree {
        assert SideEffectFree in kinds;
      } else {
        assert Deterministic in kinds;
      }
    }
  }

  // ---------------------------------------------------------------------
  // What each node records
  // ---------------------------------------------------------------------

  /** Which adder a node calls. */
  datatype Blame = NotSeFree | NotDet | NotBoth

  datatype Site = Site(blame: Blame, reason: string)

  /** visitMethodInvocation: the callee's annotation decides the adder. */
  function CallSite(a: Annotation): (s: Option<Site>)
    ensures s.Some? ==> s.value.reason == "non-pure method call"
  {
    if a.Unannotated? then Some(Site(NotBoth, "non-pure method call"))
    else if !a.deterministic && !a.sideEffectFree then Some(Site(NotBoth, "non-pure method call"))
    else if !a.deterministic then Some(Site(NotDet, "non-pure method call"))
    else if !a.sideEffectFree then Some(Site(NotSeFree, "non-pure method call"))
    else None
  }

  /** The reason a node records before its sub-trees are scanned, if any. */
  function SiteOf(t: Tree): Option<Site>
  {
    match t
    case MethodInvocation(a, _) => CallSite(a)
    case NewClass(seFree, _) =>
      if seFree then Some(Site(NotDet, "object creation"))
      else Some(Site(NotBoth, "object creation with non-pure constructor"))
    case Catch(_) => Some(Site(NotDet, "catch statement"))
    case Assignment(target, _) =>
      (match target
       case FieldTarget(f) => Some(Site(NotBoth, "assignment to field '" + f + "'"))
       case ArrayTarget(x) => Some(Site(NotBoth, "assignment to array '" + x + "'"))
       case LocalTarget => None)
    case ClassDecl(_) => None
    case Other(_) => None
  }

  function Record(r: Reasons, kinds: seq<Kind>, site: Option<Site>): Reasons
  {
    match site
    case None => r
    case Some(Site(blame, reason)) =>
      (match blame
       case NotSeFree => AddNotSeFree(r, kinds, reason)
       case NotDet => AddNotDet(r, kinds, reason)
       case NotBoth => AddNotBoth(r, kinds, reason))
  }

  /** Does the adder a site calls charge the kind k? */
  predicate Charges(site: Option<Site>, k: Kind)
  {
    site.Some? &&
    match site.value.blame
    case NotSeFree => k == SideEffectFree
    case NotDet => k == Deterministic
    case NotBoth => true
  }

  /** Recording keeps what was there and leaves the result pure exactly when no claimed kind is charged. */
  lemma RecordPure(r: Reasons, kinds: seq<Kind>, site: Option<Site>)
    ensures Extends(r, Record(r, kinds, site))
    ensures Pure(Record(r, kinds, site)) <==> Pure(r) && forall k :: k in kinds ==> !Charges(site, k)
  {
    if site.Some? && kinds != [] {
      if kinds[0] == SideEffectFree {
        assert SideEffectFree in kinds;
      } else {
        assert Deterministic in kinds;
      }
    }
  }

  /** A callee with an annotation providing the kind. */
  predicate Provides(a: Annotation, k: Kind)
  {
    a.Purity? && (if k == Deterministic then a.deterministic else a.sideEffectFree)
  }

  /** A call is charged exactly with the kinds its callee does not provide. */
  lemma CallChargesMissingKinds(a: Annotation, k: Kind)
    ensures Charges(CallSite(a), k) <==> !Provides(a, k)
  {
  }

  /** An object creation always costs determinism, and side-effect freedom unless the constructor has it. */
  lemma NewClassCharges(seFree: bool, children: seq<Tree>, k: Kind)
    ensures Charges(SiteOf(NewClass(seFree, children)), k) <==> k == Deterministic || !seFree
  {
  }

  /** A catch clause costs determinism and nothing else. */
  lemma CatchCharges(children: seq<Tree>, k: Kind)
    ensures Charges(SiteOf(Catch(children)), k) <==> k == Deterministic
  {
  }

  /** Assigning to a field or an array element costs both kinds; assigning to a local costs nothing. */
  lemma AssignmentCharges(target: Target, children: seq<Tree>, k: Kind)
    ensures Charges(SiteOf(Assignment(target, children)), k) <==> !target.LocalTarget?
    ensures target.FieldTarget? ==>
              SiteOf(Assignment(target, children)).value.reason == "assignment to field '" + target.field + "'"
  {
  }

  // ---------------------------------------------------------------------
  // The scan, as functions
  // ---------------------------------------------------------------------

  /**
   * Scanning one node: its own reason, then its sub-trees in order; class
   * bodies are not entered.  Reasons are only ever appended.
   */
  function ScanTree(t: Tree, kinds: seq<Kind>, r: Reasons): (res: Reasons)
    ensures Extends(r, res)
    decreases Size(t), 0
  {
    if t.ClassDecl? then r
    else
      var r1 := Record(r, kinds, SiteOf(t));
      RecordPure(r, kinds, SiteOf(t));
      var res := ScanList(t.children, kinds, r1);
      ExtendsTransitive(r, r1, res);
      res
  }

  /** Scanning a list: the result threaded through the elements from first to last. */
  function ScanList(ts: seq<Tree>, kinds: seq<Kind>, r: Reasons): (res: Reasons)
    ensures Extends(r, res)
    decreases SizeAll(ts), 1
  {
    if ts == [] then r
    else
      var r1 := ScanList(ts[..|ts| - 1], kinds, r);
      var res := ScanTree(ts[|ts| - 1], kinds, r1);
      ExtendsTransitive(r, r1, res);
      res
  }

  /** Some node of t, outside nested class bodies, charges the kind k. */
  predicate Violates(t: Tree, k: Kind)
    decreases Size(t), 0
  {
    !t.ClassDecl? && (Charges(SiteOf(t), k) || ViolatesAny(t.children, k))
  }

  predicate ViolatesAny(ts: seq<Tree>, k: Kind)
    decreases SizeAll(ts), 1
  {
    ts != [] && (ViolatesAny(ts[..|ts| - 1], k) || Violates(ts[|ts| - 1], k))
  }

  /** The result after a scan is pure exactly when it was before and no claimed kind is violated. */
  lemma {:induction false} ScanTreePure(t: Tree, kinds: seq<Kind>, r: Reasons)
    ensures Pure(ScanTree(t, kinds, r)) <==> Pure(r) && forall k :: k in kinds ==> !Violates(t, k)
    decreases Size(t), 0
  {
    if !t.ClassDecl? {
      var r1 := Record(r, kinds, SiteOf(t));
      RecordPure(r, kinds, SiteOf(t));
      ScanListPure(t.children, kinds, r1);
    }
  }

  lemma {:induction false} ScanListPure(ts: seq<Tree>, kinds: seq<Kind>, r: Reasons)
    ensures Pure(ScanList(ts, kinds, r)) <==> Pure(r) && forall k :: k in kinds ==> !ViolatesAny(ts, k)
    decreases SizeAll(ts), 1
  {
    if ts != [] {
      var init, last := ts[..|ts| - 1], ts[|ts| - 1];
      var r1 := ScanList(init, kinds, r);
      ScanListPure(init, kinds, r);
      ScanTreePure(last, kinds, r1);
    }
  }

  lemma ExtendsTransitive(r1: Reasons, r2: Reasons, r3: Reasons)
    requires Extends(r1, r2) && Extends(r2, r3)
    ensures Extends(r1, r3)
  {
    assert r3.notSeFree[..|r1.notSeFree|] == r3.notSeFree[..|r2.notSeFree|][..|r1.notSeFree|];
    assert r3.notDet[..|r1.notDet|] == r3.notDet[..|r2.notDet|][..|r1.notDet|];
    assert r3.notBoth[..|r1.notBoth|] == r3.notBoth[..|r2.notBoth|][..|r1.notBoth|];
  }

  /** A method that claims no kind is always pure. */
  lemma {:induction false} NoClaimIsPure(t: Tree)
    ensures Pure(ScanTree(t, [], NoReasons))
  {
    ScanTreePure(t, [], NoReasons);
  }

  /** An assignment to a field anywhere in the body makes a method claiming a kind impure. */
  lemma {:induction false} FieldAssignmentIsImpure(f: string, children: seq<Tree>, kinds: seq<Kind>, r: Reasons)
    requires kinds != []
    ensures !Pure(ScanTree(Assignment(FieldTarget(f), children), kinds, r))
  {
    assert kinds[0] in kinds;
    assert Violates(Assignment(FieldTarget(f), children), kinds[0]);
    ScanTreePure(Assignment(FieldTarget(f), children), kinds, r);
  }

  /** Nothing inside a nested class body is charged to the method. */
  lemma ClassBodyIgnored(members: seq<Tree>, kinds: seq<Kind>, r: Reasons)
    ensures ScanTree(ClassDecl(members), kinds, r) == r
  {
  }

  // ---------------------------------------------------------------------
  // The mutable result and the scan that threads it
  // ---------------------------------------------------------------------

  /** The result of the purity check: three lists of reasons, grown in place. */
  class PurityResult {
    var notSeFreeReasons: seq<string>
    var notDetReasons: seq<string>
    var notBothReasons: seq<string>
    /** The purity kinds the method claims. */
    const kinds: seq<Kind>

    function State(): Reasons
      reads this
    {
      Reasons(notSeFreeReasons, notDetReasons, notBothReasons)
    }

    constructor (kinds: seq<Kind>)
      ensures this.kinds == kinds && State() == NoReasons
    {
      notSeFreeReasons := [];
      notDetReasons := [];
      notBothReasons := [];
      this.kinds := kinds;
    }

    /** isPure: the three lists hold no reason between them. */
    function IsPure(): (b: bool)
      reads this
      ensures b <==> Pure(State())
    {
      |notSeFreeReasons| + |notDetReasons| + |notBothReasons| == 0
    }

    method AddNotSeFreeReason(reason: string)
      modifies this
      ensures State() == AddNotSeFree(old(State()), kinds, reason)
    {
      if SideEffectFree in kinds {
        notSeFreeReasons := notSeFreeReasons + [reason];
      }
    }

    method AddNotDetReason(reason: string)
      modifies this
      ensures State() == AddNotDet(old(State()), kinds, reason)
    {
      if Deterministic in kinds {
        notDetReasons := notDetReasons + [reason];
      }
    }

    method AddNotBothReason(reason: string)
      modifies this
      ensures State() == AddNotBoth(old(State()), kinds, reason)
    {
      if Deterministic in kinds && SideEffectFree in kinds {
        notBothReasons := notBothReasons + [reason];
      } else {
        AddNotSeFreeReason(reason);
        AddNotDetReason(reason);
      }
    }
  }

  /** The adder a node's visit calls. */
  method RecordSite(t: Tree, p: PurityResult)
    modifies p
    ensures p.State() == Record(old(p.State()), p.kinds, SiteOf(t))
  {
    var site := SiteOf(t);
    if site.Some? {
      match site.value.blame {
        case NotSeFree => p.AddNotSeFreeReason(site.value.reason);
        case NotDet => p.AddNotDetReason(site.value.reason);
        case NotBoth => p.AddNotBothReason(site.value.reason);
      }
    }
  }

  /** scan(Tree, PurityResult) on a node that is present. */
  method ScanNode(t: Tree, p: PurityResult) returns (r: PurityResult)
    modifies p
    ensures r == p && p.State() == ScanTree(t, p.kinds, old(p.State()))
    decreases Size(t), 0
  {
    if t.ClassDecl? {
      return p;
    }
    RecordSite(t, p);
    r := ScanNodes(t.children, p);
  }

  /** scan(Iterable, PurityResult): the one result object passed from element to element. */
  method ScanNodes(ts: seq<Tree>, p: PurityResult) returns (r: PurityResult)
    modifies p
    ensures r == p && p.State() == ScanList(ts, p.kinds, old(p.State()))
    decreases SizeAll(ts), 1
  {
    r := p;
    for i := 0 to |ts|
      invariant r == p
      invariant p.State() == ScanList(ts[..i], p.kinds, old(p.State()))
    {
      SizeOfElement(ts, i);
      r := ScanNode(ts[i], r);
      assert ts[..i + 1][..i] == ts[..i];
    }
    assert ts[..|ts|] == ts;
  }

  /** scan on a tree that may be null (a method without a body): a null tree leaves the result as it was. */
  method ScanOptional(t: Option<Tree>, p: PurityResult) returns (r: PurityResult)
    modifies p
    ensures r == p
    ensures t.None? ==> p.State() == old(p.State())
    ensures t.Some? ==> p.State() == ScanTree(t.value, p.kinds, old(p.State()))
  {
    if t.None? {
      return p;
    }
    r := ScanNode(t.value, p);
  }

  /** checkPurity: scan the body with a fresh result for the claimed kinds. */
  method CheckPurity(body: Option<Tree>, kinds: seq<Kind>) returns (res: PurityResult)
    ensures fresh(res) && res.kinds == kinds
    ensures res.IsPure() <==> body.None? || forall k :: k in kinds ==> !Violates(body.value, k)
  {
    var p := new PurityResult(kinds);
    res := ScanOptional(body, p);
    if body.Some? {
      ScanTreePure(body.value, kinds, NoReasons);
    }
  }

  // ---------------------------------------------------------------------
  // Reporting
  // ---------------------------------------------------------------------

  /** errorList: the reasons in order, separated by ", ". */
  method ErrorList(reasons: seq<string>) returns (s: string)
    ensures s == Join(reasons, ", ")
  {
    s := "";
    var first := true;
    for i := 0 to |reasons|
      invariant first <==> i == 0
      invariant s == Join(reasons[..i], ", ")
    {
      if !first {
        s := s + ", ";
      }
      assert reasons[..i + 1] == reasons[..i] + [reasons[i]];
      if i > 0 {
        JoinSnoc(reasons[..i], reasons[i], ", ");
      }
      s := s + reasons[i];
      first := false;
    }
    assert reasons[..|reasons|] == reasons;
  }

  /** Reasons without commas come back from the error list by splitting at the commas. */
  lemma ErrorListSplitsBack(reasons: seq<string>)
    requires reasons != []
    requires forall i :: 0 <= i < |reasons| ==> ',' !in reasons[i]
    ensures Pieces(Join(reasons, ", "), ',') == [reasons[0]] + PaddedTail(reasons, " ")
  {
    JoinPieces("", reasons, ',', " ");
    assert [','] + " " == ", ";
    assert "" + Join(reasons, ", ") == Join(reasons, ", ");
    assert "" + reasons[0] == reasons[0];
  }

  datatype Report = Report(key: string, reasons: seq<string>)

  /** reportErrors: one message per non-empty list, the "both" list first. */
  function ReportErrors(r: Reasons): (out: seq<Report>)
    requires !Pure(r)
    ensures 1 <= |out| <= 3
    ensures forall i :: 0 <= i < |out| ==> out[i].reasons != []
    ensures r.notBoth != [] <==> Report("pure.not.deterministic.and.sideeffect.free", r.notBoth) in out
    ensures r.notSeFree != [] <==> Report("pure.not.sideeffect.free", r.notSeFree) in out
    ensures r.notDet != [] <==> Report("pure.not.deterministic", r.notDet) in out
    ensures r.notBoth != [] ==> out[0].key == "pure.not.deterministic.and.sideeffect.free"
  {
    (if r.notBoth != [] then [Report("pure.not.deterministic.and.sideeffect.free", r.notBoth)] else [])
    + (if r.notSeFree != [] then [Report("pure.not.sideeffect.free", r.notSeFree)] else [])
    + (if r.notDet != [] then [Report("pure.not.deterministic", r.notDet)] else [])
  }
}
