/**
 * The qualifier lattice of a type system (checkers/util/GraphQualifierHierarchy.java).
 *
 * A Factory records the direct supertypes of each qualifier and freezes
 * after build; the hierarchy built from the frozen graph holds the
 * transitive closure, the inferred root and bottom, and answers
 * subtype, least-upper-bound and greatest-lower-bound queries.
 */
module QualifierHierarchy {
  import opened Wrappers

  /** An annotation: the name of its type and the value of its element, if any. */
  datatype Anno = Anno(name: string, value: Option<string>)

  /** AnnotationUtils.areSameIgnoringValues: the same annotation type. */
  predicate SameIgnoringValues(a: Anno, b: Anno)
  {
    a.name == b.name
  }

  /** qualifier -> its (direct, or all) supertypes */
  type Graph = map<Anno, set<Anno>>

  /** Every supertype that is mentioned is itself a qualifier of the graph. */
  predicate Closed(g: Graph)
  {
    forall a, s :: a in g && s in g[a] ==> s in g
  }

  const AlreadyBuilt := "IllegalStateException: qualifier hierarchy already built"
  const NotOneRoot := "AssertionError: other than one possible root"

  // ---------------------------------------------------------------------
  // The factory's graph updates
  // ---------------------------------------------------------------------

  /** supertypes after addQualifier(q): a new qualifier starts with no supertypes. */
  function WithQualifier(g: Graph, q: Anno): (r: Graph)
    ensures r.Keys == g.Keys + {q}
    ensures forall a :: a in g ==> r[a] == g[a]
    ensures q !in g ==> r[q] == {}
    ensures q in g ==> r == g
  {
    if q in g then g else g[q := {}]
  }

  /** supertypes after addSubtype(sub, sup). */
  function WithSubtype(g: Graph, sub: Anno, sup: Anno): (r: Graph)
    ensures r.Keys == g.Keys + {sub, sup}
    ensures r[sub] == (if sub in g then g[sub] else {}) + {sup}
    ensures forall a :: a in r && a != sub ==> r[a] == (if a in g then g[a] else {})
    ensures Closed(g) ==> Closed(r)
  {
    var g2 := WithQualifier(WithQualifier(g, sub), sup);
    g2[sub := g2[sub] + {sup}]
  }

  /** The polymorphic qualifier after addQualifier(q): a new polymorphic q replaces it. */
  function NoticePoly(isPolymorphic: Anno -> bool, poly: Option<Anno>, g: Graph, q: Anno): Option<Anno>
  {
    if q !in g && isPolymorphic(q) then Some(q) else poly
  }

  /** The qualifiers with no supertypes, other than ignore. */
  function RootCandidates(g: Graph, ignore: Option<Anno>): set<Anno>
  {
    set a | a in g && g[a] == {} && ignore != Some(a)
  }

  /** The qualifiers that are no qualifier's supertype, other than ignore. */
  function Bottoms(g: Graph, ignore: Option<Anno>): set<Anno>
  {
    set a | a in g && ignore != Some(a) && NotAbove(g, a)
  }

  predicate NotAbove(g: Graph, a: Anno)
  {
    forall k :: k in g ==> a !in g[k]
  }

  ghost function TheOne(s: set<Anno>): (x: Anno)
    requires |s| == 1
    ensures s == {x}
  {
    var x :| x in s;
    assert s - {x} == {} by { assert |s - {x}| == 0; }
    x
  }

  /** The graph after the poly qualifier p, if it had no supertypes, is put below the root. */
  ghost function PolyBelowRoot(g: Graph, p: Anno): Result<Graph>
    requires p in g
  {
    if g[p] != {} then Ok(g)
    else
      var rs := RootCandidates(g, Some(p));
      if |rs| == 1 then Ok(WithSubtype(g, p, TheOne(rs))) else Err(NotOneRoot)
  }

  /** The graph after addPolyRelations: the poly qualifier also goes above every bottom. */
  ghost function PolyRelations(g: Graph, poly: Option<Anno>): Result<Graph>
    requires poly.Some? ==> poly.value in g
  {
    if poly.None? then Ok(g)
    else
      var p := poly.value;
      var g1 :- PolyBelowRoot(g, p);
      Ok(AboveAll(g1, Bottoms(g1, poly), p))
  }

  /** The graph with p added to the supertypes of every qualifier in bs. */
  function AboveAll(g: Graph, bs: set<Anno>, p: Anno): Graph
  {
    map a | a in g :: if a in bs then g[a] + {p} else g[a]
  }

  /** Putting p above one more qualifier is one more addSubtype. */
  lemma AboveOneMore(g: Graph, done: set<Anno>, b: Anno, p: Anno)
    requires b in g && p in g
    ensures WithSubtype(AboveAll(g, done, p), b, p) == AboveAll(g, done + {b}, p)
  {
    var l, r := WithSubtype(AboveAll(g, done, p), b, p), AboveAll(g, done + {b}, p);
    assert l.Keys == r.Keys;
    forall a | a in l
      ensures l[a] == r[a]
    {
    }
  }

  /**
   * What addPolyRelations promises: a poly qualifier with no supertypes
   * gets the root as one, and it becomes a supertype of every bottom other
   * than itself; nothing else changes.
   */
  lemma PolyRelationsShape(g: Graph, p: Anno)
    requires p in g && Closed(g)
    requires PolyRelations(g, Some(p)).Ok?
    ensures var r := PolyRelations(g, Some(p)).value;
      var g1 := PolyBelowRoot(g, p).value;
      && r.Keys == g.Keys
      && (g[p] == {} ==> RootCandidates(g, Some(p)) <= r[p])
      && (forall b :: b in Bottoms(g1, Some(p)) ==> p in r[b])
      && (forall a :: a in g ==> g[a] <= r[a])
      && (forall a :: a in g ==> r[a] <= g[a] + {p} + RootCandidates(g, Some(p)))
  {
    var g1 := PolyBelowRoot(g, p).value;
    if g[p] == {} {
      var rs := RootCandidates(g, Some(p));
      var root := TheOne(rs);
      assert root in g;
      assert g1 == WithSubtype(g, p, root);
    }
  }

  // ---------------------------------------------------------------------
  // The factory
  // ---------------------------------------------------------------------

  /** GraphQualifierHierarchy.Factory: may build at most one hierarchy. */
  class Factory {
    var supertypes: Graph
    var polyQualifier: Option<Anno>
    var wasBuilt: bool
    /** Whether a qualifier's declaration carries @PolymorphicQualifier. */
    const isPolymorphic: Anno -> bool

    ghost predicate Valid()
      reads this
    {
      Closed(supertypes) && (polyQualifier.Some? ==> polyQualifier.value in supertypes)
    }

    constructor (isPolymorphic: Anno -> bool)
      ensures Valid()
      ensures supertypes == map[] && polyQualifier == None && !wasBuilt
      ensures this.isPolymorphic == isPolymorphic
    {
      supertypes := map[];
      polyQualifier := None;
      wasBuilt := false;
      this.isPolymorphic := isPolymorphic;
    }

    method AddQualifier(qual: Anno) returns (r: Outcome)
      requires Valid()
      modifies this
      ensures Valid() && wasBuilt == old(wasBuilt)
      ensures old(wasBuilt) ==> (r == Fail(AlreadyBuilt) && supertypes == old(supertypes)
                                 && polyQualifier == old(polyQualifier))
      ensures !old(wasBuilt) ==> (r == Pass && supertypes == WithQualifier(old(supertypes), qual)
                                  && polyQualifier == NoticePoly(isPolymorphic, old(polyQualifier), old(supertypes), qual))
    {
      if wasBuilt {
        return Fail(AlreadyBuilt);
      }
      if qual in supertypes {
        return Pass;
      }
      supertypes := supertypes[qual := {}];
      if isPolymorphic(qual) {
        polyQualifier := Some(qual);
      }
      return Pass;
    }

    method AddSubtype(sub: Anno, sup: Anno) returns (r: Outcome)
      requires Valid()
      modifies this
      ensures Valid() && wasBuilt == old(wasBuilt)
      ensures old(wasBuilt) ==> (r == Fail(AlreadyBuilt) && supertypes == old(supertypes)
                                 && polyQualifier == old(polyQualifier))
      ensures !old(wasBuilt) ==> r == Pass && supertypes == WithSubtype(old(supertypes), sub, sup)
      ensures !old(wasBuilt) ==> polyQualifier == NoticePoly(isPolymorphic,
        NoticePoly(isPolymorphic, old(polyQualifier), old(supertypes), sub),
        WithQualifier(old(supertypes), sub), sup)
    {
      if wasBuilt {
        return Fail(AlreadyBuilt);
      }
      r := AddQualifier(sub);
      r := AddQualifier(sup);
      supertypes := supertypes[sub := supertypes[sub] + {sup}];
    }

    /** Freezes the factory and returns the direct-supertype graph of the hierarchy. */
    method Build() returns (r: Result<Graph>)
      requires Valid()
      modifies this
      ensures Valid() && polyQualifier == old(polyQualifier)
      ensures old(wasBuilt) ==> r == Err(AlreadyBuilt) && supertypes == old(supertypes) && wasBuilt
      ensures !old(wasBuilt) ==> r == PolyRelations(old(supertypes), old(polyQualifier))
      ensures r.Ok? ==> wasBuilt && supertypes == r.value
      ensures !old(wasBuilt) && r.Err? ==> !wasBuilt && supertypes == old(supertypes)
    {
      if wasBuilt {
        return Err(AlreadyBuilt);
      }
      var o := AddPolyRelations();
      if o.Fail? {
        return Err(o.error);
      }
      wasBuilt := true;
      return Ok(supertypes);
    }

    method AddPolyRelations() returns (r: Outcome)
      requires Valid() && !wasBuilt
      modifies this
      ensures Valid() && !wasBuilt && polyQualifier == old(polyQualifier)
      ensures var want := PolyRelations(old(supertypes), polyQualifier);
        && (r.Pass? <==> want.Ok?)
        && (r.Pass? ==> supertypes == want.value)
        && (r.Fail? ==> supertypes == old(supertypes) && r.error == want.error)
    {
      if polyQualifier.None? {
        return Pass;
      }
      var p := polyQualifier.value;
      ghost var g := supertypes;
      if supertypes[p] == {} {
        var root := FindRoot(supertypes, polyQualifier);
        if root.Err? {
          return Fail(root.error);
        }
        assert RootCandidates(g, Some(p)) == {root.value};
        r := AddSubtype(p, root.value);
      }
      assert supertypes == PolyBelowRoot(g, p).value;
      var bottoms := FindBottoms(supertypes, polyQualifier);
      AddAboveBottoms(p, bottoms);
      return Pass;
    }

    /** The loop of addPolyRelations: p becomes a supertype of every bottom. */
    method AddAboveBottoms(p: Anno, bottoms: set<Anno>)
      requires Valid() && !wasBuilt && polyQualifier == Some(p) && bottoms <= supertypes.Keys
      modifies this
      ensures Valid() && !wasBuilt && polyQualifier == Some(p)
      ensures supertypes == AboveAll(old(supertypes), bottoms, p)
    {
      ghost var g1 := supertypes;
      assert AboveAll(g1, {}, p) == g1;
      var todo := bottoms;
      while todo != {}
        invariant todo <= bottoms
        invariant Valid() && !wasBuilt && polyQualifier == Some(p) && supertypes.Keys == g1.Keys
        invariant supertypes == AboveAll(g1, bottoms - todo, p)
        decreases todo
      {
        var bottom :| bottom in todo;
        var r := AddSubtype(bottom, p);
        AboveOneMore(g1, bottoms - todo, bottom, p);
        assert bottoms - (todo - {bottom}) == (bottoms - todo) + {bottom};
        todo := todo - {bottom};
      }
      assert bottoms - todo == bottoms;
    }
  }

  // ---------------------------------------------------------------------
  // Root and bottom inference
  // ---------------------------------------------------------------------

  /** findRoot: the one qualifier without supertypes (the Java assertion enabled). */
  method FindRoot(g: Graph, ignore: Option<Anno>) returns (root: Result<Anno>)
    ensures root.Ok? <==> |RootCandidates(g, ignore)| == 1
    ensures root.Ok? ==> RootCandidates(g, ignore) == {root.value}
    ensures root.Ok? ==> root.value in g && g[root.value] == {} && ignore != Some(root.value)
    ensures root.Err? ==> root.error == NotOneRoot
  {
    var possibleRoots: set<Anno> := {};
    var todo := g.Keys;
    while todo != {}
      invariant todo <= g.Keys
      invariant possibleRoots <= g.Keys
      invariant forall a :: a in possibleRoots <==> a in g && a !in todo && g[a] == {}
      decreases todo
    {
      var anno :| anno in todo;
      if g[anno] == {} {
        possibleRoots := possibleRoots + {anno};
      }
      todo := todo - {anno};
    }
    if ignore.Some? {
      possibleRoots := possibleRoots - {ignore.value};
    }
    assert possibleRoots == RootCandidates(g, ignore);
    if |possibleRoots| != 1 {
      return Err(NotOneRoot);
    }
    var r :| r in possibleRoots;
    assert possibleRoots - {r} == {} by { assert |possibleRoots - {r}| == 0; }
    return Ok(r);
  }

  /** findBottoms: every qualifier, minus every supertype set, minus ignore. */
  method FindBottoms(g: Graph, ignore: Option<Anno>) returns (bottoms: set<Anno>)
    ensures bottoms == Bottoms(g, ignore)
    ensures forall b :: b in bottoms ==> b in g && ignore != Some(b) && forall k :: k in g ==> b !in g[k]
  {
    bottoms := g.Keys;
    var todo := g.Keys;
    while todo != {}
      invariant todo <= g.Keys
      invariant bottoms == set a | a in g && forall k :: k in g && k !in todo ==> a !in g[k]
      decreases todo
    {
      var k :| k in todo;
      bottoms := bottoms - g[k];
      todo := todo - {k};
    }
    if ignore.Some? {
      bottoms := bottoms - {ignore.value};
    }
  }

  /** findBottom: the bottom when there is exactly one, otherwise null. */
  method FindBottom(g: Graph, ignore: Option<Anno>) returns (bottom: Option<Anno>)
    ensures bottom.Some? <==> |Bottoms(g, ignore)| == 1
    ensures bottom.Some? ==> Bottoms(g, ignore) == {bottom.value}
  {
    var bottoms := FindBottoms(g, ignore);
    if |bottoms| == 1 {
      var b :| b in bottoms;
      assert bottoms - {b} == {} by { assert |bottoms - {b}| == 0; }
      return Some(b);
    }
    return None;
  }

  // ---------------------------------------------------------------------
  // The transitive closure (buildFullMap / findAllSupers)
  // ---------------------------------------------------------------------

  /** An acyclic graph: a rank that every direct supertype lowers. */
  ghost predicate Ranked(g: Graph, rank: map<Anno, nat>)
  {
    Closed(g) && g.Keys <= rank.Keys && forall a, s :: a in g && s in g[a] ==> rank[s] < rank[a]
  }

  /** All supertypes of a: the direct ones and, recursively, theirs. */
  ghost function Closure(g: Graph, rank: map<Anno, nat>, a: Anno): set<Anno>
    requires Ranked(g, rank) && a in g
    decreases rank[a]
  {
    g[a] + set s, b | s in g[a] && b in Closure(g, rank, s) :: b
  }

  /** The supertypes of all the qualifiers in s. */
  ghost function Up(g: Graph, rank: map<Anno, nat>, s: set<Anno>): set<Anno>
    requires Ranked(g, rank) && s <= g.Keys
  {
    set x, b | x in s && b in Closure(g, rank, x) :: b
  }

  lemma UpOneMore(g: Graph, rank: map<Anno, nat>, s: set<Anno>, x: Anno)
    requires Ranked(g, rank) && s <= g.Keys && x in g
    ensures Up(g, rank, s + {x}) == Up(g, rank, s) + Closure(g, rank, x)
  {
  }

  ghost function FullMap(g: Graph, rank: map<Anno, nat>): Graph
    requires Ranked(g, rank)
  {
    map a | a in g :: Closure(g, rank, a)
  }

  /** The memo of findAllSupers holds only finished closures. */
  ghost predicate MemoOk(g: Graph, rank: map<Anno, nat>, memo: Graph)
    requires Ranked(g, rank)
  {
    forall k :: k in memo ==> k in g && memo[k] == Closure(g, rank, k)
  }

  /** findAllSupers: the closure of anno, memoised in the map it is given. */
  method FindAllSupers(anno: Anno, g: Graph, memo: Graph, ghost rank: map<Anno, nat>)
    returns (supers: set<Anno>, memoOut: Graph)
    requires Ranked(g, rank) && anno in g && MemoOk(g, rank, memo)
    ensures supers == Closure(g, rank, anno)
    ensures MemoOk(g, rank, memoOut) && memo.Keys <= memoOut.Keys && anno in memoOut
    decreases rank[anno]
  {
    if anno in memo {
      return memo[anno], memo;
    }
    supers := {};
    memoOut := memo;
    var todo := g[anno];
    while todo != {}
      invariant todo <= g[anno]
      invariant MemoOk(g, rank, memoOut) && memo.Keys <= memoOut.Keys
      invariant supers == (g[anno] - todo) + Up(g, rank, g[anno] - todo)
      decreases todo
    {
      var superAnno :| superAnno in todo;
      var more;
      more, memoOut := FindAllSupers(superAnno, g, memoOut, rank);
      UpOneMore(g, rank, g[anno] - todo, superAnno);
      assert g[anno] - (todo - {superAnno}) == (g[anno] - todo) + {superAnno};
      supers := supers + {superAnno} + more;
      todo := todo - {superAnno};
    }
    assert g[anno] - todo == g[anno];
    assert Closure(g, rank, anno) == g[anno] + Up(g, rank, g[anno]);
    memoOut := memoOut[anno := supers];
  }

  /** buildFullMap: the closure of every qualifier. */
  method BuildFullMap(g: Graph, ghost rank: map<Anno, nat>) returns (fullMap: Graph)
    requires Ranked(g, rank)
    ensures fullMap == FullMap(g, rank)
  {
    fullMap := map[];
    var todo := g.Keys;
    while todo != {}
      invariant todo <= g.Keys
      invariant MemoOk(g, rank, fullMap) && g.Keys - todo <= fullMap.Keys
      decreases todo
    {
      var anno :| anno in todo;
      var supers;
      supers, fullMap := FindAllSupers(anno, g, fullMap, rank);
      todo := todo - {anno};
    }
  }

  /** The closure lies inside the graph, and every member has a lower rank. */
  lemma {:induction false} ClosureBelow(g: Graph, rank: map<Anno, nat>, a: Anno)
    requires Ranked(g, rank) && a in g
    ensures forall b :: b in Closure(g, rank, a) ==> b in g && rank[b] < rank[a]
    decreases rank[a]
  {
    forall s | s in g[a] {
      ClosureBelow(g, rank, s);
    }
  }

  /** The closure is transitive. */
  lemma {:induction false} ClosureTransitive(g: Graph, rank: map<Anno, nat>, a: Anno, b: Anno, c: Anno)
    requires Ranked(g, rank) && a in g && b in g
    requires b in Closure(g, rank, a) && c in Closure(g, rank, b)
    ensures c in Closure(g, rank, a)
    decreases rank[a]
  {
    if b !in g[a] {
      var s :| s in g[a] && b in Closure(g, rank, s);
      ClosureTransitive(g, rank, s, b, c);
    }
  }

  /** A qualifier has no supertypes at all exactly when it has no direct ones. */
  lemma ClosureEmpty(g: Graph, rank: map<Anno, nat>, a: Anno)
    requires Ranked(g, rank) && a in g
    ensures Closure(g, rank, a) == {} <==> g[a] == {}
  {
  }

  /** Every qualifier other than the unique root has the root among its supertypes. */
  lemma {:induction false} RootAbove(g: Graph, rank: map<Anno, nat>, root: Anno, a: Anno)
    requires Ranked(g, rank) && a in g && RootCandidates(g, None) == {root}
    ensures a != root ==> root in Closure(g, rank, a)
    decreases rank[a]
  {
    if a != root {
      assert a !in RootCandidates(g, None);
      var s :| s in g[a];
      if s != root {
        RootAbove(g, rank, root, s);
      }
    }
  }

  // ---------------------------------------------------------------------
  // The hierarchy
  // ---------------------------------------------------------------------

  /**
   * An immutable hierarchy: the direct graph, the full supertype map,
   * the root and the bottom (null unless there is exactly one).
   */
  datatype Hierarchy = Hierarchy(graph: Graph, full: Graph, root: Anno, bottom: Option<Anno>)

  predicate Transitive(m: Graph)
  {
    forall a, b, c :: a in m && b in m[a] && b in m && c in m[b] ==> c in m[a]
  }

  predicate Irreflexive(m: Graph)
  {
    forall a :: a in m ==> a !in m[a]
  }

  /** What the constructor establishes about a hierarchy. */
  predicate Valid(h: Hierarchy)
  {
    && h.full.Keys == h.graph.Keys
    && Closed(h.full) && Transitive(h.full) && Irreflexive(h.full)
    && h.root in h.full && h.full[h.root] == {}
    && (forall a :: a in h.full && a != h.root ==> h.root in h.full[a])
  }

  /** No two qualifiers of the hierarchy differ only in their values. */
  predicate DistinctNames(h: Hierarchy)
  {
    forall a, b :: a in h.full && b in h.full && SameIgnoringValues(a, b) ==> a == b
  }

  /** The full map has the graph's qualifiers and roots, and is closed, transitive and irreflexive. */
  lemma FullMapShape(graph: Graph, rank: map<Anno, nat>)
    requires Ranked(graph, rank)
    ensures FullMap(graph, rank).Keys == graph.Keys
    ensures RootCandidates(FullMap(graph, rank), None) == RootCandidates(graph, None)
    ensures Closed(FullMap(graph, rank)) && Transitive(FullMap(graph, rank)) && Irreflexive(FullMap(graph, rank))
  {
    var full := FullMap(graph, rank);
    forall a | a in graph
      ensures Closure(graph, rank, a) == {} <==> graph[a] == {}
      ensures forall b :: b in Closure(graph, rank, a) ==> b in graph && rank[b] < rank[a]
    {
      ClosureEmpty(graph, rank, a);
      ClosureBelow(graph, rank, a);
    }
    assert RootCandidates(full, None) == RootCandidates(graph, None);
    forall a, b, c | a in full && b in full[a] && b in full && c in full[b]
      ensures c in full[a]
    {
      ClosureTransitive(graph, rank, a, b, c);
    }
  }

  /** The unique root of the graph lies above every other qualifier in the full map. */
  lemma FullMapRooted(graph: Graph, rank: map<Anno, nat>, root: Anno)
    requires Ranked(graph, rank) && RootCandidates(graph, None) == {root}
    ensures root in FullMap(graph, rank) && FullMap(graph, rank)[root] == {}
    ensures forall a :: a in FullMap(graph, rank) && a != root ==> root in FullMap(graph, rank)[a]
  {
    var full := FullMap(graph, rank);
    assert root in RootCandidates(graph, None);
    ClosureEmpty(graph, rank, root);
    forall a | a in full && a != root
      ensures root in full[a]
    {
      RootAbove(graph, rank, root, a);
    }
  }

  /**
   * new GraphQualifierHierarchy(factory): the full map, then the root and
   * bottom inferred from it.  The supertype graph must be acyclic (rank);
   * on a cycle findAllSupers recurses without end.
   */
  method NewHierarchy(graph: Graph, ghost rank: map<Anno, nat>) returns (r: Result<Hierarchy>)
    requires Ranked(graph, rank)
    ensures r.Ok? <==> |RootCandidates(graph, None)| == 1
    ensures r.Err? ==> r.error == NotOneRoot
    ensures r.Ok? ==> Valid(r.value) && r.value.graph == graph && r.value.full == FullMap(graph, rank)
    ensures r.Ok? ==> RootCandidates(graph, None) == {r.value.root}
    ensures r.Ok? ==> (r.value.bottom.Some? <==> |Bottoms(r.value.full, None)| == 1)
    ensures r.Ok? && r.value.bottom.Some? ==> Bottoms(r.value.full, None) == {r.value.bottom.value}
  {
    var full := BuildFullMap(graph, rank);
    FullMapShape(graph, rank);
    var root := FindRoot(full, None);
    if root.Err? {
      return Err(root.error);
    }
    FullMapRooted(graph, rank, root.value);
    var bottom := FindBottom(full, None);
    var h := Hierarchy(graph, full, root.value, bottom);
    return Ok(h);
  }

  const Unrecognized := "IllegalArgumentException: unrecognized qualifier"

  /**
   * isSubtype: everything is below the root; two annotations of the same
   * type are related only when equal; otherwise membership in the full
   * supertype set, and a qualifier outside the graph is an error.
   */
  function IsSubtype(h: Hierarchy, anno1: Anno, anno2: Anno): (r: Result<bool>)
    ensures anno2 == h.root ==> r == Ok(true)
    ensures anno1 == anno2 ==> r == Ok(true)
    ensures r.Err? <==> (anno2 != h.root && !SameIgnoringValues(anno1, anno2)
                         && (anno1 !in h.full || anno2 !in h.full))
  {
    if anno2 == h.root then Ok(true)
    else if SameIgnoringValues(anno1, anno2) then Ok(anno1 == anno2)
    else if anno1 !in h.full || anno2 !in h.full then Err(Unrecognized)
    else Ok(anno2 in h.full[anno1])
  }

  predicate Sub(h: Hierarchy, a: Anno, b: Anno)
  {
    IsSubtype(h, a, b) == Ok(true)
  }

  /** On a valid hierarchy with distinct names, subtyping is a partial order. */
  lemma SubtypeTransitive(h: Hierarchy, a: Anno, b: Anno, c: Anno)
    requires Valid(h) && DistinctNames(h) && a in h.full && b in h.full && c in h.full
    requires Sub(h, a, b) && Sub(h, b, c)
    ensures Sub(h, a, c)
  {
  }

  lemma SubtypeAntisymmetric(h: Hierarchy, a: Anno, b: Anno)
    requires Valid(h) && a in h.full && b in h.full
    requires Sub(h, a, b) && Sub(h, b, a)
    ensures a == b
  {
  }

  /** A strict supertype has strictly fewer supertypes. */
  lemma AboveShrinks(h: Hierarchy, a: Anno, s: Anno)
    requires Valid(h) && a in h.full && s in h.full[a]
    ensures h.full[s] < h.full[a]
  {
    assert s in h.full[a] - h.full[s];
  }

  /** The qualifiers strictly below a. */
  function Below(h: Hierarchy, a: Anno): set<Anno>
  {
    set k | k in h.full && a in h.full[k]
  }

  /** A strict subtype has strictly fewer subtypes. */
  lemma BelowShrinks(h: Hierarchy, a: Anno, s: Anno)
    requires Valid(h) && a in h.full && s in h.full && a in h.full[s]
    ensures Below(h, s) < Below(h, a)
  {
    assert s in Below(h, a) - Below(h, s);
  }

  /** The members of inset that no other member of inset is a subtype of. */
  function Smallest(h: Hierarchy, inset: set<Anno>): set<Anno>
  {
    set a2 | a2 in inset && !HasSubIn(h, inset, a2)
  }

  predicate HasSubIn(h: Hierarchy, inset: set<Anno>, a2: Anno)
  {
    exists a1 :: a1 in inset && a1 != a2 && Sub(h, a1, a2)
  }

  /** The members of inset that are a subtype of no other member of inset. */
  function Greatest(h: Hierarchy, inset: set<Anno>): set<Anno>
  {
    set a2 | a2 in inset && !HasSuperIn(h, inset, a2)
  }

  predicate HasSuperIn(h: Hierarchy, inset: set<Anno>, a2: Anno)
  {
    exists a1 :: a1 in inset && a1 != a2 && Sub(h, a2, a1)
  }

  /** findSmallestTypes: remove every member that has a subtype in the set. */
  method FindSmallestTypes(h: Hierarchy, inset: set<Anno>) returns (outset: set<Anno>)
    ensures outset == Smallest(h, inset)
  {
    outset := inset;
    var todo := inset;
    while todo != {}
      invariant todo <= inset
      invariant outset == set a2 | a2 in inset && !exists a1 :: a1 in inset - todo && a1 != a2 && Sub(h, a1, a2)
      decreases todo
    {
      var a1 :| a1 in todo;
      outset := set a2 | a2 in outset && !(a1 != a2 && Sub(h, a1, a2));
      todo := todo - {a1};
    }
  }

  /** findGreatestTypes: remove every member that has a supertype in the set. */
  method FindGreatestTypes(h: Hierarchy, inset: set<Anno>) returns (outset: set<Anno>)
    ensures outset == Greatest(h, inset)
  {
    outset := inset;
    var todo := inset;
    while todo != {}
      invariant todo <= inset
      invariant outset == set a2 | a2 in inset && !exists a1 :: a1 in inset - todo && a1 != a2 && Sub(h, a2, a1)
      decreases todo
    {
      var a1 :| a1 in todo;
      outset := set a2 | a2 in outset && !(a1 != a2 && Sub(h, a2, a1));
      todo := todo - {a1};
    }
  }

  const NoLub := "AssertionError: could not determine LUB"
  const NoGlb := "AssertionError: could not determine GLB"
  const NoElement := "NoSuchElementException"

  /**
   * findLub: the supertype when the two are comparable; otherwise the
   * lubs of a1's smallest supertypes with a2, narrowed to the smallest.
   */
  method FindLub(h: Hierarchy, a1: Anno, a2: Anno) returns (r: Result<Anno>)
    requires Valid(h) && a1 in h.full && a2 in h.full
    ensures Sub(h, a1, a2) ==> r == Ok(a2)
    ensures !Sub(h, a1, a2) && Sub(h, a2, a1) ==> r == Ok(a1)
    ensures r.Ok? ==> r.value in h.full
    ensures r.Ok? && DistinctNames(h) ==> Sub(h, a1, r.value) && Sub(h, a2, r.value)
    decreases h.full[a1]
  {
    if Sub(h, a1, a2) {
      return Ok(a2);
    }
    if Sub(h, a2, a1) {
      return Ok(a1);
    }
    var supers := FindSmallestTypes(h, h.full[a1]);
    var outset: set<Anno> := {};
    var todo := supers;
    while todo != {}
      invariant todo <= supers <= h.full[a1]
      invariant outset <= h.full.Keys
      invariant DistinctNames(h) ==> forall x :: x in outset ==> Sub(h, a1, x) && Sub(h, a2, x)
      decreases todo
    {
      var a1Super :| a1Super in todo;
      AboveShrinks(h, a1, a1Super);
      var a1Lub := FindLub(h, a1Super, a2);
      if a1Lub.Err? {
        return a1Lub;
      }
      if DistinctNames(h) {
        assert Sub(h, a1, a1Super);
        SubtypeTransitive(h, a1, a1Super, a1Lub.value);
      }
      outset := outset + {a1Lub.value};
      todo := todo - {a1Super};
    }
    if |outset| == 1 {
      var x :| x in outset;
      return Ok(x);
    }
    if |outset| > 1 {
      var smallest := FindSmallestTypes(h, outset);
      if smallest == {} {
        return Err(NoElement);
      }
      var x :| x in smallest;
      return Ok(x);
    }
    return Err(NoLub);
  }

  /**
   * findGlb: the subtype when the two are comparable; otherwise the glbs of
   * every strict subtype of a1 with a2, narrowed to the greatest.
   */
  method FindGlb(h: Hierarchy, a1: Anno, a2: Anno) returns (r: Result<Anno>)
    requires Valid(h) && a1 in h.full && a2 in h.full
    ensures Sub(h, a1, a2) ==> r == Ok(a1)
    ensures !Sub(h, a1, a2) && Sub(h, a2, a1) ==> r == Ok(a2)
    ensures r.Ok? ==> r.value in h.full
    ensures r.Ok? && DistinctNames(h) ==> Sub(h, r.value, a1) && Sub(h, r.value, a2)
    decreases Below(h, a1)
  {
    if Sub(h, a1, a2) {
      return Ok(a1);
    }
    if Sub(h, a2, a1) {
      return Ok(a2);
    }
    var outset: set<Anno> := {};
    var todo := h.graph.Keys;
    while todo != {}
      invariant todo <= h.full.Keys
      invariant outset <= h.full.Keys
      invariant DistinctNames(h) ==> forall x :: x in outset ==> Sub(h, x, a1) && Sub(h, x, a2)
      decreases todo
    {
      var a1Sub :| a1Sub in todo;
      if Sub(h, a1Sub, a1) && a1Sub != a1 {
        assert a1 in h.full[a1Sub];
        BelowShrinks(h, a1, a1Sub);
        var a1lb := FindGlb(h, a1Sub, a2);
        if a1lb.Err? {
          return a1lb;
        }
        if DistinctNames(h) {
          SubtypeTransitive(h, a1lb.value, a1Sub, a1);
        }
        outset := outset + {a1lb.value};
      }
      todo := todo - {a1Sub};
    }
    if |outset| == 1 {
      var x :| x in outset;
      return Ok(x);
    }
    if |outset| > 1 {
      var greatest := FindGreatestTypes(h, outset);
      if greatest == {} {
        return Err(NoElement);
      }
      var x :| x in greatest;
      return Ok(x);
    }
    return Err(NoGlb);
  }

  /**
   * leastUpperBound: two annotations of one type meet at themselves when
   * equal and at the root otherwise; a pair outside the graph has no cached
   * lub (null).
   */
  method LeastUpperBound(h: Hierarchy, a1: Anno, a2: Anno) returns (r: Result<Option<Anno>>)
    requires Valid(h)
    ensures r == Ok(Some(a1)) <== a1 == a2
    ensures SameIgnoringValues(a1, a2) && a1 != a2 ==> r == Ok(Some(h.root))
    ensures !SameIgnoringValues(a1, a2) && a1 in h.graph && a2 in h.graph && Sub(h, a1, a2) ==> r == Ok(Some(a2))
    ensures !SameIgnoringValues(a1, a2) && (a1 !in h.graph || a2 !in h.graph) ==> r == Ok(None)
    ensures r.Ok? && r.value.Some? && DistinctNames(h) ==> Sub(h, a1, r.value.value) && Sub(h, a2, r.value.value)
  {
    if SameIgnoringValues(a1, a2) {
      return Ok(Some(if a1 == a2 then a1 else h.root));
    }
    if a1 !in h.graph || a2 !in h.graph {
      return Ok(None);
    }
    var lub := FindLub(h, a1, a2);
    if lub.Err? {
      return Err(lub.error);
    }
    return Ok(Some(lub.value));
  }

  /**
   * greatestLowerBound: two annotations of one type meet at themselves when
   * equal and at the bottom (maybe null) otherwise.
   */
  method GreatestLowerBound(h: Hierarchy, a1: Anno, a2: Anno) returns (r: Result<Option<Anno>>)
    requires Valid(h)
    ensures r == Ok(Some(a1)) <== a1 == a2
    ensures SameIgnoringValues(a1, a2) && a1 != a2 ==> r == Ok(h.bottom)
    ensures !SameIgnoringValues(a1, a2) && a1 in h.graph && a2 in h.graph && Sub(h, a1, a2) ==> r == Ok(Some(a1))
    ensures !SameIgnoringValues(a1, a2) && (a1 !in h.graph || a2 !in h.graph) ==> r == Ok(None)
    ensures r.Ok? && r.value.Some? && DistinctNames(h) && !SameIgnoringValues(a1, a2)
      ==> Sub(h, r.value.value, a1) && Sub(h, r.value.value, a2)
  {
    if SameIgnoringValues(a1, a2) {
      return Ok(if a1 == a2 then Some(a1) else h.bottom);
    }
    if a1 !in h.graph || a2 !in h.graph {
      return Ok(None);
    }
    var glb := FindGlb(h, a1, a2);
    if glb.Err? {
      return Err(glb.error);
    }
    return Ok(Some(glb.value));
  }

  // ---------------------------------------------------------------------
  // AnnotationPair, the key of the lub/glb caches
  // ---------------------------------------------------------------------

  datatype AnnotationPair = AnnotationPair(a1: Anno, a2: Anno)

  /** AnnotationPair.equals: the same two annotation types, in either order. */
  predicate PairEquals(p: AnnotationPair, q: AnnotationPair)
  {
    || (SameIgnoringValues(p.a1, q.a1) && SameIgnoringValues(p.a2, q.a2))
    || (SameIgnoringValues(p.a2, q.a1) && SameIgnoringValues(p.a1, q.a2))
  }

  /** Pair equality is equality of the unordered pairs of annotation type names. */
  lemma PairEqualsUnordered(p: AnnotationPair, q: AnnotationPair)
    ensures PairEquals(p, q) <==> multiset{p.a1.name, p.a2.name} == multiset{q.a1.name, q.a2.name}
  {
    var mp, mq := multiset{p.a1.name, p.a2.name}, multiset{q.a1.name, q.a2.name};
    if mp == mq {
      assert q.a1.name in mp;
      if q.a1.name == p.a1.name {
        assert mp - multiset{p.a1.name} == multiset{p.a2.name};
        assert mq - multiset{q.a1.name} == multiset{q.a2.name};
      } else {
        assert mp - multiset{p.a2.name} == multiset{p.a1.name};
        assert mq - multiset{q.a1.name} == multiset{q.a2.name};
      }
    }
  }
}
