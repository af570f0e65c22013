/**
 * The regex checker's tree annotator: the @Regex group count of a string
 * concatenation and of the result of Pattern.compile. The annotations of
 * an expression's type form a set that the annotator changes in place.
 */
module RegexTypeFactory {
  import opened Wrappers

  /** A qualifier of the regex hierarchy: @Regex with or without a group count, @PolyRegex, or another one. */
  datatype Qual = Regex(groups: Option<int>) | PolyRegex | OtherQual(name: string)

  /** createRegexAnnotation: @Regex with the group count as its value. */
  function RegexAnnotation(groupCount: int): (q: Qual)
    ensures q.Regex? && q.groups == Some(groupCount)
  {
    Regex(Some(groupCount))
  }

  /** The group count of a @Regex annotation: its value, or the element's default 0. */
  function GroupCount(q: Qual): int
    requires q.Regex?
  {
    if q.groups.Some? then q.groups.value else 0
  }

  predicate HasRegex(annos: set<Qual>)
  {
    exists q :: q in annos && q.Regex?
  }

  /** A type carries at most one @Regex. */
  predicate OneRegex(annos: set<Qual>)
  {
    forall a, b :: a in annos && b in annos && a.Regex? && b.Regex? ==> a == b
  }

  /** getAnnotation(Regex.class): the one @Regex of a type that carries one. */
  function RegexOf(annos: set<Qual>): (q: Qual)
    requires HasRegex(annos) && OneRegex(annos)
    ensures q in annos && q.Regex?
  {
    var q :| q in annos && q.Regex?; q
  }

  /** removeAnnotation(Regex.class): every @Regex goes, whatever its value. */
  function WithoutRegex(annos: set<Qual>): (r: set<Qual>)
    ensures !HasRegex(r)
    ensures forall q :: q in r <==> q in annos && !q.Regex?
  {
    set q | q in annos && !q.Regex?
  }

  /** The result type's annotations after visitBinary. */
  function ConcatAnnotations(annos: set<Qual>, isConcatenation: bool, left: set<Qual>, right: set<Qual>): (r: set<Qual>)
    requires OneRegex(left) && OneRegex(right)
    ensures OneRegex(annos) ==> OneRegex(r)
    ensures r != annos ==>
      && annos == {} && isConcatenation
      && (r == {PolyRegex} || exists n :: r == {RegexAnnotation(n)})
  {
    if annos != {} || !isConcatenation then annos
    else
      var lRE, rRE := HasRegex(left), HasRegex(right);
      var lPoly, rPoly := PolyRegex in left, PolyRegex in right;
      if lRE && rRE then
        WithoutRegex(annos) + {RegexAnnotation(GroupCount(RegexOf(left)) + GroupCount(RegexOf(right)))}
      else if (lPoly && rPoly) || (lPoly && rRE) || (lRE && rPoly) then annos + {PolyRegex}
      else annos
  }

  /** An annotated result type, or a tree that is not a string concatenation, is left alone. */
  lemma ConcatOnlyUnannotated(annos: set<Qual>, isConcatenation: bool, left: set<Qual>, right: set<Qual>)
    requires OneRegex(left) && OneRegex(right)
    requires annos != {} || !isConcatenation
    ensures ConcatAnnotations(annos, isConcatenation, left, right) == annos
  {
  }

  /** @Regex(l) + @Regex(r) is exactly one @Regex(l + r). */
  lemma ConcatAddsGroupCounts(l: int, r: int, left: set<Qual>, right: set<Qual>)
    requires OneRegex(left) && OneRegex(right)
    requires RegexAnnotation(l) in left && RegexAnnotation(r) in right
    ensures ConcatAnnotations({}, true, left, right) == {RegexAnnotation(l + r)}
    ensures OneRegex(ConcatAnnotations({}, true, left, right))
  {
    assert RegexOf(left) == RegexAnnotation(l);
    assert RegexOf(right) == RegexAnnotation(r);
  }

  /**
   * Polymorphic operands give @PolyRegex, and so does a polymorphic operand
   * beside a @Regex one, on either side; an operand with neither qualifier
   * gives nothing.
   */
  lemma ConcatPolyCases(left: set<Qual>, right: set<Qual>)
    requires OneRegex(left) && OneRegex(right)
    ensures (PolyRegex in left && PolyRegex in right && !(HasRegex(left) && HasRegex(right))) ==>
              ConcatAnnotations({}, true, left, right) == {PolyRegex}
    ensures (PolyRegex in left && HasRegex(right) && !HasRegex(left)) ==>
              ConcatAnnotations({}, true, left, right) == {PolyRegex}
    ensures (HasRegex(left) && PolyRegex in right && !HasRegex(right)) ==>
              ConcatAnnotations({}, true, left, right) == {PolyRegex}
    ensures (!HasRegex(left) && PolyRegex !in left) || (!HasRegex(right) && PolyRegex !in right) ==>
              ConcatAnnotations({}, true, left, right) == {}
  {
  }

  /** The result type of Pattern.compile after visitMethodInvocation. */
  function CompileAnnotations(annos: set<Qual>, isPatternCompile: bool, argument: set<Qual>): (r: set<Qual>)
    requires isPatternCompile ==> HasRegex(argument) && OneRegex(argument)
    ensures isPatternCompile ==> OneRegex(r) && RegexAnnotation(GroupCount(RegexOf(argument))) in r
    ensures isPatternCompile ==> forall q :: q in r && !q.Regex? <==> q in annos && !q.Regex?
    ensures !isPatternCompile ==> r == annos
  {
    if isPatternCompile then WithoutRegex(annos) + {RegexAnnotation(GroupCount(RegexOf(argument)))}
    else annos
  }

  /** An expression's type, whose annotations the tree annotator changes. */
  class AnnotatedType {
    var annotations: set<Qual>

    constructor (annotations: set<Qual>)
      ensures this.annotations == annotations
    {
      this.annotations := annotations;
    }

    method AddAnnotation(q: Qual)
      modifies this
      ensures annotations == old(annotations) + {q}
    {
      annotations := annotations + {q};
    }

    method RemoveRegex()
      modifies this
      ensures annotations == WithoutRegex(old(annotations))
    {
      annotations := WithoutRegex(annotations);
    }
  }

  /** visitBinary: the group count of a concatenation of regexes, or @PolyRegex. */
  method VisitBinary(t: AnnotatedType, isConcatenation: bool, left: set<Qual>, right: set<Qual>)
    requires OneRegex(left) && OneRegex(right)
    modifies t
    ensures t.annotations == ConcatAnnotations(old(t.annotations), isConcatenation, left, right)
  {
    if t.annotations == {} && isConcatenation {
      var lExprRE := HasRegex(left);
      var rExprRE := HasRegex(right);
      var lExprPoly := PolyRegex in left;
      var rExprPoly := PolyRegex in right;
      if lExprRE && rExprRE {
        var lGroupCount := GroupCount(RegexOf(left));
        var rGroupCount := GroupCount(RegexOf(right));
        t.RemoveRegex();
        t.AddAnnotation(RegexAnnotation(lGroupCount + rGroupCount));
      } else if (lExprPoly && rExprPoly) || (lExprPoly && rExprRE) || (lExprRE && rExprPoly) {
        t.AddAnnotation(PolyRegex);
      }
    }
  }

  /** visitMethodInvocation: Pattern.compile's result takes its argument's group count. */
  method VisitMethodInvocation(t: AnnotatedType, isPatternCompile: bool, argument: set<Qual>)
    requires isPatternCompile ==> HasRegex(argument) && OneRegex(argument)
    modifies t
    ensures t.annotations == CompileAnnotations(old(t.annotations), isPatternCompile, argument)
  {
    if isPatternCompile {
      var groupCount := GroupCount(RegexOf(argument));
      t.RemoveRegex();
      t.AddAnnotation(RegexAnnotation(groupCount));
    }
  }
}
