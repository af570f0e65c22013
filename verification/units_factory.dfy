/**
 * The units checker's type factory: the annotation a binary arithmetic
 * expression gets from the registered units relations or, when none
 * applies, from its operands; the subtype test that distinguishes unit
 * prefixes; and the cache of aliased unit annotations.
 */
module UnitsTypeFactory {
  import opened Wrappers
  import opened QualifierHierarchy
  import UR = UnitsRelations

  const MixedUnits := Anno("MixedUnits", None)
  const UnknownUnitsName := "UnknownUnits"
  const UnitsMultipleName := "UnitsMultiple"

  /** A units relations class: its product and quotient tables. */
  datatype Relations = Relations(
    multiplication: (set<Anno>, set<Anno>) -> Option<Anno>,
    division: (set<Anno>, set<Anno>) -> Option<Anno>)

  const DefaultRelations := Relations(UR.Multiplication, UR.Division)

  datatype BinaryKind = Plus | Minus | Multiply | Divide | Remainder | OtherOperator

  /** useUnitsRelation: only products and quotients consult a relation. */
  function UseRelation(kind: BinaryKind, ur: Relations, lht: set<Anno>, rht: set<Anno>): (r: Option<Anno>)
    ensures kind != Multiply && kind != Divide ==> r == None
  {
    match kind
    case Divide => ur.division(lht, rht)
    case Multiply => ur.multiplication(lht, rht)
    case _ => None
  }

  /** The loop over the relations: the agreed result so far, or a mismatch. */
  datatype Best = Mismatch | Agreed(best: Option<Anno>)

  function BestOf(kind: BinaryKind, rs: seq<Relations>, lht: set<Anno>, rht: set<Anno>): (r: Best)
    ensures kind != Multiply && kind != Divide ==> r == Agreed(None)
    ensures r.Agreed? && r.best.Some? ==>
      exists i :: 0 <= i < |rs| && UseRelation(kind, rs[i], lht, rht) == r.best
  {
    if rs == [] then Agreed(None)
    else
      var init := rs[..|rs| - 1];
      assert forall i :: 0 <= i < |init| ==> init[i] == rs[i];
      match BestOf(kind, init, lht, rht)
      case Mismatch => Mismatch
      case Agreed(b) =>
        var res := UseRelation(kind, rs[|rs| - 1], lht, rht);
        if b.Some? && res.Some? && b != res then Mismatch
        else Agreed(if res.Some? then res else b)
  }

  /** Two relations give different non-null results. */
  predicate Disagree(kind: BinaryKind, rs: seq<Relations>, lht: set<Anno>, rht: set<Anno>)
  {
    exists i, j :: 0 <= i < |rs| && 0 <= j < |rs| &&
      UseRelation(kind, rs[i], lht, rht).Some? && UseRelation(kind, rs[j], lht, rht).Some? &&
      UseRelation(kind, rs[i], lht, rht) != UseRelation(kind, rs[j], lht, rht)
  }

  /**
   * The loop ends in a mismatch exactly when two relations disagree;
   * otherwise its result is the one non-null answer they all give, or
   * null when none gives one.
   */
  lemma {:induction false} BestCharacterised(kind: BinaryKind, rs: seq<Relations>, lht: set<Anno>, rht: set<Anno>)
    ensures BestOf(kind, rs, lht, rht).Mismatch? <==> Disagree(kind, rs, lht, rht)
    ensures BestOf(kind, rs, lht, rht).Agreed? ==>
              forall i :: 0 <= i < |rs| && UseRelation(kind, rs[i], lht, rht).Some? ==>
                BestOf(kind, rs, lht, rht).best == UseRelation(kind, rs[i], lht, rht)
    ensures BestOf(kind, rs, lht, rht) == Agreed(None) <==>
              forall i :: 0 <= i < |rs| ==> UseRelation(kind, rs[i], lht, rht).None?
  {
    if rs != [] {
      var init := rs[..|rs| - 1];
      var n := |rs| - 1;
      BestCharacterised(kind, init, lht, rht);
      assert forall i :: 0 <= i < n ==> init[i] == rs[i];
      var res := UseRelation(kind, rs[n], lht, rht);
      if Disagree(kind, init, lht, rht) {
        var i, j :| 0 <= i < |init| && 0 <= j < |init| &&
          UseRelation(kind, init[i], lht, rht).Some? && UseRelation(kind, init[j], lht, rht).Some? &&
          UseRelation(kind, init[i], lht, rht) != UseRelation(kind, init[j], lht, rht);
        assert UseRelation(kind, rs[i], lht, rht) != UseRelation(kind, rs[j], lht, rht);
      } else {
        var b := BestOf(kind, init, lht, rht).best;
        if b.Some? && res.Some? && b != res {
          var i :| 0 <= i < n && UseRelation(kind, rs[i], lht, rht).Some?;
          assert UseRelation(kind, rs[i], lht, rht) != UseRelation(kind, rs[n], lht, rht);
        } else if Disagree(kind, rs, lht, rht) {
          var i, j :| 0 <= i < |rs| && 0 <= j < |rs| &&
            UseRelation(kind, rs[i], lht, rht).Some? && UseRelation(kind, rs[j], lht, rht).Some? &&
            UseRelation(kind, rs[i], lht, rht) != UseRelation(kind, rs[j], lht, rht);
          assert false;
        }
      }
    }
  }

  /** noUnits: no annotation, or only UnknownUnits. */
  function NoUnits(annos: set<Anno>): (b: bool)
    ensures b <==> annos == {} || (|annos| == 1 && forall a :: a in annos ==> a.name == UnknownUnitsName)
  {
    if annos == {} then true
    else if |annos| != 1 then false
    else
      var a :| a in annos;
      assert annos == {a} by {
        assert |annos - {a}| == 0;
        assert annos - {a} == {};
      }
      a.name == UnknownUnitsName
  }

  /** The annotations an operation with no applicable relation gets from its operands. */
  function Fallback(kind: BinaryKind, lht: set<Anno>, rht: set<Anno>): (r: set<Anno>)
    ensures kind == Divide || kind == Remainder || kind == OtherOperator ==> r == {}
  {
    match kind
    case Plus => if lht == rht then lht else {MixedUnits}
    case Minus => if lht == rht then lht else {MixedUnits}
    case Multiply =>
      if NoUnits(lht) then rht
      else if NoUnits(rht) then lht
      else {MixedUnits}
    case _ => {}
  }

  /** The annotations visitBinary adds to the result type. */
  function BinaryAnnotations(kind: BinaryKind, rs: seq<Relations>, lht: set<Anno>, rht: set<Anno>): (r: set<Anno>)
    ensures kind != Multiply && kind != Divide ==> r == Fallback(kind, lht, rht)
    ensures forall a :: a in r && a !in lht && a !in rht && a != MixedUnits ==>
      exists i :: 0 <= i < |rs| && UseRelation(kind, rs[i], lht, rht) == Some(a)
  {
    match BestOf(kind, rs, lht, rht)
    case Mismatch => {}
    case Agreed(Some(a)) => {a}
    case Agreed(None) => Fallback(kind, lht, rht)
  }

  /** Disagreeing relations: no annotation at all. */
  lemma DisagreementAddsNothing(kind: BinaryKind, rs: seq<Relations>, lht: set<Anno>, rht: set<Anno>)
    requires Disagree(kind, rs, lht, rht)
    ensures BinaryAnnotations(kind, rs, lht, rht) == {}
  {
    BestCharacterised(kind, rs, lht, rht);
  }

  /** Relations agreeing on a result: exactly that annotation. */
  lemma AgreementAddsResult(kind: BinaryKind, rs: seq<Relations>, lht: set<Anno>, rht: set<Anno>, i: nat)
    requires !Disagree(kind, rs, lht, rht)
    requires i < |rs| && UseRelation(kind, rs[i], lht, rht).Some?
    ensures BinaryAnnotations(kind, rs, lht, rht) == {UseRelation(kind, rs[i], lht, rht).value}
  {
    BestCharacterised(kind, rs, lht, rht);
  }

  /** No relation applies: sums and differences keep equal operand units, else MixedUnits. */
  lemma SumsWithoutRelation(kind: BinaryKind, rs: seq<Relations>, lht: set<Anno>, rht: set<Anno>)
    requires kind == Plus || kind == Minus
    ensures BinaryAnnotations(kind, rs, lht, rht) == if lht == rht then lht else {MixedUnits}
  {
    BestCharacterised(kind, rs, lht, rht);
  }

  /** No relation applies: a unit-less factor passes on the other factor's units; otherwise MixedUnits. */
  lemma ProductsWithoutRelation(rs: seq<Relations>, lht: set<Anno>, rht: set<Anno>)
    requires forall i :: 0 <= i < |rs| ==> UseRelation(Multiply, rs[i], lht, rht).None?
    ensures NoUnits(lht) ==> BinaryAnnotations(Multiply, rs, lht, rht) == rht
    ensures !NoUnits(lht) && NoUnits(rht) ==> BinaryAnnotations(Multiply, rs, lht, rht) == lht
    ensures !NoUnits(lht) && !NoUnits(rht) ==> BinaryAnnotations(Multiply, rs, lht, rht) == {MixedUnits}
  {
    BestCharacterised(Multiply, rs, lht, rht);
  }

  /** Quotients and remainders without a relation stay unannotated. */
  lemma QuotientsWithoutRelation(kind: BinaryKind, rs: seq<Relations>, lht: set<Anno>, rht: set<Anno>)
    requires kind == Divide || kind == Remainder
    requires forall i :: 0 <= i < |rs| ==> UseRelation(kind, rs[i], lht, rht).None?
    ensures BinaryAnnotations(kind, rs, lht, rht) == {}
  {
    BestCharacterised(kind, rs, lht, rht);
  }

  /** With only the default relations, metres times metres are square metres. */
  lemma DefaultMetresSquared(lht: set<Anno>, rht: set<Anno>)
    requires UR.M in lht && UR.M in rht
    ensures BinaryAnnotations(Multiply, [DefaultRelations], lht, rht) == {UR.M2}
  {
    assert [DefaultRelations][..0] == [];
    assert UseRelation(Multiply, DefaultRelations, lht, rht) == UR.Multiplication(lht, rht) == Some(UR.M2);
    assert BestOf(Multiply, [DefaultRelations], lht, rht) == Agreed(Some(UR.M2));
  }

  /** The result type of an expression, whose annotation set grows in place. */
  class AnnotatedType {
    var annotations: set<Anno>

    constructor (annotations: set<Anno>)
      ensures this.annotations == annotations
    {
      this.annotations := annotations;
    }

    method AddAnnotation(a: Anno)
      modifies this
      ensures annotations == old(annotations) + {a}
    {
      annotations := annotations + {a};
    }

    method AddAnnotations(annos: set<Anno>)
      modifies this
      ensures annotations == old(annotations) + annos
    {
      annotations := annotations + annos;
    }
  }

  /** visitBinary: the relations in turn, giving up on a mismatch, then the fallback rules. */
  method VisitBinary(kind: BinaryKind, relations: seq<Relations>, lht: set<Anno>, rht: set<Anno>, t: AnnotatedType)
    modifies t
    ensures t.annotations == old(t.annotations) + BinaryAnnotations(kind, relations, lht, rht)
  {
    var bestres: Option<Anno> := None;
    for i := 0 to |relations|
      invariant BestOf(kind, relations[..i], lht, rht) == Agreed(bestres)
    {
      var res := UseRelation(kind, relations[i], lht, rht);
      assert relations[..i + 1][..i] == relations[..i];
      if bestres.Some? && res.Some? && bestres != res {
        MismatchPersists(kind, relations, lht, rht, i + 1);
        return;
      }
      if res.Some? {
        bestres := res;
      }
    }
    assert relations[..|relations|] == relations;
    if bestres.Some? {
      t.AddAnnotation(bestres.value);
    } else {
      match kind {
        case Minus =>
          if lht == rht {
            t.AddAnnotations(lht);
          } else {
            t.AddAnnotation(MixedUnits);
          }
        case Plus =>
          if lht == rht {
            t.AddAnnotations(lht);
          } else {
            t.AddAnnotation(MixedUnits);
          }
        case Divide =>
        case Multiply =>
          if NoUnits(lht) {
            t.AddAnnotations(rht);
          } else if NoUnits(rht) {
            t.AddAnnotations(lht);
          } else {
            t.AddAnnotation(MixedUnits);
          }
        case Remainder =>
        case OtherOperator =>
      }
    }
  }

  /** Once the relations have disagreed, later ones do not change that. */
  lemma {:induction false} MismatchPersists(kind: BinaryKind, rs: seq<Relations>, lht: set<Anno>, rht: set<Anno>, n: nat)
    requires n <= |rs| && BestOf(kind, rs[..n], lht, rht).Mismatch?
    ensures BestOf(kind, rs, lht, rht).Mismatch?
    decreases |rs| - n
  {
    if n < |rs| {
      assert rs[..n + 1][..n] == rs[..n];
      MismatchPersists(kind, rs, lht, rht, n + 1);
    } else {
      assert rs[..n] == rs;
    }
  }

  // ---------------------------------------------------------------------
  // Subtyping between units
  // ---------------------------------------------------------------------

  /** stripValues: the annotation of the same type without element values. */
  function StripValues(a: Anno): (r: Anno)
    ensures SameIgnoringValues(r, a) && r.value.None?
  {
    Anno(a.name, None)
  }

  /**
   * UnitsQualifierHierarchy.isSubtype: two annotations of the same unit
   * are related only when their values (prefixes) agree as well; others
   * are compared in the hierarchy with their values removed.
   */
  function UnitsIsSubtype(h: Hierarchy, rhs: Anno, lhs: Anno): (r: Result<bool>)
    ensures SameIgnoringValues(lhs, rhs) ==> r == Ok(lhs == rhs)
  {
    if SameIgnoringValues(lhs, rhs) then Ok(lhs == rhs)
    else IsSubtype(h, StripValues(rhs), StripValues(lhs))
  }

  /** Prefixes matter within a unit: m and km are not subtypes of each other in either direction. */
  lemma PrefixesAreIncomparable(h: Hierarchy)
    ensures UnitsIsSubtype(h, UR.M, UR.Km) == Ok(false)
    ensures UnitsIsSubtype(h, UR.Km, UR.M) == Ok(false)
  {
  }

  /** Across different units the values play no part. */
  lemma ValuesIgnoredAcrossUnits(h: Hierarchy, rhs: Anno, lhs: Anno, rhs2: Anno, lhs2: Anno)
    requires !SameIgnoringValues(lhs, rhs)
    requires SameIgnoringValues(rhs, rhs2) && SameIgnoringValues(lhs, lhs2)
    ensures UnitsIsSubtype(h, rhs, lhs) == UnitsIsSubtype(h, rhs2, lhs2)
  {
  }

  // ---------------------------------------------------------------------
  // Aliased annotations
  // ---------------------------------------------------------------------

  /** A meta-annotation on an annotation type; UnitsMultiple carries the base quantity and the prefix. */
  datatype MetaAnnotation = MetaAnnotation(name: string, quantity: string, prefix: string)

  /** The alias a UnitsMultiple meta-annotation defines: the first one among the type's meta-annotations. */
  function UnitsMultipleAlias(metas: seq<MetaAnnotation>): (r: Option<Anno>)
    ensures r.None? <==> forall i :: 0 <= i < |metas| ==> metas[i].name != UnitsMultipleName
    ensures r.Some? ==>
              exists i :: (0 <= i < |metas| && metas[i].name == UnitsMultipleName
                           && (forall j :: 0 <= j < i ==> metas[j].name != UnitsMultipleName)
                           && r.value == Anno(metas[i].quantity, Some(metas[i].prefix)))
  {
    if metas == [] then None
    else if metas[0].name == UnitsMultipleName then
      assert metas[0].name == UnitsMultipleName;
      Some(Anno(metas[0].quantity, Some(metas[0].prefix)))
    else
      var r := UnitsMultipleAlias(metas[1..]);
      assert forall i :: 1 <= i < |metas| ==> metas[1..][i - 1] == metas[i];
      if r.Some? then
        var i :| 0 <= i < |metas[1..]| && metas[1..][i].name == UnitsMultipleName
          && (forall j :: 0 <= j < i ==> metas[1..][j].name != UnitsMultipleName)
          && r.value == Anno(metas[1..][i].quantity, Some(metas[1..][i].prefix));
        assert metas[i + 1].name == UnitsMultipleName;
        r
      else r
  }

  /** The factory's cache of aliases, by annotation type name. */
  class AliasCache {
    /** The meta-annotations of every annotation type. */
    const metaAnnotations: string -> seq<MetaAnnotation>
    /** The aliases the factory's superclass knows. */
    const superAliases: string -> Option<Anno>
    var aliasMap: map<string, Anno>

    /** Every cached alias is the one the meta-annotations define. */
    predicate Valid()
      reads this
    {
      forall n :: n in aliasMap ==> UnitsMultipleAlias(metaAnnotations(n)) == Some(aliasMap[n])
    }

    /** The alias the factory gives an annotation, with or without the cache. */
    function Alias(a: Anno): Option<Anno>
    {
      var m := UnitsMultipleAlias(metaAnnotations(a.name));
      if m.Some? then m else superAliases(a.name)
    }

    constructor (metaAnnotations: string -> seq<MetaAnnotation>, superAliases: string -> Option<Anno>)
      ensures Valid() && aliasMap == map[]
      ensures this.metaAnnotations == metaAnnotations && this.superAliases == superAliases
    {
      this.metaAnnotations := metaAnnotations;
      this.superAliases := superAliases;
      aliasMap := map[];
    }

    /** aliasedAnnotation: a cached alias, or the first UnitsMultiple meta-annotation (then cached), or the superclass's. */
    method AliasedAnnotation(a: Anno) returns (r: Option<Anno>)
      requires Valid()
      modifies this
      ensures Valid() && r == Alias(a)
      ensures old(aliasMap).Keys <= aliasMap.Keys <= old(aliasMap).Keys + {a.name}
    {
      var aname := a.name;
      if aname in aliasMap {
        return Some(aliasMap[aname]);
      }
      var metas := metaAnnotations(aname);
      for i := 0 to |metas|
        invariant forall j :: 0 <= j < i ==> metas[j].name != UnitsMultipleName
        invariant aliasMap == old(aliasMap)
      {
        if metas[i].name == UnitsMultipleName {
          var res := Anno(metas[i].quantity, Some(metas[i].prefix));
          FirstUnitsMultiple(metas, i);
          aliasMap := aliasMap[aname := res];
          return Some(res);
        }
      }
      return superAliases(aname);
    }
  }

  /** The first UnitsMultiple meta-annotation is the one the alias comes from. */
  lemma FirstUnitsMultiple(metas: seq<MetaAnnotation>, i: nat)
    requires i < |metas| && metas[i].name == UnitsMultipleName
    requires forall j :: 0 <= j < i ==> metas[j].name != UnitsMultipleName
    ensures UnitsMultipleAlias(metas) == Some(Anno(metas[i].quantity, Some(metas[i].prefix)))
  {
    var r := UnitsMultipleAlias(metas);
    var k :| 0 <= k < |metas| && metas[k].name == UnitsMultipleName
      && (forall j :: 0 <= j < k ==> metas[j].name != UnitsMultipleName)
      && r.value == Anno(metas[k].quantity, Some(metas[k].prefix));
    assert k == i;
  }
}
