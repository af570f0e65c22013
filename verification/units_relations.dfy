/**
 * The default relations between SI units: which unit the product or the
 * quotient of two annotated operands has. An operand's annotations are a
 * set; a unit such as metre carries its prefix as the annotation's value.
 */
module UnitsRelations {
  import opened Wrappers
  import opened QualifierHierarchy

  const M := Anno("m", Some("one"))
  const Km := Anno("m", Some("kilo"))
  const M2 := Anno("m2", None)
  const Km2 := Anno("km2", None)
  const S := Anno("s", Some("one"))
  const H := Anno("h", None)
  const MPerS := Anno("mPERs", None)
  const KmPerH := Anno("kmPERh", None)

  /** multiplication: m times m is m2, km times km is km2, and any other product has no relation. */
  function Multiplication(p1: set<Anno>, p2: set<Anno>): (r: Option<Anno>)
    ensures M in p1 && M in p2 ==> r == Some(M2)
    ensures !(M in p1 && M in p2) && Km in p1 && Km in p2 ==> r == Some(Km2)
    ensures r.None? <==> !(M in p1 && M in p2) && !(Km in p1 && Km in p2)
    ensures r.Some? ==> r.value == M2 || r.value == Km2
  {
    if M in p1 && M in p2 then Some(M2)
    else if Km in p1 && Km in p2 then Some(Km2)
    else None
  }

  /** division: m by s is mPERs, km by h is kmPERh, and any other quotient has no relation. */
  function Division(p1: set<Anno>, p2: set<Anno>): (r: Option<Anno>)
    ensures M in p1 && S in p2 ==> r == Some(MPerS)
    ensures !(M in p1 && S in p2) && Km in p1 && H in p2 ==> r == Some(KmPerH)
    ensures r.None? <==> !(M in p1 && S in p2) && !(Km in p1 && H in p2)
    ensures r.Some? ==> r.value == MPerS || r.value == KmPerH
  {
    if M in p1 && S in p2 then Some(MPerS)
    else if Km in p1 && H in p2 then Some(KmPerH)
    else None
  }

  /** Operands carrying one unit each: the table on single units. */
  lemma SingleUnitProducts(a: Anno, b: Anno)
    ensures Multiplication({a}, {b}).Some? <==> a == b && (a == M || a == Km)
    ensures Division({a}, {b}).Some? <==> (a == M && b == S) || (a == Km && b == H)
    ensures Multiplication({M}, {M}) == Some(M2) && Multiplication({Km}, {Km}) == Some(Km2)
    ensures Division({M}, {S}) == Some(MPerS) && Division({Km}, {H}) == Some(KmPerH)
  {
  }

  /** Metres and kilometres differ only in the prefix value, so they do not multiply with each other. */
  lemma MixedPrefixesHaveNoProduct()
    ensures SameIgnoringValues(M, Km) && M != Km
    ensures Multiplication({M}, {Km}) == None
    ensures Division({Km}, {S}) == None
  {
  }
}
