# Checker Framework core: a verified Dafny model

This project models the parts of the Checker Framework that are plain data
and algorithms, and it models the version arithmetic of the release scripts.

**The dataflow framework**
- Flow expressions are the `Receiver` hierarchy: field accesses, `this`,
  class names, locals, literals, pure method calls and the unknown receiver.
- The abstract store (`CFAbstractStore`) keeps three maps from receivers to
  abstract values. Two extensions add initialized-field tracking:
  `InitializationStore` and `CommitmentStore`.
- The worklist analysis driver (`Analysis`) works with the analysis result
  (`AnalysisResult`) and the generic transfer rules (`CFAbstractTransfer`).
- From the control-flow-graph builder (`CFGBuilder`), the model covers:
  - the try-frame stack, and the labels it yields for a thrown exception;
  - label generation;
  - the phase-one node list;
  - the phase-two partition into blocks;
  - the phase-three pruning of conditional blocks.

**Qualifier and checker logic**
- The qualifier hierarchy built from a supertype graph
  (`GraphQualifierHierarchy`): its factory, its closure, root and bottoms,
  subtyping, and least upper and greatest lower bounds.
- The flow-expression parser (`FlowExpressionParseUtil`).
- The lint-option, `@SuppressWarnings` and message-key logic of
  `SourceChecker`.
- The purity checker's reason accumulation (`PurityChecker`).
- The lock checker's held-lock discipline (`LockVisitor`).
- The units relations and binary-operator rules (`UnitsRelationsDefault`,
  `UnitsAnnotatedTypeFactory`).
- The regex group-count rules and `RegexUtil` refinements
  (`RegexAnnotatedTypeFactory`, `RegexTransfer`).

**The release scripts** (`release_utils.py`)
- A dotted version string is encoded as an integer and decoded back.
- A version can be incremented, compared with another, and chosen as the
  maximum of a list.
- Also modelled: string duplication and padding, command-line project
  matching, and the project-dependency closure.

**How the model is written**
- Values the source never mutates are datatypes with functions.
- Objects whose fields the source updates in place are classes. This covers
  the stores, the hierarchy factory, the analysis, the try stack, the
  purity result, the lock checker, the lint settings and the annotated
  types. Their methods are proved against the specification functions of
  their module.
- javac entities become parameters:
  - an annotation is a name plus an optional value;
  - type subtyping and aliasing are predicates;
  - an abstract value is a type parameter, with `mostSpecific` and
    `leastUpperBound` given as functions.

There is one Dafny file per source file. Modules are named after the Java
or Python unit. `wrappers.dfy` holds the `Option`/`Result` types and
`java_strings.dfy` the string helpers.

## Model

| member | source | states |
|---|---|---|
| ReleaseUtils.NatToString | release/release_utils.py:305 | Python's `str(n)`: decimal digits without a leading zero whose value is n, never containing a dot |
| ReleaseUtils.ParseIntOfNatToString | release/release_utils.py:284 | `int(str(n)) == n` for every n >= 0 |
| ReleaseUtils.StripUnspaced | release/release_utils.py:284 | `int()`'s whitespace strip leaves a string that starts and ends with a non-space unchanged |
| ReleaseUtils.Split | release/release_utils.py:283 | `version.split('.')`: at least one piece, and no piece contains the separator |
| ReleaseUtils.JoinSplit | release/release_utils.py:283 | joining the pieces of a split with the separator gives the string back |
| ReleaseUtils.SplitJoin | release/release_utils.py:283 | splitting a join of separator-free pieces gives the pieces back |
| ReleaseUtils.SplitNoSep | release/release_utils.py:283 | a string without the separator splits into itself alone |
| ReleaseUtils.SplitPrefix | release/release_utils.py:283 | a separator-free word followed by the separator splits off as the first piece |
| ReleaseUtils.ParseInt | release/release_utils.py:284 | Python 2 `int()` on a str: the only error it raises is ValueError |
| ReleaseUtils.ParseIntAccepts | release/release_utils.py:284 | `int(x)` succeeds exactly when the stripped text is a run of digits, optionally preceded by a sign and whitespace after the sign; a negative result needs a leading minus |
| ReleaseUtils.SpaceAfterSign | release/release_utils.py:284 | whitespace between the sign and the digits is skipped: `int("- " + d) == -d` |
| ReleaseUtils.ParseAll | release/release_utils.py:284-289 | one `int()` result per piece, as many results as pieces |
| ReleaseUtils.ParseAllPointwise | release/release_utils.py:284-289 | the k-th result is `int()` of the k-th piece |
| ReleaseUtils.EncodeResultsOutcome | release/release_utils.py:282-290 | the encoding succeeds exactly when there are two pieces and the first two (and a third and fourth, when present) parse; a bad first piece raises its ValueError before a missing second piece raises IndexError |
| ReleaseUtils.VersionToIntegerNeedsTwoInts | release/release_utils.py:282-285 | `version_to_integer` succeeds only with at least two pieces whose first two are ints; one int piece raises IndexError |
| ReleaseUtils.Oks | release/release_utils.py:284-289 | the parse results of numbers `int()` accepts, one per component |
| ReleaseUtils.NatStrings | release/release_utils.py:305 | `str()` of each component, in order |
| ReleaseUtils.VersionComponents | release/release_utils.py:292-310 | the printed components: three, and a fourth only when n%10 is not 0 |
| ReleaseUtils.WeightedOfComponents | release/release_utils.py:282-310 | for n >= 0 the weights 1000/100/10/1 recombine the div/mod components into n |
| ReleaseUtils.ComponentsOfWeighted | release/release_utils.py:292-310 | single-digit minor, patch and build components are recovered exactly by div/mod |
| ReleaseUtils.DecodeComponents | release/release_utils.py:292-310 | the components printed for a weighted sum of digits are those digits, a zero build dropped |
| ReleaseUtils.DecodeText | release/release_utils.py:292-310 | `integer_to_version` of a weighted sum of digits prints those digits |
| ReleaseUtils.IntegerToVersion | release/release_utils.py:292-310 | the loop-free step-by-step update of `parts` and `intVer` yields VersionText(n) |
| ReleaseUtils.GuardedSteps | release/release_utils.py:294-304 | the three guarded steps compute the div/mod digits for n >= 0 and leave a negative n untouched, all parts 0 |
| ReleaseUtils.AssembledText | release/release_utils.py:306-308 | ".build" is appended exactly when the remaining build is positive |
| ReleaseUtils.SplitVersionOf | release/release_utils.py:283 | splitting the dotted text of components gives back their decimal strings |
| ReleaseUtils.VersionTextShape | release/release_utils.py:282-310 | the output always has three or four components, and encodes back to n for n >= 0 |
| ReleaseUtils.ParseAllNatStrings | release/release_utils.py:284-289 | `int()` accepts the `str()` of every component and gives it back |
| ReleaseUtils.EncodeOks | release/release_utils.py:282-290 | two to four successful parses encode to major·1000 + minor·100 + patch·10 + build |
| ReleaseUtils.VersionToIntegerOfComponents | release/release_utils.py:282-290 | "a.b[.c[.d]]" encodes to the weighted sum, a missing third or fourth component counting 0 |
| ReleaseUtils.VersionToIntegerOneComponent | release/release_utils.py:283-285 | a version with one component raises IndexError at `parts[1]` |
| ReleaseUtils.RoundTrip3 | release/release_utils.py:282-310 | round trip: a.b.c with b, c single digits encodes and decodes back to itself |
| ReleaseUtils.Encode3 | release/release_utils.py:282-290 | a.b.c encodes to a·1000 + b·100 + c·10 |
| ReleaseUtils.RoundTrip4 | release/release_utils.py:282-310 | round trip for a.b.c.d with a non-zero single-digit build |
| ReleaseUtils.Encode4 | release/release_utils.py:282-290 | a.b.c.d encodes to the weighted sum of all four |
| ReleaseUtils.RoundTrip2 | release/release_utils.py:282-310 | a two-component version comes back with an explicit ".0" ("1.0" gives "1.0.0") |
| ReleaseUtils.AllIntsNatStrings | release/release_utils.py:276 | the list comprehension `int(x)` of increment_version succeeds on printed components |
| ReleaseUtils.IncrementVersionFails | release/release_utils.py:276-280 | `increment_version` succeeds exactly when every piece is an int and the version encodes; a non-int piece raises ValueError first, otherwise the encoding's error is raised |
| ReleaseUtils.IncrementOfEncoded | release/release_utils.py:276-280 | a version whose pieces are ints and that encodes to n is incremented to the text of n + 10 |
| ReleaseUtils.IncrementAddsTen | release/release_utils.py:276-280 | the recommended version has three or four components and encodes to ten more than the input (when that is not negative) |
| ReleaseUtils.AllIntsVersionOf | release/release_utils.py:276 | every piece of a version printed from numbers is accepted by `int()` |
| ReleaseUtils.IncrementVersionOf | release/release_utils.py:261-280 | a well-formed a.b.c is incremented by encoding, adding 10 and decoding |
| ReleaseUtils.IncrementNoCarry | release/release_utils.py:261-280 | a last component below 9 is bumped by one |
| ReleaseUtils.IncrementCarryMinor | release/release_utils.py:261-280 | a last component of 9 carries into the middle one |
| ReleaseUtils.IncrementCarryMajor | release/release_utils.py:261-280 | "a.9.9" carries into the major component |
| ReleaseUtils.IncrementDoctest103 | release/release_utils.py:266-267 | the doctest 1.0.3 → 1.0.4 |
| ReleaseUtils.IncrementDoctest109 | release/release_utils.py:268-269 | the doctest 1.0.9 → 1.1.0 |
| ReleaseUtils.IncrementDoctest119 | release/release_utils.py:270-271 | the doctest 1.1.9 → 1.2.0 |
| ReleaseUtils.IncrementDoctest131 | release/release_utils.py:272-273 | the doctest 1.3.1 → 1.3.2 |
| ReleaseUtils.IsVersionIncreased | release/release_utils.py:312-313 | succeeds exactly when both versions encode (the new one is evaluated and may raise first); then true iff the new encoding is larger |
| ReleaseUtils.NotIncreasedOverItself | release/release_utils.py:312-313 | a version is never an increase over itself |
| ReleaseUtils.WeightedOrder | release/release_utils.py:282-290 | with single-digit minor, patch and build, a smaller weighted sum means exactly a lexicographically earlier version |
| ReleaseUtils.IncreasedIffLater | release/release_utils.py:312-313 | for two to four components with single-digit minor, patch and build, is_version_increased is true exactly when the new version's components, missing ones counted as 0, are lexicographically greater |
| ReleaseUtils.IncrementIsIncrease | release/release_utils.py:261-313 | whatever increment_version recommends is an increase over its input |
| ReleaseUtils.LeadingDigits | release/release_utils.py:197 | the longest run of digits at the start of a string (`\d+`) |
| ReleaseUtils.MatchesVersionPrefixMeaning | release/release_utils.py:197 | the filter holds exactly for strings starting with `\d+\.\d+(\.\d+)?(\.\d+)?` |
| ReleaseUtils.MaxBy | release/release_utils.py:196-212 | the loop keeps the first selected string and replaces it only by a strictly greater one: an earliest maximum; None iff nothing is selected; an encoding failure raises |
| ReleaseUtils.MaxVersion | release/release_utils.py:196-212 | None iff no string matches the pattern; otherwise a matching string whose encoding is ≥ every matching one's, the earliest on ties; raises iff a matching string fails to encode |
| ReleaseUtils.Duplicate | release/release_utils.py:97-101 | str repeated `times` times, "" when times <= 0 |
| ReleaseUtils.RepeatOnce | release/release_utils.py:99-100 | one more pass of the loop appends one more copy of str |
| ReleaseUtils.PadTo | release/release_utils.py:103-105 | the original is a prefix, followed by filler repeated max(0, size − len) times |
| ReleaseUtils.MatchArg | release/release_utils.py:29-34 | the last table entry whose long or short name equals arg; None iff no entry names it |
| ReleaseUtils.WithDependenciesIsClosure | release/release_utils.py:74-80 | CF ⇒ AFU ∧ LT and AFU ⇒ LT afterwards; no flag is switched off; it is the least such closure and idempotent |
| ReleaseUtils.MatchedProjects.AddProjectDependencies | release/release_utils.py:74-80 | the flags become their dependency closure in place |
| ReleaseUtils.MatchedProjects.constructor | release/release_utils.py:37-41 | the project flags start as given |
| QualifierHierarchy.WithQualifier | checkers/src/checkers/util/GraphQualifierHierarchy.java:66-74 | addQualifier is idempotent: a known qualifier keeps its supertypes; a new one starts with none; nothing else changes |
| QualifierHierarchy.WithSubtype | checkers/src/checkers/util/GraphQualifierHierarchy.java:89-94 | addSubtype adds both qualifiers and puts sup among sub's direct supertypes, changing no other entry and keeping the graph closed |
| QualifierHierarchy.Factory.constructor | checkers/src/checkers/util/GraphQualifierHierarchy.java:51-59 | the factory starts with no qualifier, no polymorphic qualifier, and not yet built |
| QualifierHierarchy.Factory.AddQualifier | checkers/src/checkers/util/GraphQualifierHierarchy.java:66-74 | after build it throws "already built" and changes nothing; before, the graph is WithQualifier and a new polymorphic qualifier is remembered |
| QualifierHierarchy.Factory.AddSubtype | checkers/src/checkers/util/GraphQualifierHierarchy.java:89-94 | after build it throws and changes nothing; before, the graph is WithSubtype and both qualifiers go through addQualifier |
| QualifierHierarchy.Factory.Build | checkers/src/checkers/util/GraphQualifierHierarchy.java:100-105 | throws once built; otherwise adds the poly relations, freezes the factory and hands out the resulting graph |
| QualifierHierarchy.Factory.AddPolyRelations | checkers/src/checkers/util/GraphQualifierHierarchy.java:119-133 | the graph becomes PolyRelations of the old graph, or the root assertion fails and nothing changes |
| QualifierHierarchy.Factory.AddAboveBottoms | checkers/src/checkers/util/GraphQualifierHierarchy.java:129-132 | the loop makes the poly qualifier a supertype of every bottom |
| QualifierHierarchy.AboveOneMore | checkers/src/checkers/util/GraphQualifierHierarchy.java:129-132 | one more loop iteration is one more addSubtype(bottom, poly) |
| QualifierHierarchy.PolyRelationsShape | checkers/src/checkers/util/GraphQualifierHierarchy.java:113-133 | a poly qualifier without supertypes gets the root as one; it becomes a supertype of every bottom; no other supertype is added or lost |
| QualifierHierarchy.FindRoot | checkers/src/checkers/util/GraphQualifierHierarchy.java:260-275 | the one qualifier without supertypes other than ignore; the assertion fails unless exactly one exists |
| QualifierHierarchy.FindBottoms | checkers/src/checkers/util/GraphQualifierHierarchy.java:294-304 | every qualifier that is no qualifier's supertype, minus ignore |
| QualifierHierarchy.FindBottom | checkers/src/checkers/util/GraphQualifierHierarchy.java:277-284 | the bottom when there is exactly one, otherwise null |
| QualifierHierarchy.FindAllSupers | checkers/src/checkers/util/GraphQualifierHierarchy.java:388-402 | the transitive supertypes of anno, memoised: the memo only ever holds finished closures |
| QualifierHierarchy.UpOneMore | checkers/src/checkers/util/GraphQualifierHierarchy.java:395-399 | the union over one more direct supertype adds that supertype's closure |
| QualifierHierarchy.BuildFullMap | checkers/src/checkers/util/GraphQualifierHierarchy.java:306-313 | the transitive closure of every qualifier |
| QualifierHierarchy.ClosureBelow | checkers/src/checkers/util/GraphQualifierHierarchy.java:388-402 | on an acyclic graph every transitive supertype is in the graph and strictly higher |
| QualifierHierarchy.ClosureTransitive | checkers/src/checkers/util/GraphQualifierHierarchy.java:388-402 | the full map is transitive |
| QualifierHierarchy.ClosureEmpty | checkers/src/checkers/util/GraphQualifierHierarchy.java:388-402 | a qualifier has no transitive supertypes exactly when it has no direct ones |
| QualifierHierarchy.RootAbove | checkers/src/checkers/util/GraphQualifierHierarchy.java:144-150 | on an acyclic graph with one root, every other qualifier has the root among its transitive supertypes |
| QualifierHierarchy.FullMapShape | checkers/src/checkers/util/GraphQualifierHierarchy.java:144-150 | the full map has the graph's qualifiers and roots, and is closed, transitive and irreflexive |
| QualifierHierarchy.FullMapRooted | checkers/src/checkers/util/GraphQualifierHierarchy.java:144-150 | the unique root is above every other qualifier in the full map and has no supertypes |
| QualifierHierarchy.NewHierarchy | checkers/src/checkers/util/GraphQualifierHierarchy.java:144-150 | succeeds iff there is exactly one root; the hierarchy is valid (closed, transitive, irreflexive, rooted); the bottom is set iff it is unique |
| QualifierHierarchy.IsSubtype | checkers/src/checkers/util/GraphQualifierHierarchy.java:228-250 | everything is below the root; same-type annotations are related only when equal; a qualifier outside the graph is an error otherwise |
| QualifierHierarchy.SubtypeTransitive | checkers/src/checkers/util/GraphQualifierHierarchy.java:228-237 | on a valid hierarchy with distinct type names isSubtype is transitive |
| QualifierHierarchy.SubtypeAntisymmetric | checkers/src/checkers/util/GraphQualifierHierarchy.java:228-237 | isSubtype both ways means equal annotations |
| QualifierHierarchy.AboveShrinks | checkers/src/checkers/util/GraphQualifierHierarchy.java:330-363 | a strict supertype has strictly fewer supertypes (the measure of findLub's recursion) |
| QualifierHierarchy.BelowShrinks | checkers/src/checkers/util/GraphQualifierHierarchy.java:420-445 | a strict subtype has strictly fewer subtypes (the measure of findGlb's recursion) |
| QualifierHierarchy.FindSmallestTypes | checkers/src/checkers/util/GraphQualifierHierarchy.java:366-379 | removes every member that has a subtype in the set |
| QualifierHierarchy.FindGreatestTypes | checkers/src/checkers/util/GraphQualifierHierarchy.java:448-461 | removes every member that has a supertype in the set |
| QualifierHierarchy.FindLub | checkers/src/checkers/util/GraphQualifierHierarchy.java:330-363 | the supertype when the two are comparable; any result is in the graph and, with distinct names, an upper bound of both |
| QualifierHierarchy.FindGlb | checkers/src/checkers/util/GraphQualifierHierarchy.java:420-445 | the subtype when the two are comparable; any result is in the graph and, with distinct names, a lower bound of both |
| QualifierHierarchy.LeastUpperBound | checkers/src/checkers/util/GraphQualifierHierarchy.java:190-201 | equal annotations give themselves; same type different values give the root; a pair outside the graph gives null; otherwise findLub's upper bound |
| QualifierHierarchy.GreatestLowerBound | checkers/src/checkers/util/GraphQualifierHierarchy.java:206-215 | equal annotations give themselves; same type different values give the bottom; a pair outside the graph gives null; otherwise findGlb's lower bound |
| QualifierHierarchy.PairEqualsUnordered | checkers/src/checkers/util/GraphQualifierHierarchy.java:485-497 | two pairs are equal iff they hold the same two annotation type names in either order |
| FlowExpressions.ContainsUnknownOccurs | checkers/src/checkers/flow/analysis/FlowExpressions.java:232-235 | a receiver contains Unknown exactly when some Unknown occurs in it (field accesses and pure calls look through their parts) |
| FlowExpressions.ContainsUnknown | checkers/src/checkers/flow/analysis/FlowExpressions.java:232-235 | a receiver with an Unknown inside is never unmodifiable by other code |
| FlowExpressions.IsUnmodifiableByOtherCode | checkers/src/checkers/flow/analysis/FlowExpressions.java:237-238 | only a chain of field accesses, without method calls, can be unmodifiable by other code |
| FlowExpressions.SyntacticEquals | checkers/src/checkers/flow/analysis/FlowExpressions.java:216-223 | syntactically equal receivers are equal |
| FlowExpressions.ContainsAliasOf | checkers/src/checkers/flow/analysis/FlowExpressions.java:350-354 | a receiver with an Unknown inside may alias any receiver |
| FlowExpressions.SyntacticEqualsIsEquality | checkers/src/checkers/flow/analysis/FlowExpressions.java:123-129 | syntacticEquals, over every receiver kind, holds exactly for equal receivers |
| FlowExpressions.ContainsReceiverChain | checkers/src/checkers/flow/analysis/FlowExpressions.java:210-214 | a field access contains each receiver of its receiver chain |
| FlowExpressions.OccursIsAlias | checkers/src/checkers/flow/analysis/FlowExpressions.java:152-156 | whatever occurs in a receiver may alias part of it |
| FlowExpressions.JavaEquals | checkers/src/checkers/flow/analysis/FlowExpressions.java:188-195 | leaf receivers compare by value; a call is only equal to a call and a field access only to a field access; an exception needs a pure call on both sides |
| FlowExpressions.ParametersEqual | checkers/src/checkers/flow/analysis/FlowExpressions.java:549-555 | a call with more parameters than the other, reaching the end of the other's list, never answers equal |
| FlowExpressions.JavaEqualsAsymmetric | checkers/src/checkers/flow/analysis/FlowExpressions.java:544-559 | m(x) equals m(x, y), but m(x, y).equals(m(x)) throws |
| FlowExpressions.JavaEqualsWithoutCalls | checkers/src/checkers/flow/analysis/FlowExpressions.java:188-195 | when either side holds no pure call, the Java equals is value equality |
| FlowExpressions.JavaEqualsReflexive | checkers/src/checkers/flow/analysis/FlowExpressions.java:544-559 | every receiver equals itself under the Java equals, without throwing |
| FlowExpressions.JavaEqualsSameArity | checkers/src/checkers/flow/analysis/FlowExpressions.java:544-559 | where the calls of the two receivers have equally many parameters throughout, the recursive Java equals never throws and is value equality |
| FlowExpressions.UnknownsInWiden | checkers/src/checkers/flow/analysis/FlowExpressions.java:58-96 | widening the range of new object numbers keeps every Unknown inside it |
| FlowExpressions.InternalReprOf | checkers/src/checkers/flow/analysis/FlowExpressions.java:58-96 | each node kind becomes its receiver; an unrecognised node and a call without a purity annotation become a new Unknown; a pure call keeps its callee and one parameter per argument |
| FlowExpressions.InternalReprOfArguments | checkers/src/checkers/flow/analysis/FlowExpressions.java:80-83 | one receiver per argument, in order |
| FlowExpressions.InternalReprOfUnknowns | checkers/src/checkers/flow/analysis/FlowExpressions.java:58-96 | the translation contains Unknown iff the node has an unrecognised part, and every Unknown in it is a new object |
| FlowExpressions.InternalReprOfArgumentsUnknowns | checkers/src/checkers/flow/analysis/FlowExpressions.java:80-83 | the arguments' Unknowns are new objects, and match the unrecognised arguments |
| FlowExpressions.IntendedEquals | checkers/src/checkers/flow/analysis/FlowExpressions.java:544-559 | the intended equals, recursing the same way but comparing parameter counts first, is exactly value equality: never throws, symmetric |
| AbstractStore.Insert | checkers/src/checkers/flow/analysis/checkers/CFAbstractStore.java:243-276 | a null value or a receiver holding Unknown changes nothing; only the map of the receiver's kind changes; well-formed stores stay well-formed |
| AbstractStore.Clear | checkers/src/checkers/flow/analysis/checkers/CFAbstractStore.java:299-316 | forgets r in the map of its kind only; a receiver holding Unknown changes nothing |
| AbstractStore.InsertThenGet | checkers/src/checkers/flow/analysis/checkers/CFAbstractStore.java:243-337 | after inserting v for r, getValue(r) is mostSpecific(v, old value) and every other receiver's value is unchanged |
| AbstractStore.CanInsertMeansStored | checkers/src/checkers/flow/analysis/checkers/CFAbstractStore.java:218-225 | canInsertReceiver holds exactly for the receivers whose inserted value can be read back |
| AbstractStore.ReplaceForgets | checkers/src/checkers/flow/analysis/checkers/CFAbstractStore.java:288-292 | after replaceValue no old information about r survives: null leaves nothing, a value is stored alone |
| AbstractStore.Rebuild | checkers/src/checkers/flow/analysis/checkers/CFAbstractStore.java:439-517 | the loop that builds a new map keeps exactly the entries the filter keeps, with the filter's values |
| AbstractStore.MergeCommon | checkers/src/checkers/flow/analysis/checkers/CFAbstractStore.java:571-619 | the lub loop over the other store's entries keeps common keys whose merge is not null |
| AbstractStore.ContainsAll | checkers/src/checkers/flow/analysis/checkers/CFAbstractStore.java:628-652 | the supersetOf loop over one map succeeds iff every entry is present with an equal value |
| AbstractStore.ContainsAllOf | checkers/src/checkers/initialization/InitializationStore.java:157-161 | the containsAll loop succeeds iff every element is present |
| AbstractStore.RemoveConflictingLocal | checkers/src/checkers/flow/analysis/checkers/CFAbstractStore.java:491-517 | keeps the locals; only removes field and call entries |
| AbstractStore.AssignLocal | checkers/src/checkers/flow/analysis/checkers/CFAbstractStore.java:553-558 | the variable gets the new value (or keeps its old one for null), after the conflicting entries go |
| AbstractStore.AssignLocalDropsDependents | checkers/src/checkers/flow/analysis/checkers/CFAbstractStore.java:491-517 | after assigning x, no remaining field access reads x along its receiver chain, and every remaining entry is unchanged |
| AbstractStore.AssignLocalDropsCalls | checkers/src/checkers/flow/analysis/checkers/CFAbstractStore.java:491-517 | after assigning x, no remaining pure call has x as receiver or inside a parameter |
| AbstractStore.RemoveConflictingField | checkers/src/checkers/flow/analysis/checkers/CFAbstractStore.java:439-476 | removes the field itself and every call entry, and only removes other fields |
| AbstractStore.AssignField | checkers/src/checkers/flow/analysis/checkers/CFAbstractStore.java:371-382 | the field holds exactly the new value when it is storable, and is absent otherwise; locals stay; every call entry goes |
| AbstractStore.AssignFieldKeeps | checkers/src/checkers/flow/analysis/checkers/CFAbstractStore.java:439-476 | an untouched field entry survives only when nothing can alias it; a changed one is the same field of a possible alias, non-final, and merged with the new value |
| AbstractStore.AssignUnknown | checkers/src/checkers/flow/analysis/checkers/CFAbstractStore.java:395-412 | locals stay, every call entry goes, and surviving field entries are unchanged |
| AbstractStore.AssignUnknownDropsUnknownReceivers | checkers/src/checkers/flow/analysis/checkers/CFAbstractStore.java:395-412 | a field access whose receiver chain passes through an Unknown is always dropped |
| AbstractStore.UnknownAliasesAll | checkers/src/checkers/flow/analysis/FlowExpressions.java:350-354 | Unknown anywhere in a receiver makes it a possible alias of anything |
| AbstractStore.Havoc | checkers/src/checkers/flow/analysis/checkers/CFAbstractStore.java:128-190 | a side-effect-free call changes nothing; any other call drops every call entry and only removes or weakens field entries |
| AbstractStore.MethodCallKeepsUnmodifiable | checkers/src/checkers/flow/analysis/checkers/CFAbstractStore.java:128-190 | information about a field that other code cannot modify survives any method call |
| AbstractStore.MethodCallDropsModifiable | checkers/src/checkers/flow/analysis/checkers/CFAbstractStore.java:128-190 | after a side-effecting call only unmodifiable or monotonic field entries remain |
| AbstractStore.Lub | checkers/src/checkers/flow/analysis/checkers/CFAbstractStore.java:571-619 | only entries known in both stores survive |
| AbstractStore.LubKeys | checkers/src/checkers/flow/analysis/checkers/CFAbstractStore.java:571-619 | a key is in the lub exactly when both stores know it and the merge is not null, and its value is that merge |
| AbstractStore.LubCommutative | checkers/src/checkers/flow/analysis/checkers/CFAbstractStore.java:571-619 | with a commutative value lub, the store lub is commutative |
| AbstractStore.LubIdempotent | checkers/src/checkers/flow/analysis/checkers/CFAbstractStore.java:571-619 | with an idempotent value lub, a store is its own lub |
| AbstractStore.StoreEqualsIsEquality | checkers/src/checkers/flow/analysis/checkers/CFAbstractStore.java:628-663 | equals (mutual supersetOf) holds exactly for stores with the same three maps |
| AbstractStore.LubOfSuperset | checkers/src/checkers/flow/analysis/checkers/CFAbstractStore.java:571-652 | the lub of a store with one it is a superset of is the smaller store |
| AbstractStore.CFStore.constructor | checkers/src/checkers/flow/analysis/checkers/CFAbstractStore.java:74-81 | a new store is empty |
| AbstractStore.CFStore.Copy | checkers/src/checkers/flow/analysis/checkers/CFAbstractStore.java:84-90 | the copy has equal maps and settings |
| AbstractStore.CFStore.InitializeMethodParameter | checkers/src/checkers/flow/analysis/checkers/CFAbstractStore.java:98-103 | a non-null value is recorded for the parameter; null leaves the store alone |
| AbstractStore.CFStore.InsertValue | checkers/src/checkers/flow/analysis/checkers/CFAbstractStore.java:243-276 | the maps become Insert of the old maps |
| AbstractStore.CFStore.ClearValue | checkers/src/checkers/flow/analysis/checkers/CFAbstractStore.java:299-316 | the maps become Clear of the old maps |
| AbstractStore.CFStore.ReplaceValue | checkers/src/checkers/flow/analysis/checkers/CFAbstractStore.java:288-292 | clearValue, then insertValue |
| AbstractStore.CFStore.Get | checkers/src/checkers/flow/analysis/checkers/CFAbstractStore.java:322-337 | getValue reads the map of the receiver's kind |
| AbstractStore.CFStore.UpdateForLocalAssignment | checkers/src/checkers/flow/analysis/checkers/CFAbstractStore.java:553-558 | the maps become AssignLocal of the old maps |
| AbstractStore.CFStore.UpdateForFieldAssignment | checkers/src/checkers/flow/analysis/checkers/CFAbstractStore.java:371-382 | the maps become AssignField of the old maps |
| AbstractStore.CFStore.UpdateForUnknownAssignment | checkers/src/checkers/flow/analysis/checkers/CFAbstractStore.java:395-412 | the maps become AssignUnknown of the old maps |
| AbstractStore.CFStore.UpdateForMethodCall | checkers/src/checkers/flow/analysis/checkers/CFAbstractStore.java:128-190 | the maps become MethodCall: the havoc, then the call's own value |
| AbstractStore.CFStore.LeastUpperBound | checkers/src/checkers/flow/analysis/checkers/CFAbstractStore.java:571-619 | a fresh store holding Lub of the two; neither input changes |
| AbstractStore.CFStore.IsSupersetOf | checkers/src/checkers/flow/analysis/checkers/CFAbstractStore.java:628-652 | supersetOf of the two stores' maps |
| AbstractStore.CFStore.Equals | checkers/src/checkers/flow/analysis/checkers/CFAbstractStore.java:655-663 | true exactly when the two stores hold the same three maps |
| InitializationStore.InitializedBy | checkers/src/checkers/initialization/InitializationStore.java:54-74 | inserting a non-null value at or below the invariant annotation for a field on `this` or on a class name marks that field initialized, static or not; in every other case nothing is marked; nothing but the inserted field is ever marked |
| InitializationStore.InsertFields | checkers/src/checkers/initialization/InitializationStore.java:108-111 | re-inserting the invariant value touches only field entries, and adds exactly the storable ones |
| InitializationStore.InsertOneMore | checkers/src/checkers/initialization/InitializationStore.java:108-111 | one more iteration of the re-insert loop is one more insertValue |
| InitializationStore.InvariantFields | checkers/src/checkers/initialization/InitializationStore.java:95-104 | the invariant fields are collected from the field map |
| InitializationStore.MethodCallRestoresInvariant | checkers/src/checkers/initialization/InitializationStore.java:86-112 | a field with the invariant annotation that was in the store is in it again after any call |
| InitializationStore.MethodCallKeepsInitialized | checkers/src/checkers/initialization/InitializationStore.java:86-112 | initialized fields are never lost by a method call |
| InitializationStore.InitStore.constructor | checkers/src/checkers/initialization/InitializationStore.java:39-44 | a new store is empty with no initialized fields |
| InitializationStore.InitStore.Copy | checkers/src/checkers/initialization/InitializationStore.java:116-119 | the copy has an equal but separate base store and set |
| InitializationStore.InitStore.InsertValue | checkers/src/checkers/initialization/InitializationStore.java:54-74 | the base insertion, then the initialized set grows by InitializedBy |
| InitializationStore.InitStore.AddInitializedFieldAccess | checkers/src/checkers/initialization/InitializationStore.java:126-132 | only a field on `this` or a static field becomes initialized |
| InitializationStore.InitStore.AddInitializedField | checkers/src/checkers/initialization/InitializationStore.java:139-141 | the field becomes initialized |
| InitializationStore.InitStore.UpdateForMethodCall | checkers/src/checkers/initialization/InitializationStore.java:86-112 | the state becomes InitMethodCall: collect the invariant fields, havoc, re-insert them |
| InitializationStore.InitStore.InsertInvariant | checkers/src/checkers/initialization/InitializationStore.java:108-111 | the re-insert loop inserts the invariant value for every collected field |
| InitializationStore.InitStore.IsSupersetOf | checkers/src/checkers/initialization/InitializationStore.java:151-163 | true iff the other's initialized fields are all here and the base stores are in the superset relation |
| InitializationStore.InitStore.LeastUpperBound | checkers/src/checkers/initialization/InitializationStore.java:166-174 | the base lub, and the intersection of the initialized fields |
| CommitmentStore.MergeInitialized | checkers/src/checkers/commitment/CommitmentStore.java:68-76 | addAll then retainAll is set intersection |
| CommitmentStore.MergeInitializedBelow | checkers/src/checkers/commitment/CommitmentStore.java:68-76 | the merged set lies below both inputs, merging is symmetric and idempotent |
| CommitmentStore.CommitmentStore.constructor | checkers/src/checkers/commitment/CommitmentStore.java:26-32 | a new store knows nothing and has no initialized fields |
| CommitmentStore.CommitmentStore.Copy | checkers/src/checkers/commitment/CommitmentStore.java:34-38 | a separate base store and set with equal contents |
| CommitmentStore.CommitmentStore.AddInitializedField | checkers/src/checkers/commitment/CommitmentStore.java:42-51 | f becomes initialized and no other field's status changes |
| CommitmentStore.CommitmentStore.IsSupersetOf | checkers/src/checkers/commitment/CommitmentStore.java:54-66 | false as soon as one of the other's initialized fields is missing; otherwise the base supersetOf |
| CommitmentStore.CommitmentStore.LeastUpperBound | checkers/src/checkers/commitment/CommitmentStore.java:68-76 | the base lub, and the intersection of the initialized fields |
| Analysis.ValuesOnlyForNodes | checkers/src/checkers/flow/analysis/Analysis.java:115-123 | running over a block records values only for its own nodes and keeps every other node's value |
| Analysis.Edges | checkers/src/checkers/flow/analysis/Analysis.java:108-198 | a block sends stores to its successors and to nothing else, and every successor receives a store |
| Analysis.NormalSuccessorGetsInput | checkers/src/checkers/flow/analysis/Analysis.java:134-151 | an exception block's normal successor receives the copied transfer input as the transfer function left it (`addStoreBefore(succ, store)`), not the result's regular store |
| Analysis.Enqueue | checkers/src/checkers/flow/analysis/Analysis.java:235-240 | addToWorklist appends b unless it is already queued; the queue then holds exactly the old blocks and b |
| Analysis.EnqueueNoDuplicates | checkers/src/checkers/flow/analysis/Analysis.java:235-240 | the worklist never holds a block twice |
| Analysis.MergeKeepsAbsorbing | checkers/src/checkers/flow/analysis/Analysis.java:246-258 | once a block's store absorbs a store, later merges into any block keep that |
| Analysis.MergedAbsorbs | checkers/src/checkers/flow/analysis/Analysis.java:246-258 | after merging s into a block's store, that store absorbs s |
| Analysis.Analysis.constructor | checkers/src/checkers/flow/analysis/Analysis.java:82-85 | the analysis starts with no stores, no queued blocks and no node values |
| Analysis.Analysis.Init | checkers/src/checkers/flow/analysis/Analysis.java:207-229 | only the entry block is queued, with the initial store, and no node values are known |
| Analysis.Analysis.AddToWorklist | checkers/src/checkers/flow/analysis/Analysis.java:235-240 | the worklist becomes Enqueue of the old one; stores and values stay |
| Analysis.Analysis.AddStoreBefore | checkers/src/checkers/flow/analysis/Analysis.java:246-258 | the block's store becomes s or its lub with s, and the block is queued iff its store is new or changed |
| Analysis.Analysis.Propagate | checkers/src/checkers/flow/analysis/Analysis.java:129 | one addStoreBefore while processing a block keeps the worklist invariant: the sent store is absorbed, stores only move up, queued blocks stay queued, and the processed block is queued again exactly when its own store changed |
| Analysis.Analysis.RunContents | checkers/src/checkers/flow/analysis/Analysis.java:115-126 | the loop over a regular block's nodes threads the store and records every non-null node value |
| Analysis.Analysis.PropagateExceptional | checkers/src/checkers/flow/analysis/Analysis.java:155-168 | every exceptional successor receives the exceptional store of its cause, or the block's store before |
| Analysis.Analysis.Step | checkers/src/checkers/flow/analysis/Analysis.java:103-199 | one iteration takes the first queued block; afterwards the target of every edge of Edges absorbs the store sent along it, every block's new store absorbs its old one, the other queued blocks stay queued, the block is queued again exactly when its own store changed, and every block not queued is stable |
| Analysis.Analysis.Process | checkers/src/checkers/flow/analysis/Analysis.java:107-197 | the switch on the block kind sends a store along every edge of Edges, keeping the processing invariant |
| Analysis.Analysis.ProcessRegular | checkers/src/checkers/flow/analysis/Analysis.java:107-130 | a regular block's successor absorbs the output of its contents |
| Analysis.Analysis.ProcessException | checkers/src/checkers/flow/analysis/Analysis.java:132-170 | an exception block's normal successor absorbs the updated input, and each exceptional successor the cause's store or the store before |
| Analysis.Analysis.PerformAnalysis | checkers/src/checkers/flow/analysis/Analysis.java:101-204 | the entry block's store always absorbs the initial store; when the worklist is empty every block with a store is stable: the stores are a fixpoint of the transfer function under the lub |
| Analysis.Analysis.GetValue | checkers/src/checkers/flow/analysis/Analysis.java:286-288 | the node's recorded value, or null |
| AnalysisResult.PutAll | checkers/src/checkers/flow/analysis/AnalysisResult.java:59-69 | putting every entry of other into a map: other wins on clashes |
| AnalysisResult.TreeValue | checkers/src/checkers/flow/analysis/AnalysisResult.java:83-86 | a tree's value is the value of its node, or null when either lookup misses |
| AnalysisResult.CombinedTreeValue | checkers/src/checkers/flow/analysis/AnalysisResult.java:59-86 | after combining, a tree whose node and value come from the other result has the other's value; a tree the other knows nothing of keeps its value |
| AnalysisResult.AnalysisResult.constructor | checkers/src/checkers/flow/analysis/AnalysisResult.java:40-45 | the result holds the given maps |
| AnalysisResult.AnalysisResult.Empty | checkers/src/checkers/flow/analysis/AnalysisResult.java:50-54 | the empty result |
| AnalysisResult.AnalysisResult.Combine | checkers/src/checkers/flow/analysis/AnalysisResult.java:59-69 | every entry of the other result is put into this one; the other wins on clashes; entries it lacks are kept |
| AnalysisResult.AnalysisResult.GetValue | checkers/src/checkers/flow/analysis/AnalysisResult.java:75-77 | getValue(Node): the recorded value or null |
| AnalysisResult.AnalysisResult.GetNodeForTree | checkers/src/checkers/flow/analysis/AnalysisResult.java:91-93 | the node recorded for the tree, or null |
| AnalysisResult.AnalysisResult.GetTreeValue | checkers/src/checkers/flow/analysis/AnalysisResult.java:83-86 | getValue(Tree) is TreeValue |
| Transfer.MoreSpecificValue | checkers/src/checkers/flow/analysis/checkers/CFAbstractTransfer.java:765-773 | a null side yields the other; the result is null only when both are; otherwise value1.mostSpecific(value2) |
| Transfer.TernaryValue | checkers/src/checkers/flow/analysis/checkers/CFAbstractTransfer.java:316-327 | the ternary's value is the lub of the branch values, and null when either is null |
| Transfer.ConditionalNot | checkers/src/checkers/flow/analysis/checkers/CFAbstractTransfer.java:333-340 | the negation's then-store is the operand's else-store and vice versa; the value is kept |
| Transfer.ConditionalNotTwice | checkers/src/checkers/flow/analysis/checkers/CFAbstractTransfer.java:333-340 | negating twice gives back the operand's stores |
| Transfer.Strengthen | checkers/src/checkers/flow/analysis/checkers/CFAbstractTransfer.java:396-418 | nothing changes when firstValue is null, equal to secondValue, or the second receiver cannot be stored; == never touches the else-store and != never the then-store; in the refined store the second receiver then holds mostSpecific(firstValue, its old value) whenever insertValue keeps it, and every other receiver keeps its value |
| Transfer.EqualityComparison | checkers/src/checkers/flow/analysis/checkers/CFAbstractTransfer.java:343-394 | `a == b` leaves the else-store as it was and `a != b` the then-store |
| Transfer.EqualityRefinesOneBranch | checkers/src/checkers/flow/analysis/checkers/CFAbstractTransfer.java:343-418 | == refines only the then-store and != only the else-store; for distinct operands, in the refined store the right operand holds mostSpecific(left value, its old value) and the left operand mostSpecific(right value, its old value), each when that value is non-null, differs from the operand's own and can be kept |
| Transfer.ProcessCommonAssignment | checkers/src/checkers/flow/analysis/checkers/CFAbstractTransfer.java:453-481 | a local target updates the local, a field target the field, anything else is an unknown assignment; a type-variable right side with a non-type-variable left side uses the effective value |
| Transfer.AssignmentToLocalKnown | checkers/src/checkers/flow/analysis/checkers/CFAbstractTransfer.java:465-468 | after x = e the local x has exactly e's value |
| Transfer.InsertKeepsKnown | checkers/src/checkers/flow/analysis/checkers/CFAbstractTransfer.java:519-593 | inserting a postcondition never makes a known receiver unknown |
| Transfer.InsertEach | checkers/src/checkers/flow/analysis/checkers/CFAbstractTransfer.java:519-554 | applying the postconditions in order never forgets a storable receiver the store knew |
| Transfer.InsertWhen | checkers/src/checkers/flow/analysis/checkers/CFAbstractTransfer.java:595-633 | applying the conditional postconditions of one result flag never forgets a storable receiver the store knew |
| Transfer.InsertEachKnows | checkers/src/checkers/flow/analysis/checkers/CFAbstractTransfer.java:519-593 | under sequential semantics every storable postcondition receiver is known afterwards |
| Transfer.InsertWhenKnows | checkers/src/checkers/flow/analysis/checkers/CFAbstractTransfer.java:595-682 | under sequential semantics every storable receiver of a conditional postcondition with that flag is known afterwards |
| Transfer.InsertWhenNone | checkers/src/checkers/flow/analysis/checkers/CFAbstractTransfer.java:595-682 | with no conditional postcondition of that flag the store is unchanged |
| Transfer.MethodInvocation | checkers/src/checkers/flow/analysis/checkers/CFAbstractTransfer.java:484-516 | the call's value is the more specific of the factory's and the store's, and the result has two stores |
| Transfer.MethodInvocationPostconditions | checkers/src/checkers/flow/analysis/checkers/CFAbstractTransfer.java:501-512 | unconditional postconditions hold in both branch stores; a conditional one holds in the branch its result flag names |
| Transfer.MethodInvocationElseIsCopy | checkers/src/checkers/flow/analysis/checkers/CFAbstractTransfer.java:506-512 | with only result=true conditional postconditions the else-store is the copy taken before them |
| Transfer.Assert | checkers/src/checkers/flow/analysis/checkers/CFAbstractTransfer.java:684-694 | no value; the then-store when two stores are present and assumeAssertsAreEnabled is set, otherwise the regular store |
| Transfer.NoValue | checkers/src/checkers/flow/analysis/checkers/CFAbstractTransfer.java:700-703 | visitCase and visitVariableDeclaration: no value, the regular store passes through |
| CfgTryStack.DecimalString | checkers/src/checkers/flow/cfg/CFGBuilder.java:518 | the counter printed in decimal: at least one digit, all digits, one digit exactly below ten |
| CfgTryStack.DecimalStringInjective | checkers/src/checkers/flow/cfg/CFGBuilder.java:518 | different counter values print differently |
| CfgTryStack.GeneratedName | checkers/src/checkers/flow/cfg/CFGBuilder.java:517-519 | a generated name starts with "%L" |
| CfgTryStack.GeneratedNamesDistinct | checkers/src/checkers/flow/cfg/CFGBuilder.java:502-519 | two generated names are equal exactly when their counter values are |
| CfgTryStack.LabelGenerator.constructor | checkers/src/checkers/flow/cfg/CFGBuilder.java:494 | the counter starts at 0 with no name issued |
| CfgTryStack.LabelGenerator.FreshLabel | checkers/src/checkers/flow/cfg/CFGBuilder.java:502-519 | the new label is "%L" followed by the counter, which goes up by one; the name was never issued before |
| CfgTryStack.ClauseApplies | checkers/src/checkers/flow/cfg/CFGBuilder.java:586-613 | a clause catches iff the thrown type is a subtype of one alternative; it may catch iff none is a supertype of the thrown type and some alternative is a subtype of it |
| CfgTryStack.CatchFrameCaught | checkers/src/checkers/flow/cfg/CFGBuilder.java:586-622 | a catch frame reports the exception caught iff one of its clauses catches it |
| CfgTryStack.CatchFrameLabelsExact | checkers/src/checkers/flow/cfg/CFGBuilder.java:586-622 | a handler label is added iff its clause catches or may catch and no earlier clause catches |
| CfgTryStack.CatchFrameLabelsWithin | checkers/src/checkers/flow/cfg/CFGBuilder.java:586-622 | a catch frame adds only its own handler labels |
| CfgTryStack.PossibleFrameLabels | checkers/src/checkers/flow/cfg/CFGBuilder.java:637-640 | a finally frame adds its finally label and reports the exception caught |
| CfgTryStack.StackLabelsExit | checkers/src/checkers/flow/cfg/CFGBuilder.java:670-681 | the exit label is added when no frame catches, and (when it is not a handler label) only then |
| CfgTryStack.InnermostCatches | checkers/src/checkers/flow/cfg/CFGBuilder.java:670-681 | when the innermost frame catches, its labels are the whole answer; a finally frame answers with its finally label alone |
| CfgTryStack.ClauseApplication | checkers/src/checkers/flow/cfg/CFGBuilder.java:590-617 | the loop over one clause's alternatives computes ClauseApplies |
| CfgTryStack.CatchFramePossibleLabels | checkers/src/checkers/flow/cfg/CFGBuilder.java:558-626 | TryCatchFrame.possibleLabels adds exactly the frame's labels and reports whether it catches |
| CfgTryStack.TryStack.constructor | checkers/src/checkers/flow/cfg/CFGBuilder.java:653-656 | the stack starts with its exit label and no frames |
| CfgTryStack.TryStack.PushFrame | checkers/src/checkers/flow/cfg/CFGBuilder.java:658-660 | the frame goes to the front |
| CfgTryStack.TryStack.PopFrame | checkers/src/checkers/flow/cfg/CFGBuilder.java:662-664 | the front frame is removed, the others stay in order |
| CfgTryStack.TryStack.PossibleLabels | checkers/src/checkers/flow/cfg/CFGBuilder.java:670-681 | the labels are those of the frames innermost-first up to the first that catches, plus the exit label when none does |
| CfgPhases.PhaseOne.constructor | checkers/src/checkers/flow/cfg/CFGBuilder.java:1428-1430 | phase one starts with an empty node list, no bindings and no leaders |
| CfgPhases.PhaseOne.ExtendWithExtendedNode | checkers/src/checkers/flow/cfg/CFGBuilder.java:1542-1544 | the node is appended; bindings and leaders stay |
| CfgPhases.PhaseOne.AddLabelForNextNode | checkers/src/checkers/flow/cfg/CFGBuilder.java:1550-1553 | the next index becomes a leader and l is bound to it; the node list is unchanged |
| CfgPhases.PhaseOne.Finish | checkers/src/checkers/flow/cfg/CFGBuilder.java:1445 | phase one ends with an unconditional jump to the regular exit label, and every binding points into the list |
| CfgPhases.FinalJumpSuffices | checkers/src/checkers/flow/cfg/CFGBuilder.java:1151-1152 | thanks to the final jump, every non-terminating exception node has a next node to link to |
| CfgPhases.Step | checkers/src/checkers/flow/cfg/CFGBuilder.java:1074-1168 | one iteration assigns the next entry to a block and never shrinks the builder: blocks are only added, earlier entries keep their blocks, the current block exists and pending exceptional edges are only added |
| CfgPhases.StepKeepsInvariant | checkers/src/checkers/flow/cfg/CFGBuilder.java:1074-1168 | one iteration of phase two's loop keeps the partition and the linking facts of all entries so far |
| CfgPhases.StepOpen | checkers/src/checkers/flow/cfg/CFGBuilder.java:1076-1092 | a non-terminating node leaves its block open for the next node |
| CfgPhases.OldFactKept | checkers/src/checkers/flow/cfg/CFGBuilder.java:1074-1168 | later iterations never undo the linking fact of an earlier entry |
| CfgPhases.PartitionEntries | checkers/src/checkers/flow/cfg/CFGBuilder.java:1072-1169 | the loop over the node list puts every entry in a block: a leader starts a new block, fall-through nodes share one, and each entry records its pending edges |
| CfgPhases.LinkMissingEdges | checkers/src/checkers/flow/cfg/CFGBuilder.java:1171-1178 | every pending edge is linked to the block of its target entry; nothing else changes |
| CfgPhases.EntryLinkedAt | checkers/src/checkers/flow/cfg/CFGBuilder.java:1074-1194 | after linking, each entry's block has the successors its kind demands |
| CfgPhases.SpecialBlocksLinkedAtEnd | checkers/src/checkers/flow/cfg/CFGBuilder.java:1065-1068 | after linking, the entry block leads to the block of entry 0 |
| CfgPhases.PhaseTwo | checkers/src/checkers/flow/cfg/CFGBuilder.java:1045-1198 | phase two: every entry lies in a regular, conditional or exception block; leaders start blocks; jumps, conditional jumps and exception nodes are linked as the node list says; exceptional edges leave exception blocks only |
| CfgPhases.Redirect | checkers/src/checkers/flow/cfg/CFGBuilder.java:783-788 | the slot of the predecessor that leads to the pruned block is redirected; no other slot changes |
| CfgPhases.BypassConditional | checkers/src/checkers/flow/cfg/CFGBuilder.java:782-789 | bypassing a useless conditional block changes its predecessor only |
| CfgPhases.BypassLinksPredecessor | checkers/src/checkers/flow/cfg/CFGBuilder.java:782-789 | the predecessor now leads straight to the pruned block's successor |
| CfgPhases.FindPredecessor | checkers/src/checkers/flow/cfg/CFGBuilder.java:783 | the first block with an edge into c, or none when no block has one |
| CfgPhases.PruneConditionals | checkers/src/checkers/flow/cfg/CFGBuilder.java:776-791 | the pruning loop changes only edges: every block keeps its kind and contents |
| FlowExpressionParse.NewContext | checkers/src/checkers/util/FlowExpressionParseUtil.java:437-444 | the two-argument context uses its receiver as the outer receiver too |
| FlowExpressionParse.ChangeReceiver | checkers/src/checkers/util/FlowExpressionParseUtil.java:459-462 | a new receiver; the outer receiver and the arguments stay |
| FlowExpressionParse.UseOuterReceiver | checkers/src/checkers/util/FlowExpressionParseUtil.java:468-471 | both receivers become the outer one; the arguments stay |
| FlowExpressionParse.UseOuterIgnoresChange | checkers/src/checkers/util/FlowExpressionParseUtil.java:459-471 | changing the receiver never affects the context method arguments are parsed in |
| FlowExpressionParse.IntLiteralPositive | checkers/src/checkers/util/FlowExpressionParseUtil.java:82-83 | an int literal has no leading zero, so its value is at least 1 |
| FlowExpressionParse.ResolveIdentifier | checkers/src/checkers/util/FlowExpressionParseUtil.java:176-218 | an identifier is a field of the receiver's type (through its class when static), else a class name; it is an error exactly when neither lookup succeeds |
| FlowExpressionParse.ResolveMethod | checkers/src/checkers/util/FlowExpressionParseUtil.java:242-290 | a method parses exactly when resolution finds it and it is deterministic; a found method that is not deterministic gives flowexpr.method.not.deterministic |
| FlowExpressionParse.FormOf | checkers/src/checkers/util/FlowExpressionParseUtil.java:139-294 | the form chosen is one the string matches: #n, method call or dotted |
| FlowExpressionParse.Parse | checkers/src/checkers/util/FlowExpressionParseUtil.java:118-123 | parsing trims first: a string whose trimmed text has no allowed form is a parse error naming the trimmed text |
| FlowExpressionParse.ParseTrimmed | checkers/src/checkers/util/FlowExpressionParseUtil.java:294-296 | a string of no form allowed is a parse error |
| FlowExpressionParse.ParseParameter | checkers/src/checkers/util/FlowExpressionParseUtil.java:219-233 | #n is the n-th argument counting from 1 and parses iff n is at most the argument count; otherwise flowexpr.parse.index.too.big with n |
| FlowExpressionParse.ParseCall | checkers/src/checkers/util/FlowExpressionParseUtil.java:234-241 | a method call's arguments are parsed as a parameter list against the outer receiver |
| FlowExpressionParse.ParseOfTrimmed | checkers/src/checkers/util/FlowExpressionParseUtil.java:123 | parsing trims first, so a trimmed string goes straight to the form dispatch |
| FlowExpressionParse.NoWordStart | checkers/src/checkers/util/FlowExpressionParseUtil.java:56-91 | a string starting with no letter, digit, _, $ or quote matches no literal, name or method pattern |
| FlowExpressionParse.Scan | checkers/src/checkers/util/FlowExpressionParseUtil.java:339-408 | the scan of parseParameterList stops at a top-level comma, at the end, or reports an imbalance |
| FlowExpressionParse.FinishParam | checkers/src/checkers/util/FlowExpressionParseUtil.java:411-425 | the segment before idx gives one parameter, or none when idx is 0 |
| FlowExpressionParse.ParseParameterList | checkers/src/checkers/util/FlowExpressionParseUtil.java:328-409 | the loop over idx, callLevel and inString computes ParameterList |
| FlowExpressionParse.ParameterList | checkers/src/checkers/util/FlowExpressionParseUtil.java:328-425 | a parsed list is empty only for the empty string with an empty list allowed |
| FlowExpressionParse.ScanSegmentBalanced | checkers/src/checkers/util/FlowExpressionParseUtil.java:356-372 | the segment before a splitting comma is balanced and has no top-level comma |
| FlowExpressionParse.SplitOnlyAtTopLevel | checkers/src/checkers/util/FlowExpressionParseUtil.java:356-405 | commas inside a string literal or nested parentheses never split the list |
| FlowExpressionParse.UnclosedStringFails | checkers/src/checkers/util/FlowExpressionParseUtil.java:343-346 | reaching the end inside a string literal is a parse error |
| FlowExpressionParse.UnclosedCallFails | checkers/src/checkers/util/FlowExpressionParseUtil.java:343-346 | reaching the end with an open call is a parse error |
| FlowExpressionParse.CloseAtTopLevelFails | checkers/src/checkers/util/FlowExpressionParseUtil.java:390-398 | a ")" at depth 0 outside a string is a parse error |
| FlowExpressionParse.UnbalancedListFails | checkers/src/checkers/util/FlowExpressionParseUtil.java:339-398 | an unbalanced list is a parse error whatever its contents |
| FlowExpressionParse.EmptySegments | checkers/src/checkers/util/FlowExpressionParseUtil.java:411-425 | "" is the empty list when allowed; a leading comma is skipped only in first position; a trailing comma is an error |
| FlowExpressionParse.SingleParameter | checkers/src/checkers/util/FlowExpressionParseUtil.java:342-349 | a list without a top-level comma is the single parameter it parses to |
| FlowExpressionParse.ParameterText | checkers/src/checkers/util/FlowExpressionParseUtil.java:60 | the text of #d is "#" followed by d |
| FlowExpressionParse.ParseParameterReference | checkers/src/checkers/util/FlowExpressionParseUtil.java:219-233 | #n is the n-th argument when there are at least n, and an index-too-big error otherwise |
| FlowExpressionParse.ZeroIsNotAParameter | checkers/src/checkers/util/FlowExpressionParseUtil.java:60-67 | #0 (and #0 followed by digits) is a parse error, not a self reference |
| FlowExpressionParse.NullIsALiteral | checkers/src/checkers/util/FlowExpressionParseUtil.java:142-143 | "null" is a literal whatever the environment holds |
| FlowExpressionParse.ThisIsTheReceiver | checkers/src/checkers/util/FlowExpressionParseUtil.java:152-154 | "this" is the self reference whatever the environment holds |
| FlowExpressionParse.ParseLiteralForm | checkers/src/checkers/util/FlowExpressionParseUtil.java:139-151 | int, null, long and string literals parse as value literals |
| FlowExpressionParse.IntegersAreLiterals | checkers/src/checkers/util/FlowExpressionParseUtil.java:139-141 | a number without leading zero is an int literal |
| FlowExpressionParse.LongsAreLiterals | checkers/src/checkers/util/FlowExpressionParseUtil.java:144-146 | such a number followed by L is a long literal |
| FlowExpressionParse.IdentifiersAreLookedUp | checkers/src/checkers/util/FlowExpressionParseUtil.java:176-218 | any other identifier is a field of the receiver (through its class when static), else a class, else an error |
| FlowExpressionParse.SuperNeedsASuperclass | checkers/src/checkers/util/FlowExpressionParseUtil.java:155-175 | "super" is a self reference when the receiver's type has a superclass and an error otherwise |
| FlowExpressionParse.ZeroIsNotALiteral | checkers/src/checkers/util/FlowExpressionParseUtil.java:82-83 | "0" and 0 followed by digits are not int literals and do not parse |
| FlowExpressionParse.DotRulesOutWords | checkers/src/checkers/util/FlowExpressionParseUtil.java:56-91 | a dot inside the string rules out the literal, name and parameter forms |
| FlowExpressionParse.ParseDotForm | checkers/src/checkers/util/FlowExpressionParseUtil.java:291-301 | a dotted string is parsed by ParseDotted |
| FlowExpressionParse.ParseDotted | checkers/src/checkers/util/FlowExpressionParseUtil.java:291-301 | a dotted expression parses only if its part before the first dot parses, and an error there is the error of the whole |
| FlowExpressionParse.DottedSplitsAtFirstDot | checkers/src/checkers/util/FlowExpressionParseUtil.java:79-80 | a dotted expression splits at its first dot; the head is parsed with every form, the rest with member forms against the new receiver |
| FlowExpressionParse.ParameterAfterDotFails | checkers/src/checkers/util/FlowExpressionParseUtil.java:299-301 | "#i.#j" is a parse error in every context |
| FlowExpressionParse.MemberFormsRejectParametersAndLiterals | checkers/src/checkers/util/FlowExpressionParseUtil.java:299-301 | after a dot, parameters and number literals are errors |
| FlowExpressionParse.NoCallOrDot | checkers/src/checkers/util/FlowExpressionParseUtil.java:56-91 | parameters and number literals contain no "(" or "." and are not identifiers |
| FlowExpressionParse.MethodArgumentsUseOuterReceiver | checkers/src/checkers/util/FlowExpressionParseUtil.java:234-301 | the arguments of a call after a dot are parsed against the outer receiver, not the dotted one |
| FlowExpressionParse.DigitRun | checkers/src/checkers/util/FlowExpressionParseUtil.java:63 | the number of leading digits of a string |
| FlowExpressionParse.DigitRunExact | checkers/src/checkers/util/FlowExpressionParseUtil.java:63 | a maximal run of digits is the digit run |
| FlowExpressionParse.Indices | checkers/src/checkers/util/FlowExpressionParseUtil.java:478-487 | every match of #[1-9][0-9]* left to right, each index at least 1 |
| FlowExpressionParse.IndicesMatch | checkers/src/checkers/util/FlowExpressionParseUtil.java:478-484 | one match: # and a nonzero digit followed by the maximal digit run |
| FlowExpressionParse.IndicesSkip | checkers/src/checkers/util/FlowExpressionParseUtil.java:481 | where no match starts the search moves on by one character |
| FlowExpressionParse.NoHashNoIndices | checkers/src/checkers/util/FlowExpressionParseUtil.java:478-487 | a string without # names no parameter |
| FlowExpressionParse.IndicesOfParameterThenRest | checkers/src/checkers/util/FlowExpressionParseUtil.java:478-487 | a parameter reference contributes its index before those of the rest |
| FlowExpressionParse.ParameterIndices | checkers/src/checkers/util/FlowExpressionParseUtil.java:478-487 | the loop over successive matches computes Indices |
| SourceChecker.ParentOfOption | checkers/src/checkers/source/SourceChecker.java:1150-1157 | "all" has no parent; a name with ":" has the part before its last ":"; any other name has "all" |
| SourceChecker.Ancestors | checkers/src/checkers/source/SourceChecker.java:1074-1082 | the chain of parents the lookup walks always ends at "all", and only there |
| SourceChecker.Walk | checkers/src/checkers/source/SourceChecker.java:1074-1082 | an answer of the walk is always backed by the set: some ancestor of the name is active, or its negation is, with that value |
| SourceChecker.WalkStopsAtFirstMention | checkers/src/checkers/source/SourceChecker.java:1074-1082 | the walk answers at the first ancestor the active set mentions: true for the name, false for its negation |
| SourceChecker.WalkWithoutMention | checkers/src/checkers/source/SourceChecker.java:1074-1084 | when no ancestor is mentioned the walk finds nothing |
| SourceChecker.AllEnablesEverything | checkers/src/checkers/source/SourceChecker.java:1074-1082 | -Alint alone activates "all", which enables every lint option |
| SourceChecker.NoneDisablesEverything | checkers/src/checkers/source/SourceChecker.java:1074-1082 | "none" together with "-all" disables every lint option whose chain mentions neither |
| SourceChecker.SetThenGet | checkers/src/checkers/source/SourceChecker.java:1131-1137 | after setting an option to true it reads true; set to false it reads false unless the set enabled it outright |
| SourceChecker.ActiveLints | checkers/src/checkers/source/SourceChecker.java:403-430 | no lint option gives no active lint; -Alint without value gives "all"; otherwise exactly the items, plus "-all" when "none" is one; an empty unsupported item is an error |
| SourceChecker.CreateActiveLints | checkers/src/checkers/source/SourceChecker.java:403-430 | the loop over the comma-separated items computes ActiveLints |
| SourceChecker.NoLintOptionKeepsDefaults | checkers/src/checkers/source/SourceChecker.java:1066-1072 | without a lint option every lint option reads its default |
| SourceChecker.LintNoneDisables | checkers/src/checkers/source/SourceChecker.java:403-430 | -Alint=none disables every lint option whose chain mentions neither "none" nor "-all" |
| SourceChecker.LintSettings.constructor | checkers/src/checkers/source/SourceChecker.java:266 | the active lints are not yet computed |
| SourceChecker.LintSettings.GetLintOption | checkers/src/checkers/source/SourceChecker.java:1060-1085 | an unsupported name aborts; the active lints are computed once and kept; the answer is the walk's, or def |
| SourceChecker.LintSettings.SetLintOption | checkers/src/checkers/source/SourceChecker.java:1106-1139 | as written: an unsupported name aborts; before any getLintOption it dereferences null; otherwise it adds name or -name to the active lints |
| SourceChecker.LintSettings.SetLintOptionInitialised | checkers/src/checkers/source/SourceChecker.java:1106-1139 | with the active lints computed first, setting succeeds, keeps every entry, and the option then reads val |
| SourceChecker.SetBeforeGetFails | checkers/src/checkers/source/SourceChecker.java:1131-1132 | on a fresh checker, setting a supported lint option fails with a null dereference |
| SourceChecker.SetBeforeGetSucceeds | checkers/src/checkers/source/SourceChecker.java:1131-1132 | the corrected setter succeeds on a fresh checker and the option then reads true |
| SourceChecker.OptionTarget | checkers/src/checkers/source/SourceChecker.java:442-465 | a key without separator targets itself; a target other than the key has no separator; an error carries the invalid-option message with the key; "C_opt" targets "opt" when C names a class of the checker |
| SourceChecker.CreateActiveOptions | checkers/src/checkers/source/SourceChecker.java:432-468 | it aborts exactly when some key is invalid; otherwise every key's target holds that key's value, and nothing else is present |
| SourceChecker.ExpandCFOptions | checkers/src/checkers/source/SourceChecker.java:1320-1332 | each option, and each option prefixed by each class's canonical and simple name |
| SourceChecker.PrefixedMembers | checkers/src/checkers/source/SourceChecker.java:1326-1329 | the prefixed forms are exactly class name, separator, option |
| SourceChecker.ExpandedMembers | checkers/src/checkers/source/SourceChecker.java:1320-1332 | the expanded options are exactly the options and their class-prefixed forms |
| SourceChecker.ExpandedOptionsAreRecognised | checkers/src/checkers/source/SourceChecker.java:432-468 | an option expanded with a class prefix is recognised again under its own name |
| SourceChecker.TrailingSeparatorIgnored | checkers/src/checkers/source/SourceChecker.java:442 | "C_opt_" targets what "C_opt" targets, since split drops trailing empty pieces |
| SourceChecker.EmptyPartsAbort | checkers/src/checkers/source/SourceChecker.java:442-465 | "_" splits into no part and "a__d" into three parts with an empty middle one, so both keys abort |
| SourceChecker.TwoSeparatorsAbort | checkers/src/checkers/source/SourceChecker.java:462-464 | two separators between three non-empty parts abort |
| SourceChecker.Suppresses | checkers/src/checkers/source/SourceChecker.java:926-933 | a value that suppresses an error is never longer than the checker key, a colon and the error key |
| SourceChecker.CheckSuppressWarningsValues | checkers/src/checkers/source/SourceChecker.java:918-937 | the nested loops answer true iff some value equals a checker key ignoring case or occurs in key:err ignoring case |
| SourceChecker.CommandLineSuppressions | checkers/src/checkers/source/SourceChecker.java:470-480 | -AsuppressWarnings gives the comma-split values, and null when absent or without value |
| SourceChecker.EmptyValueSuppressesEverything | checkers/src/checkers/source/SourceChecker.java:918-937 | an empty value suppresses every error of a checker that has a key |
| SourceChecker.KeyAndErrorPrefixSuppress | checkers/src/checkers/source/SourceChecker.java:918-937 | the checker key suppresses everything, and key:prefix suppresses every error starting with prefix, in any case |
| SourceChecker.CommandLineKeySuppresses | checkers/src/checkers/source/SourceChecker.java:897-912 | -AsuppressWarnings=key suppresses every error of a checker with that key, whatever the annotation |
| SourceChecker.SuppressWarningsKeys | checkers/src/checkers/source/SourceChecker.java:1375-1390 | the annotation's keys when present; otherwise one key derived from the simple class name |
| SourceChecker.CheckerSuffixKey | checkers/src/checkers/source/SourceChecker.java:1382-1389 | "NullnessChecker" gives "nullness": the name cut before "Checker", trimmed and lower-cased |
| SourceChecker.SubcheckerSuffixKey | checkers/src/checkers/source/SourceChecker.java:1384-1389 | without "Checker", the name is cut before its last "Subchecker" |
| SourceChecker.PlainNameKey | checkers/src/checkers/source/SourceChecker.java:1384-1389 | a name with neither suffix is the key as a whole |
| SourceChecker.FullMessage | checkers/src/checkers/source/SourceChecker.java:735-747 | the message is the key's own when the map has one, and otherwise some message of the map or the default |
| SourceChecker.FullMessageOf | checkers/src/checkers/source/SourceChecker.java:735-747 | the loop computes FullMessage |
| SourceChecker.TriedShift | checkers/src/checkers/source/SourceChecker.java:743-745 | the suffixes tried after the first dot are those of the rest |
| SourceChecker.FullMessageFindsFirst | checkers/src/checkers/source/SourceChecker.java:735-747 | the message of the first tried suffix that has one |
| SourceChecker.FullMessageDefault | checkers/src/checkers/source/SourceChecker.java:735-747 | the default when no tried suffix has a message |
| SourceChecker.FormatStackTrace | checkers/src/checkers/source/SourceChecker.java:697-712 | the loop computes StackTraceText |
| SourceChecker.StackTraceLines | checkers/src/checkers/source/SourceChecker.java:697-712 | the header "Stack trace: " then one frame per line |
| PurityChecker.AddNotSeFree | checkers/src/checkers/basetype/PurityChecker.java:125-129 | the reason is recorded as not side-effect free only when that kind is claimed; the other lists stay |
| PurityChecker.AddNotDet | checkers/src/checkers/basetype/PurityChecker.java:135-139 | the reason is recorded as not deterministic only when that kind is claimed; the other lists stay |
| PurityChecker.AddNotBoth | checkers/src/checkers/basetype/PurityChecker.java:145-153 | the "both" list when both kinds are claimed, otherwise each single-kind list whose kind is claimed |
| PurityChecker.AddNotBothRecordsOnce | checkers/src/checkers/basetype/PurityChecker.java:145-153 | a not-both reason lands in exactly one list when any kind is claimed, and nowhere otherwise |
| PurityChecker.CallSite | checkers/src/checkers/basetype/PurityChecker.java:372-388 | a call is charged with the reason "non-pure method call" |
| PurityChecker.RecordPure | checkers/src/checkers/basetype/PurityChecker.java:125-153 | recording keeps every earlier reason, and the result stays pure iff no claimed kind is charged |
| PurityChecker.CallChargesMissingKinds | checkers/src/checkers/basetype/PurityChecker.java:372-388 | a call is charged with exactly the kinds its callee does not provide |
| PurityChecker.NewClassCharges | checkers/src/checkers/basetype/PurityChecker.java:394-402 | an object creation costs determinism, and side-effect freedom too unless the constructor is side-effect free |
| PurityChecker.CatchCharges | checkers/src/checkers/basetype/PurityChecker.java:323-324 | a catch clause costs determinism only |
| PurityChecker.AssignmentCharges | checkers/src/checkers/basetype/PurityChecker.java:438-452 | an assignment to a field or array element costs both kinds and names the field; one to a local costs nothing |
| PurityChecker.ScanTree | checkers/src/checkers/basetype/PurityChecker.java:212-214 | scanning a tree only appends reasons: every earlier reason stays, in place |
| PurityChecker.ScanList | checkers/src/checkers/basetype/PurityChecker.java:219-227 | scanning a list of trees in order only appends reasons |
| PurityChecker.ScanTreePure | checkers/src/checkers/basetype/PurityChecker.java:212-214 | the result of scanning a tree is pure iff the reasons before were and no claimed kind is violated by a node outside nested class bodies |
| PurityChecker.ScanListPure | checkers/src/checkers/basetype/PurityChecker.java:219-227 | the same for a list of trees scanned in order |
| PurityChecker.NoClaimIsPure | checkers/src/checkers/basetype/PurityChecker.java:116-153 | a method claiming no kind is always pure |
| PurityChecker.FieldAssignmentIsImpure | checkers/src/checkers/basetype/PurityChecker.java:438-444 | a field assignment makes a method that claims a kind impure |
| PurityChecker.ClassBodyIgnored | checkers/src/checkers/basetype/PurityChecker.java:240-242 | nothing inside a nested class body is charged |
| PurityChecker.PurityResult.constructor | checkers/src/checkers/basetype/PurityChecker.java:108-113 | three empty lists and the claimed kinds |
| PurityChecker.PurityResult.IsPure | checkers/src/checkers/basetype/PurityChecker.java:116-119 | pure iff the three lists are empty |
| PurityChecker.PurityResult.AddNotSeFreeReason | checkers/src/checkers/basetype/PurityChecker.java:125-129 | the lists become AddNotSeFree of the old ones |
| PurityChecker.PurityResult.AddNotDetReason | checkers/src/checkers/basetype/PurityChecker.java:135-139 | the lists become AddNotDet of the old ones |
| PurityChecker.PurityResult.AddNotBothReason | checkers/src/checkers/basetype/PurityChecker.java:145-153 | the lists become AddNotBoth of the old ones |
| PurityChecker.RecordSite | checkers/src/checkers/basetype/PurityChecker.java:323-452 | a node's visit calls the adder its kind of tree calls |
| PurityChecker.ScanNode | checkers/src/checkers/basetype/PurityChecker.java:212-214 | scan(Tree) updates the one result object as ScanTree says |
| PurityChecker.ScanNodes | checkers/src/checkers/basetype/PurityChecker.java:219-227 | scan(Iterable) passes the one result object from element to element |
| PurityChecker.ScanOptional | checkers/src/checkers/basetype/PurityChecker.java:212-214 | a null tree leaves the result as it was |
| PurityChecker.CheckPurity | checkers/src/checkers/basetype/PurityChecker.java:88-96 | the method is pure iff it has no body or its body violates no claimed kind |
| PurityChecker.ErrorList | checkers/src/checkers/basetype/PurityChecker.java:175-186 | the reasons in order, separated by ", " |
| PurityChecker.ErrorListSplitsBack | checkers/src/checkers/basetype/PurityChecker.java:175-186 | reasons without commas come back from the list by splitting at the commas |
| PurityChecker.ReportErrors | checkers/src/checkers/basetype/PurityChecker.java:158-173 | one report per non-empty list, the "both" report first, each with its own key |
| LockVisitor.Append | checker/src/org/checkerframework/checker/lock/LockVisitor.java:76-84 | a null lock leaves the list; otherwise the list with the lock at the end |
| LockVisitor.RemoveFirst | checker/src/org/checkerframework/checker/lock/LockVisitor.java:149-150 | List.remove takes away the first occurrence, if any |
| LockVisitor.RemoveFirstCounts | checker/src/org/checkerframework/checker/lock/LockVisitor.java:149-150 | exactly one copy of the lock goes, when there is one, and nothing else |
| LockVisitor.RemoveFirstSplits | checker/src/org/checkerframework/checker/lock/LockVisitor.java:149-150 | everything before the first occurrence stays in place |
| LockVisitor.AppendThenRemove | checker/src/org/checkerframework/checker/lock/LockVisitor.java:145-151 | lock then unlock of a lock not held gives back the old list |
| LockVisitor.AppendHeldThenRemove | checker/src/org/checkerframework/checker/lock/LockVisitor.java:145-151 | unlocking a lock held twice removes the earlier occurrence |
| LockVisitor.ContainsAll | checker/src/org/checkerframework/checker/lock/LockVisitor.java:157 | every required lock is held |
| LockVisitor.MethodHolding | checker/src/org/checkerframework/checker/lock/LockVisitor.java:192-211 | the @Holding values then the @GuardedBy value; empty without either |
| LockVisitor.OverrideValid | checker/src/org/checkerframework/checker/lock/LockVisitor.java:166-185 | an override is valid iff the overridden method requires every lock the overrider requires |
| LockVisitor.OverrideValidCases | checker/src/org/checkerframework/checker/lock/LockVisitor.java:166-185 | an overrider needing no lock is valid, and so is one with its parent's annotations |
| LockVisitor.OverrideTransitive | checker/src/org/checkerframework/checker/lock/LockVisitor.java:175 | validity passes down a chain of overrides |
| LockVisitor.Receiver | checker/src/org/checkerframework/checker/lock/LockVisitor.java:128-137 | a bare method name has the receiver "this" |
| LockVisitor.InvocationStep | checker/src/org/checkerframework/checker/lock/LockVisitor.java:140-160 | lock() appends the receiver, unlock() removes it, and the call is reported iff its required locks are not all held afterwards |
| LockVisitor.Visit | checker/src/org/checkerframework/checker/lock/LockVisitor.java:87-97 | visiting a statement only adds reports, and a synchronized block hands back the held locks it found, whatever its body does |
| LockVisitor.VisitAll | checker/src/org/checkerframework/checker/lock/LockVisitor.java:158-162 | visiting statements in order only adds reports |
| LockVisitor.GuardedCallInsideSynchronized | checker/src/org/checkerframework/checker/lock/LockVisitor.java:87-160 | inside synchronized(x) a call needing only x is not reported |
| LockVisitor.UnheldLockIsReported | checker/src/org/checkerframework/checker/lock/LockVisitor.java:155-160 | a call needing a lock that is not held is reported with the locks it needs |
| LockVisitor.LockThenUnlock | checker/src/org/checkerframework/checker/lock/LockVisitor.java:145-151 | lock() then unlock() on a receiver not held leaves the held locks as they were |
| LockVisitor.ImplicitLock | checker/src/org/checkerframework/checker/lock/LockVisitor.java:105-113 | synchronized methods and constructors hold the class object when static and this otherwise |
| LockVisitor.EntryLocks | checker/src/org/checkerframework/checker/lock/LockVisitor.java:101-120 | the outer locks, the implicit lock, then the method's own locks |
| LockVisitor.SynchronizedMethodHoldsThis | checker/src/org/checkerframework/checker/lock/LockVisitor.java:105-112 | a synchronized instance method holds this |
| LockVisitor.VisitMethodDecl | checker/src/org/checkerframework/checker/lock/LockVisitor.java:100-126 | the outer held locks are restored after a method |
| LockVisitor.LockChecker.constructor | checker/src/org/checkerframework/checker/lock/LockVisitor.java:43-45 | no lock held, no report |
| LockVisitor.LockChecker.VisitSynchronized | checker/src/org/checkerframework/checker/lock/LockVisitor.java:87-97 | the visit follows Visit and restores the held locks |
| LockVisitor.LockChecker.VisitMethodInvocation | checker/src/org/checkerframework/checker/lock/LockVisitor.java:140-163 | the visit follows Visit for the invocation |
| LockVisitor.LockChecker.VisitStmt | checker/src/org/checkerframework/checker/lock/LockVisitor.java:87-163 | the visit of any statement follows Visit |
| LockVisitor.LockChecker.VisitStmts | checker/src/org/checkerframework/checker/lock/LockVisitor.java:87-163 | a list of statements is visited in order |
| LockVisitor.LockChecker.VisitMethod | checker/src/org/checkerframework/checker/lock/LockVisitor.java:100-126 | the visit follows VisitMethodDecl and restores the held locks |
| UnitsRelations.Multiplication | checkers/src/checkers/units/UnitsRelationsDefault.java:50-62 | m times m is m2, else km times km is km2, else no relation |
| UnitsRelations.Division | checkers/src/checkers/units/UnitsRelationsDefault.java:65-75 | m by s is mPERs, else km by h is kmPERh, else no relation |
| UnitsRelations.SingleUnitProducts | checkers/src/checkers/units/UnitsRelationsDefault.java:50-75 | on single units, only m·m, km·km, m/s and km/h have a result |
| UnitsRelations.MixedPrefixesHaveNoProduct | checkers/src/checkers/units/UnitsRelationsDefault.java:26-33 | m and km differ only in their prefix value, and they do not multiply with each other |
| UnitsTypeFactory.UseRelation | checker/src/org/checkerframework/checker/units/UnitsAnnotatedTypeFactory.java:352-369 | only products and quotients consult a relation |
| UnitsTypeFactory.BestOf | checker/src/org/checkerframework/checker/units/UnitsAnnotatedTypeFactory.java:265-279 | sums, differences, remainders and other operators never get a relation's result; an agreed result is the answer of some relation |
| UnitsTypeFactory.BinaryAnnotations | checker/src/org/checkerframework/checker/units/UnitsAnnotatedTypeFactory.java:259-330 | an operator other than * and / gets the annotations of its operands only; an annotation that is neither an operand's nor MixedUnits comes from some relation |
| UnitsTypeFactory.BestCharacterised | checker/src/org/checkerframework/checker/units/UnitsAnnotatedTypeFactory.java:266-280 | the loop over the relations ends in a mismatch iff two relations give different results; otherwise it yields their one common result, or none |
| UnitsTypeFactory.MismatchPersists | checker/src/org/checkerframework/checker/units/UnitsAnnotatedTypeFactory.java:270-275 | once two relations disagree, later ones do not change that |
| UnitsTypeFactory.NoUnits | checker/src/org/checkerframework/checker/units/UnitsAnnotatedTypeFactory.java:336-341 | no annotation, or only UnknownUnits |
| UnitsTypeFactory.Fallback | checker/src/org/checkerframework/checker/units/UnitsAnnotatedTypeFactory.java:287-330 | quotients, remainders and other operators get no annotation without a relation |
| UnitsTypeFactory.DisagreementAddsNothing | checker/src/org/checkerframework/checker/units/UnitsAnnotatedTypeFactory.java:270-275 | disagreeing relations give no annotation at all |
| UnitsTypeFactory.AgreementAddsResult | checker/src/org/checkerframework/checker/units/UnitsAnnotatedTypeFactory.java:282-283 | agreeing relations give exactly their result |
| UnitsTypeFactory.SumsWithoutRelation | checker/src/org/checkerframework/checker/units/UnitsAnnotatedTypeFactory.java:288-298 | a sum or difference keeps equal operand units and is MixedUnits otherwise |
| UnitsTypeFactory.ProductsWithoutRelation | checker/src/org/checkerframework/checker/units/UnitsAnnotatedTypeFactory.java:307-317 | a unit-less factor passes on the other's units; otherwise MixedUnits |
| UnitsTypeFactory.QuotientsWithoutRelation | checker/src/org/checkerframework/checker/units/UnitsAnnotatedTypeFactory.java:299-327 | a quotient or remainder without a relation stays unannotated |
| UnitsTypeFactory.DefaultMetresSquared | checker/src/org/checkerframework/checker/units/UnitsAnnotatedTypeFactory.java:153-154 | with the default relations, metres times metres are square metres |
| UnitsTypeFactory.AnnotatedType.constructor | checker/src/org/checkerframework/checker/units/UnitsAnnotatedTypeFactory.java:261 | the type holds the given annotations |
| UnitsTypeFactory.AnnotatedType.AddAnnotation | checker/src/org/checkerframework/checker/units/UnitsAnnotatedTypeFactory.java:283 | the annotation is added |
| UnitsTypeFactory.AnnotatedType.AddAnnotations | checker/src/org/checkerframework/checker/units/UnitsAnnotatedTypeFactory.java:293 | the annotations are added |
| UnitsTypeFactory.VisitBinary | checker/src/org/checkerframework/checker/units/UnitsAnnotatedTypeFactory.java:261-334 | the result type gains exactly BinaryAnnotations of the operands |
| UnitsTypeFactory.StripValues | checker/src/org/checkerframework/checker/units/UnitsAnnotatedTypeFactory.java:400-402 | the same annotation type without element values |
| UnitsTypeFactory.UnitsIsSubtype | checker/src/org/checkerframework/checker/units/UnitsAnnotatedTypeFactory.java:389-397 | two annotations of one unit are related only when equal, values included |
| UnitsTypeFactory.PrefixesAreIncomparable | checker/src/org/checkerframework/checker/units/UnitsAnnotatedTypeFactory.java:389-392 | m and km are not subtypes of each other in either direction |
| UnitsTypeFactory.ValuesIgnoredAcrossUnits | checker/src/org/checkerframework/checker/units/UnitsAnnotatedTypeFactory.java:393-396 | across different units the values play no part |
| UnitsTypeFactory.UnitsMultipleAlias | checker/src/org/checkerframework/checker/units/UnitsAnnotatedTypeFactory.java:106-118 | the alias comes from the first UnitsMultiple meta-annotation: its quantity with its prefix |
| UnitsTypeFactory.FirstUnitsMultiple | checker/src/org/checkerframework/checker/units/UnitsAnnotatedTypeFactory.java:106-118 | the first UnitsMultiple meta-annotation is the one used |
| UnitsTypeFactory.AliasCache.constructor | checker/src/org/checkerframework/checker/units/UnitsAnnotatedTypeFactory.java:79 | the alias cache starts empty |
| UnitsTypeFactory.AliasCache.AliasedAnnotation | checker/src/org/checkerframework/checker/units/UnitsAnnotatedTypeFactory.java:101-121 | the answer is the alias whether or not it was cached; only this annotation's name may be added to the cache |
| RegexTypeFactory.RegexAnnotation | checkers/src/checkers/regex/RegexAnnotatedTypeFactory.java:140-144 | @Regex with the group count as its value |
| RegexTypeFactory.WithoutRegex | checkers/src/checkers/regex/RegexAnnotatedTypeFactory.java:108 | every @Regex goes, whatever its value; all else stays |
| RegexTypeFactory.ConcatAnnotations | checkers/src/checkers/regex/RegexAnnotatedTypeFactory.java:93-117 | the annotator keeps at most one @Regex; it changes only an unannotated concatenation, and then to exactly @PolyRegex or exactly one @Regex |
| RegexTypeFactory.ConcatOnlyUnannotated | checkers/src/checkers/regex/RegexAnnotatedTypeFactory.java:94-95 | an annotated result or a non-concatenation is left alone |
| RegexTypeFactory.ConcatAddsGroupCounts | checkers/src/checkers/regex/RegexAnnotatedTypeFactory.java:104-110 | @Regex(l) + @Regex(r) is exactly one @Regex(l + r) |
| RegexTypeFactory.ConcatPolyCases | checkers/src/checkers/regex/RegexAnnotatedTypeFactory.java:111-114 | @PolyRegex + @PolyRegex, @PolyRegex + @Regex and @Regex + @PolyRegex give @PolyRegex when not both sides carry @Regex; an operand with neither qualifier gives nothing |
| RegexTypeFactory.CompileAnnotations | checkers/src/checkers/regex/RegexAnnotatedTypeFactory.java:124-135 | Pattern.compile's result carries one @Regex with its argument's group count, and keeps its other annotations |
| RegexTypeFactory.AnnotatedType.constructor | checkers/src/checkers/regex/RegexAnnotatedTypeFactory.java:93 | the type holds the given annotations |
| RegexTypeFactory.AnnotatedType.AddAnnotation | checkers/src/checkers/regex/RegexAnnotatedTypeFactory.java:109 | the annotation is added |
| RegexTypeFactory.AnnotatedType.RemoveRegex | checkers/src/checkers/regex/RegexAnnotatedTypeFactory.java:108 | every @Regex is removed |
| RegexTypeFactory.VisitBinary | checkers/src/checkers/regex/RegexAnnotatedTypeFactory.java:93-117 | the result type's annotations become ConcatAnnotations of the old ones |
| RegexTypeFactory.VisitMethodInvocation | checkers/src/checkers/regex/RegexAnnotatedTypeFactory.java:124-135 | the result type's annotations become CompileAnnotations of the old ones |
| RegexTransfer.IsRegexUtil | checkers/src/checkers/regex/RegexTransfer.java:121-123 | a qualifying class name ends in RegexUtil |
| RegexTransfer.RegexUtilNames | checkers/src/checkers/regex/RegexTransfer.java:121-123 | a name ending in RegexUtil qualifies iff nothing or a "." precedes it |
| RegexTransfer.IllegalNameIsNotRegexUtil | checkers/src/checkers/regex/RegexTransfer.java:121-123 | IllegalNameRegexUtil is not RegexUtil; RegexUtil and a package-qualified RegexUtil are |
| RegexTransfer.CountAnnotation | checkers/src/checkers/regex/RegexTransfer.java:71-82 | @Regex(n) for an integer literal n, plain @Regex otherwise |
| RegexTransfer.IsRegexRefinesThenStoreOnly | checkers/src/checkers/regex/RegexTransfer.java:57-87 | after isRegex(s, n) only the then-store learns s's @Regex fact; the else-store is the base store |
| RegexTransfer.AsRegexReplacesValue | checkers/src/checkers/regex/RegexTransfer.java:90-112 | after asRegex(s, n) the value is @Regex with the literal's group count and the store is the base store |
| RegexTransfer.OtherCallsKeepResult | checkers/src/checkers/regex/RegexTransfer.java:42-116 | the base result stands iff the receiver is not RegexUtil or the method is neither isRegex nor asRegex |
| RegexTransfer.Refinement | checkers/src/checkers/regex/RegexTransfer.java:57-112 | a refinement never touches the else-store, which is the base store; an asRegex result keeps the base store as its only store |
| RegexTransfer.VisitMethodInvocation | checkers/src/checkers/regex/RegexTransfer.java:42-116 | the outcome is Refinement of the old store; for isRegex the regular store becomes the then-store and a fresh copy the else-store |
| JavaStrings.IndexOf | checkers/src/checkers/source/SourceChecker.java:743 | the index of the first occurrence of the character, or the length when it does not occur; no earlier position holds it |
| JavaStrings.TrimStart | checkers/src/checkers/util/FlowExpressionParseUtil.java:123 | a suffix of the input that is empty or starts above the space character; every character removed is at most the space character |
| JavaStrings.TrimEnd | checkers/src/checkers/util/FlowExpressionParseUtil.java:123 | a prefix of the input that is empty or ends above the space character; every character removed is at most the space character |
| JavaStrings.Trim | checkers/src/checkers/util/FlowExpressionParseUtil.java:123 | a contiguous slice of the input, empty or starting and ending above the space character, with every character outside the slice at most the space character |
| JavaStrings.TrimmedUnchanged | checkers/src/checkers/util/FlowExpressionParseUtil.java:123 | a string already starting and ending with visible characters is its own trim |
| JavaStrings.PrefixContained | checkers/src/checkers/source/SourceChecker.java:931 | a prefix, the empty string included, is contained in the string |
| JavaStrings.LastOccurrenceFrom | checkers/src/checkers/source/SourceChecker.java:1384-1386 | the greatest position at or below the bound where the pattern occurs, or -1; no occurrence lies between |
| JavaStrings.LastIndexOf | checkers/src/checkers/source/SourceChecker.java:1384-1386 | the pattern occurs at the result, or the result is -1, and it occurs at no later position |
| JavaStrings.LastIndexOfSuffix | checkers/src/checkers/source/SourceChecker.java:1384-1386 | a string ending in a non-empty pattern has its last occurrence exactly there |
| JavaStrings.LastIndexOfMissing | checkers/src/checkers/source/SourceChecker.java:1384-1386 | lastIndexOf answers -1 iff the pattern is not contained |
| JavaStrings.LastIndexOfChar | checkers/src/checkers/source/SourceChecker.java:1153-1154 | the position of the last occurrence of the character, -1 iff it does not occur |
| JavaStrings.ToLower | checkers/src/checkers/source/SourceChecker.java:931 | the same length, each character lowered (ASCII letters only) |
| JavaStrings.ToLowerAppend | checkers/src/checkers/source/SourceChecker.java:931 | lowering distributes over concatenation |
| JavaStrings.Pieces | checkers/src/checkers/source/SourceChecker.java:442 | at least one piece, none holding the separator, and the pieces joined by the separator give back the input |
| JavaStrings.DropTrailingEmpty | checkers/src/checkers/source/SourceChecker.java:442 | a prefix of the pieces that does not end in an empty piece; everything dropped was empty |
| JavaStrings.Split | checkers/src/checkers/source/SourceChecker.java:442 | a string without the separator splits into itself; no piece holds the separator; the pieces followed by some number of empty pieces, joined by the separator, give back the input |
| JavaStrings.PiecesCons | checkers/src/checkers/source/SourceChecker.java:442 | the first piece ends at the first separator |
| JavaStrings.SplitTwo | checkers/src/checkers/source/SourceChecker.java:442 | two separator-free parts, the second non-empty, joined by the separator split back into the two |
| JavaStrings.SplitTrailing | checkers/src/checkers/source/SourceChecker.java:442 | a trailing separator adds no piece |
| JavaStrings.SplitThree | checkers/src/checkers/source/SourceChecker.java:442 | three separator-free parts, the last non-empty, give three pieces |
| JavaStrings.JoinSnoc | checkers/src/checkers/basetype/PurityChecker.java:175-186 | appending a part appends the separator and the part, as the loop does after its first round |
| JavaStrings.PaddedTail | checkers/src/checkers/source/SourceChecker.java:697-712 | the parts after the first, each preceded by the padding |
| JavaStrings.JoinPieces | checkers/src/checkers/basetype/PurityChecker.java:175-186 | separator-free parts joined by the separator and a padding split back at the separator into the parts, padded after the first |

## Left out

- Process, file, network and prompt plumbing of `release_utils.py` is not modelled; it is I/O. `PROJECTS_TO_SHORTNAMES` is defined in `release_vars.py`, which is not part of this model. `MatchArg` takes the table as a parameter.
- ReleaseUtils.MaxVersion: the regular expression `^\d+\.\d+(\.\d+)?(\.\d+)?` is modelled by its meaning on a string's prefix, not as a regex engine.
- QualifierHierarchy.LeastUpperBound: the `lubs` cache is not modelled; the lub is recomputed for the pair asked about. Java fills the cache for every pair of qualifiers on the first call, so one pair whose lub fails makes every later call fail, where the model fails only for that pair. The cache key is an unordered pair that ignores annotation values, so Java may answer with `findLub(a2, a1)` or with a value computed for other values of the same annotation types; and a value-carrying annotation that is not in the graph still finds a cached entry in Java, where the model answers `Ok(None)`.
- QualifierHierarchy.GreatestLowerBound: the `glbs` cache is not modelled, with the same three differences as for the lub: all pairs are filled at once, so one failing pair fails every call; the key is unordered and value-blind; and a value-carrying annotation outside the graph hits the cache in Java but gives `Ok(None)` here.
- QualifierHierarchy.FindRoot: Java assertions are taken as enabled, so the `possibleRoots.size() == 1` assertion is the error path. With assertions disabled, `findRoot` returns the first candidate when there are several and throws `IndexOutOfBoundsException` when there is none; that behaviour is not modelled.
- QualifierHierarchy.PolyBelowRoot: relies on the root assertion as `FindRoot` does, so it holds with assertions enabled only.
- QualifierHierarchy.Factory.Build: its failure when there is not exactly one root is the root assertion, taken as enabled; with assertions disabled Java builds the hierarchy on the first candidate root or throws `IndexOutOfBoundsException`.
- QualifierHierarchy.Factory.AddPolyRelations: "the root assertion fails" holds with assertions enabled only; the disabled-assertion behaviour of `findRoot` is not modelled.
- QualifierHierarchy.NewHierarchy: "succeeds iff there is exactly one root" assumes Java assertions are enabled.
- QualifierHierarchy.NewHierarchy: the hierarchy's constructor is proved only on acyclic supertype graphs, given as a ghost rank. On a cyclic graph, the Java closure computation loops.
- FlowExpressions: `TypeMirror` fields, and the javac `Element` lookups behind `internalReprOf`, are abstracted away. A node's classification and a method's purity annotation are inputs.
- FlowExpressions: `canAlias` depends on static types, so it is a predicate parameter.
- FlowExpressions: an `Unknown` receiver carries an identity number, so Java's identity equality on it is datatype equality.
- FlowExpressions.JavaEquals: the Java `equals` methods are modelled as written, recursing through receivers and parameters with the same asymmetric comparison (see Findings). The rest of the model compares receivers by value equality: `IntendedEquals` shows that value equality is the intended comparison, and `JavaEqualsSameArity` shows that the Java comparison agrees with it wherever the calls' parameter counts match.
- AbstractStore: when `removeConflicting` finds that the lub of a field's value is null, Java puts null into the map. The model removes the entry instead, which `getValue` reads the same way. The two differ in `supersetOf` (CFAbstractStore.java lines 639-640): Java calls `equals` on the null entry and throws `NullPointerException` when the other store has that field, while the model answers false.
- Transfer: the transfer functions change a store in place. They are modelled on store values, and `AbstractStore.CFStore` proves its methods equal to those functions.
- Transfer: `visitTypeCast`, `visitInstanceOf`, `visitFieldAccess`, `visitLocalVariable`, `initialStore` and the precondition handling are not modelled. Each needs javac types or element annotations.
- Transfer: `ConditionalTransferResult` objects are values in the model.
- Analysis.Analysis.PerformAnalysis: the worklist loop runs for at most `fuel` iterations. Its termination in Java rests on the height of the abstract lattice, which the model does not assume.
- Analysis.Analysis.PerformAnalysis: a finished run is proved to be a post-fixpoint that absorbs the initial store at the entry, and each step only moves stores up. That it is the least such fixpoint is not proved.
- Analysis.Analysis.PerformAnalysis: the transfer function does not see the node values. In Java the transfer input carries `nodeValues`, and `getValueOfSubNode` reads them (CFAbstractTransfer.java lines 320-321, 349-350, 368-369, 427, 716 and 741); a block is not re-enqueued when a node value changes. The stability proved here, every edge of a finished block absorbed by its target, is therefore relative to a transfer that depends on the store alone.
- CfgPhases.FindPredecessor: the assertion that a conditional block has exactly one predecessor (CFGBuilder.java line 781) is not modelled. The model bypasses through the first predecessor it finds.
- CfgPhases.PruneConditionals: states only that pruning changes edges and keeps every block's kind and contents. Each single bypass is proved by `BypassConditional` and `BypassLinksPredecessor`. That every useless block is bypassed is not proved for the whole loop.
- CfgPhases.LinkMissingEdges: exceptional successors are kept as a set of (block, cause, target) triples. Java's exception block holds a map from cause to one successor, so when several pending edges share a block and a cause, Java keeps the one added last, in the iteration order of the `missingExceptionalEdges` hash set; the model keeps them all.
- CfgPhases.PhaseTwo: the same difference in the exceptional-successor structure: several targets per cause are allowed where Java keeps one.
- CfgPhases: phase three's removal of empty blocks and merging of consecutive blocks is not modelled; neither are the phase-one tree visitors, which depend on javac trees, types and boxing rules.
- FlowExpressionParse: integer literals and `#n` indices are unbounded integers, so Java's `NumberFormatException` on overflow is not modelled.
- FlowExpressionParse: a `ValueLiteral` keeps its literal text.
- FlowExpressionParse: `super` becomes a `ThisReference`, as in the code.
- FlowExpressionParse: identifier and method lookup through javac is given by the `Env` parameters.
- SourceChecker: case folding is ASCII-only.
- SourceChecker: processor options arrive as a map. `createActiveOptions` visits them in an unspecified order, like the Java HashMap.
- SourceChecker: the warning for an unsupported lint option, and the `message` abort, are I/O. Errors are modelled as `Outcome` values that carry the message prefix only.
- SourceChecker: the cache of `@SuppressWarnings` keys is not modelled. The model recomputes the same value.
- SourceChecker: option keys are split by the Java `split` rules. `C_opt_` (a trailing separator) gives two parts and is accepted; `_` gives no part and `a__b` an empty middle part, and both abort with the invalid-option message.
- SourceChecker: the one-argument `getLintOption(name)` is the two-argument form with default false.
- PurityChecker: javac trees are abstracted into a `Tree` datatype. Method and constructor purity annotations are inputs. The visits that throw on an unexpected tree are not modelled.
- LockVisitor: the `unguarded.access` checks in `visitIdentifier`/`visitMemberSelect` are not modelled; they need the annotated type factory. Neither is `isValidUse`.
- LockVisitor.Receiver: the `errorAbort` branch for an unexpected receiver tree is not modelled; receivers are given as a datatype with the handled shapes only. The `super.visit*` tree walks are not modelled either.
- UnitsTypeFactory: units relations are instantiated by reflection in Java. Here they are given as a sequence of function pairs, standing for the HashMap's iteration order.
- UnitsTypeFactory: the supported-qualifier check, the `System.out` message and `visitCompoundAssignment` are not modelled.
- CfgTryStack.LabelGenerator.FreshLabel: the counter is an unbounded natural, where Java's `uid` is a 32-bit `int` (CFGBuilder.java line 494). After 2^31 labels Java's counter goes negative, and after 2^32 labels it repeats names; "the name was never issued before" holds in Java only for fewer than 2^32 labels.
- CfgTryStack.GeneratedNamesDistinct: stated for unbounded counters; with Java's 32-bit `uid` it holds only for counters that have not wrapped.
- RegexTypeFactory.ConcatAddsGroupCounts: the group count `lGroupCount + rGroupCount` is an unbounded sum, where Java adds two 32-bit `int`s and wraps on overflow.
- RegexTypeFactory: `visitLiteral` and `getGroupCount`, which use `java.util.regex`, are not part of this model.
- RegexTypeFactory.VisitBinary: operands must carry at most one `@Regex`, as a type in the hierarchy does.
- RegexTypeFactory.VisitMethodInvocation: requires `Pattern.compile`'s argument to carry `@Regex`. Otherwise the Java code would call `getGroupCount(null)`.
- RegexTransfer: the base transfer result is given as its value plus its regular store. The parse of `#1` is an `Option` parameter. `createSingleAnnotationValue` is the `single` parameter.
- RegexTransfer: the older `checkers/src/checkers/flow/analysis/checkers/RegexTransfer.java`, whose `asRegex` branch cannot be reached, is not modelled.

## Findings

| source | as written | input that shows it | evidently intended | confidence | as-written member | corrected member |
|---|---|---|---|---|---|---|
| checkers/src/checkers/flow/analysis/FlowExpressions.java:544-559 | `PureMethodCall.equals` walks this call's parameter list and indexes the other call's list at the same positions, without comparing lengths | `m(x).equals(m(x, y))` is true, while `m(x, y).equals(m(x))` throws `IndexOutOfBoundsException` | compare the lengths first, so equality is symmetric and never throws | not executed | FlowExpressions.JavaEqualsAsymmetric | FlowExpressions.IntendedEquals |
| checkers/src/checkers/source/SourceChecker.java:1131-1132 | `setLintOption` copies `activeLints`, which stays null until the first `getLintOption` call | on a fresh checker, `setLintOption("cast", true)` for a supported option throws `NullPointerException` | compute the active lints first (as `getLintOption` does), then add the entry | not executed | SourceChecker.SetBeforeGetFails | SourceChecker.SetBeforeGetSucceeds |
