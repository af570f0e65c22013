/**
 * Labels and the try-frame stack of the control-flow-graph builder
 * (checkers/flow/cfg/CFGBuilder.java): generated label names, and the
 * stack that maps a thrown exception type to the labels control may reach.
 * Types are abstract; isSubtype is the subtype test of the type system.
 */
module CfgTryStack {

  /** A label of an extended node; generated labels have distinct names. */
  datatype Label = Label(name: string)

  /** The decimal digits of n, as Java prints an int. */
  function DecimalString(n: nat): (s: string)
    ensures |s| >= 1
    ensures forall k :: 0 <= k < |s| ==> '0' <= s[k] <= '9'
    ensures n < 10 <==> |s| == 1
    decreases n
  {
    if n < 10 then [DigitChar(n)] else DecimalString(n / 10) + [DigitChar(n % 10)]
  }

  function DigitChar(d: nat): (c: char)
    requires d < 10
    ensures '0' <= c <= '9' && c as int - '0' as int == d
  {
    ('0' as int + d) as char
  }

  /** Different numbers print differently. */
  lemma {:induction false} DecimalStringInjective(i: nat, j: nat)
    requires DecimalString(i) == DecimalString(j)
    ensures i == j
    decreases i
  {
    var s := DecimalString(i);
    if i < 10 {
      assert j < 10;
      assert DigitChar(i) == s[0] == DigitChar(j);
    } else {
      assert j >= 10;
      assert DigitChar(i % 10) == s[|s| - 1] == DigitChar(j % 10);
      assert DecimalString(i / 10) == s[..|s| - 1] == DecimalString(j / 10);
      DecimalStringInjective(i / 10, j / 10);
    }
  }

  /** The name of the n-th generated label. */
  function GeneratedName(n: nat): (s: string)
    ensures |s| >= 3 && s[..2] == "%L"
  {
    "%L" + DecimalString(n)
  }

  /** Generated names are pairwise distinct. */
  lemma GeneratedNamesDistinct(i: nat, j: nat)
    ensures GeneratedName(i) == GeneratedName(j) <==> i == j
  {
    if GeneratedName(i) == GeneratedName(j) {
      assert DecimalString(i) == GeneratedName(i)[2..] == GeneratedName(j)[2..] == DecimalString(j);
      DecimalStringInjective(i, j);
    }
  }

  /** The counter behind Label.uniqueName. */
  class LabelGenerator {
    var uid: nat
    ghost var issued: set<string>

    ghost predicate Valid()
      reads this
    {
      forall s :: s in issued <==> exists k :: 0 <= k < uid && s == GeneratedName(k)
    }

    constructor ()
      ensures uid == 0 && issued == {} && Valid()
    {
      uid := 0;
      issued := {};
    }

    /** A new label named "%L" followed by the counter, which then goes up by one. */
    method FreshLabel() returns (l: Label)
      requires Valid()
      modifies this
      ensures Valid()
      ensures l == Label(GeneratedName(old(uid))) && uid == old(uid) + 1
      ensures l.name !in old(issued) && issued == old(issued) + {l.name}
    {
      l := Label(GeneratedName(uid));
      if l.name in issued {
        var k :| 0 <= k < uid && l.name == GeneratedName(k);
        GeneratedNamesDistinct(k, uid);
        assert false;
      }
      issued := issued + {l.name};
      uid := uid + 1;
    }
  }

  /** The caught type of a catch clause: a declared type or a union of declared types. */
  datatype CaughtType<T> = Declared(t: T) | Union(alternatives: seq<T>)

  function Alternatives<T>(c: CaughtType<T>): seq<T>
  {
    match c
    case Declared(t) => [t]
    case Union(alts) => alts
  }

  /** How a catch clause relates to a thrown type. */
  datatype Applies = Catches | MayCatch | Unrelated

  /**
   * A clause catches when the thrown type is a subtype of one alternative;
   * otherwise it may catch when an alternative is a subtype of the thrown type.
   */
  function ClauseApplies<T>(isSubtype: (T, T) -> bool, thrown: T, alts: seq<T>): (a: Applies)
    ensures a == Catches <==> exists k :: 0 <= k < |alts| && isSubtype(thrown, alts[k])
    ensures a == MayCatch <==> (forall k :: 0 <= k < |alts| ==> !isSubtype(thrown, alts[k]))
                               && exists k :: 0 <= k < |alts| && isSubtype(alts[k], thrown)
    decreases |alts|
  {
    if alts == [] then Unrelated
    else if isSubtype(thrown, alts[0]) then Catches
    else
      var rest := ClauseApplies(isSubtype, thrown, alts[1..]);
      if rest == Catches then Catches
      else if isSubtype(alts[0], thrown) then MayCatch
      else rest
  }

  /** A try frame: an ordered list of catch clauses, or a finally block. */
  datatype TryFrame<T> =
    | TryCatchFrame(catchLabels: seq<(CaughtType<T>, Label)>)
    | TryFinallyFrame(finallyLabel: Label)

  /** The labels a frame adds for a thrown type, and whether it surely catches it. */
  datatype FrameLabels = FrameLabels(labels: set<Label>, caught: bool)

  function ApplicationOf<T>(isSubtype: (T, T) -> bool, thrown: T, clause: (CaughtType<T>, Label)): Applies
  {
    ClauseApplies(isSubtype, thrown, Alternatives(clause.0))
  }

  /** TryCatchFrame.possibleLabels */
  function CatchFrameLabels<T>(isSubtype: (T, T) -> bool, thrown: T, clauses: seq<(CaughtType<T>, Label)>): FrameLabels
    decreases |clauses|
  {
    if clauses == [] then FrameLabels({}, false)
    else
      match ApplicationOf(isSubtype, thrown, clauses[0])
      case Catches => FrameLabels({clauses[0].1}, true)
      case MayCatch =>
        var rest := CatchFrameLabels(isSubtype, thrown, clauses[1..]);
        FrameLabels({clauses[0].1} + rest.labels, rest.caught)
      case Unrelated => CatchFrameLabels(isSubtype, thrown, clauses[1..])
  }

  /** A catch frame surely catches exactly when one of its clauses catches. */
  lemma {:induction false} CatchFrameCaught<T>(isSubtype: (T, T) -> bool, thrown: T, clauses: seq<(CaughtType<T>, Label)>)
    ensures CatchFrameLabels(isSubtype, thrown, clauses).caught <==>
      exists k :: 0 <= k < |clauses| && ApplicationOf(isSubtype, thrown, clauses[k]) == Catches
    decreases |clauses|
  {
    if clauses != [] {
      CatchFrameCaught(isSubtype, thrown, clauses[1..]);
      if ApplicationOf(isSubtype, thrown, clauses[0]) != Catches {
        if exists k :: 0 <= k < |clauses| && ApplicationOf(isSubtype, thrown, clauses[k]) == Catches {
          var k :| 0 <= k < |clauses| && ApplicationOf(isSubtype, thrown, clauses[k]) == Catches;
          assert clauses[1..][k - 1] == clauses[k];
        }
      }
    }
  }

  /**
   * A label is added exactly when its clause catches or may catch and no
   * earlier clause catches: the search stops at the first catching clause.
   */
  lemma {:induction false} CatchFrameLabelsExact<T>(isSubtype: (T, T) -> bool, thrown: T,
                                                    clauses: seq<(CaughtType<T>, Label)>, l: Label)
    ensures l in CatchFrameLabels(isSubtype, thrown, clauses).labels <==>
      exists k :: 0 <= k < |clauses| && clauses[k].1 == l
        && ApplicationOf(isSubtype, thrown, clauses[k]) != Unrelated
        && forall m :: 0 <= m < k ==> ApplicationOf(isSubtype, thrown, clauses[m]) != Catches
    decreases |clauses|
  {
    if clauses != [] {
      var tail := clauses[1..];
      CatchFrameLabelsExact(isSubtype, thrown, tail, l);
      var a := ApplicationOf(isSubtype, thrown, clauses[0]);
      if l in CatchFrameLabels(isSubtype, thrown, clauses).labels {
        if l == clauses[0].1 && a != Unrelated {
          assert clauses[0].1 == l;
        } else {
          var k :| 0 <= k < |tail| && tail[k].1 == l && ApplicationOf(isSubtype, thrown, tail[k]) != Unrelated
            && forall m :: 0 <= m < k ==> ApplicationOf(isSubtype, thrown, tail[m]) != Catches;
          assert clauses[k + 1] == tail[k];
          forall m | 0 <= m < k + 1
            ensures ApplicationOf(isSubtype, thrown, clauses[m]) != Catches
          {
            if m > 0 {
              assert clauses[m] == tail[m - 1];
            }
          }
        }
      } else {
        if exists k :: 0 <= k < |clauses| && clauses[k].1 == l
            && ApplicationOf(isSubtype, thrown, clauses[k]) != Unrelated
            && forall m :: 0 <= m < k ==> ApplicationOf(isSubtype, thrown, clauses[m]) != Catches {
          var k :| 0 <= k < |clauses| && clauses[k].1 == l
            && ApplicationOf(isSubtype, thrown, clauses[k]) != Unrelated
            && forall m :: 0 <= m < k ==> ApplicationOf(isSubtype, thrown, clauses[m]) != Catches;
          assert k != 0;
          assert a != Catches;
          assert tail[k - 1] == clauses[k];
          forall m | 0 <= m < k - 1
            ensures ApplicationOf(isSubtype, thrown, tail[m]) != Catches
          {
            assert tail[m] == clauses[m + 1];
          }
          assert false;
        }
      }
    }
  }

  /** TryFrame.possibleLabels */
  function PossibleFrameLabels<T>(isSubtype: (T, T) -> bool, thrown: T, frame: TryFrame<T>): (r: FrameLabels)
    ensures frame.TryFinallyFrame? ==> r == FrameLabels({frame.finallyLabel}, true)
  {
    match frame
    case TryCatchFrame(clauses) => CatchFrameLabels(isSubtype, thrown, clauses)
    case TryFinallyFrame(l) => FrameLabels({l}, true)
  }

  /** TryStack.possibleLabels: frames innermost first, stopping at the first that catches. */
  function StackLabels<T>(isSubtype: (T, T) -> bool, thrown: T, frames: seq<TryFrame<T>>, exitLabel: Label): set<Label>
    decreases |frames|
  {
    if frames == [] then {exitLabel}
    else
      var here := PossibleFrameLabels(isSubtype, thrown, frames[0]);
      if here.caught then here.labels
      else here.labels + StackLabels(isSubtype, thrown, frames[1..], exitLabel)
  }

  /** Every label a frame may report. */
  function FrameLabelSet<T>(frame: TryFrame<T>): set<Label>
  {
    match frame
    case TryCatchFrame(clauses) => set k | 0 <= k < |clauses| :: clauses[k].1
    case TryFinallyFrame(l) => {l}
  }

  lemma {:induction false} CatchFrameLabelsWithin<T>(isSubtype: (T, T) -> bool, thrown: T,
                                                     clauses: seq<(CaughtType<T>, Label)>)
    ensures CatchFrameLabels(isSubtype, thrown, clauses).labels <= set k | 0 <= k < |clauses| :: clauses[k].1
    decreases |clauses|
  {
    if clauses != [] {
      CatchFrameLabelsWithin(isSubtype, thrown, clauses[1..]);
      forall l | l in CatchFrameLabels(isSubtype, thrown, clauses[1..]).labels
        ensures l in set k | 0 <= k < |clauses| :: clauses[k].1
      {
        var k :| 0 <= k < |clauses[1..]| && clauses[1..][k].1 == l;
        assert clauses[k + 1].1 == l;
      }
      assert clauses[0].1 in set k | 0 <= k < |clauses| :: clauses[k].1;
    }
  }

  /**
   * The exit label is reported when no frame catches the exception, and
   * (when it is not itself a handler label) only then.
   */
  lemma {:induction false} StackLabelsExit<T>(isSubtype: (T, T) -> bool, thrown: T, frames: seq<TryFrame<T>>, exitLabel: Label)
    ensures (forall k :: 0 <= k < |frames| ==> !PossibleFrameLabels(isSubtype, thrown, frames[k]).caught)
      ==> exitLabel in StackLabels(isSubtype, thrown, frames, exitLabel)
    ensures (forall k :: 0 <= k < |frames| ==> exitLabel !in FrameLabelSet(frames[k]))
      && (exists k :: 0 <= k < |frames| && PossibleFrameLabels(isSubtype, thrown, frames[k]).caught)
      ==> exitLabel !in StackLabels(isSubtype, thrown, frames, exitLabel)
    decreases |frames|
  {
    if frames != [] {
      StackLabelsExit(isSubtype, thrown, frames[1..], exitLabel);
      if frames[0].TryCatchFrame? {
        CatchFrameLabelsWithin(isSubtype, thrown, frames[0].catchLabels);
      }
      if forall k :: 0 <= k < |frames| ==> !PossibleFrameLabels(isSubtype, thrown, frames[k]).caught {
        forall k | 0 <= k < |frames[1..]|
          ensures !PossibleFrameLabels(isSubtype, thrown, frames[1..][k]).caught
        {
          assert frames[1..][k] == frames[k + 1];
        }
      }
      if (forall k :: 0 <= k < |frames| ==> exitLabel !in FrameLabelSet(frames[k]))
        && (exists k :: 0 <= k < |frames| && PossibleFrameLabels(isSubtype, thrown, frames[k]).caught) {
        var k :| 0 <= k < |frames| && PossibleFrameLabels(isSubtype, thrown, frames[k]).caught;
        if k > 0 {
          assert frames[1..][k - 1] == frames[k];
          forall m | 0 <= m < |frames[1..]|
            ensures exitLabel !in FrameLabelSet(frames[1..][m])
          {
            assert frames[1..][m] == frames[m + 1];
          }
        }
        assert exitLabel !in FrameLabelSet(frames[0]);
      }
    }
  }

  /** The innermost frame decides alone when it catches; a finally frame always does. */
  lemma InnermostCatches<T>(isSubtype: (T, T) -> bool, thrown: T, frame: TryFrame<T>, frames: seq<TryFrame<T>>,
                            exitLabel: Label)
    ensures PossibleFrameLabels(isSubtype, thrown, frame).caught ==>
      StackLabels(isSubtype, thrown, [frame] + frames, exitLabel) == PossibleFrameLabels(isSubtype, thrown, frame).labels
    ensures frame.TryFinallyFrame? ==>
      StackLabels(isSubtype, thrown, [frame] + frames, exitLabel) == {frame.finallyLabel}
  {
    assert ([frame] + frames)[0] == frame;
  }

  /** The alternative loop of TryCatchFrame.possibleLabels for one clause. */
  method ClauseApplication<T>(isSubtype: (T, T) -> bool, thrown: T, caught: CaughtType<T>) returns (a: Applies)
    ensures a == ClauseApplies(isSubtype, thrown, Alternatives(caught))
  {
    var alts := Alternatives(caught);
    var canApply := false;
    var i := 0;
    while i < |alts|
      invariant 0 <= i <= |alts|
      invariant ClauseApplies(isSubtype, thrown, alts) ==
        (var rest := ClauseApplies(isSubtype, thrown, alts[i..]);
         if rest == Catches then Catches else if canApply then MayCatch else rest)
    {
      assert alts[i..][1..] == alts[i + 1..];
      if isSubtype(thrown, alts[i]) {
        return Catches;
      } else if isSubtype(alts[i], thrown) {
        canApply := true;
      }
      i := i + 1;
    }
    a := if canApply then MayCatch else Unrelated;
  }

  /** TryCatchFrame.possibleLabels: labels gains this frame's labels; the result says whether it catches. */
  method CatchFramePossibleLabels<T>(isSubtype: (T, T) -> bool, thrown: T, clauses: seq<(CaughtType<T>, Label)>,
                                     labels: set<Label>) returns (caught: bool, result: set<Label>)
    ensures result == labels + CatchFrameLabels(isSubtype, thrown, clauses).labels
    ensures caught == CatchFrameLabels(isSubtype, thrown, clauses).caught
  {
    result := labels;
    var i := 0;
    while i < |clauses|
      invariant 0 <= i <= |clauses|
      invariant result + CatchFrameLabels(isSubtype, thrown, clauses[i..]).labels
        == labels + CatchFrameLabels(isSubtype, thrown, clauses).labels
      invariant CatchFrameLabels(isSubtype, thrown, clauses[i..]).caught == CatchFrameLabels(isSubtype, thrown, clauses).caught
    {
      assert clauses[i..][1..] == clauses[i + 1..];
      var a := ClauseApplication(isSubtype, thrown, clauses[i].0);
      if a == Catches {
        result := result + {clauses[i].1};
        return true, result;
      } else if a == MayCatch {
        result := result + {clauses[i].1};
      }
      i := i + 1;
    }
    caught := false;
  }

  /** TryStack: the frames in effect, innermost first, and the label an uncaught exception reaches. */
  class TryStack<T> {
    const exitLabel: Label
    var frames: seq<TryFrame<T>>

    constructor (exitLabel: Label)
      ensures this.exitLabel == exitLabel && frames == []
    {
      this.exitLabel := exitLabel;
      frames := [];
    }

    /** pushFrame: the new frame becomes the innermost. */
    method PushFrame(frame: TryFrame<T>)
      modifies this
      ensures frames == [frame] + old(frames)
    {
      frames := [frame] + frames;
    }

    /** popFrame: the innermost frame is removed. */
    method PopFrame()
      requires frames != []
      modifies this
      ensures frames == old(frames)[1..]
      ensures [old(frames)[0]] + frames == old(frames)
    {
      frames := frames[1..];
    }

    /** possibleLabels: where control may go when an exception of type thrown is raised. */
    method PossibleLabels(isSubtype: (T, T) -> bool, thrown: T) returns (labels: set<Label>)
      ensures labels == StackLabels(isSubtype, thrown, frames, exitLabel)
    {
      labels := {};
      var i := 0;
      while i < |frames|
        invariant 0 <= i <= |frames|
        invariant labels + StackLabels(isSubtype, thrown, frames[i..], exitLabel) == StackLabels(isSubtype, thrown, frames, exitLabel)
        decreases |frames| - i
      {
        assert frames[i..][1..] == frames[i + 1..];
        var caught: bool;
        match frames[i] {
          case TryCatchFrame(clauses) =>
            caught, labels := CatchFramePossibleLabels(isSubtype, thrown, clauses, labels);
          case TryFinallyFrame(l) =>
            labels := labels + {l};
            caught := true;
        }
        if caught {
          return;
        }
        i := i + 1;
      }
      labels := labels + {exitLabel};
    }
  }
}
