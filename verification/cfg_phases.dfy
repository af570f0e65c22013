/**
 * Phases one (bookkeeping), two and three (conditional pruning) of the
 * control-flow-graph builder (checkers/flow/cfg/CFGBuilder.java).  Phase
 * one produces a list of extended nodes, label bindings and leaders;
 * phase two partitions that list into basic blocks; phase three removes
 * conditional blocks whose two successors coincide.  Blocks are named by
 * their index in a sequence: 0 is the entry, 1 the regular exit and 2 the
 * exceptional exit.  N is the node type, E the type of exception causes.
 */
module CfgPhases {
  import opened Wrappers
  import opened CfgTryStack

  /** An element of the node list built by phase one. */
  datatype ExtendedNode<N, E(==)> =
    | NodeEntry(node: N, terminates: bool)
    | ExceptionEntry(node: N, terminates: bool, exceptions: map<E, set<Label>>)
    | ConditionalJump(thenLabel: Label, elseLabel: Label)
    | UnconditionalJump(target: Label)

  /** The bookkeeping of phase one. */
  class PhaseOne<N, E(==)> {
    var nodeList: seq<ExtendedNode<N, E>>
    var bindings: map<Label, nat>
    var leaders: set<nat>

    /** Every bound label marks a leader, and no index lies past the end of the list. */
    ghost predicate Valid()
      reads this
    {
      (forall l :: l in bindings ==> bindings[l] in leaders && bindings[l] <= |nodeList|)
      && (forall i :: i in leaders ==> i <= |nodeList|)
    }

    constructor ()
      ensures nodeList == [] && bindings == map[] && leaders == {} && Valid()
    {
      nodeList := [];
      bindings := map[];
      leaders := {};
    }

    /** extendWithExtendedNode */
    method ExtendWithExtendedNode(n: ExtendedNode<N, E>)
      requires Valid()
      modifies this
      ensures Valid()
      ensures nodeList == old(nodeList) + [n] && bindings == old(bindings) && leaders == old(leaders)
    {
      nodeList := nodeList + [n];
    }

    /** addLabelForNextNode: l is bound to the next index, which becomes a leader; the list is unchanged. */
    method AddLabelForNextNode(l: Label)
      requires Valid()
      modifies this
      ensures Valid()
      ensures leaders == old(leaders) + {|nodeList|}
      ensures bindings == old(bindings)[l := |nodeList|]
      ensures nodeList == old(nodeList)
    {
      leaders := leaders + {|nodeList|};
      bindings := bindings[l := |nodeList|];
    }

    /** The end of phase one: a final jump to the regular exit label. */
    method Finish(regularExitLabel: Label)
      requires Valid()
      modifies this
      ensures Valid()
      ensures nodeList == old(nodeList) + [UnconditionalJump(regularExitLabel)]
      ensures bindings == old(bindings) && leaders == old(leaders)
      ensures forall l :: l in bindings ==> bindings[l] < |nodeList|
      ensures |nodeList| > 0 && nodeList[|nodeList| - 1] == UnconditionalJump(regularExitLabel)
    {
      nodeList := nodeList + [UnconditionalJump(regularExitLabel)];
    }
  }

  /** The kinds of special block. */
  datatype SpecialKind = Entry | Exit | ExceptionalExit

  /** A basic block; successors are block indices. */
  datatype BlockShape<N> =
    | RegularB(contents: seq<N>, successor: Option<nat>)
    | ExceptionB(node: N, successor: Option<nat>)
    | ConditionalB(thenSuccessor: Option<nat>, elseSuccessor: Option<nat>)
    | SpecialB(kind: SpecialKind, successor: Option<nat>)

  const EntryBlock: nat := 0
  const RegularExitBlock: nat := 1
  const ExceptionalExitBlock: nat := 2

  /** An edge still to be linked: a block's single successor, or a conditional block's then or else successor. */
  datatype Source = SuccEdge(block: nat) | ThenEdge(block: nat) | ElseEdge(block: nat)

  function WithSuccessor<N>(b: BlockShape<N>, t: nat): (r: BlockShape<N>)
    ensures b.ConditionalB? <==> r.ConditionalB?
    ensures !b.ConditionalB? ==> r.successor == Some(t)
  {
    match b
    case RegularB(c, _) => RegularB(c, Some(t))
    case ExceptionB(n, _) => ExceptionB(n, Some(t))
    case ConditionalB(_, _) => b
    case SpecialB(k, _) => SpecialB(k, Some(t))
  }

  /** Set the successor an edge source names. */
  function SetEdge<N>(b: BlockShape<N>, src: Source, t: nat): BlockShape<N>
  {
    match src
    case SuccEdge(_) => WithSuccessor(b, t)
    case ThenEdge(_) => if b.ConditionalB? then b.(thenSuccessor := Some(t)) else b
    case ElseEdge(_) => if b.ConditionalB? then b.(elseSuccessor := Some(t)) else b
  }

  /** The block after linking every pending edge of block x in m. */
  function Relinked<N>(b: BlockShape<N>, x: nat, m: map<Source, nat>, nodeBlock: seq<nat>): BlockShape<N>
    requires forall src :: src in m ==> m[src] < |nodeBlock|
  {
    var b1 := if SuccEdge(x) in m then SetEdge(b, SuccEdge(x), nodeBlock[m[SuccEdge(x)]]) else b;
    var b2 := if ThenEdge(x) in m then SetEdge(b1, ThenEdge(x), nodeBlock[m[ThenEdge(x)]]) else b1;
    if ElseEdge(x) in m then SetEdge(b2, ElseEdge(x), nodeBlock[m[ElseEdge(x)]]) else b2
  }

  /** The state of the phase-two loop. */
  datatype Builder<N, E(==)> = Builder(blocks: seq<BlockShape<N>>, current: nat, nodeBlock: seq<nat>,
                                   missing: map<Source, nat>, missingExceptional: set<(nat, Option<nat>, E)>)

  /** The result of phase two. */
  datatype Graph<N, E(==)> = Graph(blocks: seq<BlockShape<N>>, exceptionalEdges: set<(nat, E, nat)>, nodeBlock: seq<nat>)

  function Lookup<K, V>(m: map<K, V>, k: K): (r: Option<V>)
    ensures r.Some? <==> k in m
    ensures r.Some? ==> r.value == m[k]
  {
    if k in m then Some(m[k]) else None
  }

  /** What phase two needs of phase one's output (the source asserts or dereferences these). */
  ghost predicate PhaseOneOutput<N, E>(nodeList: seq<ExtendedNode<N, E>>, bindings: map<Label, nat>,
                                       regularExitLabel: Label, exceptionalExitLabel: Label)
  {
    |nodeList| > 0
    && (forall l :: l in bindings ==> bindings[l] < |nodeList|)
    && forall i :: 0 <= i < |nodeList| ==> EntryReady(nodeList, i, bindings, regularExitLabel, exceptionalExitLabel)
  }

  ghost predicate EntryReady<N, E>(nodeList: seq<ExtendedNode<N, E>>, i: nat, bindings: map<Label, nat>,
                                   regularExitLabel: Label, exceptionalExitLabel: Label)
    requires i < |nodeList|
  {
    match nodeList[i]
    case NodeEntry(_, _) => true
    case ExceptionEntry(_, t, _) => !t ==> i + 1 < |nodeList|
    case ConditionalJump(tl, el) => tl in bindings && el in bindings
    case UnconditionalJump(l) => l == regularExitLabel || l == exceptionalExitLabel || l in bindings
  }

  /** The final jump added by phase one makes every non-terminating exception node have a next node. */
  lemma FinalJumpSuffices<N, E>(nodeList: seq<ExtendedNode<N, E>>, i: nat, bindings: map<Label, nat>,
                                regularExitLabel: Label, exceptionalExitLabel: Label)
    requires i < |nodeList| && nodeList[|nodeList| - 1] == UnconditionalJump(regularExitLabel)
    requires nodeList[i].ExceptionEntry?
    ensures EntryReady(nodeList, i, bindings, regularExitLabel, exceptionalExitLabel)
  {
  }

  function StartBlock<N, E(==)>(b: Builder<N, E>): (r: Builder<N, E>)
    ensures |r.blocks| == |b.blocks| + 1 && r.current == |b.blocks|
    ensures r.nodeBlock == b.nodeBlock && r.missingExceptional == b.missingExceptional
  {
    b.(blocks := b.blocks + [RegularB([], None)], current := |b.blocks|)
  }

  function LinkCurrent<N, E(==)>(b: Builder<N, E>, t: nat): (r: Builder<N, E>)
    requires b.current < |b.blocks|
    ensures |r.blocks| == |b.blocks| && r.current == b.current
    ensures r.nodeBlock == b.nodeBlock && r.missingExceptional == b.missingExceptional
  {
    b.(blocks := b.blocks[b.current := WithSuccessor(b.blocks[b.current], t)])
  }

  /** A leader starts a new regular block, linked from the current one. */
  function AtLeader<N, E(==)>(b: Builder<N, E>, isLeader: bool): (r: Builder<N, E>)
    requires b.current < |b.blocks|
    ensures |b.blocks| <= |r.blocks| && r.current < |r.blocks|
    ensures r.nodeBlock == b.nodeBlock && r.missingExceptional == b.missingExceptional
  {
    if isLeader then StartBlock(LinkCurrent(b, |b.blocks|)) else b
  }

  function AddNode<N>(b: BlockShape<N>, n: N): BlockShape<N>
  {
    if b.RegularB? then b.(contents := b.contents + [n]) else b
  }

  /** One iteration of the loop in phase two's process. */
  function Step<N, E(==)>(b: Builder<N, E>, i: nat, en: ExtendedNode<N, E>, leaders: set<nat>, bindings: map<Label, nat>,
                      regularExitLabel: Label, exceptionalExitLabel: Label): (r: Builder<N, E>)
    requires b.current < |b.blocks|
    requires en.ConditionalJump? ==> en.thenLabel in bindings && en.elseLabel in bindings
    requires en.UnconditionalJump? ==>
      en.target == regularExitLabel || en.target == exceptionalExitLabel || en.target in bindings
    ensures |b.blocks| <= |r.blocks| && r.current < |r.blocks|
    ensures |r.nodeBlock| == |b.nodeBlock| + 1 && r.nodeBlock[..|b.nodeBlock|] == b.nodeBlock
    ensures b.missingExceptional <= r.missingExceptional
  {
    match en
    case NodeEntry(n, term) => NodeStep(b, i in leaders, n, term)
    case ConditionalJump(tl, el) => ConditionalStep(b, bindings[tl], bindings[el])
    case UnconditionalJump(l) => JumpStep(b, i in leaders, l, bindings, regularExitLabel, exceptionalExitLabel)
    case ExceptionEntry(n, term, exc) => ExceptionStep(b, i, n, term, exc, bindings)
  }

  /** Records that the next entry lies in block x. */
  function Assign<N, E(==)>(b: Builder<N, E>, x: nat): (r: Builder<N, E>)
    ensures |r.nodeBlock| == |b.nodeBlock| + 1 && r.nodeBlock[..|b.nodeBlock|] == b.nodeBlock && r.nodeBlock[|b.nodeBlock|] == x
    ensures r.blocks == b.blocks && r.current == b.current && r.missingExceptional == b.missingExceptional
  {
    b.(nodeBlock := b.nodeBlock + [x])
  }

  /** A node goes into the current block (a new one at a leader); a terminating node closes it. */
  function NodeStep<N, E(==)>(b: Builder<N, E>, isLeader: bool, n: N, term: bool): (r: Builder<N, E>)
    requires b.current < |b.blocks|
    ensures |b.blocks| <= |r.blocks| && r.current < |r.blocks|
    ensures |r.nodeBlock| == |b.nodeBlock| + 1 && r.nodeBlock[..|b.nodeBlock|] == b.nodeBlock
    ensures r.missingExceptional == b.missingExceptional
  {
    var b1 := AtLeader(b, isLeader);
    var b2 := Assign(b1, b1.current).(blocks := b1.blocks[b1.current := AddNode(b1.blocks[b1.current], n)]);
    if term then StartBlock(LinkCurrent(b2, ExceptionalExitBlock)) else b2
  }

  /** A conditional jump ends the current block with a new conditional block whose two edges are pending. */
  function ConditionalStep<N, E(==)>(b: Builder<N, E>, thenTarget: nat, elseTarget: nat): (r: Builder<N, E>)
    requires b.current < |b.blocks|
    ensures |b.blocks| <= |r.blocks| && r.current < |r.blocks|
    ensures |r.nodeBlock| == |b.nodeBlock| + 1 && r.nodeBlock[..|b.nodeBlock|] == b.nodeBlock
    ensures r.missingExceptional == b.missingExceptional
  {
    var cb := |b.blocks|;
    var b1 := Assign(LinkCurrent(b, cb), b.current);
    var b2 := StartBlock(b1.(blocks := b1.blocks + [ConditionalB(None, None)]));
    b2.(missing := b2.missing[ThenEdge(cb) := thenTarget][ElseEdge(cb) := elseTarget])
  }

  /** An unconditional jump ends the current block, linked to an exit or with its edge pending. */
  function JumpStep<N, E(==)>(b: Builder<N, E>, isLeader: bool, l: Label, bindings: map<Label, nat>,
                              regularExitLabel: Label, exceptionalExitLabel: Label): (r: Builder<N, E>)
    requires b.current < |b.blocks|
    requires l == regularExitLabel || l == exceptionalExitLabel || l in bindings
    ensures |b.blocks| <= |r.blocks| && r.current < |r.blocks|
    ensures |r.nodeBlock| == |b.nodeBlock| + 1 && r.nodeBlock[..|b.nodeBlock|] == b.nodeBlock
    ensures r.missingExceptional == b.missingExceptional
  {
    var b1 := AtLeader(b, isLeader);
    var b2 := Assign(b1, b1.current);
    var b3 :=
      if l == regularExitLabel then LinkCurrent(b2, RegularExitBlock)
      else if l == exceptionalExitLabel then LinkCurrent(b2, ExceptionalExitBlock)
      else b2.(missing := b2.missing[SuccEdge(b2.current) := bindings[l]]);
    StartBlock(b3)
  }

  /** An exception node gets a block of its own; its normal and exceptional edges are pending. */
  function ExceptionStep<N, E(==)>(b: Builder<N, E>, i: nat, n: N, term: bool, exc: map<E, set<Label>>,
                                   bindings: map<Label, nat>): (r: Builder<N, E>)
    requires b.current < |b.blocks|
    ensures |b.blocks| <= |r.blocks| && r.current < |r.blocks|
    ensures |r.nodeBlock| == |b.nodeBlock| + 1 && r.nodeBlock[..|b.nodeBlock|] == b.nodeBlock
    ensures b.missingExceptional <= r.missingExceptional
  {
    var e := |b.blocks|;
    var b1 := Assign(LinkCurrent(b, e), e);
    var b2 := StartBlock(b1.(blocks := b1.blocks + [ExceptionB(n, None)]));
    var b3 := if term then b2 else b2.(missing := b2.missing[SuccEdge(e) := i + 1]);
    b3.(missingExceptional := b3.missingExceptional + set c, l | c in exc && l in exc[c] :: (e, Lookup(bindings, l), c))
  }

  /** The loop state before the first entry. */
  function InitialBuilder<N, E(==)>(): Builder<N, E>
  {
    Builder([SpecialB(Entry, None), SpecialB(Exit, None), SpecialB(ExceptionalExit, None), RegularB([], None)],
            3, [], map[SuccEdge(EntryBlock) := 0], {})
  }

  /** The shape of the loop state. */
  ghost predicate Shape<N, E>(b: Builder<N, E>, j: nat, n: nat)
  {
    3 <= b.current && b.current + 1 == |b.blocks| && b.blocks[b.current].RegularB?
    && b.blocks[b.current].successor.None?
    && b.blocks[0] == SpecialB(Entry, None) && b.blocks[1] == SpecialB(Exit, None)
    && b.blocks[2] == SpecialB(ExceptionalExit, None)
    && |b.nodeBlock| == j
    && (forall k :: 0 <= k < j ==> 3 <= b.nodeBlock[k] <= b.current)
    && SuccEdge(EntryBlock) in b.missing && b.missing[SuccEdge(EntryBlock)] == 0
    && (forall src :: src in b.missing ==> b.missing[src] < n)
    && (forall src :: src in b.missing && src != SuccEdge(EntryBlock) ==>
          3 <= src.block < b.current
          && (src.SuccEdge? ==> b.blocks[src.block].RegularB? || b.blocks[src.block].ExceptionB?)
          && (!src.SuccEdge? ==> b.blocks[src.block].ConditionalB?))
    && (forall p :: p in b.missingExceptional ==> 3 <= p.0 < b.current && b.blocks[p.0].ExceptionB?)
  }

  /** What the loop state records about the k-th entry. */
  ghost predicate EntryFact<N, E>(b: Builder<N, E>, k: nat, en: ExtendedNode<N, E>, bindings: map<Label, nat>,
                                  regularExitLabel: Label, exceptionalExitLabel: Label)
    requires k < |b.nodeBlock| && forall k' :: 0 <= k' < |b.nodeBlock| ==> b.nodeBlock[k'] < |b.blocks|
  {
    var x := b.nodeBlock[k];
    match en
    case NodeEntry(n, t) =>
      b.blocks[x].RegularB? && n in b.blocks[x].contents
      && (t ==> x < b.current && b.blocks[x].successor == Some(ExceptionalExitBlock) && SuccEdge(x) !in b.missing)
    case ConditionalJump(tl, el) =>
      x < b.current && b.blocks[x].RegularB? && SuccEdge(x) !in b.missing
      && b.blocks[x].successor.Some?
      && (var c := b.blocks[x].successor.value;
          3 <= c < b.current && c < |b.blocks| && b.blocks[c].ConditionalB?
          && tl in bindings && el in bindings
          && ThenEdge(c) in b.missing && b.missing[ThenEdge(c)] == bindings[tl]
          && ElseEdge(c) in b.missing && b.missing[ElseEdge(c)] == bindings[el])
    case UnconditionalJump(l) =>
      x < b.current && b.blocks[x].RegularB?
      && (l == regularExitLabel ==> b.blocks[x].successor == Some(RegularExitBlock) && SuccEdge(x) !in b.missing)
      && (l != regularExitLabel && l == exceptionalExitLabel ==>
            b.blocks[x].successor == Some(ExceptionalExitBlock) && SuccEdge(x) !in b.missing)
      && (l != regularExitLabel && l != exceptionalExitLabel ==>
            l in bindings && SuccEdge(x) in b.missing && b.missing[SuccEdge(x)] == bindings[l])
    case ExceptionEntry(n, t, exc) =>
      x < b.current && b.blocks[x] == ExceptionB(n, None)
      && (!t ==> SuccEdge(x) in b.missing && b.missing[SuccEdge(x)] == k + 1)
      && (t ==> SuccEdge(x) !in b.missing)
      && forall c, l :: c in exc && l in exc[c] ==> (x, Lookup(bindings, l), c) in b.missingExceptional
  }

  /** How leaders and fall-through partition the entries into blocks. */
  ghost predicate Partition<N, E>(nodeBlock: seq<nat>, nodeList: seq<ExtendedNode<N, E>>, leaders: set<nat>)
    requires |nodeBlock| <= |nodeList|
  {
    (forall i :: 0 <= i < |nodeBlock| && i in leaders && (nodeList[i].NodeEntry? || nodeList[i].UnconditionalJump?) ==>
       forall k :: 0 <= k < i ==> nodeBlock[k] != nodeBlock[i])
    && (forall i :: 0 < i < |nodeBlock| && i !in leaders && nodeList[i].NodeEntry?
                    && nodeList[i - 1].NodeEntry? && !nodeList[i - 1].terminates ==>
          nodeBlock[i] == nodeBlock[i - 1])
  }

  ghost predicate LoopInvariant<N, E>(b: Builder<N, E>, j: nat, nodeList: seq<ExtendedNode<N, E>>, leaders: set<nat>,
                                      bindings: map<Label, nat>, regularExitLabel: Label, exceptionalExitLabel: Label)
  {
    j <= |nodeList| && Shape(b, j, |nodeList|)
    && (forall k :: 0 <= k < j ==> EntryFact(b, k, nodeList[k], bindings, regularExitLabel, exceptionalExitLabel))
    && Partition(b.nodeBlock, nodeList, leaders)
  }

  /** What one step keeps of the earlier state. */
  ghost predicate Grows<N, E>(b: Builder<N, E>, b': Builder<N, E>)
  {
    b.current < |b.blocks| <= |b'.blocks| && b.current <= b'.current
    && |b.nodeBlock| < |b'.nodeBlock| && b'.nodeBlock[..|b.nodeBlock|] == b.nodeBlock
    && (forall x :: 0 <= x < b.current ==> b'.blocks[x] == b.blocks[x])
    && b'.blocks[b.current].RegularB? && b.blocks[b.current].RegularB?
    && (forall n :: n in b.blocks[b.current].contents ==> n in b'.blocks[b.current].contents)
    && (forall src :: src in b.missing ==> src in b'.missing && b'.missing[src] == b.missing[src])
    && (forall src :: src in b'.missing && src !in b.missing ==> src.block >= b.current)
    && b.missingExceptional <= b'.missingExceptional
  }

  lemma StepGrows<N, E>(b: Builder<N, E>, i: nat, en: ExtendedNode<N, E>, leaders: set<nat>, bindings: map<Label, nat>,
                        regularExitLabel: Label, exceptionalExitLabel: Label, n: nat)
    requires Shape(b, i, n)
    requires en.ConditionalJump? ==> en.thenLabel in bindings && en.elseLabel in bindings
    requires en.UnconditionalJump? ==>
      en.target == regularExitLabel || en.target == exceptionalExitLabel || en.target in bindings
    ensures Grows(b, Step(b, i, en, leaders, bindings, regularExitLabel, exceptionalExitLabel))
  {
    match en {
      case NodeEntry(_, _) => StepGrowsNode(b, i, en, leaders, bindings, regularExitLabel, exceptionalExitLabel, n);
      case ConditionalJump(_, _) => StepGrowsConditional(b, i, en, leaders, bindings, regularExitLabel, exceptionalExitLabel, n);
      case UnconditionalJump(_) => StepGrowsJump(b, i, en, leaders, bindings, regularExitLabel, exceptionalExitLabel, n);
      case ExceptionEntry(_, _, _) => StepGrowsException(b, i, en, leaders, bindings, regularExitLabel, exceptionalExitLabel, n);
    }
  }

  lemma StepGrowsNode<N, E>(b: Builder<N, E>, i: nat, en: ExtendedNode<N, E>, leaders: set<nat>, bindings: map<Label, nat>,
                            regularExitLabel: Label, exceptionalExitLabel: Label, n: nat)
    requires Shape(b, i, n)
    requires en.ConditionalJump? ==> en.thenLabel in bindings && en.elseLabel in bindings
    requires en.UnconditionalJump? ==>
      en.target == regularExitLabel || en.target == exceptionalExitLabel || en.target in bindings
    requires en.NodeEntry?
    ensures Grows(b, Step(b, i, en, leaders, bindings, regularExitLabel, exceptionalExitLabel))
  {
  }

  lemma StepGrowsConditional<N, E>(b: Builder<N, E>, i: nat, en: ExtendedNode<N, E>, leaders: set<nat>, bindings: map<Label, nat>,
                                   regularExitLabel: Label, exceptionalExitLabel: Label, n: nat)
    requires Shape(b, i, n)
    requires en.ConditionalJump? ==> en.thenLabel in bindings && en.elseLabel in bindings
    requires en.UnconditionalJump? ==>
      en.target == regularExitLabel || en.target == exceptionalExitLabel || en.target in bindings
    requires en.ConditionalJump?
    ensures Grows(b, Step(b, i, en, leaders, bindings, regularExitLabel, exceptionalExitLabel))
  {
  }

  lemma StepGrowsJump<N, E>(b: Builder<N, E>, i: nat, en: ExtendedNode<N, E>, leaders: set<nat>, bindings: map<Label, nat>,
                            regularExitLabel: Label, exceptionalExitLabel: Label, n: nat)
    requires Shape(b, i, n)
    requires en.ConditionalJump? ==> en.thenLabel in bindings && en.elseLabel in bindings
    requires en.UnconditionalJump? ==>
      en.target == regularExitLabel || en.target == exceptionalExitLabel || en.target in bindings
    requires en.UnconditionalJump?
    ensures Grows(b, Step(b, i, en, leaders, bindings, regularExitLabel, exceptionalExitLabel))
  {
  }

  lemma StepGrowsException<N, E>(b: Builder<N, E>, i: nat, en: ExtendedNode<N, E>, leaders: set<nat>, bindings: map<Label, nat>,
                                 regularExitLabel: Label, exceptionalExitLabel: Label, n: nat)
    requires Shape(b, i, n)
    requires en.ConditionalJump? ==> en.thenLabel in bindings && en.elseLabel in bindings
    requires en.UnconditionalJump? ==>
      en.target == regularExitLabel || en.target == exceptionalExitLabel || en.target in bindings
    requires en.ExceptionEntry?
    ensures Grows(b, Step(b, i, en, leaders, bindings, regularExitLabel, exceptionalExitLabel))
  {
  }

  lemma StepShape<N, E>(b: Builder<N, E>, i: nat, en: ExtendedNode<N, E>, leaders: set<nat>, bindings: map<Label, nat>,
                        regularExitLabel: Label, exceptionalExitLabel: Label, n: nat)
    requires Shape(b, i, n) && i < n
    requires forall l :: l in bindings ==> bindings[l] < n
    requires en.ConditionalJump? ==> en.thenLabel in bindings && en.elseLabel in bindings
    requires en.UnconditionalJump? ==>
      en.target == regularExitLabel || en.target == exceptionalExitLabel || en.target in bindings
    requires en.ExceptionEntry? && !en.terminates ==> i + 1 < n
    ensures Shape(Step(b, i, en, leaders, bindings, regularExitLabel, exceptionalExitLabel), i + 1, n)
  {
    match en {
      case NodeEntry(_, _) => StepShapeNode(b, i, en, leaders, bindings, regularExitLabel, exceptionalExitLabel, n);
      case ConditionalJump(_, _) => StepShapeConditional(b, i, en, leaders, bindings, regularExitLabel, exceptionalExitLabel, n);
      case UnconditionalJump(_) => StepShapeJump(b, i, en, leaders, bindings, regularExitLabel, exceptionalExitLabel, n);
      case ExceptionEntry(_, _, _) => StepShapeException(b, i, en, leaders, bindings, regularExitLabel, exceptionalExitLabel, n);
    }
  }

  lemma StepShapeNode<N, E>(b: Builder<N, E>, i: nat, en: ExtendedNode<N, E>, leaders: set<nat>, bindings: map<Label, nat>,
                        regularExitLabel: Label, exceptionalExitLabel: Label, n: nat)
    requires Shape(b, i, n) && i < n
    requires forall l :: l in bindings ==> bindings[l] < n
    requires en.NodeEntry?
    ensures Shape(Step(b, i, en, leaders, bindings, regularExitLabel, exceptionalExitLabel), i + 1, n)
  {
    var b1 := AtLeader(b, i in leaders);
    if i in leaders {
      LinkStartShape(b, |b.blocks|, i, n);
    }
    AssignShape(b1, i, n);
    var b2 := Assign(b1, b1.current).(blocks := b1.blocks[b1.current := AddNode(b1.blocks[b1.current], en.node)]);
    assert Shape(b2, i + 1, n);
    if en.terminates {
      LinkStartShape(b2, ExceptionalExitBlock, i + 1, n);
    }
  }

  lemma StepShapeConditional<N, E>(b: Builder<N, E>, i: nat, en: ExtendedNode<N, E>, leaders: set<nat>, bindings: map<Label, nat>,
                        regularExitLabel: Label, exceptionalExitLabel: Label, n: nat)
    requires Shape(b, i, n) && i < n
    requires forall l :: l in bindings ==> bindings[l] < n
    requires en.ConditionalJump? && en.thenLabel in bindings && en.elseLabel in bindings
    ensures Shape(Step(b, i, en, leaders, bindings, regularExitLabel, exceptionalExitLabel), i + 1, n)
  {
  }

  lemma StepShapeJump<N, E>(b: Builder<N, E>, i: nat, en: ExtendedNode<N, E>, leaders: set<nat>, bindings: map<Label, nat>,
                        regularExitLabel: Label, exceptionalExitLabel: Label, n: nat)
    requires Shape(b, i, n) && i < n
    requires forall l :: l in bindings ==> bindings[l] < n
    requires en.UnconditionalJump?
    requires en.target == regularExitLabel || en.target == exceptionalExitLabel || en.target in bindings
    ensures Shape(Step(b, i, en, leaders, bindings, regularExitLabel, exceptionalExitLabel), i + 1, n)
  {
    var l := en.target;
    var b1 := AtLeader(b, i in leaders);
    if i in leaders {
      LinkStartShape(b, |b.blocks|, i, n);
    }
    var b2 := Assign(b1, b1.current);
    AssignShape(b1, i, n);
    if l == regularExitLabel {
      LinkStartShape(b2, RegularExitBlock, i + 1, n);
    } else if l == exceptionalExitLabel {
      LinkStartShape(b2, ExceptionalExitBlock, i + 1, n);
    } else {
      PendStartShape(b2, bindings[l], i + 1, n);
    }
  }

  /** Linking the open block and opening a new one keeps the shape. */
  lemma LinkStartShape<N, E>(b: Builder<N, E>, t: nat, j: nat, n: nat)
    requires Shape(b, j, n)
    ensures Shape(StartBlock(LinkCurrent(b, t)), j, n)
  {
    var b' := StartBlock(LinkCurrent(b, t));
    assert forall x :: 0 <= x < b.current ==> b'.blocks[x] == b.blocks[x];
  }

  /** Leaving the open block's edge pending and opening a new one keeps the shape. */
  lemma PendStartShape<N, E>(b: Builder<N, E>, t: nat, j: nat, n: nat)
    requires Shape(b, j, n) && t < n
    ensures Shape(StartBlock(b.(missing := b.missing[SuccEdge(b.current) := t])), j, n)
  {
  }

  /** Recording the next entry in the open block keeps the shape, one entry further. */
  lemma AssignShape<N, E>(b: Builder<N, E>, j: nat, n: nat)
    requires Shape(b, j, n)
    ensures Shape(Assign(b, b.current), j + 1, n)
  {
  }

  lemma StepShapeException<N, E>(b: Builder<N, E>, i: nat, en: ExtendedNode<N, E>, leaders: set<nat>, bindings: map<Label, nat>,
                        regularExitLabel: Label, exceptionalExitLabel: Label, n: nat)
    requires Shape(b, i, n) && i < n
    requires forall l :: l in bindings ==> bindings[l] < n
    requires en.ExceptionEntry? && (!en.terminates ==> i + 1 < n)
    ensures Shape(Step(b, i, en, leaders, bindings, regularExitLabel, exceptionalExitLabel), i + 1, n)
  {
  }

  lemma StepNewFact<N, E>(b: Builder<N, E>, i: nat, en: ExtendedNode<N, E>, leaders: set<nat>, bindings: map<Label, nat>,
                          regularExitLabel: Label, exceptionalExitLabel: Label, n: nat)
    requires Shape(b, i, n) && i < n
    requires forall l :: l in bindings ==> bindings[l] < n
    requires en.ConditionalJump? ==> en.thenLabel in bindings && en.elseLabel in bindings
    requires en.UnconditionalJump? ==>
      en.target == regularExitLabel || en.target == exceptionalExitLabel || en.target in bindings
    requires en.ExceptionEntry? && !en.terminates ==> i + 1 < n
    ensures Shape(Step(b, i, en, leaders, bindings, regularExitLabel, exceptionalExitLabel), i + 1, n)
    ensures EntryFact(Step(b, i, en, leaders, bindings, regularExitLabel, exceptionalExitLabel), i, en, bindings,
                      regularExitLabel, exceptionalExitLabel)
  {
    match en {
      case NodeEntry(_, _) => NodeFact(b, i, en, leaders, bindings, regularExitLabel, exceptionalExitLabel, n);
      case ConditionalJump(_, _) => ConditionalFact(b, i, en, leaders, bindings, regularExitLabel, exceptionalExitLabel, n);
      case UnconditionalJump(_) => JumpFact(b, i, en, leaders, bindings, regularExitLabel, exceptionalExitLabel, n);
      case ExceptionEntry(_, _, _) => ExceptionFact(b, i, en, leaders, bindings, regularExitLabel, exceptionalExitLabel, n);
    }
  }

  /** The fact a node entry leaves: its block is regular and holds it, and a terminating node's block is closed. */
  lemma NodeFact<N, E>(b: Builder<N, E>, i: nat, en: ExtendedNode<N, E>, leaders: set<nat>, bindings: map<Label, nat>,
                          regularExitLabel: Label, exceptionalExitLabel: Label, n: nat)
    requires Shape(b, i, n) && i < n
    requires forall l :: l in bindings ==> bindings[l] < n
    requires en.NodeEntry?
    ensures Shape(Step(b, i, en, leaders, bindings, regularExitLabel, exceptionalExitLabel), i + 1, n)
    ensures EntryFact(Step(b, i, en, leaders, bindings, regularExitLabel, exceptionalExitLabel), i, en, bindings,
                      regularExitLabel, exceptionalExitLabel)
  {
    StepShape(b, i, en, leaders, bindings, regularExitLabel, exceptionalExitLabel, n);
  }

  /** The fact a conditional jump leaves: its block leads to a conditional block whose two edges are pending. */
  lemma ConditionalFact<N, E>(b: Builder<N, E>, i: nat, en: ExtendedNode<N, E>, leaders: set<nat>, bindings: map<Label, nat>,
                          regularExitLabel: Label, exceptionalExitLabel: Label, n: nat)
    requires Shape(b, i, n) && i < n
    requires forall l :: l in bindings ==> bindings[l] < n
    requires en.ConditionalJump? && en.thenLabel in bindings && en.elseLabel in bindings
    ensures Shape(Step(b, i, en, leaders, bindings, regularExitLabel, exceptionalExitLabel), i + 1, n)
    ensures EntryFact(Step(b, i, en, leaders, bindings, regularExitLabel, exceptionalExitLabel), i, en, bindings,
                      regularExitLabel, exceptionalExitLabel)
  {
    StepShape(b, i, en, leaders, bindings, regularExitLabel, exceptionalExitLabel, n);
    var b' := Step(b, i, en, leaders, bindings, regularExitLabel, exceptionalExitLabel);
    assert b'.blocks[b'.nodeBlock[i]].successor == Some(|b.blocks|);
  }

  /** The fact an unconditional jump leaves: its block leads to an exit, or its edge is pending. */
  lemma JumpFact<N, E>(b: Builder<N, E>, i: nat, en: ExtendedNode<N, E>, leaders: set<nat>, bindings: map<Label, nat>,
                          regularExitLabel: Label, exceptionalExitLabel: Label, n: nat)
    requires Shape(b, i, n) && i < n
    requires forall l :: l in bindings ==> bindings[l] < n
    requires en.UnconditionalJump?
    requires en.target == regularExitLabel || en.target == exceptionalExitLabel || en.target in bindings
    ensures Shape(Step(b, i, en, leaders, bindings, regularExitLabel, exceptionalExitLabel), i + 1, n)
    ensures EntryFact(Step(b, i, en, leaders, bindings, regularExitLabel, exceptionalExitLabel), i, en, bindings,
                      regularExitLabel, exceptionalExitLabel)
  {
    StepShape(b, i, en, leaders, bindings, regularExitLabel, exceptionalExitLabel, n);
  }

  /** The fact an exception entry leaves: a block of its own with its normal and exceptional edges pending. */
  lemma ExceptionFact<N, E>(b: Builder<N, E>, i: nat, en: ExtendedNode<N, E>, leaders: set<nat>, bindings: map<Label, nat>,
                          regularExitLabel: Label, exceptionalExitLabel: Label, n: nat)
    requires Shape(b, i, n) && i < n
    requires forall l :: l in bindings ==> bindings[l] < n
    requires en.ExceptionEntry? && (!en.terminates ==> i + 1 < n)
    ensures Shape(Step(b, i, en, leaders, bindings, regularExitLabel, exceptionalExitLabel), i + 1, n)
    ensures EntryFact(Step(b, i, en, leaders, bindings, regularExitLabel, exceptionalExitLabel), i, en, bindings,
                      regularExitLabel, exceptionalExitLabel)
  {
    StepShape(b, i, en, leaders, bindings, regularExitLabel, exceptionalExitLabel, n);
    var b' := Step(b, i, en, leaders, bindings, regularExitLabel, exceptionalExitLabel);
    forall c, l | c in en.exceptions && l in en.exceptions[c]
      ensures (b'.nodeBlock[i], Lookup(bindings, l), c) in b'.missingExceptional
    {
    }
  }

  lemma OldFactKept<N, E>(b: Builder<N, E>, b': Builder<N, E>, k: nat, en: ExtendedNode<N, E>, bindings: map<Label, nat>,
                          regularExitLabel: Label, exceptionalExitLabel: Label, n: nat, n': nat)
    requires Shape(b, |b.nodeBlock|, n) && Shape(b', |b'.nodeBlock|, n') && Grows(b, b')
    requires k < |b.nodeBlock|
    requires EntryFact(b, k, en, bindings, regularExitLabel, exceptionalExitLabel)
    ensures EntryFact(b', k, en, bindings, regularExitLabel, exceptionalExitLabel)
  {
    assert b'.nodeBlock[k] == b.nodeBlock[..|b.nodeBlock|][k];
    match en {
      case NodeEntry(nd, t) =>
      case ConditionalJump(tl, el) =>
      case UnconditionalJump(l) =>
      case ExceptionEntry(nd, t, exc) =>
    }
  }

  lemma StepPartition<N, E>(b: Builder<N, E>, i: nat, nodeList: seq<ExtendedNode<N, E>>, leaders: set<nat>,
                            bindings: map<Label, nat>, regularExitLabel: Label, exceptionalExitLabel: Label)
    requires i < |nodeList| && Shape(b, i, |nodeList|) && Partition(b.nodeBlock, nodeList, leaders)
    requires i > 0 ==> EntryFact(b, i - 1, nodeList[i - 1], bindings, regularExitLabel, exceptionalExitLabel)
    requires i > 0 && nodeList[i - 1].NodeEntry? && !nodeList[i - 1].terminates ==> b.nodeBlock[i - 1] == b.current
    requires EntryReady(nodeList, i, bindings, regularExitLabel, exceptionalExitLabel)
    ensures Partition(Step(b, i, nodeList[i], leaders, bindings, regularExitLabel, exceptionalExitLabel).nodeBlock,
                      nodeList, leaders)
  {
    var b' := Step(b, i, nodeList[i], leaders, bindings, regularExitLabel, exceptionalExitLabel);
    StepBlockOf(b, i, nodeList[i], leaders, bindings, regularExitLabel, exceptionalExitLabel, |nodeList|);
    PartitionExtends(b.nodeBlock, b'.nodeBlock, nodeList, leaders, i, b.current, |b.blocks|);
  }

  /** Recording entry i in a fresh block at a leader, or in the open block otherwise, keeps the partition. */
  lemma PartitionExtends<N, E>(nodeBlock: seq<nat>, nodeBlock': seq<nat>, nodeList: seq<ExtendedNode<N, E>>,
                               leaders: set<nat>, i: nat, current: nat, freshBlock: nat)
    requires i < |nodeList| && |nodeBlock| == i && |nodeBlock'| == i + 1 && nodeBlock'[..i] == nodeBlock
    requires Partition(nodeBlock, nodeList, leaders)
    requires forall k :: 0 <= k < i ==> nodeBlock[k] <= current
    requires current < freshBlock
    requires i in leaders && (nodeList[i].NodeEntry? || nodeList[i].UnconditionalJump?) ==> nodeBlock'[i] == freshBlock
    requires i !in leaders && nodeList[i].NodeEntry? ==> nodeBlock'[i] == current
    requires i > 0 && nodeList[i - 1].NodeEntry? && !nodeList[i - 1].terminates ==> nodeBlock[i - 1] == current
    ensures Partition(nodeBlock', nodeList, leaders)
  {
    forall k | 0 <= k < i
      ensures nodeBlock'[k] == nodeBlock[k]
    {
      assert nodeBlock'[k] == nodeBlock'[..i][k];
    }
  }

  /** The block the step records for entry i: a fresh one at a leader, the current one for a node that is not. */
  lemma StepBlockOf<N, E>(b: Builder<N, E>, i: nat, en: ExtendedNode<N, E>, leaders: set<nat>,
                          bindings: map<Label, nat>, regularExitLabel: Label, exceptionalExitLabel: Label, n: nat)
    requires Shape(b, i, n)
    requires en.ConditionalJump? ==> en.thenLabel in bindings && en.elseLabel in bindings
    requires en.UnconditionalJump? ==>
      en.target == regularExitLabel || en.target == exceptionalExitLabel || en.target in bindings
    ensures var b' := Step(b, i, en, leaders, bindings, regularExitLabel, exceptionalExitLabel);
      && |b'.nodeBlock| == i + 1 && b'.nodeBlock[..i] == b.nodeBlock
      && (i in leaders && (en.NodeEntry? || en.UnconditionalJump?) ==> b'.nodeBlock[i] == |b.blocks|)
      && (i !in leaders && en.NodeEntry? ==> b'.nodeBlock[i] == b.current)
  {
  }

  /** Fall-through: a non-terminating node leaves the current block open. */
  lemma StepOpen<N, E>(b: Builder<N, E>, i: nat, en: ExtendedNode<N, E>, leaders: set<nat>, bindings: map<Label, nat>,
                       regularExitLabel: Label, exceptionalExitLabel: Label, n: nat)
    requires Shape(b, i, n) && en.NodeEntry? && !en.terminates
    ensures var b' := Step(b, i, en, leaders, bindings, regularExitLabel, exceptionalExitLabel);
      b'.nodeBlock[i] == b'.current
  {
  }

  /** The previous entry, when it is a non-terminating node, left its block open. */
  ghost predicate OpenAfter<N, E>(b: Builder<N, E>, i: nat, nodeList: seq<ExtendedNode<N, E>>)
    requires i <= |nodeList| && |b.nodeBlock| == i
  {
    i > 0 && nodeList[i - 1].NodeEntry? && !nodeList[i - 1].terminates ==> b.nodeBlock[i - 1] == b.current
  }

  /** One step of the loop keeps its invariant. */
  lemma StepKeepsInvariant<N, E>(b: Builder<N, E>, i: nat, nodeList: seq<ExtendedNode<N, E>>, leaders: set<nat>,
                                 bindings: map<Label, nat>, regularExitLabel: Label, exceptionalExitLabel: Label)
    requires PhaseOneOutput(nodeList, bindings, regularExitLabel, exceptionalExitLabel) && i < |nodeList|
    requires LoopInvariant(b, i, nodeList, leaders, bindings, regularExitLabel, exceptionalExitLabel)
    requires OpenAfter(b, i, nodeList)
    requires EntryReady(nodeList, i, bindings, regularExitLabel, exceptionalExitLabel)
    ensures var next := Step(b, i, nodeList[i], leaders, bindings, regularExitLabel, exceptionalExitLabel);
      LoopInvariant(next, i + 1, nodeList, leaders, bindings, regularExitLabel, exceptionalExitLabel)
      && OpenAfter(next, i + 1, nodeList)
  {
    assert EntryReady(nodeList, i, bindings, regularExitLabel, exceptionalExitLabel);
    var next := Step(b, i, nodeList[i], leaders, bindings, regularExitLabel, exceptionalExitLabel);
    StepGrows(b, i, nodeList[i], leaders, bindings, regularExitLabel, exceptionalExitLabel, |nodeList|);
    StepNewFact(b, i, nodeList[i], leaders, bindings, regularExitLabel, exceptionalExitLabel, |nodeList|);
    forall k | 0 <= k < i
      ensures EntryFact(next, k, nodeList[k], bindings, regularExitLabel, exceptionalExitLabel)
    {
      OldFactKept(b, next, k, nodeList[k], bindings, regularExitLabel, exceptionalExitLabel, |nodeList|, |nodeList|);
    }
    StepPartition(b, i, nodeList, leaders, bindings, regularExitLabel, exceptionalExitLabel);
    if nodeList[i].NodeEntry? && !nodeList[i].terminates {
      StepOpen(b, i, nodeList[i], leaders, bindings, regularExitLabel, exceptionalExitLabel, |nodeList|);
    }
  }

  /** The loop of process, over the node list. */
  method PartitionEntries<N, E(==)>(nodeList: seq<ExtendedNode<N, E>>, leaders: set<nat>, bindings: map<Label, nat>,
                                    regularExitLabel: Label, exceptionalExitLabel: Label) returns (b: Builder<N, E>)
    requires PhaseOneOutput(nodeList, bindings, regularExitLabel, exceptionalExitLabel)
    ensures LoopInvariant(b, |nodeList|, nodeList, leaders, bindings, regularExitLabel, exceptionalExitLabel)
  {
    b := InitialBuilder();
    var i := 0;
    while i < |nodeList|
      invariant i <= |nodeList|
      invariant LoopInvariant(b, i, nodeList, leaders, bindings, regularExitLabel, exceptionalExitLabel)
      invariant OpenAfter(b, i, nodeList)
    {
      assert EntryReady(nodeList, i, bindings, regularExitLabel, exceptionalExitLabel);
      StepKeepsInvariant(b, i, nodeList, leaders, bindings, regularExitLabel, exceptionalExitLabel);
      b := Step(b, i, nodeList[i], leaders, bindings, regularExitLabel, exceptionalExitLabel);
      i := i + 1;
    }
  }

  /** The loop that adds the missing edges: each pending edge is linked to the block of its target entry. */
  method LinkMissingEdges<N>(blocks: seq<BlockShape<N>>, missing: map<Source, nat>, nodeBlock: seq<nat>)
    returns (r: seq<BlockShape<N>>)
    requires forall src :: src in missing ==> missing[src] < |nodeBlock|
    ensures |r| == |blocks|
    ensures forall x :: 0 <= x < |r| ==> r[x] == Relinked(blocks[x], x, missing, nodeBlock)
  {
    r := blocks;
    var todo := missing.Keys;
    while todo != {}
      invariant todo <= missing.Keys && |r| == |blocks|
      invariant forall x :: 0 <= x < |r| ==>
        r[x] == Relinked(blocks[x], x, map src | src in missing && src !in todo :: missing[src], nodeBlock)
      decreases todo
    {
      var src :| src in todo;
      var done := map s | s in missing && s !in todo :: missing[s];
      var done' := map s | s in missing && s !in todo - {src} :: missing[s];
      if src.block < |r| {
        var x := src.block;
        r := r[x := SetEdge(r[x], src, nodeBlock[missing[src]])];
        assert Relinked(blocks[x], x, done', nodeBlock) == SetEdge(Relinked(blocks[x], x, done, nodeBlock), src, nodeBlock[missing[src]]);
      }
      forall y | 0 <= y < |r| && y != src.block
        ensures Relinked(blocks[y], y, done', nodeBlock) == Relinked(blocks[y], y, done, nodeBlock)
      {
        assert SuccEdge(y) in done' <==> SuccEdge(y) in done;
        assert ThenEdge(y) in done' <==> ThenEdge(y) in done;
        assert ElseEdge(y) in done' <==> ElseEdge(y) in done;
      }
      todo := todo - {src};
    }
    assert (map src | src in missing && src !in todo :: missing[src]) == missing;
  }

  /** The target block of a pending exceptional edge: the exceptional exit for an unbound label. */
  function ExceptionalTarget(nodeBlock: seq<nat>, index: Option<nat>): nat
  {
    if index.Some? && index.value < |nodeBlock| then nodeBlock[index.value] else ExceptionalExitBlock
  }

  /** The block of the entry a label is bound to; the exceptional exit for an unbound label. */
  function LabelBlock(nodeBlock: seq<nat>, bindings: map<Label, nat>, l: Label): nat
  {
    ExceptionalTarget(nodeBlock, Lookup(bindings, l))
  }

  /** The entry block leads to the block of the first entry; the exits lead nowhere. */
  ghost predicate SpecialBlocksLinked<N, E>(g: Graph<N, E>)
  {
    |g.blocks| > 2 && |g.nodeBlock| > 0
    && g.blocks[EntryBlock] == SpecialB(Entry, Some(g.nodeBlock[0]))
    && g.blocks[RegularExitBlock] == SpecialB(Exit, None)
    && g.blocks[ExceptionalExitBlock] == SpecialB(ExceptionalExit, None)
  }

  /**
   * How the i-th entry is linked: a node sits in a regular block (a
   * terminating one leads to the exceptional exit); a jump's block leads to
   * the exit its label names or to the block of the labelled entry; a
   * conditional jump's block leads to a conditional block with the two
   * labelled targets; an exception node has its own block, leading to the
   * next entry's block unless it terminates, with an exceptional edge per
   * cause and handler label.
   */
  ghost predicate EntryLinked<N, E>(g: Graph<N, E>, i: nat, nodeList: seq<ExtendedNode<N, E>>, bindings: map<Label, nat>,
                                    regularExitLabel: Label, exceptionalExitLabel: Label)
    requires i < |nodeList| == |g.nodeBlock| && forall k :: 0 <= k < |g.nodeBlock| ==> g.nodeBlock[k] < |g.blocks|
  {
    var x := g.nodeBlock[i];
    match nodeList[i]
    case NodeEntry(n, t) =>
      g.blocks[x].RegularB? && n in g.blocks[x].contents
      && (t ==> g.blocks[x].successor == Some(ExceptionalExitBlock))
    case UnconditionalJump(l) =>
      g.blocks[x].RegularB?
      && (l == regularExitLabel ==> g.blocks[x].successor == Some(RegularExitBlock))
      && (l != regularExitLabel && l == exceptionalExitLabel ==> g.blocks[x].successor == Some(ExceptionalExitBlock))
      && (l != regularExitLabel && l != exceptionalExitLabel ==>
            l in bindings && g.blocks[x].successor == Some(LabelBlock(g.nodeBlock, bindings, l)))
    case ConditionalJump(tl, el) =>
      g.blocks[x].RegularB? && g.blocks[x].successor.Some? && g.blocks[x].successor.value < |g.blocks|
      && g.blocks[g.blocks[x].successor.value]
         == ConditionalB(Some(LabelBlock(g.nodeBlock, bindings, tl)), Some(LabelBlock(g.nodeBlock, bindings, el)))
    case ExceptionEntry(n, t, exc) =>
      (t ==> g.blocks[x] == ExceptionB(n, None))
      && (!t ==> i + 1 < |g.nodeBlock| && g.blocks[x] == ExceptionB(n, Some(g.nodeBlock[i + 1])))
      && forall c, l :: c in exc && l in exc[c] ==> (x, c, LabelBlock(g.nodeBlock, bindings, l)) in g.exceptionalEdges
  }

  lemma EntryLinkedAt<N, E>(b: Builder<N, E>, g: Graph<N, E>, i: nat, nodeList: seq<ExtendedNode<N, E>>, leaders: set<nat>,
                            bindings: map<Label, nat>, regularExitLabel: Label, exceptionalExitLabel: Label)
    requires PhaseOneOutput(nodeList, bindings, regularExitLabel, exceptionalExitLabel) && i < |nodeList|
    requires LoopInvariant(b, |nodeList|, nodeList, leaders, bindings, regularExitLabel, exceptionalExitLabel)
    requires g.nodeBlock == b.nodeBlock && |g.blocks| == |b.blocks|
    requires forall x :: 0 <= x < |g.blocks| ==> g.blocks[x] == Relinked(b.blocks[x], x, b.missing, b.nodeBlock)
    requires g.exceptionalEdges == set p | p in b.missingExceptional :: (p.0, p.2, ExceptionalTarget(b.nodeBlock, p.1))
    ensures EntryLinked(g, i, nodeList, bindings, regularExitLabel, exceptionalExitLabel)
  {
    assert EntryFact(b, i, nodeList[i], bindings, regularExitLabel, exceptionalExitLabel);
    assert EntryReady(nodeList, i, bindings, regularExitLabel, exceptionalExitLabel);
    var x := b.nodeBlock[i];
    assert ThenEdge(x) !in b.missing && ElseEdge(x) !in b.missing;
    match nodeList[i] {
      case NodeEntry(n, t) =>
      case UnconditionalJump(l) =>
      case ConditionalJump(tl, el) =>
        var c := b.blocks[x].successor.value;
        assert SuccEdge(c) !in b.missing;
      case ExceptionEntry(n, t, exc) =>
        forall c, l | c in exc && l in exc[c]
          ensures (x, c, LabelBlock(g.nodeBlock, bindings, l)) in g.exceptionalEdges
        {
          var p := (x, Lookup(bindings, l), c);
          assert p in b.missingExceptional;
        }
    }
  }

  lemma SpecialBlocksLinkedAtEnd<N, E>(b: Builder<N, E>, g: Graph<N, E>, n: nat)
    requires Shape(b, n, n) && n > 0
    requires g.nodeBlock == b.nodeBlock && |g.blocks| == |b.blocks|
    requires forall x :: 0 <= x < |g.blocks| ==> g.blocks[x] == Relinked(b.blocks[x], x, b.missing, b.nodeBlock)
    ensures SpecialBlocksLinked(g)
  {
    assert g.blocks[0] == Relinked(b.blocks[0], 0, b.missing, b.nodeBlock);
    assert g.blocks[1] == Relinked(b.blocks[1], 1, b.missing, b.nodeBlock);
    assert g.blocks[2] == Relinked(b.blocks[2], 2, b.missing, b.nodeBlock);
  }

  /** Every exceptional edge leaves an exception block. */
  ghost predicate ExceptionalEdgesFromExceptionBlocks<N, E>(g: Graph<N, E>)
  {
    forall p :: p in g.exceptionalEdges ==> p.0 < |g.blocks| && g.blocks[p.0].ExceptionB?
  }

  /**
   * CFGTranslationPhaseTwo.process: the entry leads to the block of the
   * first entry; leaders start new blocks and fall-through nodes share one;
   * jumps and exception nodes link as the node list says.
   */
  method PhaseTwo<N, E(==)>(nodeList: seq<ExtendedNode<N, E>>, leaders: set<nat>, bindings: map<Label, nat>,
                            regularExitLabel: Label, exceptionalExitLabel: Label) returns (g: Graph<N, E>)
    requires PhaseOneOutput(nodeList, bindings, regularExitLabel, exceptionalExitLabel)
    ensures |g.nodeBlock| == |nodeList| && forall i :: 0 <= i < |nodeList| ==> 3 <= g.nodeBlock[i] < |g.blocks|
    ensures SpecialBlocksLinked(g)
    ensures Partition(g.nodeBlock, nodeList, leaders)
    ensures forall i :: 0 <= i < |nodeList| ==> EntryLinked(g, i, nodeList, bindings, regularExitLabel, exceptionalExitLabel)
    ensures ExceptionalEdgesFromExceptionBlocks(g)
  {
    var b := PartitionEntries(nodeList, leaders, bindings, regularExitLabel, exceptionalExitLabel);
    var blocks := LinkMissingEdges(b.blocks, b.missing, b.nodeBlock);
    var edges := set p | p in b.missingExceptional :: (p.0, p.2, ExceptionalTarget(b.nodeBlock, p.1));
    g := Graph(blocks, edges, b.nodeBlock);
    SpecialBlocksLinkedAtEnd(b, g, |nodeList|);
    forall i | 0 <= i < |nodeList|
      ensures EntryLinked(g, i, nodeList, bindings, regularExitLabel, exceptionalExitLabel)
    {
      EntryLinkedAt(b, g, i, nodeList, leaders, bindings, regularExitLabel, exceptionalExitLabel);
    }
    forall p | p in g.exceptionalEdges
      ensures p.0 < |g.blocks| && g.blocks[p.0].ExceptionB?
    {
      var q :| q in b.missingExceptional && p == (q.0, q.2, ExceptionalTarget(b.nodeBlock, q.1));
      assert g.blocks[q.0] == Relinked(b.blocks[q.0], q.0, b.missing, b.nodeBlock);
    }
  }

  /** The slot of block p that leads to block c, redirected to s (the predecessor holder of phase three). */
  function Redirect<N>(b: BlockShape<N>, c: nat, s: nat): (r: BlockShape<N>)
    ensures b.ConditionalB? && b.thenSuccessor == Some(c) ==> r == b.(thenSuccessor := Some(s))
    ensures b.ConditionalB? && b.thenSuccessor != Some(c) && b.elseSuccessor == Some(c) ==> r == b.(elseSuccessor := Some(s))
    ensures !b.ConditionalB? && b.successor == Some(c) ==> r == WithSuccessor(b, s)
    ensures (if b.ConditionalB? then b.thenSuccessor != Some(c) && b.elseSuccessor != Some(c) else b.successor != Some(c))
      ==> r == b
  {
    if b.ConditionalB? then
      if b.thenSuccessor == Some(c) then b.(thenSuccessor := Some(s))
      else if b.elseSuccessor == Some(c) then b.(elseSuccessor := Some(s))
      else b
    else if b.successor == Some(c) then WithSuccessor(b, s)
    else b
  }

  /** Two blocks of the same kind with the same contents, whatever their successors. */
  ghost predicate SameButEdges<N>(a: BlockShape<N>, b: BlockShape<N>)
  {
    match a
    case RegularB(c, _) => b.RegularB? && b.contents == c
    case ExceptionB(n, _) => b.ExceptionB? && b.node == n
    case ConditionalB(_, _) => b.ConditionalB?
    case SpecialB(k, _) => b.SpecialB? && b.kind == k
  }

  /** A conditional block whose then- and else-successors are the same block. */
  predicate Useless<N>(b: BlockShape<N>)
  {
    b.ConditionalB? && b.thenSuccessor.Some? && b.thenSuccessor == b.elseSuccessor
  }

  /** Block p's successors, as a set. */
  function Successors<N>(b: BlockShape<N>): set<nat>
  {
    match b
    case ConditionalB(t, e) => (if t.Some? then {t.value} else {}) + (if e.Some? then {e.value} else {})
    case _ => if b.successor.Some? then {b.successor.value} else {}
  }

  /**
   * Removing a useless conditional block c with predecessor p: p's edge to c
   * now goes straight to c's successor, and no other block changes.
   */
  function BypassConditional<N>(blocks: seq<BlockShape<N>>, c: nat, p: nat): (r: seq<BlockShape<N>>)
    requires c < |blocks| && p < |blocks| && Useless(blocks[c])
    ensures |r| == |blocks| && forall x :: 0 <= x < |r| && x != p ==> r[x] == blocks[x]
  {
    blocks[p := Redirect(blocks[p], c, blocks[c].thenSuccessor.value)]
  }

  /** A regular predecessor that led to the useless block now leads to its successor instead. */
  lemma BypassLinksPredecessor<N>(blocks: seq<BlockShape<N>>, c: nat, p: nat)
    requires c < |blocks| && p < |blocks| && p != c && Useless(blocks[c])
    requires !blocks[p].ConditionalB? && blocks[p].successor == Some(c)
    ensures var r := BypassConditional(blocks, c, p);
      r[p].successor == blocks[c].thenSuccessor
      && Successors(r[p]) == Successors(blocks[p]) - {c} + Successors(blocks[c])
  {
  }

  /** The first block with an edge into c, if any (the predecessor the source looks up). */
  method FindPredecessor<N>(blocks: seq<BlockShape<N>>, c: nat) returns (p: Option<nat>)
    ensures p.Some? ==>
      p.value < |blocks| && c in Successors(blocks[p.value]) && forall x :: 0 <= x < p.value ==> c !in Successors(blocks[x])
    ensures p.None? ==> forall x :: 0 <= x < |blocks| ==> c !in Successors(blocks[x])
  {
    var x := 0;
    while x < |blocks|
      invariant 0 <= x <= |blocks|
      invariant forall y :: 0 <= y < x ==> c !in Successors(blocks[y])
    {
      if c in Successors(blocks[x]) {
        return Some(x);
      }
      x := x + 1;
    }
    return None;
  }

  /**
   * The conditional pruning of phase three: every useless conditional block
   * is bypassed through its predecessor; other blocks keep their kind.
   */
  method PruneConditionals<N>(blocks: seq<BlockShape<N>>) returns (r: seq<BlockShape<N>>)
    ensures |r| == |blocks|
    ensures forall x :: 0 <= x < |r| ==> SameButEdges(r[x], blocks[x])
  {
    r := blocks;
    var c := 0;
    while c < |r|
      invariant 0 <= c <= |r| && |r| == |blocks|
      invariant forall x :: 0 <= x < |r| ==> SameButEdges(r[x], blocks[x])
    {
      if Useless(r[c]) {
        var p := FindPredecessor(r, c);
        if p.Some? && p.value != c {
          r := BypassConditional(r, c, p.value);
        }
      }
      c := c + 1;
    }
  }
}
