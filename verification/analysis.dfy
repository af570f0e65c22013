/**
 * The iterative dataflow solver (checkers/flow/analysis/Analysis.java).
 *
 * Blocks are numbered; N is the node type, A the abstract value type and I
 * the transfer input (a regular store or a pair of then/else stores).
 * The transfer function, the least upper bound of inputs and the
 * projections to the then- and else-store are parameters; equality of
 * inputs is Dafny equality, which for stores is mutual supersetOf
 * (AbstractStore.StoreEqualsIsEquality).
 */
module Analysis {
  import opened Wrappers

  datatype Block<N> =
    | RegularBlock(contents: seq<N>, successor: nat)
    | ExceptionBlock(node: N, next: Option<nat>, exceptional: map<string, nat>)
    | ConditionalBlock(thenSuccessor: nat, elseSuccessor: nat)
    | SpecialBlock(next: Option<nat>)

  /** A control flow graph: its blocks by number and its entry block. */
  datatype Cfg<N> = Cfg(blocks: map<nat, Block<N>>, entry: nat)

  predicate IsSuccessor<N>(b: Block<N>, s: nat)
  {
    match b
    case RegularBlock(_, t) => s == t
    case ExceptionBlock(_, next, exc) => next == Some(s) || exists c :: c in exc && exc[c] == s
    case ConditionalBlock(t, e) => s == t || s == e
    case SpecialBlock(next) => next == Some(s)
  }

  /** The entry and every successor are blocks of the graph. */
  ghost predicate WellFormedCfg<N>(g: Cfg<N>)
  {
    g.entry in g.blocks && forall id, s :: id in g.blocks && IsSuccessor(g.blocks[id], s) ==> s in g.blocks
  }

  /**
   * The result of the transfer function for one node. The transfer
   * function works on a copy of its input and may update that copy in
   * place; input is that copy as the transfer function left it, which is
   * what an exception block sends to its normal successor.
   */
  datatype TransferResult<A, I> = TransferResult(value: Option<A>, regular: I, exceptional: map<string, I>, input: I)

  /** The input after the transfer function has run over ns. */
  function Output<N, A, I>(transfer: (N, I) -> TransferResult<A, I>, ns: seq<N>, input: I): I
    decreases |ns|
  {
    if ns == [] then input else Output(transfer, ns[1..], transfer(ns[0], input).regular)
  }

  /** A node's value is recorded only when it is not null. */
  function Record<N, A>(values: map<N, A>, n: N, v: Option<A>): map<N, A>
  {
    if v.Some? then values[n := v.value] else values
  }

  /** The node values after the transfer function has run over ns. */
  function Values<N, A, I>(transfer: (N, I) -> TransferResult<A, I>, ns: seq<N>, input: I,
                           values: map<N, A>): map<N, A>
    decreases |ns|
  {
    if ns == [] then values
    else
      var r := transfer(ns[0], input);
      Values(transfer, ns[1..], r.regular, Record(values, ns[0], r.value))
  }

  /** Running over a block records values only for its own nodes and keeps the rest. */
  lemma {:induction false} ValuesOnlyForNodes<N, A, I>(transfer: (N, I) -> TransferResult<A, I>, ns: seq<N>,
                                                        input: I, values: map<N, A>)
    ensures Values(transfer, ns, input, values).Keys <= values.Keys + set n | n in ns
    ensures forall n :: n in values && n !in ns ==>
      (n in Values(transfer, ns, input, values) && Values(transfer, ns, input, values)[n] == values[n])
    decreases |ns|
  {
    if ns != [] {
      var r := transfer(ns[0], input);
      ValuesOnlyForNodes(transfer, ns[1..], r.regular, Record(values, ns[0], r.value));
      assert forall n :: n in ns[1..] ==> n in ns;
    }
  }

  /** The exceptional store for a cause, or the store before the block when there is none. */
  function ExceptionalInput<A, I>(r: TransferResult<A, I>, cause: string, before: I): I
  {
    if cause in r.exceptional then r.exceptional[cause] else before
  }

  /** The stores a block sends to its successors, given its store before. */
  ghost function Edges<N, A, I>(transfer: (N, I) -> TransferResult<A, I>, thenOf: I -> I, elseOf: I -> I,
                          b: Block<N>, before: I): (es: set<(nat, I)>)
    ensures forall e :: e in es ==> IsSuccessor(b, e.0)
    ensures forall t :: IsSuccessor(b, t) ==> exists e :: e in es && e.0 == t
  {
    match b
    case RegularBlock(ns, s) => {(s, Output(transfer, ns, before))}
    case ExceptionBlock(n, next, exc) =>
      var r := transfer(n, before);
      var es := (if next.Some? then {(next.value, r.input)} else {})
        + set c | c in exc :: (exc[c], ExceptionalInput(r, c, before));
      assert forall c :: c in exc ==> (exc[c], ExceptionalInput(r, c, before)) in es;
      es
    case ConditionalBlock(t, e) => {(t, thenOf(before)), (e, elseOf(before))}
    case SpecialBlock(next) => if next.Some? then {(next.value, before)} else {}
  }

  /**
   * An exception block's normal successor receives the transfer input as
   * the transfer function left it, not the transfer result's regular store.
   */
  lemma NormalSuccessorGetsInput<N, A, I>(transfer: (N, I) -> TransferResult<A, I>, thenOf: I -> I, elseOf: I -> I,
                                          n: N, t: nat, exc: map<string, nat>, before: I)
    ensures (t, transfer(n, before).input) in Edges(transfer, thenOf, elseOf, ExceptionBlock(n, Some(t), exc), before)
  {
  }

  /** The laws of a least upper bound the solver relies on. */
  ghost predicate LubLaws<I(!new)>(lub: (I, I) -> I)
  {
    && (forall x, y, z :: lub(lub(x, y), z) == lub(x, lub(y, z)))
    && (forall x, y :: lub(x, y) == lub(y, x))
    && (forall x :: lub(x, x) == x)
  }

  /** addStoreBefore's new store: s when there was none, otherwise the lub. */
  function Merged<I>(lub: (I, I) -> I, stores: map<nat, I>, b: nat, s: I): I
  {
    if b in stores then lub(stores[b], s) else s
  }

  /** Merging s into the store of b would change nothing. */
  ghost predicate Absorbs<I>(lub: (I, I) -> I, stores: map<nat, I>, b: nat, s: I)
  {
    b in stores && lub(stores[b], s) == stores[b]
  }

  /** addToWorklist: append b unless it is already queued. */
  function Enqueue(worklist: seq<nat>, b: nat): (w: seq<nat>)
    ensures b in w && forall x :: x in w <==> x in worklist || x == b
  {
    if b in worklist then worklist else worklist + [b]
  }

  predicate NoDuplicates(worklist: seq<nat>)
  {
    forall i, j :: 0 <= i < j < |worklist| ==> worklist[i] != worklist[j]
  }

  lemma EnqueueNoDuplicates(worklist: seq<nat>, b: nat)
    requires NoDuplicates(worklist)
    ensures NoDuplicates(Enqueue(worklist, b))
  {
  }

  /** Once a store absorbs o, it keeps absorbing o whatever is merged into it later. */
  lemma MergeKeepsAbsorbing<I(!new)>(lub: (I, I) -> I, stores: map<nat, I>, t: nat, x: I, b: nat, o: I)
    requires LubLaws(lub)
    requires Absorbs(lub, stores, b, o)
    ensures Absorbs(lub, stores[t := Merged(lub, stores, t, x)], b, o)
  {
    if b == t {
      var s := stores[b];
      calc {
        lub(lub(s, x), o);
        lub(s, lub(x, o));
        { assert lub(x, o) == lub(o, x); }
        lub(s, lub(o, x));
        lub(lub(s, o), x);
      }
    }
  }

  /** After merging s into b, the store of b absorbs s. */
  lemma MergedAbsorbs<I(!new)>(lub: (I, I) -> I, stores: map<nat, I>, b: nat, s: I)
    requires LubLaws(lub)
    ensures Absorbs(lub, stores[b := Merged(lub, stores, b, s)], b, s)
  {
    if b in stores {
      assert lub(lub(stores[b], s), s) == lub(stores[b], lub(s, s));
    }
  }

  /** Every store of s0 is absorbed by the store of the same block in s1: s1 only moved up. */
  ghost predicate Grows<I>(lub: (I, I) -> I, s0: map<nat, I>, s1: map<nat, I>)
  {
    forall c :: c in s0 ==> Absorbs(lub, s1, c, s0[c])
  }

  /** Absorption is carried along by stores that only move up. */
  lemma AbsorbsAlong<I(!new)>(lub: (I, I) -> I, s1: map<nat, I>, s2: map<nat, I>, c: nat, x: I)
    requires LubLaws(lub)
    requires Absorbs(lub, s1, c, x) && Grows(lub, s1, s2)
    ensures Absorbs(lub, s2, c, x)
  {
    var a, b := s1[c], s2[c];
    calc {
      lub(b, x);
      lub(lub(b, a), x);
      lub(b, lub(a, x));
      lub(b, a);
    }
  }

  lemma GrowsTransitive<I(!new)>(lub: (I, I) -> I, s0: map<nat, I>, s1: map<nat, I>, s2: map<nat, I>)
    requires LubLaws(lub)
    requires Grows(lub, s0, s1) && Grows(lub, s1, s2)
    ensures Grows(lub, s0, s2)
  {
    forall c | c in s0
      ensures Absorbs(lub, s2, c, s0[c])
    {
      AbsorbsAlong(lub, s1, s2, c, s0[c]);
    }
  }

  /** addStoreBefore only moves stores up. */
  lemma MergeGrows<I(!new)>(lub: (I, I) -> I, stores: map<nat, I>, t: nat, x: I)
    requires LubLaws(lub)
    ensures Grows(lub, stores, stores[t := Merged(lub, stores, t, x)])
  {
    forall c | c in stores
      ensures Absorbs(lub, stores[t := Merged(lub, stores, t, x)], c, stores[c])
    {
      MergeKeepsAbsorbing(lub, stores, t, x, c, stores[c]);
    }
  }

  /** Every store absorbs itself. */
  lemma GrowsReflexive<I(!new)>(lub: (I, I) -> I, s: map<nat, I>)
    requires LubLaws(lub)
    ensures Grows(lub, s, s)
  {
  }

  /** The edges an exception block has sent to the exceptional successors of the causes not in todo. */
  ghost function Sent<A, I>(exc: map<string, nat>, r: TransferResult<A, I>, before: I, todo: set<string>): set<(nat, I)>
  {
    set c | c in exc && c !in todo :: (exc[c], ExceptionalInput(r, c, before))
  }

  lemma SentNone<A, I>(exc: map<string, nat>, r: TransferResult<A, I>, before: I)
    ensures Sent(exc, r, before, exc.Keys) == {}
  {
  }

  lemma SentOneMore<A, I>(exc: map<string, nat>, r: TransferResult<A, I>, before: I, todo: set<string>, c: string)
    requires c in todo && c in exc
    ensures Sent(exc, r, before, todo - {c}) == Sent(exc, r, before, todo) + {(exc[c], ExceptionalInput(r, c, before))}
  {
  }

  lemma SentAll<A, I>(exc: map<string, nat>, r: TransferResult<A, I>, before: I)
    ensures Sent(exc, r, before, {}) == set c | c in exc :: (exc[c], ExceptionalInput(r, c, before))
  {
  }

  /** The solver's analysis state. */
  class Analysis<N(==), A, I(==,!new)> {
    const cfg: Cfg<N>
    const transfer: (N, I) -> TransferResult<A, I>
    const lub: (I, I) -> I
    const thenOf: I -> I
    const elseOf: I -> I
    /** The transfer function's initial store for the method. */
    const initialStore: I
    var stores: map<nat, I>
    var worklist: seq<nat>
    var nodeValues: map<N, A>

    /** Every edge out of block c is absorbed by its target's store. */
    ghost predicate Stable(c: nat)
      reads this
      requires c in stores && c in cfg.blocks
    {
      forall e :: e in Edges(transfer, thenOf, elseOf, cfg.blocks[c], stores[c]) ==> Absorbs(lub, stores, e.0, e.1)
    }

    /** The worklist invariant: a block with a store that is not queued is stable, except skip. */
    ghost predicate StableExcept(skip: Option<nat>)
      reads this
      requires stores.Keys <= cfg.blocks.Keys
    {
      forall c :: c in stores && c !in worklist && Some(c) != skip ==> Stable(c)
    }

    ghost predicate Valid()
      reads this
    {
      && WellFormedCfg(cfg)
      && LubLaws(lub)
      && NoDuplicates(worklist)
      && (forall b :: b in worklist ==> b in stores)
      && stores.Keys <= cfg.blocks.Keys
      && cfg.entry in stores
    }

    constructor (cfg: Cfg<N>, transfer: (N, I) -> TransferResult<A, I>, lub: (I, I) -> I,
                 thenOf: I -> I, elseOf: I -> I, initialStore: I)
      ensures this.cfg == cfg && this.transfer == transfer && this.lub == lub
      ensures this.thenOf == thenOf && this.elseOf == elseOf && this.initialStore == initialStore
      ensures stores == map[] && worklist == [] && nodeValues == map[]
    {
      this.cfg := cfg;
      this.transfer := transfer;
      this.lub := lub;
      this.thenOf := thenOf;
      this.elseOf := elseOf;
      this.initialStore := initialStore;
      stores := map[];
      worklist := [];
      nodeValues := map[];
    }

    /** init: only the entry block is queued, with the initial store. */
    method Init()
      requires WellFormedCfg(cfg) && LubLaws(lub)
      modifies this
      ensures stores == map[cfg.entry := initialStore] && worklist == [cfg.entry] && nodeValues == map[]
      ensures Valid() && StableExcept(None)
    {
      stores := map[];
      worklist := [];
      nodeValues := map[];
      worklist := worklist + [cfg.entry];
      stores := stores[cfg.entry := initialStore];
    }

    /** addToWorklist: a block already queued is not queued twice. */
    method AddToWorklist(b: nat)
      modifies this
      ensures worklist == Enqueue(old(worklist), b)
      ensures stores == old(stores) && nodeValues == old(nodeValues)
    {
      if b !in worklist {
        worklist := worklist + [b];
      }
    }

    /** addStoreBefore: store or merge s, and queue b iff its store is new or changed. */
    method AddStoreBefore(b: nat, s: I)
      modifies this
      ensures stores == old(stores)[b := Merged(lub, old(stores), b, s)]
      ensures worklist == if b !in old(stores) || old(stores)[b] != stores[b]
                          then Enqueue(old(worklist), b) else old(worklist)
      ensures nodeValues == old(nodeValues)
    {
      var storeBefore := if b in stores then Some(stores[b]) else None;
      var newStoreBefore;
      if storeBefore.None? {
        newStoreBefore := s;
      } else {
        newStoreBefore := lub(storeBefore.value, s);
      }
      stores := stores[b := newStoreBefore];
      if storeBefore.None? || storeBefore.value != newStoreBefore {
        AddToWorklist(b);
      }
    }

    /**
     * The state while block b, taken off the worklist with store before0,
     * has sent the edges in done; s0 are the stores and w0 the rest of the
     * worklist when b was taken off.  Stores only move up, the rest stays
     * queued, and b is queued again exactly when its own store changed.
     */
    ghost predicate Processing(b: nat, before0: I, done: set<(nat, I)>, s0: map<nat, I>, w0: seq<nat>)
      reads this
    {
      && Valid()
      && b in stores
      && StableExcept(Some(b))
      && (forall e :: e in done ==> Absorbs(lub, stores, e.0, e.1))
      && (stores[b] != before0 <==> b in worklist)
      && b in s0 && s0[b] == before0
      && Grows(lub, s0, stores)
      && (forall x :: x in w0 ==> x in worklist)
    }

    /** One addStoreBefore while processing b keeps the worklist invariant. */
    method Propagate(ghost b: nat, ghost before0: I, ghost done: set<(nat, I)>, ghost s0: map<nat, I>,
                     ghost w0: seq<nat>, t: nat, s: I)
      requires Processing(b, before0, done, s0, w0) && t in cfg.blocks
      modifies this
      ensures Processing(b, before0, done + {(t, s)}, s0, w0)
      ensures nodeValues == old(nodeValues)
      ensures stores == old(stores)[t := Merged(lub, old(stores), t, s)]
    {
      ghost var stores0 := stores;
      ghost var worklist0 := worklist;
      AddStoreBefore(t, s);
      EnqueueNoDuplicates(worklist0, t);
      MergedAbsorbs(lub, stores0, t, s);
      MergeGrows(lub, stores0, t, s);
      GrowsTransitive(lub, s0, stores0, stores);
      QueuedIffChanged(b, before0, s0, stores0, worklist0);
      forall e | e in done
        ensures Absorbs(lub, stores, e.0, e.1)
      {
        MergeKeepsAbsorbing(lub, stores0, t, s, e.0, e.1);
      }
      forall c | c in stores && c !in worklist && Some(c) != Some(b)
        ensures Stable(c)
      {
        assert c in stores0 && c !in worklist0;
        if c == t {
          assert stores == stores0;
        } else {
          assert stores[c] == stores0[c];
          forall e | e in Edges(transfer, thenOf, elseOf, cfg.blocks[c], stores[c])
            ensures Absorbs(lub, stores, e.0, e.1)
          {
            MergeKeepsAbsorbing(lub, stores0, t, s, e.0, e.1);
          }
        }
      }
    }

    /** After one addStoreBefore, b is still queued exactly when its own store changed. */
    lemma QueuedIffChanged(b: nat, before0: I, s0: map<nat, I>, stores0: map<nat, I>, worklist0: seq<nat>)
      requires LubLaws(lub) && b in stores0 && b in stores && b in s0 && s0[b] == before0
      requires stores0[b] != before0 <==> b in worklist0
      requires Grows(lub, s0, stores0) && Grows(lub, stores0, stores) && Grows(lub, s0, stores)
      requires forall x :: x in worklist0 ==> x in worklist
      requires b in worklist && b !in worklist0 ==> stores[b] != stores0[b]
      requires b !in worklist ==> b !in worklist0 && stores[b] == stores0[b]
      ensures stores[b] != before0 <==> b in worklist
    {
    }

    /** The loop over a regular block's contents, recording non-null node values. */
    method RunContents(ns: seq<N>, input: I) returns (output: I)
      modifies this
      ensures output == Output(transfer, ns, input)
      ensures nodeValues == Values(transfer, ns, input, old(nodeValues))
      ensures stores == old(stores) && worklist == old(worklist)
    {
      var store := input;
      var i := 0;
      while i < |ns|
        invariant 0 <= i <= |ns|
        invariant Output(transfer, ns, input) == Output(transfer, ns[i..], store)
        invariant Values(transfer, ns, input, old(nodeValues)) == Values(transfer, ns[i..], store, nodeValues)
        invariant stores == old(stores) && worklist == old(worklist)
      {
        assert ns[i..][1..] == ns[i + 1..];
        var result := transfer(ns[i], store);
        if result.value.Some? {
          nodeValues := nodeValues[ns[i] := result.value.value];
        }
        store := result.regular;
        i := i + 1;
      }
      assert ns[i..] == [];
      output := store;
    }

    /** The loop over an exception block's exceptional successors. */
    method PropagateExceptional(ghost b: nat, before0: I, ghost done: set<(nat, I)>, ghost s0: map<nat, I>,
                                ghost w0: seq<nat>, exc: map<string, nat>, r: TransferResult<A, I>)
      requires Processing(b, before0, done, s0, w0) && exc.Values <= cfg.blocks.Keys
      modifies this
      ensures Processing(b, before0, done + set c | c in exc :: (exc[c], ExceptionalInput(r, c, before0)), s0, w0)
      ensures nodeValues == old(nodeValues)
    {
      var todo := exc.Keys;
      SentNone(exc, r, before0);
      while todo != {}
        invariant todo <= exc.Keys
        invariant Processing(b, before0, done + Sent(exc, r, before0, todo), s0, w0)
        invariant nodeValues == old(nodeValues)
        decreases todo
      {
        var c :| c in todo;
        ghost var sent := Sent(exc, r, before0, todo);
        assert exc[c] in exc.Values;
        var s := if c in r.exceptional then r.exceptional[c] else before0;
        Propagate(b, before0, done + sent, s0, w0, exc[c], s);
        SentOneMore(exc, r, before0, todo, c);
        todo := todo - {c};
      }
      SentAll(exc, r, before0);
    }

    /**
     * One iteration of performAnalysis: take the first queued block and
     * send its stores along every edge.  Stores only move up, the other
     * queued blocks stay queued, and the block itself is queued again
     * exactly when its own store changed.
     */
    method Step()
      requires Valid() && StableExcept(None) && worklist != []
      modifies this
      ensures Valid() && StableExcept(None)
      ensures Grows(lub, old(stores), stores)
      ensures forall x :: x in old(worklist)[1..] ==> x in worklist
      ensures old(worklist)[0] in stores
      ensures old(worklist)[0] in worklist <==> stores[old(worklist)[0]] != old(stores)[old(worklist)[0]]
      ensures forall e :: e in Edges(transfer, thenOf, elseOf, cfg.blocks[old(worklist)[0]], old(stores)[old(worklist)[0]])
                ==> Absorbs(lub, stores, e.0, e.1)
    {
      var b := worklist[0];
      worklist := worklist[1..];
      var before := stores[b];
      ghost var s0, w0 := stores, worklist;
      assert b !in worklist;
      GrowsReflexive(lub, stores);
      assert Processing(b, before, {}, s0, w0);
      Process(b, before, s0, w0);
    }

    /** The body of Step for block b with store before: the stores sent along every edge of b. */
    method Process(b: nat, before: I, ghost s0: map<nat, I>, ghost w0: seq<nat>)
      requires Processing(b, before, {}, s0, w0) && b in cfg.blocks
      modifies this
      ensures Processing(b, before, Edges(transfer, thenOf, elseOf, cfg.blocks[b], before), s0, w0)
    {
      match cfg.blocks[b]
      case RegularBlock(contents, succ) =>
        ProcessRegular(b, before, s0, w0, contents, succ);
      case ExceptionBlock(node, next, exc) =>
        ProcessException(b, before, s0, w0, node, next, exc);
      case ConditionalBlock(thenSucc, elseSucc) =>
        assert IsSuccessor(cfg.blocks[b], thenSucc) && IsSuccessor(cfg.blocks[b], elseSucc);
        Propagate(b, before, {}, s0, w0, thenSucc, thenOf(before));
        Propagate(b, before, {(thenSucc, thenOf(before))}, s0, w0, elseSucc, elseOf(before));
        assert {(thenSucc, thenOf(before))} + {(elseSucc, elseOf(before))}
          == Edges(transfer, thenOf, elseOf, cfg.blocks[b], before);
      case SpecialBlock(next) =>
        if next.Some? {
          assert IsSuccessor(cfg.blocks[b], next.value);
          Propagate(b, before, {}, s0, w0, next.value, before);
          assert {} + {(next.value, before)} == Edges(transfer, thenOf, elseOf, cfg.blocks[b], before);
        }
    }

    /** A regular block runs its contents and sends the result to its successor. */
    method ProcessRegular(b: nat, before: I, ghost s0: map<nat, I>, ghost w0: seq<nat>, contents: seq<N>, succ: nat)
      requires Processing(b, before, {}, s0, w0) && b in cfg.blocks && cfg.blocks[b] == RegularBlock(contents, succ)
      modifies this
      ensures Processing(b, before, Edges(transfer, thenOf, elseOf, cfg.blocks[b], before), s0, w0)
    {
      assert IsSuccessor(cfg.blocks[b], succ);
      var store := RunContents(contents, before);
      Propagate(b, before, {}, s0, w0, succ, store);
      assert {} + {(succ, store)} == Edges(transfer, thenOf, elseOf, cfg.blocks[b], before);
    }

    /**
     * An exception block records its node's value, sends the updated input
     * to its normal successor and each cause's store to its exceptional
     * successor.
     */
    method ProcessException(b: nat, before: I, ghost s0: map<nat, I>, ghost w0: seq<nat>,
                            node: N, next: Option<nat>, exc: map<string, nat>)
      requires Processing(b, before, {}, s0, w0) && b in cfg.blocks && cfg.blocks[b] == ExceptionBlock(node, next, exc)
      modifies this
      ensures Processing(b, before, Edges(transfer, thenOf, elseOf, cfg.blocks[b], before), s0, w0)
    {
      var result := transfer(node, before);
      if result.value.Some? {
        nodeValues := nodeValues[node := result.value.value];
      }
      var sent: set<(nat, I)> := {};
      if next.Some? {
        assert IsSuccessor(cfg.blocks[b], next.value);
        Propagate(b, before, {}, s0, w0, next.value, result.input);
        sent := {(next.value, result.input)};
      }
      assert forall c :: c in exc ==> IsSuccessor(cfg.blocks[b], exc[c]);
      PropagateExceptional(b, before, sent, s0, w0, exc, result);
      assert sent + (set c | c in exc :: (exc[c], ExceptionalInput(result, c, before)))
        == Edges(transfer, thenOf, elseOf, cfg.blocks[b], before);
    }

    /**
     * performAnalysis, for at most fuel iterations: the entry block's store
     * always absorbs the initial store, and when the worklist is empty every
     * block with a store is stable, so the stores are a fixpoint of the
     * transfer function under the least upper bound.
     */
    method PerformAnalysis(fuel: nat) returns (finished: bool)
      requires WellFormedCfg(cfg) && LubLaws(lub)
      modifies this
      ensures Valid() && cfg.entry in stores
      ensures Absorbs(lub, stores, cfg.entry, initialStore)
      ensures finished <==> worklist == []
      ensures finished ==> forall c :: c in stores ==> Stable(c)
    {
      Init();
      var remaining := fuel;
      while worklist != [] && remaining > 0
        invariant Valid() && StableExcept(None)
        invariant Absorbs(lub, stores, cfg.entry, initialStore)
        decreases remaining
      {
        ghost var stores0 := stores;
        Step();
        AbsorbsAlong(lub, stores0, stores, cfg.entry, initialStore);
        remaining := remaining - 1;
      }
      finished := worklist == [];
    }

    /** getValue(Node) */
    function GetValue(n: N): (v: Option<A>)
      reads this
      ensures v.Some? <==> n in nodeValues
    {
      if n in nodeValues then Some(nodeValues[n]) else None
    }
  }
}
