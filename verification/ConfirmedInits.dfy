/**
 * The lifecycle system together with the transaction records of its nodes: a
 * marker follows the callback of a committed application Init
 * (compatibility_service/pkg/orchestrator/service.go:655-680, 1313-1345,
 * compatibility_service/pkg/orchestrator/execution.go:643-668,
 * compatibility_service/pkg/orchestrator/init.go:27-92).
 */
module ConfirmedInits {
  import opened Common
  import Ledger = LifecycleLedger
  import Lifecycle = LifecycleSystem
  import Finality = FinalityProtocol

  /** The lifecycle state, and what happened so far in the record store of each node. */
  datatype State = State(lifecycle: Lifecycle.State, stores: map<Lifecycle.Node, seq<Finality.Step>>)

  function StepsOf(s: State, node: Lifecycle.Node): seq<Finality.Step> {
    if node in s.stores then s.stores[node] else []
  }

  datatype Step =
    | LifecycleStep(step: Lifecycle.Step)
    | StoreStep(node: Lifecycle.Node, move: Finality.Step)

  /** The definition whose callback this step of a store runs. */
  function CallbackOf(store: Finality.State, move: Finality.Step): Option<Ledger.Definition>
    requires Finality.Can(store, move)
  {
    if move.Advance? && move.move.RunCallback? then store.entries[move.i].lock.seen.value.callback else None
  }

  /** Marking a transaction as submitted attaches its callback, which only an admitted Init brings along. */
  ghost predicate Attaches(s: State, node: Lifecycle.Node, store: Finality.State, move: Finality.Step)
    requires Finality.Can(store, move)
  {
    move.Advance? && move.move.Mark? && store.entries[move.i].afterCommit.Some? ==>
      Lifecycle.InitRun(node, store.entries[move.i].afterCommit.value) in s.lifecycle.admitted
  }

  ghost predicate Takes(s: State, s': State, step: Step) {
    match step
    case LifecycleStep(step) =>
      !step.ConfirmRun? && Lifecycle.Takes(s.lifecycle, s'.lifecycle, step) && s'.stores == s.stores
    case StoreStep(node, move) =>
      && Finality.Run(StepsOf(s, node)).Some?
      && var store := Finality.Run(StepsOf(s, node)).value;
         && Finality.Can(store, move) && Attaches(s, node, store, move)
         && s'.stores == s.stores[node := StepsOf(s, node) + [move]]
         && var callback := CallbackOf(store, move);
            s'.lifecycle == if callback.None? then s.lifecycle
                            else s.lifecycle.(confirmed :=
                                              s.lifecycle.confirmed + {Lifecycle.InitRun(node, callback.value)})
  }

  ghost predicate Next(s: State, s': State) {
    exists step :: Takes(s, s', step)
  }

  ghost predicate Run(states: seq<State>) {
    && states != [] && Lifecycle.Initial(states[0].lifecycle) && states[0].stores == map[]
    && forall i | 0 < i < |states| :: MovesTo(states, i)
  }

  ghost predicate MovesTo(states: seq<State>, i: nat)
    requires 0 < i < |states|
  {
    Next(states[i - 1], states[i])
  }

  // ------------------------------------------------------------------------
  // Invariants
  // ------------------------------------------------------------------------

  /** Every callback a record carries or is about to run belongs to an admitted Init. */
  ghost predicate CallbacksAdmitted(node: Lifecycle.Node, e: Finality.Entry, admitted: set<Lifecycle.InitRun>) {
    && (e.contents.afterCommit.Some? ==> Lifecycle.InitRun(node, e.contents.afterCommit.value) in admitted)
    && (e.lock.Held? && e.lock.seen.Some? && e.lock.seen.value.callback.Some? ==>
          Lifecycle.InitRun(node, e.lock.seen.value.callback.value) in admitted)
  }

  ghost predicate StoreInv(node: Lifecycle.Node, steps: seq<Finality.Step>, admitted: set<Lifecycle.InitRun>) {
    && Finality.Run(steps).Some?
    && forall e | e in Finality.Run(steps).value.entries :: CallbacksAdmitted(node, e, admitted)
  }

  /** The callback for this definition ran on this node. */
  ghost predicate Ran(steps: seq<Finality.Step>, def: Ledger.Definition) {
    && Finality.Run(steps).Some?
    && exists j :: 0 <= j < |Finality.Run(steps).value.trace| && RanAt(Finality.Run(steps).value.trace, j, def)
  }

  ghost predicate RanAt(trace: seq<Finality.Happened>, j: nat, def: Ledger.Definition)
    requires j < |trace|
  {
    trace[j].Callback? && trace[j].def == def
  }

  ghost predicate Inv(s: State) {
    && (forall node: Lifecycle.Node :: StoreInv(node, StepsOf(s, node), s.lifecycle.admitted))
    && (forall run | run in s.lifecycle.confirmed :: Ran(StepsOf(s, run.node), run.def))
  }

  lemma {:induction false} StoreStepKeeps(node: Lifecycle.Node, steps: seq<Finality.Step>, move: Finality.Step,
                       admitted: set<Lifecycle.InitRun>)
    requires StoreInv(node, steps, admitted) && Finality.Can(Finality.Run(steps).value, move)
    requires move.Advance? && move.move.Mark? && Finality.Run(steps).value.entries[move.i].afterCommit.Some? ==>
      Lifecycle.InitRun(node, Finality.Run(steps).value.entries[move.i].afterCommit.value) in admitted
    ensures Finality.Run(steps + [move]) == Some(Finality.Do(Finality.Run(steps).value, move))
    ensures StoreInv(node, steps + [move], admitted)
  {
    assert (steps + [move])[..|steps|] == steps;
    var store := Finality.Run(steps).value;
    var store' := Finality.Do(store, move);
    if move.Advance? {
      assert CallbacksAdmitted(node, store.entries[move.i], admitted);
      MoveKeepsAdmitted(node, store.entries[move.i], move.move, admitted);
    }
  }

  lemma MoveKeepsAdmitted(node: Lifecycle.Node, e: Finality.Entry, move: Finality.Move,
                          admitted: set<Lifecycle.InitRun>)
    requires CallbacksAdmitted(node, e, admitted) && Finality.Enabled(e, move)
    requires move.Mark? && e.afterCommit.Some? ==> Lifecycle.InitRun(node, e.afterCommit.value) in admitted
    ensures CallbacksAdmitted(node, Finality.Moved(e, move), admitted)
  {
  }

  lemma {:induction false} RanLater(steps: seq<Finality.Step>, move: Finality.Step, def: Ledger.Definition)
    requires Finality.Run(steps).Some? && Finality.Can(Finality.Run(steps).value, move)
    ensures Ran(steps, def) ==> Ran(steps + [move], def)
    ensures CallbackOf(Finality.Run(steps).value, move) == Some(def) ==> Ran(steps + [move], def)
  {
    assert (steps + [move])[..|steps|] == steps;
    var store := Finality.Run(steps).value;
    var store' := Finality.Do(store, move);
    assert store.trace <= store'.trace;
    if Ran(steps, def) {
      var j :| 0 <= j < |store.trace| && RanAt(store.trace, j, def);
      assert RanAt(store'.trace, j, def);
    }
    if CallbackOf(store, move) == Some(def) {
      assert RanAt(store'.trace, |store.trace|, def);
    }
  }

  /**
   * Every step keeps the invariant, and is a step of the lifecycle system: no
   * callback runs without an admitted Init.
   */
  lemma StepSafe(s: State, s': State, step: Step)
    requires Inv(s) && Takes(s, s', step)
    ensures Inv(s') && Lifecycle.Next(s.lifecycle, s'.lifecycle)
  {
    match step
    case LifecycleStep(step) =>
      AdmittedStays(s, s', step);
    case StoreStep(node, move) =>
      StoreStepSafe(s, s', node, move);
  }

  lemma AdmittedStays(s: State, s': State, step: Lifecycle.Step)
    requires Inv(s) && Takes(s, s', LifecycleStep(step))
    ensures Inv(s') && Lifecycle.Next(s.lifecycle, s'.lifecycle)
  {
    assert s.lifecycle.admitted <= s'.lifecycle.admitted && s'.lifecycle.confirmed == s.lifecycle.confirmed;
    forall node: Lifecycle.Node ensures StoreInv(node, StepsOf(s', node), s'.lifecycle.admitted) {
      assert StoreInv(node, StepsOf(s, node), s.lifecycle.admitted);
    }
    forall run | run in s'.lifecycle.confirmed ensures Ran(StepsOf(s', run.node), run.def) {
      assert Ran(StepsOf(s, run.node), run.def);
    }
  }

  lemma StoreStepConfirms(s: State, s': State, node: Lifecycle.Node, move: Finality.Step, run: Lifecycle.InitRun)
    requires Takes(s, s', StoreStep(node, move)) && run in s'.lifecycle.confirmed
    requires run in s.lifecycle.confirmed ==> Ran(StepsOf(s, run.node), run.def)
    ensures Ran(StepsOf(s', run.node), run.def)
  {
    if run.node == node {
      RanLater(StepsOf(s, node), move, run.def);
    }
  }

  lemma StoreStepSafe(s: State, s': State, node: Lifecycle.Node, move: Finality.Step)
    requires Inv(s) && Takes(s, s', StoreStep(node, move))
    ensures Inv(s') && Lifecycle.Next(s.lifecycle, s'.lifecycle)
  {
    var steps := StepsOf(s, node);
    assert StoreInv(node, steps, s.lifecycle.admitted);
    var store := Finality.Run(steps).value;
    var callback := CallbackOf(store, move);
    StoreStepKeeps(node, steps, move, s.lifecycle.admitted);
    forall other: Lifecycle.Node ensures StoreInv(other, StepsOf(s', other), s'.lifecycle.admitted) {
      assert StoreInv(other, StepsOf(s, other), s.lifecycle.admitted);
    }
    forall run | run in s'.lifecycle.confirmed ensures Ran(StepsOf(s', run.node), run.def) {
      StoreStepConfirms(s, s', node, move, run);
    }
    if callback.Some? {
      assert CallbacksAdmitted(node, store.entries[move.i], s.lifecycle.admitted);
      assert Lifecycle.Takes(s.lifecycle, s'.lifecycle, Lifecycle.ConfirmRun(Lifecycle.InitRun(node, callback.value)));
    } else {
      assert Lifecycle.Takes(s.lifecycle, s'.lifecycle, Lifecycle.Idle);
    }
  }

  /** A callback that did not run before the step is the one the step runs. */
  lemma {:induction false} NewCallback(steps: seq<Finality.Step>, move: Finality.Step, def: Ledger.Definition)
    requires Finality.Run(steps).Some? && Finality.Can(Finality.Run(steps).value, move)
    requires Ran(steps + [move], def) && !Ran(steps, def)
    ensures CallbackOf(Finality.Run(steps).value, move) == Some(def)
  {
    assert (steps + [move])[..|steps|] == steps;
    var store := Finality.Run(steps).value;
    var store' := Finality.Do(store, move);
    assert store.trace <= store'.trace;
    var j :| 0 <= j < |store'.trace| && RanAt(store'.trace, j, def);
    if j < |store.trace| {
      assert RanAt(store.trace, j, def);
    }
  }

  /** A step of one store appends to this store alone, and every callback it runs confirms its Init. */
  lemma StoreStepAppends(s: State, s': State, node: Lifecycle.Node, move: Finality.Step)
    requires Takes(s, s', StoreStep(node, move))
    ensures node in s'.stores && s'.stores - {node} == s.stores - {node}
    ensures s'.stores[node] == (if node in s.stores then s.stores[node] else []) + [move]
    ensures s.lifecycle.confirmed <= s'.lifecycle.confirmed
    ensures forall def :: Ran(s'.stores[node], def) ==>
      Ran(if node in s.stores then s.stores[node] else [], def)
          || Lifecycle.InitRun(node, def) in s'.lifecycle.confirmed
  {
    var steps := StepsOf(s, node);
    forall def | Ran(steps + [move], def) && !Ran(steps, def)
      ensures Lifecycle.InitRun(node, def) in s'.lifecycle.confirmed
    {
      NewCallback(steps, move, def);
    }
  }

  // ------------------------------------------------------------------------
  // Whole runs
  // ------------------------------------------------------------------------

  lemma ConfirmedStays(s: Lifecycle.State, s': Lifecycle.State, step: Lifecycle.Step)
    requires Lifecycle.Takes(s, s', step)
    ensures s.confirmed <= s'.confirmed
  {
  }

  lemma StepConfirms(s: State, s': State, step: Step, node: Lifecycle.Node, def: Ledger.Definition)
    requires Takes(s, s', step) && node in s'.stores && Ran(s'.stores[node], def)
    requires node in s.stores && Ran(s.stores[node], def) ==> Lifecycle.InitRun(node, def) in s.lifecycle.confirmed
    ensures Lifecycle.InitRun(node, def) in s'.lifecycle.confirmed
  {
    match step
    case LifecycleStep(step) => ConfirmedStays(s.lifecycle, s'.lifecycle, step);
    case StoreStep(other, move) =>
      StoreStepAppends(s, s', other, move);
      if other == node {
        NothingRan(def);
      } else {
        assert node in s'.stores - {other} && node in s.stores && s'.stores[node] == s.stores[node];
      }
  }

  lemma NextConfirms(s: State, s': State, node: Lifecycle.Node, def: Ledger.Definition)
    requires Next(s, s') && node in s'.stores && Ran(s'.stores[node], def)
    requires node in s.stores && Ran(s.stores[node], def) ==> Lifecycle.InitRun(node, def) in s.lifecycle.confirmed
    ensures Lifecycle.InitRun(node, def) in s'.lifecycle.confirmed
  {
    var step :| Takes(s, s', step);
    StepConfirms(s, s', step, node, def);
  }

  lemma RanAtNext(states: seq<State>, i: nat, node: Lifecycle.Node, def: Ledger.Definition)
    requires Run(states) && 0 < i < |states| && node in states[i].stores && Ran(states[i].stores[node], def)
    requires node in states[i - 1].stores && Ran(states[i - 1].stores[node], def) ==>
      Lifecycle.InitRun(node, def) in states[i - 1].lifecycle.confirmed
    ensures Lifecycle.InitRun(node, def) in states[i].lifecycle.confirmed
  {
    assert MovesTo(states, i);
    NextConfirms(states[i - 1], states[i], node, def);
  }

  /** Over every run: whatever callback ran in the record store of a node is a confirmed Init of that node. */
  lemma {:induction false} RanIsConfirmed(states: seq<State>, i: nat, node: Lifecycle.Node, def: Ledger.Definition)
    requires Run(states) && i < |states| && node in states[i].stores && Ran(states[i].stores[node], def)
    ensures Lifecycle.InitRun(node, def) in states[i].lifecycle.confirmed
    decreases i
  {
    if i > 0 {
      if node in states[i - 1].stores && Ran(states[i - 1].stores[node], def) {
        RanIsConfirmed(states, i - 1, node, def);
      }
      RanAtNext(states, i, node, def);
    }
  }

  lemma NothingRan(def: Ledger.Definition)
    ensures !Ran([], def)
  {
  }

  ghost function LifecycleOf(states: seq<State>): (r: seq<Lifecycle.State>)
    ensures |r| == |states| && forall i | 0 <= i < |states| :: r[i] == states[i].lifecycle
  {
    seq(|states|, i requires 0 <= i < |states| => states[i].lifecycle)
  }

  lemma {:induction false} RunSafe(states: seq<State>, i: nat)
    requires Run(states) && i < |states|
    ensures Inv(states[i]) && Lifecycle.Run(LifecycleOf(states[..i + 1]))
    decreases i
  {
    if i == 0 {
      assert Finality.Run([]).Some?;
    } else {
      RunSafe(states, i - 1);
      assert MovesTo(states, i);
      var step :| Takes(states[i - 1], states[i], step);
      StepSafe(states[i - 1], states[i], step);
      RunExtends(states, i);
    }
  }

  lemma RunExtends(states: seq<State>, i: nat)
    requires 0 < i < |states| && Lifecycle.Run(LifecycleOf(states[..i]))
      && Lifecycle.Next(states[i - 1].lifecycle, states[i].lifecycle)
    ensures Lifecycle.Run(LifecycleOf(states[..i + 1]))
  {
    var before, after := LifecycleOf(states[..i]), LifecycleOf(states[..i + 1]);
    forall k | 0 <= k < |after| - 1 ensures Lifecycle.Next(after[k], after[k + 1]) {
      if k < i - 1 {
        assert Lifecycle.Next(before[k], before[k + 1]);
      }
    }
  }

  /**
   * An Init of this definition was admitted on a node of the channel, and a record
   * of that node ran the definition's callback after it received a COMMITTED status
   * of its own transaction; no other callback of the record runs, ever.
   */
  ghost predicate InitCommitted(s: State, channel: string, def: Ledger.Definition) {
    exists node: Lifecycle.Node, j: nat :: node.channel == channel && InitCommittedOn(s, node, j, def)
  }

  ghost predicate InitCommittedOn(s: State, node: Lifecycle.Node, j: nat, def: Ledger.Definition) {
    && Lifecycle.InitRun(node, def) in s.lifecycle.admitted && Finality.Run(StepsOf(s, node)).Some?
    && var store := Finality.Run(StepsOf(s, node)).value;
       && j < |store.trace| && RanAt(store.trace, j, def)
       && var record := store.trace[j].record;
          && record < |store.entries| && store.entries[record].afterCommit == Some(def)
          && Finality.CommittedBefore(store.trace, j, record, store.entries[record].txID)
          && forall k | 0 <= k < |store.trace| && k != j && store.trace[k].Callback? :: store.trace[k].record != record
  }

  lemma ConfirmedIsCommitted(s: State, channel: string, def: Ledger.Definition)
    requires Inv(s) && s.lifecycle.confirmed <= s.lifecycle.admitted
      && Lifecycle.ConfirmedFor(s.lifecycle, channel, def)
    ensures InitCommitted(s, channel, def)
  {
    var node: Lifecycle.Node :| node.channel == channel && Lifecycle.InitRun(node, def) in s.lifecycle.confirmed;
    var steps := StepsOf(s, node);
    assert Ran(steps, def);
    var j :| 0 <= j < |Finality.Run(steps).value.trace| && RanAt(Finality.Run(steps).value.trace, j, def);
    Finality.CallbackAtMostOnce(steps, j);
    assert InitCommittedOn(s, node, j, def);
  }

  /**
   * Over every run of all nodes: a definition that requires an Init is shown as
   * initialized, by the ledger or by any mirror, only after an application Init of
   * exactly this definition was committed on the channel.
   */
  lemma MarkersFollowCommittedInits(states: seq<State>, i: nat, channel: string, name: string)
    requires Run(states) && i < |states| && forall k | 0 <= k < i :: Lifecycle.BelowLimit(states[k].lifecycle)
    ensures var shown := Lifecycle.LedgerDefinition(states[i].lifecycle, channel, name);
      shown.Some? && shown.value.definition.initRequired && shown.value.initialized ==>
        InitCommitted(states[i], channel, shown.value.definition)
    ensures forall node: Lifecycle.Node | node.channel == channel
      && name in Lifecycle.MirrorOf(states[i].lifecycle, node) ::
      var row := Lifecycle.MirrorOf(states[i].lifecycle, node)[name];
      row.definition.initRequired && row.initialized ==> InitCommitted(states[i], channel, row.definition)
  {
    RunSafe(states, i);
    var lifecycle := LifecycleOf(states[..i + 1]);
    assert Lifecycle.LimitedRun(lifecycle);
    Lifecycle.MarkersFollowInits(lifecycle, i, channel, name);
    Lifecycle.ConfirmedWereAdmitted(lifecycle, i);
    forall def | Lifecycle.ConfirmedFor(states[i].lifecycle, channel, def)
      ensures InitCommitted(states[i], channel, def) {
      ConfirmedIsCommitted(states[i], channel, def);
    }
  }
}
