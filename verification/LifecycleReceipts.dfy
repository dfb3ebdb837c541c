/**
 * Pending lifecycle operations: one receipt per object, gated turns by callers
 * and by recovery passes, and the rule that an uncertain transaction is never
 * sent again (compatibility_service/pkg/orchestrator/lifecycle_ledger.go:25-273).
 */
module LifecycleReceipts {
  import opened Common
  import opened FinalityRecording
  import opened LifecycleLedger
  import opened LifecyclePropagation

  datatype Operation = Operation(name: string, sequence: int64, event: Event)

  /** LedgerCommitResult: the transaction that may be on its way, and whether the outcome is known committed. */
  datatype Receipt = Receipt(txID: Option<string>, committed: bool)

  datatype Preparation = PreparationFails | SupersededByNewer | ProvedByLedger | PreparedAs(txID: string)
  datatype Subscription = SubscriptionFails | NoNotifier | Subscribed

  /**
   * What one turn meets outside this process: the reply to a status query, if it
   * is answered at all, and the notification a wait ends with, if any. Both may
   * carry statuses of any transaction.
   */
  datatype World = World(
    reply: Option<seq<Option<Status>>>, preparation: Preparation, subscription: Subscription, send: SendResult,
    notification: Option<Status>)

  /** What happened to the transactions of one pending object. */
  datatype Occurrence = Sent(txID: string, result: SendResult) | Observed(txID: string, committed: bool)

  datatype Verdict = Done | Waiting | Errored

  datatype Advanced = Advanced(receipt: Receipt, events: seq<Occurrence>, verdict: Verdict, remove: bool)

  function Observe(event: Event, receipt: Receipt, events: seq<Occurrence>, status: Status): Advanced {
    var all := events + [Observed(status.txID, status.code.Valid?)];
    if status.code.Valid? then Advanced(receipt.(committed := true), all, Done, false)
    else if event == InitializedEvent then Advanced(Receipt(None, false), all, Errored, false)
    else Advanced(receipt, all, Errored, true)
  }

  function Advance(event: Event, receipt: Receipt, wait: bool, w: World): Advanced {
    if receipt.committed then Advanced(receipt, [], Done, false)
    else if receipt.txID.Some? then
      if w.reply.None? then Advanced(receipt, [], Errored, false)
      else
        match FirstFinal(w.reply.value, receipt.txID.value)
        case None => Advanced(receipt, [], Waiting, false)
        case Some(status) => Observe(event, receipt, [], status)
    else
      match w.preparation
      case PreparationFails => Advanced(receipt, [], Errored, false)
      case SupersededByNewer => Advanced(receipt, [], Errored, true)
      case ProvedByLedger => Advanced(Receipt(None, true), [], Done, false)
      case PreparedAs(txID) =>
        if wait && w.subscription == SubscriptionFails then Advanced(Receipt(None, false), [], Errored, false)
        else
          var sent := [Sent(txID, w.send)];
          match w.send
          case NotDelivered => Advanced(Receipt(None, false), sent, Errored, false)
          case Uncertain => Advanced(Receipt(Some(txID), false), sent, Errored, false)
          case Acknowledged =>
            if !wait || w.subscription == NoNotifier || !IsFinalStatus(txID, w.notification) then
              Advanced(Receipt(Some(txID), false), sent, Waiting, false)
            else Observe(event, Receipt(Some(txID), false), sent, w.notification.value)
  }

  /** A caller's turn, or a recovery pass's turn, on an object whose gate it holds. */
  datatype Turn = Submit(world: World) | Recover(world: World)

  /** A definition that was never sent: recovery drops it instead of sending it. */
  predicate Abandoned(event: Event, receipt: Receipt) {
    event == CommitEvent && receipt.txID.None? && !receipt.committed
  }

  function TakeTurn(event: Event, receipt: Receipt, turn: Turn): Advanced {
    match turn
    case Submit(w) => Advance(event, receipt, true, w)
    case Recover(w) =>
      if Abandoned(event, receipt) then Advanced(receipt, [], Errored, true)
      else Advance(event, receipt, false, w)
  }

  /** Whether a committed operation is finished with, and the mirroring progress: superseded, or mirrored everywhere. */
  function Finalized(definition: Definition, progress: Remaining, ledger: Option<Option<int64>>, pass: Pass): (bool,
      Remaining) {
    if ledger.None? then (false, progress)
    else if ledger.value.Some? && ledger.value.value > definition.sequence then (true, progress)
    else (Reconcile(progress, pass).ok, Reconcile(progress, pass).progress)
  }

  // ------------------------------------------------------------------------
  // What a turn owes its caller
  // ------------------------------------------------------------------------

  /** The reply's first word on this transaction that is final. */
  ghost predicate FirstReported(statuses: seq<Option<Status>>, txID: string, status: Option<Status>) {
    exists i ::
      && 0 <= i < |statuses| && statuses[i] == status && IsFinalStatus(txID, status)
      && forall k | 0 <= k < i :: !IsFinalStatus(txID, statuses[k])
  }

  /** What the reply says of this transaction: its first final status, or nothing. */
  ghost predicate Reported(statuses: seq<Option<Status>>, txID: string, status: Option<Status>) {
    if status.Some? then FirstReported(statuses, txID, status)
    else forall s | s in statuses :: !IsFinalStatus(txID, s)
  }

  lemma {:induction false} FirstFinalIsReported(statuses: seq<Option<Status>>, txID: string)
    ensures Reported(statuses, txID, FirstFinal(statuses, txID))
    decreases |statuses|
  {
    if statuses != [] {
      var rest, first := statuses[1..], FirstFinal(statuses, txID);
      if IsFinalStatus(txID, statuses[0]) {
        assert statuses[0] == first;
      } else {
        FirstFinalIsReported(rest, txID);
        if first.Some? {
          var i :| 0 <= i < |rest| && rest[i] == first && forall k | 0 <= k < i :: !IsFinalStatus(txID, rest[k]);
          assert statuses[i + 1] == first;
          forall k | 0 <= k < i + 1 ensures !IsFinalStatus(txID, statuses[k]) {
            assert k > 0 ==> statuses[k] == rest[k - 1];
          }
        }
      }
    }
  }

  /** The outcome is open, nothing that may still arrive was sent, and this turn may send. */
  predicate MayPrepare(event: Event, receipt: Receipt, turn: Turn) {
    receipt == Receipt(None, false) && (turn.Submit? || event == InitializedEvent)
  }

  /** The turn hands a prepared transaction to ordering: never without the subscription its caller waits on. */
  predicate Delivers(event: Event, receipt: Receipt, turn: Turn) {
    && MayPrepare(event, receipt, turn) && turn.world.preparation.PreparedAs?
    && !(turn.Submit? && turn.world.subscription == SubscriptionFails)
  }

  /** The final status the turn learns, of the transaction its receipt named or of the one it sent and waited for. */
  ghost predicate Learned(event: Event, receipt: Receipt, turn: Turn, status: Option<Status>) {
    var w := turn.world;
    if receipt.txID.Some? && !receipt.committed && w.reply.Some? then
      Reported(w.reply.value, receipt.txID.value, status)
    else if Delivers(event, receipt, turn) && w.send == Acknowledged && turn.Submit?
        && w.subscription == Subscribed then
      status == if IsFinalStatus(w.preparation.txID, w.notification) then w.notification else None
    else status.None?
  }

  /**
   * The occurrences, the verdict, the receipt and whether the object is dropped:
   * done exactly when the outcome is known committed, by a status or by the
   * ledger; a rejected definition is dropped with an error, a rejected marker
   * starts over with an error; waiting exactly while a transaction that was
   * delivered is undecided.
   */
  ghost predicate Accounts(event: Event, receipt: Receipt, turn: Turn, learned: Option<Status>, a: Advanced) {
    var w, prepares, delivers := turn.world, MayPrepare(event, receipt, turn), Delivers(event, receipt, turn);
    var confirmed := learned.Some? && learned.value.code.Valid?;
    var rejected := learned.Some? && !learned.value.code.Valid?;
    && Learned(event, receipt, turn, learned)
    && a.events == (if delivers then [Sent(w.preparation.txID, w.send)] else [])
                 + (if learned.Some? then [Observed(learned.value.txID, confirmed)] else [])
    && (a.verdict == Done <==> a.receipt.committed)
    && (a.receipt.committed <==> receipt.committed || confirmed || (prepares && w.preparation == ProvedByLedger))
    && (a.verdict == Waiting <==> (
          learned.None?
          && ((receipt.txID.Some? && !receipt.committed && w.reply.Some?) || (delivers && w.send == Acknowledged))))
    && a.receipt.txID == (
         if rejected && event == InitializedEvent then None
         else if delivers && w.send != NotDelivered then Some(w.preparation.txID)
         else receipt.txID)
    && (a.remove <==> (
          (event == CommitEvent && rejected) || (prepares && w.preparation == SupersededByNewer)
          || (receipt == Receipt(None, false) && turn.Recover? && event == CommitEvent)))
  }

  lemma TurnAccounts(event: Event, receipt: Receipt, turn: Turn) returns (learned: Option<Status>)
    ensures Accounts(event, receipt, turn, learned, TakeTurn(event, receipt, turn))
  {
    var w := turn.world;
    if receipt.txID.Some? && !receipt.committed && w.reply.Some? {
      learned := FirstFinal(w.reply.value, receipt.txID.value);
      FirstFinalIsReported(w.reply.value, receipt.txID.value);
    } else if Delivers(event, receipt, turn) && w.send == Acknowledged && turn.Submit? && w.subscription == Subscribed
      && IsFinalStatus(w.preparation.txID, w.notification) {
      learned := w.notification;
    } else {
      learned := None;
    }
  }

  /** From this receipt and these occurrences, a turn led to those, with this verdict, and drops the object or not. */
  ghost predicate TurnTaken(event: Event, turn: Turn, receipt: Receipt, trace: seq<Occurrence>, receipt': Receipt,
                            trace': seq<Occurrence>, verdict: Verdict, dropped: bool) {
    && trace <= trace'
    && exists learned ::
         Accounts(event, receipt, turn, learned, Advanced(receipt', trace'[|trace|..], verdict, dropped))
  }

  lemma TurnIsTaken(event: Event, turn: Turn, receipt: Receipt, trace: seq<Occurrence>)
    ensures var a := TakeTurn(event, receipt, turn);
      TurnTaken(event, turn, receipt, trace, a.receipt, trace + a.events, a.verdict, a.remove)
  {
    var a := TakeTurn(event, receipt, turn);
    var learned := TurnAccounts(event, receipt, turn);
    assert (trace + a.events)[|trace|..] == a.events;
    assert Accounts(event, receipt, turn, learned, Advanced(a.receipt, a.events, a.verdict, a.remove));
  }

  /**
   * A committed operation is finished with exactly when a newer revision is
   * active, and then nothing is mirrored, or when this pass mirrors it everywhere.
   */
  ghost predicate Finishes(definition: Definition, before: Remaining, ledger: Option<Option<int64>>, pass: Pass,
                           after: Remaining, finished: bool) {
    var superseded := ledger.Some? && ledger.value.Some? && ledger.value.value > definition.sequence;
    && (finished <==> superseded || (ledger.Some? && Reconcile(before, pass).ok))
    && after == if ledger.Some? && !superseded then Reconcile(before, pass).progress else before
  }

  lemma FinalizedFinishes(definition: Definition, progress: Remaining, ledger: Option<Option<int64>>, pass: Pass)
    ensures var (finished, after) := Finalized(definition, progress, ledger, pass);
      Finishes(definition, progress, ledger, pass, after, finished)
  {
  }

  /** A recovery turn, and mirroring only once the outcome is known committed. */
  ghost predicate RecoveryTaken(event: Event, definition: Definition, w: World, ledger: Option<Option<int64>>,
                                pass: Pass, before: (Receipt, seq<Occurrence>, Remaining),
                                after: (Receipt, seq<Occurrence>, Remaining), dropped: bool) {
    exists verdict, removed ::
      && TurnTaken(event, Recover(w), before.0, before.1, after.0, after.1, verdict, removed)
      && if verdict == Done then Finishes(definition, before.2, ledger, pass, after.2, dropped)
         else after.2 == before.2 && dropped == removed
  }

  lemma RecoveryIsTaken(event: Event, definition: Definition, w: World, ledger: Option<Option<int64>>, pass: Pass,
                        before: (Receipt, seq<Occurrence>, Remaining))
    ensures var a, f := TakeTurn(event, before.0, Recover(w)), Finalized(definition, before.2, ledger, pass);
      RecoveryTaken(event, definition, w, ledger, pass, before,
                    (a.receipt, before.1 + a.events, if a.verdict == Done then f.1 else before.2),
                    if a.verdict == Done then f.0 else a.remove)
  {
    TurnIsTaken(event, Recover(w), before.0, before.1);
    FinalizedFinishes(definition, before.2, ledger, pass);
  }

  // ------------------------------------------------------------------------
  // The implementation over a map of gated objects
  // ------------------------------------------------------------------------

  class PendingLifecycle {
    const operation: Operation
    const definition: Definition
    const propagation: Progress
    var receipt: Receipt
    var gate: bool
    ghost var trace: seq<Occurrence>

    constructor (operation: Operation, definition: Definition, gate: bool)
      ensures this.operation == operation && this.definition == definition && this.gate == gate
      ensures receipt == Receipt(None, false) && trace == []
      ensures fresh(propagation) && propagation.State() == Remaining(false, [])
    {
      this.operation, this.definition, this.gate := operation, definition, gate;
      propagation := new Progress();
      receipt := Receipt(None, false);
      trace := [];
    }
  }

  /** The map of pending objects after a turn on this one: only this object can be gone, and it is if it was dropped. */
  ghost predicate Leaves(before: map<Operation, PendingLifecycle>, after: map<Operation, PendingLifecycle>,
                         pending: PendingLifecycle, dropped: bool) {
    && (forall op :: op in after <==> op in before && !(dropped && op == pending.operation && before[op] == pending))
    && (forall op | op in after :: after[op] == before[op])
  }


  class Recovery {
    var lifecyclePending: map<Operation, PendingLifecycle>
    var closed: bool

    ghost predicate Valid()
      reads this, lifecyclePending.Values
    {
      forall op | op in lifecyclePending ::
        && lifecyclePending[op].operation == op
        && op.name == lifecyclePending[op].definition.name && op.sequence == lifecyclePending[op].definition.sequence
    }

    /**
     * Find or create the object and take its gate. `canceled` is the caller's
     * context; a gate that stays taken is given up on when the context ends.
     */
    method LifecycleOperation(def: Definition, initialized: bool, canceled: bool) returns (r: Option<PendingLifecycle>)
      requires Valid()
      modifies this`lifecyclePending, lifecyclePending.Values
      ensures Valid()
      ensures var key := Operation(def.name, def.sequence, if initialized then InitializedEvent else CommitEvent);
        && (r.Some? ==>
              && r.value.gate && r.value.definition == def && r.value.operation == key
              && !closed && !canceled && lifecyclePending == old(lifecyclePending)[key := r.value])
        && (r.Some? && key in old(lifecyclePending) ==>
              && r.value == old(lifecyclePending[key]) && !old(lifecyclePending[key].gate)
              && r.value.receipt == old(lifecyclePending[key].receipt)
                 && r.value.trace == old(lifecyclePending[key].trace))
        && (r.Some? && key !in old(lifecyclePending) ==>
              fresh(r.value) && r.value.receipt == Receipt(None, false) && r.value.trace == [])
        && (r.None? && !closed && canceled && initialized && key !in old(lifecyclePending) ==>
              && key in lifecyclePending && lifecyclePending[key].definition == def && !lifecyclePending[key].gate
              && lifecyclePending[key].receipt == Receipt(None, false))
        && (r.None? && !(canceled && initialized) ==> lifecyclePending == old(lifecyclePending))
        && (r.None? <==> closed || canceled
                         || (key in old(lifecyclePending)
                             && (old(lifecyclePending[key]).definition != def || old(lifecyclePending[key].gate))))
      ensures forall op | op in old(lifecyclePending) && old(lifecyclePending[op].gate) ::
        old(lifecyclePending[op]).gate
    {
      var event := if initialized then InitializedEvent else CommitEvent;
      var key := Operation(def.name, def.sequence, event);
      if closed { return None; }
      if key in lifecyclePending {
        var pending := lifecyclePending[key];
        if pending.definition != def { return None; }
        if canceled || pending.gate { return None; }
        pending.gate := true;
        assert lifecyclePending == lifecyclePending[key := pending];
        return Some(pending);
      }
      if canceled && !initialized { return None; }
      var pending := new PendingLifecycle(key, def, !canceled);
      lifecyclePending := lifecyclePending[key := pending];
      if canceled { return None; }
      return Some(pending);
    }

    method RemoveLifecycleOperation(pending: PendingLifecycle)
      modifies this`lifecyclePending
      ensures lifecyclePending ==
        if pending.operation in old(lifecyclePending) && old(lifecyclePending[pending.operation]) == pending
        then old(lifecyclePending) - {pending.operation} else old(lifecyclePending)
      ensures Leaves(old(lifecyclePending), lifecyclePending, pending, true)
    {
      if pending.operation in lifecyclePending && lifecyclePending[pending.operation] == pending {
        lifecyclePending := lifecyclePending - {pending.operation};
      }
    }

    method AdvanceLifecycleTransaction(pending: PendingLifecycle, wait: bool, w: World)
      returns (verdict: Verdict, sentID: Option<string>)
      requires pending.gate
      modifies this`lifecyclePending, pending`receipt, pending`trace
      ensures var a := Advance(pending.operation.event, old(pending.receipt), wait, w);
        && pending.receipt == a.receipt && pending.trace == old(pending.trace) + a.events && verdict == a.verdict
        && Leaves(old(lifecyclePending), lifecyclePending, pending, a.remove)
        && (pending.operation.event == CommitEvent ==> sentID == a.receipt.txID)
      ensures wait || pending.operation.event == InitializedEvent || old(pending.receipt) != Receipt(None, false) ==>
        exists dropped ::
          && Leaves(old(lifecyclePending), lifecyclePending, pending, dropped)
          && TurnTaken(pending.operation.event, if wait then Submit(w) else Recover(w), old(pending.receipt),
                       old(pending.trace), pending.receipt, pending.trace, verdict, dropped)
    {
      ghost var taken := Advance(pending.operation.event, pending.receipt, wait, w);
      TurnIsTaken(pending.operation.event, if wait then Submit(w) else Recover(w), pending.receipt, pending.trace);
      assert wait || pending.operation.event == InitializedEvent || pending.receipt != Receipt(None, false) ==>
          taken == TakeTurn(pending.operation.event, pending.receipt, if wait then Submit(w) else Recover(w));
      assert pending.trace + [] == pending.trace;
      if pending.receipt.committed { return Done, pending.receipt.txID; }
      if pending.receipt.txID.Some? {
        if w.reply.None? { return Errored, pending.receipt.txID; }
        var status := FindFinal(w.reply.value, pending.receipt.txID.value);
        if status.None? { return Waiting, pending.receipt.txID; }
        verdict, sentID := ObserveLifecycleFinality(pending, status.value);
        return;
      }
      match w.preparation
      case PreparationFails => return Errored, None;
      case SupersededByNewer =>
        RemoveLifecycleOperation(pending);
        return Errored, None;
      case ProvedByLedger =>
        pending.receipt := Receipt(None, true);
        return Done, None;
      case PreparedAs(txID) =>
        pending.receipt := Receipt(Some(txID), false);
        if wait && w.subscription == SubscriptionFails {
          pending.receipt := Receipt(None, false);
          return Errored, None;
        }
        pending.trace := pending.trace + [Sent(txID, w.send)];
        if w.send != Acknowledged {
          if w.send != Uncertain { pending.receipt := Receipt(None, false); }
          return Errored, pending.receipt.txID;
        }
        if !wait || w.subscription == NoNotifier { return Waiting, pending.receipt.txID; }
        if !IsFinalStatus(txID, w.notification) { return Waiting, pending.receipt.txID; }
        ghost var before, observed := old(pending.trace), Observed(txID, w.notification.value.code.Valid?);
        verdict, sentID := ObserveLifecycleFinality(pending, w.notification.value);
        assert before + [Sent(txID, w.send)] + [observed] == before + ([Sent(txID, w.send)] + [observed]);
    }

    method ObserveLifecycleFinality(pending: PendingLifecycle, status: Status)
      returns (verdict: Verdict, sentID: Option<string>)
      requires pending.gate
      modifies this`lifecyclePending, pending`receipt, pending`trace
      ensures var a := Observe(pending.operation.event, old(pending.receipt), [], status);
        && pending.receipt == a.receipt && pending.trace == old(pending.trace) + a.events && verdict == a.verdict
        && Leaves(old(lifecyclePending), lifecyclePending, pending, a.remove)
      ensures sentID == old(pending.receipt.txID)
      ensures verdict == if status.code.Valid? then Done else Errored
      ensures status.code.Valid? ==> pending.receipt == old(pending.receipt).(committed := true)
      ensures !status.code.Valid? && pending.operation.event == InitializedEvent ==>
        pending.receipt == Receipt(None, false)
      ensures !status.code.Valid? && pending.operation.event == CommitEvent ==> pending.receipt == old(pending.receipt)
      ensures pending.trace == old(pending.trace) + [Observed(status.txID, status.code.Valid?)]
      ensures Leaves(old(lifecyclePending), lifecyclePending, pending,
                     pending.operation.event == CommitEvent && !status.code.Valid?)
    {
      sentID := pending.receipt.txID;
      ghost var observed := Observed(status.txID, status.code.Valid?);
      assert [] + [observed] == [observed];
      pending.trace := pending.trace + [observed];
      if !status.code.Valid? {
        if pending.operation.event == InitializedEvent {
          pending.receipt := Receipt(None, false);
        } else {
          RemoveLifecycleOperation(pending);
        }
        return Errored, sentID;
      }
      pending.receipt := pending.receipt.(committed := true);
      return Done, sentID;
    }

    /** submitLifecycleDefinition after its object is reserved: a definition that was never sent is dropped. */
    method SubmitLifecycleDefinition(pending: PendingLifecycle, w: World) returns (verdict: Verdict)
      requires pending.gate
      modifies this`lifecyclePending, pending`receipt, pending`trace, pending`gate
      ensures var a := TakeTurn(pending.operation.event, old(pending.receipt), Submit(w));
        && pending.receipt == a.receipt && pending.trace == old(pending.trace) + a.events && verdict == a.verdict
        && Leaves(old(lifecyclePending), lifecyclePending, pending, a.remove ||
             (a.verdict != Done && pending.operation.event == CommitEvent && a.receipt.txID.None?))
      ensures !pending.gate
      ensures exists dropped ::
        && Leaves(old(lifecyclePending), lifecyclePending, pending, dropped ||
             (verdict != Done && pending.operation.event == CommitEvent && pending.receipt.txID.None?))
        && TurnTaken(pending.operation.event, Submit(w), old(pending.receipt), old(pending.trace), pending.receipt,
                     pending.trace, verdict, dropped)
    {
      var sentID;
      verdict, sentID := AdvanceLifecycleTransaction(pending, true, w);
      if verdict != Done && pending.operation.event == CommitEvent && sentID.None? {
        RemoveLifecycleOperation(pending);
      }
      pending.gate := false;
    }

    /**
     * finalizeLifecycleOperation: drop an operation a newer revision superseded,
     * otherwise mirror it everywhere and drop it when that is complete.
     */
    method FinalizeLifecycleOperation(pending: PendingLifecycle, ledger: Option<Option<int64>>, pass: Pass)
      returns (done: bool)
      requires pending.gate
      modifies this`lifecyclePending, pending.propagation
      ensures var (removed, progress) := Finalized(pending.definition, old(pending.propagation.State()), ledger, pass);
        && done == removed && Leaves(old(lifecyclePending), lifecyclePending, pending, removed)
        && pending.propagation.State() == progress
      ensures Finishes(pending.definition, old(pending.propagation.State()), ledger, pass, pending.propagation.State(),
                       done)
    {
      FinalizedFinishes(pending.definition, pending.propagation.State(), ledger, pass);
      if ledger.None? { return false; }
      if ledger.value.Some? && ledger.value.value > pending.definition.sequence {
        RemoveLifecycleOperation(pending);
        return true;
      }
      var contacts;
      contacts, done := pending.propagation.ReconcileDefinition(pass);
      if done { RemoveLifecycleOperation(pending); }
    }

    /** One object of a recovery pass: skipped when gated or no longer pending, otherwise one turn and its mirroring. */
    method RecoverOne(pending: PendingLifecycle, w: World, ledger: Option<Option<int64>>, pass: Pass)
      modifies this`lifecyclePending, pending, pending.propagation
      ensures pending.gate == old(pending.gate)
      ensures
        if old(pending.gate) || pending.operation !in old(lifecyclePending)
            || old(lifecyclePending[pending.operation]) != pending then
          pending.receipt == old(pending.receipt) && pending.trace == old(pending.trace)
              && lifecyclePending == old(lifecyclePending)
        else
          var a := TakeTurn(pending.operation.event, old(pending.receipt), Recover(w));
          var (removed, progress) := Finalized(pending.definition, old(pending.propagation.State()), ledger, pass);
          && pending.receipt == a.receipt && pending.trace == old(pending.trace) + a.events
          && Leaves(old(lifecyclePending), lifecyclePending, pending, if a.verdict == Done then removed else a.remove)
          && pending.propagation.State() == if a.verdict == Done then progress else old(pending.propagation.State())
      ensures old(Abandoned(pending.operation.event, pending.receipt)) ==> pending.trace == old(pending.trace)
      ensures var skipped := old(pending.gate || pending.operation !in lifecyclePending
                                 || lifecyclePending[pending.operation] != pending);
        !skipped ==> exists dropped ::
          && Leaves(old(lifecyclePending), lifecyclePending, pending, dropped)
          && RecoveryTaken(pending.operation.event, pending.definition, w, ledger, pass,
                           old((pending.receipt, pending.trace, pending.propagation.State())),
                           (pending.receipt, pending.trace, pending.propagation.State()), dropped)
    {
      RecoveryIsTaken(pending.operation.event, pending.definition, w, ledger, pass,
                      (pending.receipt, pending.trace, pending.propagation.State()));
      if pending.gate { return; }
      pending.gate := true;
      if pending.operation !in lifecyclePending || lifecyclePending[pending.operation] != pending {
        pending.gate := false;
        return;
      }
      if pending.operation.event == CommitEvent && pending.receipt.txID.None? && !pending.receipt.committed {
        RemoveLifecycleOperation(pending);
        pending.gate := false;
        assert pending.trace + [] == pending.trace;
        return;
      }
      var verdict, _ := AdvanceLifecycleTransaction(pending, false, w);
      if verdict == Done {
        var _ := FinalizeLifecycleOperation(pending, ledger, pass);
      }
      pending.gate := false;
    }
  }

  // ------------------------------------------------------------------------
  // Never resend
  // ------------------------------------------------------------------------

  /** What the occurrences so far say about the object's transaction. */
  datatype Phase = Idle | Outstanding(txID: string) | Settled(txID: string) | Refused(txID: string)

  function PhaseStep(phase: Phase, last: Occurrence): Phase {
    match last
    case Sent(txID, result) => if result == NotDelivered then phase else Outstanding(txID)
    case Observed(txID, committed) => if committed then Settled(txID) else Refused(txID)
  }

  function PhaseOf(trace: seq<Occurrence>): Phase
    decreases |trace|
  {
    if trace == [] then Idle else PhaseStep(PhaseOf(trace[..|trace| - 1]), trace[|trace| - 1])
  }

  /** The receipt always remembers a transaction that may have been delivered. */
  ghost predicate Remembers(event: Event, receipt: Receipt, phase: Phase) {
    match phase
    case Idle => receipt.txID.None?
    case Outstanding(txID) => receipt == Receipt(Some(txID), false)
    case Settled(txID) => receipt == Receipt(Some(txID), true)
    case Refused(txID) => if event == InitializedEvent then receipt.txID.None?
      else receipt == Receipt(Some(txID), false)
  }

  predicate MaySend(event: Event, phase: Phase) {
    phase == Idle || (phase.Refused? && event == InitializedEvent)
  }

  /** A status of this transaction may be observed: it is the one that was sent last. */
  predicate MayObserve(phase: Phase, txID: string) {
    phase == Outstanding(txID) || phase == Refused(txID)
  }

  predicate MayHappen(event: Event, phase: Phase, next: Occurrence) {
    if next.Sent? then MaySend(event, phase) else MayObserve(phase, next.txID)
  }

  /**
   * Sends happen only with nothing outstanding, after a refusal only for markers;
   * only statuses of the transaction sent last are observed.
   */
  ghost predicate Orderly(event: Event, trace: seq<Occurrence>) {
    forall i | 0 <= i < |trace| :: OrderlyAt(event, trace, i)
  }

  ghost predicate OrderlyAt(event: Event, trace: seq<Occurrence>, i: nat)
    requires i < |trace|
  {
    MayHappen(event, PhaseOf(trace[..i]), trace[i])
  }

  function ReceiptAfter(event: Event, turns: seq<Turn>): (r: (Receipt, seq<Occurrence>))
    decreases |turns|
  {
    if turns == [] then (Receipt(None, false), [])
    else
      var (receipt, trace) := ReceiptAfter(event, turns[..|turns| - 1]);
      var a := TakeTurn(event, receipt, turns[|turns| - 1]);
      (a.receipt, trace + a.events)
  }

  lemma {:induction false} PhaseOfSnoc(trace: seq<Occurrence>, last: Occurrence)
    ensures PhaseOf(trace + [last]) == PhaseStep(PhaseOf(trace), last)
  {
    assert (trace + [last])[..|trace|] == trace;
  }

  lemma {:induction false} OrderlySnoc(event: Event, trace: seq<Occurrence>, last: Occurrence)
    requires Orderly(event, trace) && MayHappen(event, PhaseOf(trace), last)
    ensures Orderly(event, trace + [last])
  {
    var all := trace + [last];
    forall i | 0 <= i < |all| ensures OrderlyAt(event, all, i) {
      assert all[..i] == trace[..i];
      if i < |trace| {
        assert OrderlyAt(event, trace, i);
      } else {
        assert trace[..i] == trace;
      }
    }
  }

  function PhaseAfter(phase: Phase, events: seq<Occurrence>): Phase
    decreases events
  {
    if events == [] then phase else PhaseAfter(PhaseStep(phase, events[0]), events[1..])
  }

  /** One turn: at most one send, first, and only if allowed; at most one observation; and the receipt remembers. */
  lemma {:induction false} TurnRemembers(event: Event, receipt: Receipt, phase: Phase, turn: Turn)
    requires Remembers(event, receipt, phase)
    ensures var a := TakeTurn(event, receipt, turn);
      && |a.events| <= 2 && Remembers(event, a.receipt, PhaseAfter(phase, a.events))
      && (a.events != [] ==> MayHappen(event, phase, a.events[0]))
      && (|a.events| == 2 ==>
          a.events[0].Sent? && !a.events[1].Sent? && MayHappen(event, PhaseStep(phase, a.events[0]), a.events[1]))
  {
    var a := TakeTurn(event, receipt, turn);
    if receipt.txID.Some? && turn.world.reply.Some? {
      FirstFinalIsFinal(turn.world.reply.value, receipt.txID.value);
    }
    if |a.events| == 2 {
      PhaseAfterTwo(phase, a.events);
    } else if |a.events| == 1 {
      assert PhaseAfter(phase, a.events) == PhaseStep(phase, a.events[0]);
    }
  }

  /**
   * The verdict in terms of what was sent and observed: done exactly when the
   * outcome is known committed; then the transaction sent last is settled, or
   * nothing is out and the ledger had proved it, on this turn or before. A
   * rejection observed now is an error: it drops a definition, and lets a marker
   * start over.
   */
  lemma {:induction false} TurnVerdict(event: Event, receipt: Receipt, phase: Phase, turn: Turn)
    requires Remembers(event, receipt, phase)
    ensures var a := TakeTurn(event, receipt, turn);
      var after := PhaseAfter(phase, a.events);
      && (a.verdict == Done <==> a.receipt.committed)
      && (after.Settled? ==> a.verdict == Done)
      && (a.verdict == Done ==>
            || after.Settled?
            || (MaySend(event, phase) && a.events == []
                && (receipt.committed || turn.world.preparation == ProvedByLedger)))
      && (a.verdict == Waiting ==> after.Outstanding? || (event == CommitEvent && after.Refused? && a.events == []))
      && (a.events != [] && after.Refused? ==>
            && a.verdict == Errored && (a.remove <==> event == CommitEvent)
            && (event == InitializedEvent ==> a.receipt == Receipt(None, false)))
      && (a.remove && phase.Outstanding? ==> after.Refused?)
  {
    TurnRemembers(event, receipt, phase, turn);
    var learned := TurnAccounts(event, receipt, turn);
    var a := TakeTurn(event, receipt, turn);
    if |a.events| == 2 {
      PhaseAfterTwo(phase, a.events);
    } else if |a.events| == 1 {
      assert PhaseAfter(phase, a.events) == PhaseStep(phase, a.events[0]);
    }
  }

  lemma {:induction false} PhaseAfterTwo(phase: Phase, events: seq<Occurrence>)
    requires |events| == 2
    ensures PhaseAfter(phase, events) == PhaseStep(PhaseStep(phase, events[0]), events[1])
  {
    var mid, rest := PhaseStep(phase, events[0]), events[1..];
    assert rest[0] == events[1] && rest[1..] == [];
    assert PhaseAfter(mid, rest) == PhaseAfter(PhaseStep(mid, rest[0]), rest[1..]);
  }

  lemma {:induction false} Appended(event: Event, trace: seq<Occurrence>, events: seq<Occurrence>)
    requires Orderly(event, trace) && |events| <= 2
    requires events != [] ==> MayHappen(event, PhaseOf(trace), events[0])
    requires |events| == 2 ==> MayHappen(event, PhaseStep(PhaseOf(trace), events[0]), events[1])
    ensures Orderly(event, trace + events) && PhaseOf(trace + events) == PhaseAfter(PhaseOf(trace), events)
    decreases |events|
  {
    if events == [] {
      assert trace + events == trace;
    } else {
      PhaseOfSnoc(trace, events[0]);
      OrderlySnoc(event, trace, events[0]);
      Appended(event, trace + [events[0]], events[1..]);
      assert trace + events == (trace + [events[0]]) + events[1..];
    }
  }

  lemma {:induction false} TurnKeepsReceipt(event: Event, receipt: Receipt, trace: seq<Occurrence>, turn: Turn)
    requires Remembers(event, receipt, PhaseOf(trace)) && Orderly(event, trace)
    ensures var a := TakeTurn(event, receipt, turn);
            Remembers(event, a.receipt, PhaseOf(trace + a.events)) && Orderly(event, trace + a.events)
  {
    TurnRemembers(event, receipt, PhaseOf(trace), turn);
    Appended(event, trace, TakeTurn(event, receipt, turn).events);
  }

  lemma {:induction false} TurnsKeepReceipt(event: Event, turns: seq<Turn>)
    ensures var (receipt, trace) := ReceiptAfter(event, turns);
      Remembers(event, receipt, PhaseOf(trace)) && Orderly(event, trace)
    decreases |turns|
  {
    if turns != [] {
      var n := |turns| - 1;
      TurnsKeepReceipt(event, turns[..n]);
      var (receipt, trace) := ReceiptAfter(event, turns[..n]);
      TurnKeepsReceipt(event, receipt, trace, turns[n]);
    }
  }

  /** The last thing that happened was that the transaction's commit was observed. */
  ghost predicate EndsCommitted(trace: seq<Occurrence>) {
    trace != [] && trace[|trace| - 1].Observed? && trace[|trace| - 1].committed
  }

  ghost predicate LedgerProved(turns: seq<Turn>) {
    exists i :: 0 <= i < |turns| && turns[i].world.preparation == ProvedByLedger
  }

  lemma {:induction false} SettledEndsCommitted(event: Event, trace: seq<Occurrence>)
    requires Orderly(event, trace) && PhaseOf(trace).Settled?
    ensures EndsCommitted(trace)
  {
    assert OrderlyAt(event, trace, |trace| - 1);
  }

  /**
   * Over every history of an object: its outcome is only ever taken for
   * committed, and a turn only ever reports it done, when the commit of its
   * transaction was the last thing observed or the ledger proved it on some turn.
   */
  lemma {:induction false} DoneIsCommitted(event: Event, turns: seq<Turn>)
    ensures var (receipt, trace) := ReceiptAfter(event, turns);
      receipt.committed ==> EndsCommitted(trace) || LedgerProved(turns)
    ensures turns != [] ==>
      var n := |turns| - 1;
      (TakeTurn(event, ReceiptAfter(event, turns[..n]).0, turns[n]).verdict == Done)
      == ReceiptAfter(event, turns).0.committed
    decreases |turns|
  {
    if turns != [] {
      var n := |turns| - 1;
      var (receipt, trace) := ReceiptAfter(event, turns[..n]);
      TurnsKeepReceipt(event, turns[..n]);
      TurnsKeepReceipt(event, turns);
      DoneIsCommitted(event, turns[..n]);
      TurnVerdict(event, receipt, PhaseOf(trace), turns[n]);
      var a := TakeTurn(event, receipt, turns[n]);
      TurnRemembers(event, receipt, PhaseOf(trace), turns[n]);
      Appended(event, trace, a.events);
      if a.verdict == Done {
        if PhaseOf(trace + a.events).Settled? {
          SettledEndsCommitted(event, trace + a.events);
        } else if LedgerProved(turns[..n]) {
          var i :| 0 <= i < n && turns[..n][i].world.preparation == ProvedByLedger;
          assert turns[i].world.preparation == ProvedByLedger;
        } else {
          assert trace + a.events == trace;
        }
      }
    }
  }

  /**
   * Once delivered (or possibly delivered), a transaction stays outstanding or
   * settled unless its own refusal is observed.
   */
  lemma {:induction false} DeliveredStays(event: Event, trace: seq<Occurrence>, i: nat, j: nat)
    requires Orderly(event, trace) && i < j <= |trace| && trace[i].Sent? && trace[i].result != NotDelivered
    requires forall k | i < k < j :: trace[k] != Observed(trace[i].txID, false)
    ensures PhaseOf(trace[..j]) == Outstanding(trace[i].txID) || PhaseOf(trace[..j]) == Settled(trace[i].txID)
    decreases j
  {
    PhaseAt(trace, j - 1);
    if i < j - 1 {
      DeliveredStays(event, trace, i, j - 1);
      assert OrderlyAt(event, trace, j - 1);
      HeldStep(event, PhaseOf(trace[..j - 1]), trace[i].txID, trace[j - 1]);
    }
  }

  lemma HeldStep(event: Event, phase: Phase, txID: string, next: Occurrence)
    requires phase == Outstanding(txID) || phase == Settled(txID)
    requires MayHappen(event, phase, next) && next != Observed(txID, false)
    ensures PhaseStep(phase, next) == Settled(txID)
  {
  }

  lemma {:induction false} PhaseAt(trace: seq<Occurrence>, i: nat)
    requires i < |trace|
    ensures PhaseOf(trace[..i + 1]) == PhaseStep(PhaseOf(trace[..i]), trace[i])
  {
    assert trace[..i + 1] == trace[..i] + [trace[i]];
    PhaseOfSnoc(trace[..i], trace[i]);
  }

  /**
   * For every pending object and every sequence of turns, whatever statuses
   * arrive: after a send that was acknowledged or left uncertain, no further send
   * happens unless a rejection of that very transaction was observed in between,
   * and then only for an initialization marker.
   */
  lemma {:induction false} NeverResendsUncertain(event: Event, turns: seq<Turn>, i: nat, j: nat)
    requires i < j < |ReceiptAfter(event, turns).1|
    requires ReceiptAfter(event, turns).1[i].Sent? && ReceiptAfter(event, turns).1[i].result != NotDelivered
    requires ReceiptAfter(event, turns).1[j].Sent?
    ensures event == InitializedEvent
    ensures exists k ::
      i < k < j && ReceiptAfter(event, turns).1[k] == Observed(ReceiptAfter(event, turns).1[i].txID, false)
  {
    var trace := ReceiptAfter(event, turns).1;
    TurnsKeepReceipt(event, turns);
    assert OrderlyAt(event, trace, j);
    CommitNeverIdleAgain(turns, trace, i, j);
    if forall k | i < k < j :: trace[k] != Observed(trace[i].txID, false) {
      DeliveredStays(event, trace, i, j);
    }
  }

  lemma {:induction false} CommitNeverIdleAgain(turns: seq<Turn>, trace: seq<Occurrence>, i: nat, j: nat)
    requires i < j <= |trace| && trace[i].Sent? && trace[i].result != NotDelivered
    ensures PhaseOf(trace[..j]) != Idle
    decreases j
  {
    assert trace[..j] == trace[..j - 1] + [trace[j - 1]];
    PhaseOfSnoc(trace[..j - 1], trace[j - 1]);
    if i < j - 1 {
      CommitNeverIdleAgain(turns, trace, i, j - 1);
    }
  }

  /**
   * A recovery pass never sends a definition without a receipt, and nothing is
   * sent once the outcome is known committed.
   */
  lemma QuietTurns(event: Event, receipt: Receipt, turn: Turn)
    requires receipt.committed || (turn.Recover? && event == CommitEvent && receipt.txID.None?)
    ensures forall e | e in TakeTurn(event, receipt, turn).events :: !e.Sent?
    ensures receipt.committed ==> TakeTurn(event, receipt, turn).receipt == receipt
  {
  }
}
