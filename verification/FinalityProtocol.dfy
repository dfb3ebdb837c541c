/**
 * All interleavings of invokes, Gateway submits, retries, lazy reconciliation
 * passes and status requests over the transaction records of one instance
 * (compatibility_service/pkg/orchestrator/execution.go:357-430, 596-668, 762-777,
 * compatibility_service/pkg/orchestrator/service.go:637-680, 1293-1345).
 */
module FinalityProtocol {
  import opened Common
  import opened FinalityRecording
  import opened IdempotencyStore

  datatype Path = Invoke | GatewaySubmit

  /** How far the request that created the record has come. */
  datatype Stage =
    | Started
    | Ran                                   // markExecuted done
    | Locked                                // Invoke only: holds the finality lock
    | SentTo(result: SendResult)            // the ordering call returned
    | Marked                                // markSubmission done
    | Returning(response: Response, err: Option<string>)   // its deferred complete is next
    | Finished

  datatype Holder = Owner | Worker(id: nat)

  /** A status that settles the record, received under the lock, with the callback taken from the record. */
  datatype Seen = Seen(status: Status, callback: Option<Lifecycle.Definition>, called: bool)

  datatype Lock = Free | Held(holder: Holder, seen: Option<Seen>)

  datatype Entry = Entry(
    key: string, contents: Contents, path: Path, txID: string, afterCommit: Option<Lifecycle.Definition>, stage: Stage,
        lock: Lock)

  datatype Happened =
    | Send(key: string, record: nat, txID: string, result: SendResult)
    | ObservedFinal(key: string, record: nat, txID: string, code: Code)
    | Callback(record: nat, txID: string, def: Lifecycle.Definition)

  datatype State = State(entries: seq<Entry>, index: map<string, nat>, trace: seq<Happened>)

  // ------------------------------------------------------------------------
  // Steps of one record
  // ------------------------------------------------------------------------

  datatype Move =
    | Execute(now: nat)
    | Abort(response: Response, err: Option<string>)
    | TakeLock
    | Order(result: SendResult)
    | Mark(payload: string, event: Option<string>, err: Option<string>, now: nat)
    | GiveUp(response: Response, err: Option<string>)
    | Finish(now: nat)
    | WorkerLocks(id: nat)
    | WorkerUnlocks(id: nat)
    | Receive(status: Option<Status>)       // whatever a query or notification delivers
    | RunCallback
    | Confirm(err: Option<string>, now: nat)

  /** The move is the next thing its process does. */
  predicate Enabled(e: Entry, move: Move) {
    match move
    case Execute(_) => e.stage == Started
    case Abort(_, _) => e.stage == Started || e.stage == Ran
    case TakeLock => e.path == Invoke && e.stage == Ran && e.lock == Free
    case Order(_) => if e.path == Invoke then e.stage == Locked else e.stage == Ran
    case Mark(_, _, _, _) => e.stage.SentTo? && e.stage.result != NotDelivered
    case GiveUp(_, _) =>
      && (e.stage == Locked || e.stage == SentTo(NotDelivered) || e.stage == Marked)
      && (e.lock.Held? && e.lock.holder == Owner ==> e.lock.seen.None?)
    case Finish(_) => e.stage.Returning?
    case WorkerLocks(_) => e.lock == Free
    case WorkerUnlocks(id) => e.lock == Held(Worker(id), None)
    case Receive(_) => e.lock.Held? && e.lock.seen.None?
    case RunCallback => e.lock.Held? && e.lock.seen.Some? && MustCall(e.lock.seen.value)
    case Confirm(err, _) =>
      e.lock.Held? && e.lock.seen.Some? && !MustCall(e.lock.seen.value) && (err.Some? ==> e.lock.seen.value.called)
  }

  /** COMMITTED with a callback that did not run yet. */
  predicate MustCall(seen: Seen) {
    seen.status.code.Valid? && seen.callback.Some? && !seen.called
  }

  function Moved(e: Entry, move: Move): Entry
    requires Enabled(e, move)
  {
    match move
    case Execute(now) => e.(stage := Ran, contents := AfterExecuted(e.contents, e.txID, now))
    case Abort(response, err) => e.(stage := Returning(response, err))
    case TakeLock => e.(stage := Locked, lock := Held(Owner, None))
    case Order(result) => e.(stage := SentTo(result))
    case Mark(payload, event, err, now) =>
      e.(stage := Marked, contents := AfterSubmission(e.contents,
         Response(e.key, e.txID, payload, None, true, true, "", 0, 0), event, e.afterCommit, err, now))
    case GiveUp(response, err) =>
      e.(stage := Returning(response, err), lock := if e.lock.Held? && e.lock.holder == Owner then Free else e.lock)
    case Finish(now) => e.(stage := Finished, contents :=
                           AfterCompletion(e.contents, e.stage.response, e.stage.err, now))
    case WorkerLocks(id) => e.(lock := Held(Worker(id), None))
    case WorkerUnlocks(id) => e.(lock := Free)
    case Receive(status) =>
      if Settles(e.contents, status) then
        e.(lock := e.lock.(seen := Some(Seen(status.value, e.contents.afterCommit, false)))) else e
    case RunCallback => e.(lock := e.lock.(seen := Some(e.lock.seen.value.(called := true))))
    case Confirm(err, now) =>
      e.(lock := e.lock.(seen := None),
         contents := AfterFinality(e.contents, FinalResponse(e.contents, e.lock.seen.value.status), err, now))
  }

  function Emits(e: Entry, i: nat, move: Move): seq<Happened>
    requires Enabled(e, move)
  {
    match move
    case Order(result) => [Send(e.key, i, e.txID, result)]
    case Receive(status) =>
      if Settles(e.contents, status) then [ObservedFinal(e.key, i, status.value.txID, status.value.code)] else []
    case RunCallback => [Callback(i, e.contents.response.txID, e.lock.seen.value.callback.value)]
    case _ => []
  }

  // ------------------------------------------------------------------------
  // Steps of the store
  // ------------------------------------------------------------------------

  datatype Step =
    | Begin(key: string, digest: string, path: Path, txID: string, afterCommit: Option<Lifecycle.Definition>, now: nat)
    | Advance(i: nat, move: Move)

  predicate Can(s: State, step: Step) {
    match step
    case Begin(key, digest, _, _, _, _) => key != "" && digest != "" && key !in s.index
    case Advance(i, move) => i < |s.entries| && Enabled(s.entries[i], move)
  }

  function Do(s: State, step: Step): State
    requires Can(s, step)
  {
    match step
    case Begin(key, digest, path, txID, afterCommit, now) =>
      State(s.entries + [Entry(key, NewContents(digest, now), path, txID, afterCommit, Started, Free)],
            s.index[key := |s.entries|], s.trace)
    case Advance(i, move) =>
      var e, e' := s.entries[i], Moved(s.entries[i], move);
      State(s.entries[i := e'],
            if Live(e.contents) && !Live(e'.contents) && e.key in s.index && s.index[e.key] == i then s.index - {e.key}
              else s.index,
            s.trace + Emits(e, i, move))
  }

  function Run(steps: seq<Step>): Option<State>
    decreases |steps|
  {
    if steps == [] then Some(State([], map[], []))
    else
      match Run(steps[..|steps| - 1])
      case None => None
      case Some(s) => if Can(s, steps[|steps| - 1]) then Some(Do(s, steps[|steps| - 1])) else None
  }

  // ------------------------------------------------------------------------
  // Invariants
  // ------------------------------------------------------------------------

  predicate EntryInv(e: Entry) {
    && ChannelsFit(e.contents)
    && (match e.stage
        case Started => e.contents.state == InProgress
        case Ran => e.contents.state == Executed
        case Locked => e.contents.state == Executed
        case SentTo(_) => e.contents.state == Executed
        case Marked => e.contents.state == Submitted || e.contents.state == Completed
        case Returning(_, _) => true
        case Finished => !Unsubmitted(e.contents))
    && (e.lock.Held? && e.lock.holder == Owner <==>
        e.path == Invoke && (e.stage == Locked || e.stage.SentTo? || e.stage == Marked))
    && (e.contents.state == Submitted ==>
          && e.contents.response.txID == e.txID && e.contents.response.idempotencyKey == e.key
          && e.contents.response.submitted && e.contents.response.finalityPending
          && e.contents.afterCommit == e.afterCommit)
    && (e.lock.Held? && e.lock.seen.Some? ==>
          && e.contents.state == Submitted && IsFinalStatus(e.txID, Some(e.lock.seen.value.status))
          && e.lock.seen.value.callback == e.afterCommit)
  }

  /** Map entries are exactly the begun records that are not terminal. */
  ghost predicate IndexInv(s: State) {
    && (forall key | key in s.index ::
        s.index[key] < |s.entries| && s.entries[s.index[key]].key == key && Live(s.entries[s.index[key]].contents))
    && (forall i | 0 <= i < |s.entries| && Live(s.entries[i].contents) ::
        s.entries[i].key in s.index && s.index[s.entries[i].key] == i)
  }

  predicate Delivered(h: Happened) {
    h.Send? && h.result != NotDelivered
  }

  /** The record of a delivered send still stands in the way of another one. */
  predicate Guards(e: Entry) {
    && ((e.stage.SentTo? && e.stage.result != NotDelivered) || e.contents.state == Submitted)
    && (e.lock.Held? ==> e.lock.seen.None?)
  }

  /** Between moments i and j a final status of this transaction was observed under the key. */
  ghost predicate FinalBetween(trace: seq<Happened>, i: nat, j: nat, key: string, txID: string) {
    exists k :: i < k < j <= |trace| && trace[k].ObservedFinal? && trace[k].key == key && trace[k].txID == txID
  }

  /** The record of a send is live and guards its key. */
  ghost predicate StillGuards(s: State, h: Happened)
    requires h.Send?
  {
    h.record < |s.entries| && s.entries[h.record].key == h.key && s.entries[h.record].txID == h.txID
        && Guards(s.entries[h.record])
  }

  /** While no final status was observed for a delivered send, its record is live and guards the key. */
  ghost predicate SendInv(s: State) {
    forall j | 0 <= j < |s.trace| && Delivered(s.trace[j]) ::
      FinalBetween(s.trace, j, |s.trace|, s.trace[j].key, s.trace[j].txID) || StillGuards(s, s.trace[j])
  }

  /**
   * No send follows a delivered one under its key without a final status of the
   * earlier one's transaction in between.
   */
  ghost predicate AtMostOnce(trace: seq<Happened>) {
    forall i, j | 0 <= i < j < |trace| && Delivered(trace[i]) && trace[j].Send? && trace[i].key == trace[j].key ::
      FinalBetween(trace, i, j, trace[i].key, trace[i].txID)
  }

  ghost predicate CommittedBefore(trace: seq<Happened>, j: nat, record: nat, txID: string) {
    exists k :: 0 <= k < j <= |trace| && trace[k].ObservedFinal? && trace[k].record == record && trace[k].txID == txID
        && trace[k].code.Valid?
  }

  /**
   * A callback of a record with this transaction and definition ran after a
   * COMMITTED status of it, and cannot run again.
   */
  ghost predicate CallbackFits(s: State, j: nat)
    requires j < |s.trace| && s.trace[j].Callback?
  {
    && s.trace[j].record < |s.entries|
    && var e := s.entries[s.trace[j].record];
       && s.trace[j].txID == e.txID && Some(s.trace[j].def) == e.afterCommit
       && CommittedBefore(s.trace, j, s.trace[j].record, e.txID)
       && (e.contents.state == Completed || (e.lock.Held? && e.lock.seen.Some? && e.lock.seen.value.called))
  }

  /** Callbacks run once per record, after a COMMITTED status of the record's own transaction. */
  ghost predicate CallbackInv(s: State) {
    && (forall j | 0 <= j < |s.trace| && s.trace[j].Callback? :: CallbackFits(s, j))
    && (forall i, j | 0 <= i < j < |s.trace| && s.trace[i].Callback? && s.trace[j].Callback? ::
        s.trace[i].record != s.trace[j].record)
    && (forall i | 0 <= i < |s.entries| && s.entries[i].lock.Held? && s.entries[i].lock.seen.Some?
        && s.entries[i].lock.seen.value.status.code.Valid? ::
          CommittedBefore(s.trace, |s.trace|, i, s.entries[i].txID))
  }

  ghost predicate Inv(s: State) {
    && (forall e | e in s.entries :: EntryInv(e))
    && IndexInv(s) && SendInv(s) && AtMostOnce(s.trace) && CallbackInv(s)
  }

  lemma MoveKeepsEntry(e: Entry, move: Move)
    requires EntryInv(e) && Enabled(e, move)
    ensures EntryInv(Moved(e, move))
    ensures Moved(e, move).key == e.key && Moved(e, move).txID == e.txID && Moved(e, move).afterCommit == e.afterCommit
    ensures Live(Moved(e, move).contents) ==> Live(e.contents)
    ensures e.contents.state == Completed ==> Moved(e, move).contents.state == Completed
  {
  }

  lemma StepKeepsIndex(s: State, step: Step)
    requires (forall e | e in s.entries :: EntryInv(e)) && IndexInv(s) && Can(s, step)
    ensures (forall e | e in Do(s, step).entries :: EntryInv(e)) && IndexInv(Do(s, step))
  {
    if step.Advance? {
      AdvanceKeepsIndex(s, step.i, step.move);
    }
  }

  lemma AdvanceKeepsIndex(s: State, i: nat, move: Move)
    requires (forall e | e in s.entries :: EntryInv(e)) && IndexInv(s) && Can(s, Advance(i, move))
    ensures (forall e | e in Do(s, Advance(i, move)).entries :: EntryInv(e)) && IndexInv(Do(s, Advance(i, move)))
  {
    assert EntryInv(s.entries[i]);
    MoveKeepsEntry(s.entries[i], move);
  }

  /** Two different live records never share a key. */
  lemma GuardsAreUnique(s: State, i: nat, j: nat)
    requires IndexInv(s) && i < |s.entries| && j < |s.entries| && s.entries[i].key == s.entries[j].key
    requires Live(s.entries[i].contents) && Live(s.entries[j].contents)
    ensures i == j
  {
  }

  lemma FinalBetweenGrows(trace: seq<Happened>, more: seq<Happened>, i: nat, j: nat, j': nat, key: string, txID: string)
    requires FinalBetween(trace, i, j, key, txID) && j <= j' <= |trace + more|
    ensures FinalBetween(trace + more, i, j', key, txID)
  {
    var k :| i < k < j <= |trace| && trace[k].ObservedFinal? && trace[k].key == key && trace[k].txID == txID;
    assert (trace + more)[k] == trace[k];
  }

  /** A send needs an unsubmitted record that has not sent yet, so no record guards its key. */
  lemma SenderIsUnguarded(s: State, i: nat, result: SendResult, r: nat)
    requires (forall e | e in s.entries :: EntryInv(e)) && IndexInv(s) && Can(s, Advance(i, Order(result)))
    requires r < |s.entries| && s.entries[r].key == s.entries[i].key
    ensures !Guards(s.entries[r])
  {
    assert EntryInv(s.entries[i]) && EntryInv(s.entries[r]);
    if Live(s.entries[r].contents) {
      GuardsAreUnique(s, i, r);
    }
  }

  lemma SendIsFirst(s: State, i: nat, result: SendResult, j: nat)
    requires (forall e | e in s.entries :: EntryInv(e)) && IndexInv(s) && SendInv(s)
    requires Can(s, Advance(i, Order(result))) && j < |s.trace| && Delivered(s.trace[j])
      && s.trace[j].key == s.entries[i].key
    ensures FinalBetween(s.trace, j, |s.trace|, s.trace[j].key, s.trace[j].txID)
  {
    var r := s.trace[j].record;
    if r < |s.entries| && s.entries[r].key == s.trace[j].key {
      SenderIsUnguarded(s, i, result, r);
    }
  }

  /** A record stops guarding its key only by receiving a final status of its own transaction. */
  lemma MoveKeepsGuard(e: Entry, move: Move)
    requires EntryInv(e) && Enabled(e, move)
    ensures Guards(e) && !(move.Receive? && Settles(e.contents, move.status)) ==> Guards(Moved(e, move))
    ensures move.Order? && move.result != NotDelivered ==> Guards(Moved(e, move))
    ensures move.Receive? && Settles(e.contents, move.status) ==> move.status.value.txID == e.txID
  {
  }

  lemma StepKeepsSends(s: State, step: Step)
    requires Inv(s) && Can(s, step)
    ensures SendInv(Do(s, step)) && AtMostOnce(Do(s, step).trace)
  {
    if step.Begin? {
      assert Do(s, step).trace == s.trace;
    } else {
      MoveKeepsSends(s, step.i, step.move);
      MoveKeepsAtMostOnce(s, step.i, step.move);
    }
  }

  lemma MoveKeepsSends(s: State, i: nat, move: Move)
    requires Inv(s) && Can(s, Advance(i, move))
    ensures SendInv(Do(s, Advance(i, move)))
  {
    var s', e, more := Do(s, Advance(i, move)), s.entries[i], Emits(s.entries[i], i, move);
    assert EntryInv(e);
    MoveKeepsGuard(e, move);
    MoveKeepsEntry(e, move);
    forall j | 0 <= j < |s'.trace| && Delivered(s'.trace[j])
      ensures FinalBetween(s'.trace, j, |s'.trace|, s'.trace[j].key, s'.trace[j].txID) || StillGuards(s', s'.trace[j])
    {
      if j < |s.trace| {
        var h := s.trace[j];
        if FinalBetween(s.trace, j, |s.trace|, h.key, h.txID) {
          FinalBetweenGrows(s.trace, more, j, |s.trace|, |s'.trace|, h.key, h.txID);
        } else if move.Receive? && Settles(e.contents, move.status) && h.record == i {
          assert s'.trace[|s.trace|] == ObservedFinal(e.key, i, e.txID, move.status.value.code);
        }
      }
    }
  }

  lemma MoveKeepsAtMostOnce(s: State, i: nat, move: Move)
    requires Inv(s) && Can(s, Advance(i, move))
    ensures AtMostOnce(Do(s, Advance(i, move)).trace)
  {
    var trace', more := Do(s, Advance(i, move)).trace, Emits(s.entries[i], i, move);
    forall a, b | 0 <= a < b < |trace'| && Delivered(trace'[a]) && trace'[b].Send? && trace'[a].key == trace'[b].key
      ensures FinalBetween(trace', a, b, trace'[a].key, trace'[a].txID)
    {
      if b < |s.trace| {
        FinalBetweenGrows(s.trace, more, a, b, b, s.trace[a].key, s.trace[a].txID);
      } else {
        SendIsFirst(s, i, move.result, a);
        FinalBetweenGrows(s.trace, more, a, |s.trace|, b, s.trace[a].key, s.trace[a].txID);
      }
    }
  }

  lemma CommittedBeforeGrows(trace: seq<Happened>, more: seq<Happened>, j: nat, j': nat, record: nat, txID: string)
    requires CommittedBefore(trace, j, record, txID) && j <= j' <= |trace + more|
    ensures CommittedBefore(trace + more, j', record, txID)
  {
    var k :| 0 <= k < j <= |trace| && trace[k].ObservedFinal? && trace[k].record == record && trace[k].txID == txID
        && trace[k].code.Valid?;
    assert (trace + more)[k] == trace[k];
  }

  lemma StepKeepsCallbacks(s: State, step: Step)
    requires Inv(s) && Can(s, step)
    ensures CallbackInv(Do(s, step))
  {
    var s' := Do(s, step);
    if step.Begin? {
      forall i | 0 <= i < |s'.entries| && s'.entries[i].lock.Held? && s'.entries[i].lock.seen.Some?
                 && s'.entries[i].lock.seen.value.status.code.Valid?
        ensures CommittedBefore(s'.trace, |s'.trace|, i, s'.entries[i].txID)
      {
        assert i < |s.entries|;
      }
    } else {
      MoveKeepsCallbackRecords(s, step.i, step.move);
      MoveKeepsCallbackOnce(s, step.i, step.move);
      MoveKeepsCommitted(s, step.i, step.move);
    }
  }

  lemma MoveKeepsCommitted(s: State, i: nat, move: Move)
    requires Inv(s) && Can(s, Advance(i, move))
    ensures var s' := Do(s, Advance(i, move));
      forall r | 0 <= r < |s'.entries| && s'.entries[r].lock.Held? && s'.entries[r].lock.seen.Some?
          && s'.entries[r].lock.seen.value.status.code.Valid? ::
        CommittedBefore(s'.trace, |s'.trace|, r, s'.entries[r].txID)
  {
    var s', e, more := Do(s, Advance(i, move)), s.entries[i], Emits(s.entries[i], i, move);
    assert EntryInv(e);
    forall r | 0 <= r < |s'.entries| && s'.entries[r].lock.Held? && s'.entries[r].lock.seen.Some?
        && s'.entries[r].lock.seen.value.status.code.Valid?
      ensures CommittedBefore(s'.trace, |s'.trace|, r, s'.entries[r].txID)
    {
      if r == i && move.Receive? && Settles(e.contents, move.status) {
        assert s'.trace[|s.trace|] == ObservedFinal(e.key, i, e.txID, Valid);
      } else {
        assert s.entries[r].lock.Held? && s.entries[r].lock.seen.Some?
            && s.entries[r].lock.seen.value.status.code.Valid?;
        CommittedBeforeGrows(s.trace, more, |s.trace|, |s'.trace|, r, s.entries[r].txID);
      }
    }
  }

  lemma MoveKeepsCallbackRecords(s: State, i: nat, move: Move)
    requires Inv(s) && Can(s, Advance(i, move))
    ensures var s' := Do(s, Advance(i, move));
      forall j | 0 <= j < |s'.trace| && s'.trace[j].Callback? :: CallbackFits(s', j)
  {
    var s' := Do(s, Advance(i, move));
    forall j | 0 <= j < |s'.trace| && s'.trace[j].Callback? ensures CallbackFits(s', j) {
      if j < |s.trace| {
        OldCallbackFits(s, i, move, j);
      } else {
        NewCallbackFits(s, i, move);
      }
    }
  }

  lemma OldCallbackFits(s: State, i: nat, move: Move, j: nat)
    requires Inv(s) && Can(s, Advance(i, move)) && j < |s.trace| && s.trace[j].Callback?
    ensures CallbackFits(Do(s, Advance(i, move)), j)
  {
    var more := Emits(s.entries[i], i, move);
    assert EntryInv(s.entries[i]) && CallbackFits(s, j);
    CommittedBeforeGrows(s.trace, more, j, j, s.trace[j].record, s.entries[s.trace[j].record].txID);
    if s.trace[j].record == i {
      CalledStays(s.entries[i], move);
    }
  }

  /** A callback that was called is not forgotten before its record is completed. */
  lemma CalledStays(e: Entry, move: Move)
    requires EntryInv(e) && Enabled(e, move)
    requires e.contents.state == Completed || (e.lock.Held? && e.lock.seen.Some? && e.lock.seen.value.called)
    ensures var e' := Moved(e, move);
      && e'.txID == e.txID && e'.afterCommit == e.afterCommit
      && (e'.contents.state == Completed || (e'.lock.Held? && e'.lock.seen.Some? && e'.lock.seen.value.called))
  {
  }

  lemma NewCallbackFits(s: State, i: nat, move: Move)
    requires Inv(s) && Can(s, Advance(i, move)) && move.RunCallback?
    ensures CallbackFits(Do(s, Advance(i, move)), |s.trace|)
  {
    var e := s.entries[i];
    assert EntryInv(e);
    CommittedBeforeGrows(s.trace, Emits(e, i, move), |s.trace|, |s.trace|, i, e.txID);
  }

  lemma MoveKeepsCallbackOnce(s: State, i: nat, move: Move)
    requires Inv(s) && Can(s, Advance(i, move))
    ensures var trace' := Do(s, Advance(i, move)).trace;
      forall a, b | 0 <= a < b < |trace'| && trace'[a].Callback? && trace'[b].Callback? ::
        trace'[a].record != trace'[b].record
  {
    var trace' := Do(s, Advance(i, move)).trace;
    assert EntryInv(s.entries[i]);
    forall a, b | 0 <= a < b < |trace'| && trace'[a].Callback? && trace'[b].Callback?
      ensures trace'[a].record != trace'[b].record
    {
      assert trace'[a] == s.trace[a];
    }
  }

  /** A status that is missing, of another transaction, unspecified or unknown changes nothing, whoever receives it. */
  lemma ForeignStatusIgnored(s: State, i: nat, status: Option<Status>)
    requires Inv(s) && Can(s, Advance(i, Receive(status))) && !IsFinalStatus(s.entries[i].txID, status)
    ensures Do(s, Advance(i, Receive(status))) == s
  {
    assert EntryInv(s.entries[i]);
    assert s.entries[i := s.entries[i]] == s.entries && s.trace + [] == s.trace;
  }

  /**
   * Recording a status under the lock is the moves Receive, RunCallback if there
   * is one to run, and Confirm: they are enabled one after the other, run the same
   * callbacks and leave the same contents.
   */
  lemma RecordingIsMoves(e: Entry, i: nat, status: Option<Status>, err: Option<string>, now: nat)
    requires EntryInv(e) && e.lock.Held? && e.lock.seen.None? && Settles(e.contents, status)
    requires err.Some? ==> Callbacks(e.contents, status) != []
    ensures Enabled(e, Receive(status))
    ensures var received := Moved(e, Receive(status));
      (Callbacks(e.contents, status) != [] <==> Enabled(received, RunCallback))
      && var called := if Enabled(received, RunCallback) then Moved(received, RunCallback) else received;
         && Enabled(called, Confirm(err, now)) && !Enabled(called, RunCallback)
         && Moved(called, Confirm(err, now)) == e.(contents := AfterStatus(e.contents, status, err, now))
         && (Enabled(received, RunCallback) ==>
               Emits(received, i, RunCallback) == [Callback(i, e.txID, Callbacks(e.contents, status)[0])])
  {
  }

  lemma {:induction false} RunKeepsInv(steps: seq<Step>)
    requires Run(steps).Some?
    ensures Inv(Run(steps).value)
    decreases |steps|
  {
    if steps != [] {
      var n := |steps| - 1;
      RunKeepsInv(steps[..n]);
      var s := Run(steps[..n]).value;
      StepKeepsIndex(s, steps[n]);
      StepKeepsSends(s, steps[n]);
      StepKeepsCallbacks(s, steps[n]);
    }
  }

  // ------------------------------------------------------------------------
  // Whole runs
  // ------------------------------------------------------------------------

  /**
   * For one key, after a send that was acknowledged or left uncertain no second
   * send happens before a final status of the sent transaction was observed,
   * whatever the interleaving and whatever statuses arrive.
   */
  lemma {:induction false} NoSecondSendBeforeFinality(steps: seq<Step>, i: nat, j: nat)
    requires Run(steps).Some? && i < j < |Run(steps).value.trace|
    requires Delivered(Run(steps).value.trace[i]) && Run(steps).value.trace[j].Send?
    requires Run(steps).value.trace[i].key == Run(steps).value.trace[j].key
    ensures FinalBetween(Run(steps).value.trace, i, j, Run(steps).value.trace[i].key, Run(steps).value.trace[i].txID)
  {
    RunKeepsInv(steps);
  }

  /** A record's callback runs at most once, and only after a COMMITTED status carrying the record's own transaction. */
  lemma {:induction false} CallbackAtMostOnce(steps: seq<Step>, j: nat)
    requires Run(steps).Some? && j < |Run(steps).value.trace| && Run(steps).value.trace[j].Callback?
    ensures var s, c := Run(steps).value, Run(steps).value.trace[j];
      && c.record < |s.entries| && Some(c.def) == s.entries[c.record].afterCommit
      && CommittedBefore(s.trace, j, c.record, s.entries[c.record].txID)
      && forall k | 0 <= k < |s.trace| && k != j && s.trace[k].Callback? :: s.trace[k].record != c.record
  {
    RunKeepsInv(steps);
  }

  /** In every run the map holds exactly the live records, and each channel was closed exactly by its own transition. */
  lemma {:induction false} MapHoldsLiveRecords(steps: seq<Step>, i: nat)
    requires Run(steps).Some? && i < |Run(steps).value.entries|
    ensures var s := Run(steps).value;
      && (Live(s.entries[i].contents) <==> s.entries[i].key in s.index && s.index[s.entries[i].key] == i)
      && ChannelsFit(s.entries[i].contents)
      && (s.entries[i].stage == Finished ==> !Unsubmitted(s.entries[i].contents))
  {
    RunKeepsInv(steps);
    assert EntryInv(Run(steps).value.entries[i]);
  }
}
