/**
 * Recording transaction statuses on the records they belong to: the filter for
 * final statuses, the recording itself, the lazy reconciliation pass and the
 * refresh after an explicit status request
 * (compatibility_service/pkg/orchestrator/execution.go:596-677, 762-777).
 */
module FinalityRecording {
  import opened Common
  import opened IdempotencyStore
  import Lifecycle = LifecycleLedger

  /** Names of outcomes other than COMMITTED. */
  type OutcomeName = name: string | name != "" && name != "COMMITTED" witness "ABORTED"

  /** A status code on the wire; names exist for the known ones. */
  datatype Code = Unspecified | Valid | Invalid(name: OutcomeName) | Unknown(number: int)

  /** A transaction status; a missing reference reads as the empty transaction ID. */
  datatype Status = Status(txID: string, code: Code, blockNum: nat, txNum: nat)

  function CodeName(code: Code): string {
    match code
    case Valid => "COMMITTED"
    case Invalid(name) => name
    case _ => ""
  }

  /** A known final outcome of this transaction. */
  predicate IsFinalStatus(txID: string, status: Option<Status>) {
    status.Some? && status.value.txID == txID && (status.value.code.Valid? || status.value.code.Invalid?)
  }

  /** The status settles the record. */
  predicate Settles(c: Contents, status: Option<Status>) {
    c.state == Submitted && IsFinalStatus(c.response.txID, status)
  }

  /** What a status that settles the record runs: the callback of a committed transaction. */
  function Callbacks(c: Contents, status: Option<Status>): seq<Lifecycle.Definition> {
    if Settles(c, status) && status.value.code.Valid? && c.afterCommit.Some? then [c.afterCommit.value] else []
  }

  function FinalResponse(c: Contents, status: Status): Response {
    c.response.(commitStatus := CodeName(status.code), blockNum := status.blockNum, txNum := status.txNum,
                finalityPending := false,
                event := if status.code.Valid? then c.event else c.response.event)
  }

  /** The record after the status was recorded, given what the callback returned. */
  function AfterStatus(c: Contents, status: Option<Status>, err: Option<string>, now: nat): Contents {
    if Settles(c, status) then AfterFinality(c, FinalResponse(c, status.value), err, now) else c
  }

  /** The status is a known final one, and of the transaction a submitted record waits for. */
  ghost predicate Awaited(c: Contents, status: Option<Status>) {
    && c.state == Submitted && status.Some? && status.value.txID == c.response.txID
    && (status.value.code == Valid || exists name :: status.value.code == Invalid(name))
  }

  /**
   * What a client is told once a status was recorded: an awaited one completes the
   * record with exactly its outcome, any other leaves the record alone.
   */
  ghost predicate Told(before: Contents, after: Contents, status: Option<Status>) {
    if Awaited(before, status) then
      && after.state == Completed && after.doneClosed && after.afterCommit.None? && after.event.None?
      && after.digest == before.digest && after.helperTxID == before.helperTxID
      && after.submittedClosed == before.submittedClosed
      && var out, s := after.response, status.value;
      && (out.commitStatus == "COMMITTED" <==> s.code == Valid)
      && (forall name :: s.code == Invalid(name) ==> out.commitStatus == name)
      && out.blockNum == s.blockNum && out.txNum == s.txNum && !out.finalityPending
      && out.event == (if s.code == Valid then before.event else before.response.event)
      && out.idempotencyKey == before.response.idempotencyKey && out.txID == before.response.txID
      && out.payload == before.response.payload && out.submitted == before.response.submitted
    else after == before
  }

  lemma StatusTells(before: Contents, status: Option<Status>, err: Option<string>, now: nat)
    ensures var after := AfterStatus(before, status, err, now);
      && Told(before, after, status)
      && (Awaited(before, status) ==> after.err == err && after.updatedAt == now)
    ensures Callbacks(before, status) ==
      if Awaited(before, status) && status.value.code == Valid && before.afterCommit.Some? then
        [before.afterCommit.value]
      else []
  {
  }

  /** The lifecycle side of the callbacks: each run registers pending work and may fail. */
  class Registrar {
    var runs: seq<Lifecycle.Definition>
    const fails: nat -> Option<string>

    constructor (fails: nat -> Option<string>)
      ensures runs == [] && this.fails == fails
    {
      runs := [];
      this.fails := fails;
    }

    method MarkInitialized(def: Lifecycle.Definition) returns (err: Option<string>)
      modifies this`runs
      ensures runs == old(runs) + [def] && err == fails(|old(runs)|)
    {
      err := fails(|runs|);
      runs := runs + [def];
    }
  }

  /**
   * One record under its finality lock: a status of another transaction, or none,
   * or not a final one, changes nothing.
   */
  method RecordFinality(store: Store, registrar: Registrar, record: Record, status: Option<Status>, now: nat)
    returns (err: Option<string>)
    requires store.Valid() && record in store.begun && record.finalityCheck
    modifies store`records, record`contents, registrar`runs
    ensures store.Valid()
    ensures registrar.runs == old(registrar.runs) + old(Callbacks(record.contents, status))
    ensures err == if old(Callbacks(record.contents, status)) == [] then None
      else registrar.fails(|old(registrar.runs)|)
    ensures record.contents == AfterStatus(old(record.contents), status, err, now)
    ensures store.records == if old(Settles(record.contents, status)) then old(store.records) - {record.key}
      else old(store.records)
    ensures var c := old(record.contents);
      && Told(c, record.contents, status)
      && (if Awaited(c, status) then record.contents.err == err && record.contents.updatedAt == now else err.None?)
      && registrar.runs == old(registrar.runs) +
           if Awaited(c, status) && status.value.code == Valid && c.afterCommit.Some? then [c.afterCommit.value] else []
  {
    StatusTells(record.contents, status, None, now);
    var pending, event, afterCommit := store.Pending(record);
    if pending.None? { return None; }
    var out := pending.value;
    if !IsFinalStatus(out.txID, status) { return None; }
    out := out.(commitStatus := CodeName(status.value.code), blockNum := status.value.blockNum,
                txNum := status.value.txNum, finalityPending := false);
    err := None;
    if status.value.code.Valid? {
      out := out.(event := event);
      if afterCommit.Some? {
        err := registrar.MarkInitialized(afterCommit.value);
      }
    }
    store.ConfirmFinality(record, out, err, now);
    StatusTells(old(record.contents), status, err, now);
  }

  // ------------------------------------------------------------------------
  // The lazy pass
  // ------------------------------------------------------------------------

  /** The first status of a reply that is final for the transaction. */
  function FirstFinal(statuses: seq<Option<Status>>, txID: string): Option<Status> {
    if statuses == [] then None
    else if IsFinalStatus(txID, statuses[0]) then statuses[0]
    else FirstFinal(statuses[1..], txID)
  }

  lemma {:induction false} FirstFinalSnoc(statuses: seq<Option<Status>>, n: nat, txID: string)
    requires n < |statuses|
    ensures FirstFinal(statuses[..n + 1], txID) ==
      if FirstFinal(statuses[..n], txID).Some? then FirstFinal(statuses[..n], txID)
      else if IsFinalStatus(txID, statuses[n]) then statuses[n] else None
    decreases n
  {
    if n > 0 && !IsFinalStatus(txID, statuses[0]) {
      FirstFinalSnoc(statuses[1..], n - 1, txID);
      assert statuses[1..][..n] == statuses[..n + 1][1..] && statuses[1..][..n - 1] == statuses[..n][1..];
    }
  }

  /** queryTransactionStatus on a reply: only a known final outcome of the requested transaction counts. */
  method FindFinal(statuses: seq<Option<Status>>, txID: string) returns (r: Option<Status>)
    ensures r == FirstFinal(statuses, txID)
    ensures r.None? <==> forall status | status in statuses :: !IsFinalStatus(txID, status)
    ensures r.Some? ==> exists i :: 0 <= i < |statuses| && statuses[i] == r && IsFinalStatus(txID, r)
                                    && forall k | 0 <= k < i :: !IsFinalStatus(txID, statuses[k])
  {
    assert statuses[0..] == statuses;
    for i := 0 to |statuses|
      invariant FirstFinal(statuses, txID) == FirstFinal(statuses[i..], txID)
      invariant forall k | 0 <= k < i :: !IsFinalStatus(txID, statuses[k])
    {
      assert statuses[i..][1..] == statuses[i + 1..];
      if IsFinalStatus(txID, statuses[i]) { return statuses[i]; }
    }
    return None;
  }

  /** The record may have become this by recording the status. */
  ghost predicate Becomes(before: Contents, after: Contents, status: Option<Status>, now: nat) {
    exists err :: after == AfterStatus(before, status, err, now)
  }

  lemma BecomesTold(before: Contents, after: Contents, status: Option<Status>, now: nat)
    requires Becomes(before, after, status, now)
    ensures Told(before, after, status)
  {
    var err :| after == AfterStatus(before, status, err, now);
    StatusTells(before, status, err, now);
  }

  /** A map from the transaction IDs of some submitted records, one record for each, and the list of these IDs. */
  ghost predicate Matches(pending: map<string, Record>, txIDs: seq<string>, taken: set<Record>)
    reads taken`contents
  {
    && (forall id | id in pending :: pending[id] in taken && pending[id].contents.response.txID == id)
    && (forall r | r in taken :: r.contents.state == Submitted && r.contents.response.txID in pending)
    && (forall id :: id in txIDs <==> id in pending)
  }

  lemma MatchesOneMore(pending: map<string, Record>, txIDs: seq<string>, taken: set<Record>, record: Record)
    requires Matches(pending, txIDs, taken) && record.contents.state == Submitted
    ensures var txID := record.contents.response.txID;
      Matches(pending[txID := record], txIDs + [txID], taken + {record})
  {
  }

  /** The lock is kept exactly for a submitted record that was free; it takes over its transaction ID. */
  method TakePending(store: Store, record: Record, pending: map<string, Record>, txIDs: seq<string>,
                     ghost taken: set<Record>)
    returns (pending': map<string, Record>, txIDs': seq<string>, ghost taken': set<Record>)
    requires store.Valid() && record in store.begun && Matches(pending, txIDs, taken)
    modifies record`finalityCheck
    ensures taken' == if record.contents.state == Submitted && !old(record.finalityCheck) then taken + {record}
      else taken
    ensures Matches(pending', txIDs', taken')
    ensures record.finalityCheck == (old(record.finalityCheck) || record.contents.state == Submitted)
  {
    pending', txIDs', taken' := pending, txIDs, taken;
    var locked := record.TryLockFinality();
    if !locked { return; }
    var response, _, _ := store.Pending(record);
    if response.None? {
      record.UnlockFinality();
      return;
    }
    var txID := response.value.txID;
    MatchesOneMore(pending, txIDs, taken, record);
    pending', txIDs', taken' := pending[txID := record], txIDs + [txID], taken + {record};
  }

  function TxIDOf(status: Option<Status>): string {
    if status.Some? then status.value.txID else ""
  }

  /** Processing one more status of the reply: the first final one counts, later ones find the record completed. */
  lemma OneMoreStatus(before: Contents, c: Contents, statuses: seq<Option<Status>>, n: nat, err: Option<string>,
                      now: nat)
    requires n < |statuses| && before.state == Submitted
    requires Becomes(before, c, FirstFinal(statuses[..n], before.response.txID), now)
    ensures Becomes(before, AfterStatus(c, statuses[n], err, now), FirstFinal(statuses[..n + 1], before.response.txID),
                    now)
    ensures Callbacks(c, statuses[n]) ==
      if FirstFinal(statuses[..n], before.response.txID).None? then Callbacks(before, statuses[n]) else []
  {
    var txID := before.response.txID;
    FirstFinalSnoc(statuses, n, txID);
    FirstFinalIsFinal(statuses[..n], txID);
    if FirstFinal(statuses[..n], txID).None? {
      assert AfterStatus(c, statuses[n], err, now)
          == AfterStatus(before, FirstFinal(statuses[..n + 1], txID), err, now);
    }
  }

  lemma {:induction false} OtherStatus(statuses: seq<Option<Status>>, n: nat, txID: string)
    requires n < |statuses| && TxIDOf(statuses[n]) != txID
    ensures FirstFinal(statuses[..n + 1], txID) == FirstFinal(statuses[..n], txID)
  {
    FirstFinalSnoc(statuses, n, txID);
  }

  lemma {:induction false} FirstFinalIsFinal(statuses: seq<Option<Status>>, txID: string)
    ensures FirstFinal(statuses, txID).Some? ==>
      IsFinalStatus(txID, FirstFinal(statuses, txID)) && FirstFinal(statuses, txID) in statuses
    decreases |statuses|
  {
    if statuses != [] && !IsFinalStatus(txID, statuses[0]) {
      FirstFinalIsFinal(statuses[1..], txID);
    }
  }

  /** Each record is as its own statuses among those processed leave it. */
  ghost predicate Processed(before: map<string, Contents>, after: map<string, Contents>, statuses: seq<Option<Status>>,
                            now: nat) {
    && after.Keys == before.Keys
    && forall id | id in before :: Becomes(before[id], after[id], FirstFinal(statuses, id), now)
  }

  /** The callbacks that ran: one for each record whose first final status is COMMITTED, if it has a callback. */
  ghost predicate RanFor(before: map<string, Contents>, statuses: seq<Option<Status>>, called: seq<string>,
                         runs: seq<Lifecycle.Definition>) {
    && NoDup(called) && |called| == |runs|
    && (forall k | 0 <= k < |called| ::
        called[k] in before && Callbacks(before[called[k]], FirstFinal(statuses, called[k])) == [runs[k]])
    && (forall id | id in before && id !in called :: Callbacks(before[id], FirstFinal(statuses, id)) == [])
  }

  ghost predicate Snapshot(before: map<string, Contents>) {
    forall id | id in before :: before[id].state == Submitted && before[id].response.txID == id
  }

  lemma RanForOneMore(before: map<string, Contents>, statuses: seq<Option<Status>>, n: nat, called: seq<string>,
                      runs: seq<Lifecycle.Definition>,
                      more: seq<Lifecycle.Definition>) returns (called': seq<string>)
    requires n < |statuses| && Snapshot(before) && RanFor(before, statuses[..n], called, runs)
    requires more == if FirstFinal(statuses[..n], TxIDOf(statuses[n])).None? then RunsOfOne(before, statuses[n]) else []
    ensures RanFor(before, statuses[..n + 1], called', runs + more)
  {
    var id := TxIDOf(statuses[n]);
    called' := if more == [] then called else called + [id];
    forall other | other in before
      ensures FirstFinal(statuses[..n + 1], other) ==
        if other == id && FirstFinal(statuses[..n], id).None? && IsFinalStatus(id, statuses[n]) then statuses[n]
          else FirstFinal(statuses[..n], other)
    {
      FirstFinalSnoc(statuses, n, other);
    }
    if more != [] {
      assert id !in called;
    }
  }

  function AfterOne(contents: map<string, Contents>, status: Option<Status>, err: Option<string>, now: nat)
    : map<string, Contents>
  {
    var id := TxIDOf(status);
    if id in contents then contents[id := AfterStatus(contents[id], status, err, now)] else contents
  }

  function RunsOfOne(contents: map<string, Contents>, status: Option<Status>): seq<Lifecycle.Definition> {
    var id := TxIDOf(status);
    if id in contents then Callbacks(contents[id], status) else []
  }

  lemma ProcessedOneMore(before: map<string, Contents>, contents: map<string, Contents>, statuses: seq<Option<Status>>,
                         n: nat,
                         err: Option<string>, now: nat)
    requires n < |statuses| && Snapshot(before) && Processed(before, contents, statuses[..n], now)
    ensures Processed(before, AfterOne(contents, statuses[n], err, now), statuses[..n + 1], now)
    ensures RunsOfOne(contents, statuses[n]) ==
      if FirstFinal(statuses[..n], TxIDOf(statuses[n])).None? then RunsOfOne(before, statuses[n]) else []
  {
    forall id | id in before
      ensures Becomes(before[id], AfterOne(contents, statuses[n], err, now)[id], FirstFinal(statuses[..n + 1], id), now)
    {
      ProcessedOneMoreAt(before, contents, statuses, n, err, now, id);
    }
    if TxIDOf(statuses[n]) in before {
      OneMoreStatus(before[TxIDOf(statuses[n])], contents[TxIDOf(statuses[n])], statuses, n, err, now);
    }
  }

  lemma {:induction false} ProcessedOneMoreAt(before: map<string, Contents>, contents: map<string, Contents>,
                                              statuses: seq<Option<Status>>,
                           n: nat, err: Option<string>, now: nat, id: string)
    requires n < |statuses| && id in before && id in contents && before[id].state == Submitted
    requires before[id].response.txID == id && Becomes(before[id], contents[id], FirstFinal(statuses[..n], id), now)
    ensures Becomes(before[id], AfterOne(contents, statuses[n], err, now)[id], FirstFinal(statuses[..n + 1], id), now)
  {
    if id == TxIDOf(statuses[n]) {
      OneMoreStatus(before[id], contents[id], statuses, n, err, now);
    } else {
      OtherStatus(statuses, n, id);
    }
  }

  /** The records hold these contents. */
  ghost predicate Holds(pending: map<string, Record>, contents: map<string, Contents>, taken: set<Record>)
    reads taken`contents
  {
    && contents.Keys == pending.Keys
    && forall id | id in pending ::
         pending[id] in taken && pending[id].contents == contents[id] && contents[id].response.txID == id
  }

  ghost predicate Holding(store: Store, taken: set<Record>)
    reads store`begun, taken`finalityCheck
  {
    forall r | r in taken :: r in store.begun && r.finalityCheck
  }

  /** What the statuses processed so far did. */
  ghost predicate Passed(before: map<string, Contents>, after: map<string, Contents>, statuses: seq<Option<Status>>,
                         called: seq<string>,
                         ran: seq<Lifecycle.Definition>, now: nat) {
    Processed(before, after, statuses, now) && RanFor(before, statuses, called, ran)
  }

  lemma NothingPassed(before: map<string, Contents>, now: nat)
    ensures Passed(before, before, [], [], [], now)
  {
    forall id | id in before ensures Becomes(before[id], before[id], None, now) {
      assert before[id] == AfterStatus(before[id], None, None, now);
    }
  }

  lemma PassedOneMore(before: map<string, Contents>, after: map<string, Contents>, statuses: seq<Option<Status>>,
                      n: nat, called: seq<string>,
                      ran: seq<Lifecycle.Definition>, err: Option<string>, now: nat) returns (called': seq<string>)
    requires n < |statuses| && Snapshot(before) && Passed(before, after, statuses[..n], called, ran, now)
    ensures Passed(before, AfterOne(after, statuses[n], err, now), statuses[..n + 1], called',
                   ran + RunsOfOne(after, statuses[n]), now)
  {
    ProcessedOneMore(before, after, statuses, n, err, now);
    called' := RanForOneMore(before, statuses, n, called, ran, RunsOfOne(after, statuses[n]));
  }

  /** What the recordings of a pass keep. */
  ghost predicate Recording(store: Store, pending: map<string, Record>, contents: map<string, Contents>,
                            taken: set<Record>)
    reads store, store.begun, taken
  {
    store.Valid() && Holding(store, taken) && Holds(pending, contents, taken)
  }

  lemma SkippedStatus(contents: map<string, Contents>, status: Option<Status>, now: nat)
    requires TxIDOf(status) in contents ==>
      contents[TxIDOf(status)].response.txID == TxIDOf(status) && !IsFinalStatus(TxIDOf(status), status)
    ensures AfterOne(contents, status, None, now) == contents && RunsOfOne(contents, status) == []
  {
  }

  /** One status of the reply: the record of its transaction, if the pass holds one, records it when it is final. */
  method RecordOne(store: Store, registrar: Registrar, pending: map<string, Record>, status: Option<Status>, now: nat,
                   ghost contents: map<string, Contents>, ghost taken: set<Record>) returns (err: Option<string>)
    requires Recording(store, pending, contents, taken)
    modifies store`records, taken`contents, registrar`runs
    ensures Recording(store, pending, AfterOne(contents, status, err, now), taken)
    ensures registrar.runs == old(registrar.runs) + RunsOfOne(contents, status)
  {
    var id := TxIDOf(status);
    err := None;
    if id in pending && IsFinalStatus(id, status) {
      err := RecordMatched(store, registrar, pending, id, status, now, contents, taken);
    } else {
      SkippedStatus(contents, status, now);
    }
  }

  method RecordMatched(store: Store, registrar: Registrar, pending: map<string, Record>, id: string,
                       status: Option<Status>, now: nat,
                       ghost contents: map<string, Contents>, ghost taken: set<Record>) returns (err: Option<string>)
    requires Recording(store, pending, contents, taken) && id in pending
    modifies store`records, taken`contents, registrar`runs
    ensures Recording(store, pending, contents[id := AfterStatus(contents[id], status, err, now)], taken)
    ensures registrar.runs == old(registrar.runs) + Callbacks(contents[id], status)
  {
    var record := pending[id];
    Distinct(pending, contents, taken, id);
    err := RecordFinality(store, registrar, record, status, now);
    KeepsTxID(contents[id], status, err, now);
    HoldsUpdated(pending, contents, taken, id);
  }

  lemma HoldsUpdated(pending: map<string, Record>, contents: map<string, Contents>, taken: set<Record>, id: string)
    requires contents.Keys == pending.Keys && id in pending && pending[id].contents.response.txID == id
    requires forall other | other in pending ::
      pending[other] in taken && contents[other].response.txID == other
          && (other != id ==> pending[other].contents == contents[other])
    ensures Holds(pending, contents[id := pending[id].contents], taken)
  {
  }

  lemma AllDistinct(pending: map<string, Record>, contents: map<string, Contents>, taken: set<Record>)
    requires Holds(pending, contents, taken)
    ensures forall a, b | a in pending && b in pending && a != b :: pending[a] != pending[b]
  {
  }

  lemma Distinct(pending: map<string, Record>, contents: map<string, Contents>, taken: set<Record>, id: string)
    requires Holds(pending, contents, taken) && id in pending
    ensures pending[id] in taken && pending[id].contents == contents[id] && contents[id].response.txID == id
    ensures forall other | other in pending && other != id :: pending[other] != pending[id]
  {
  }

  lemma KeepsTxID(c: Contents, status: Option<Status>, err: Option<string>, now: nat)
    ensures AfterStatus(c, status, err, now).response.txID == c.response.txID
  {
  }

  /** The records after all statuses of a reply, given what the recordings returned. */
  function PassOver(before: map<string, Contents>, statuses: seq<Option<Status>>, errs: seq<Option<string>>,
                    now: nat): map<string, Contents>
    requires |errs| == |statuses|
  {
    if statuses == [] then before
    else
      var n := |statuses| - 1;
      AfterOne(PassOver(before, statuses[..n], errs[..n], now), statuses[n], errs[n], now)
  }

  /** The callbacks run along the way. */
  function PassRuns(before: map<string, Contents>, statuses: seq<Option<Status>>, errs: seq<Option<string>>,
                    now: nat): seq<Lifecycle.Definition>
    requires |errs| == |statuses|
  {
    if statuses == [] then []
    else
      var n := |statuses| - 1;
      PassRuns(before, statuses[..n], errs[..n], now) + RunsOfOne(PassOver(before, statuses[..n], errs[..n], now),
                                                                  statuses[n])
  }

  /**
   * A pass records for each record exactly the first final status of its own
   * transaction, and runs its callback once.
   */
  lemma {:induction false} PassRecordsFirstFinal(before: map<string, Contents>, statuses: seq<Option<Status>>,
                                                 errs: seq<Option<string>>, now: nat)
    returns (called: seq<string>)
    requires |errs| == |statuses| && Snapshot(before)
    ensures Passed(before, PassOver(before, statuses, errs, now), statuses, called,
                   PassRuns(before, statuses, errs, now), now)
    decreases |statuses|
  {
    if statuses == [] {
      NothingPassed(before, now);
      called := [];
    } else {
      var n := |statuses| - 1;
      var earlier := PassRecordsFirstFinal(before, statuses[..n], errs[..n], now);
      called := PassedOneMore(before, PassOver(before, statuses[..n], errs[..n], now), statuses, n, earlier,
                              PassRuns(before, statuses[..n], errs[..n], now), errs[n], now);
      assert statuses[..n + 1] == statuses;
    }
  }

  /**
   * The reply is matched by transaction ID; statuses of other transactions, empty
   * ones and ones that are not final are skipped.
   */
  method RecordStatuses(store: Store, registrar: Registrar, pending: map<string, Record>, statuses: seq<Option<Status>>,
                        now: nat,
                        ghost before: map<string, Contents>, ghost taken: set<Record>)
    returns (ghost errs: seq<Option<string>>)
    requires Recording(store, pending, before, taken)
    modifies store`records, taken`contents, registrar`runs
    ensures |errs| == |statuses| && Recording(store, pending, PassOver(before, statuses, errs, now), taken)
    ensures registrar.runs == old(registrar.runs) + PassRuns(before, statuses, errs, now)
  {
    errs := [];
    ghost var start := registrar.runs;
    for i := 0 to |statuses|
      invariant |errs| == i && Recording(store, pending, PassOver(before, statuses[..i], errs, now), taken)
      invariant registrar.runs == start + PassRuns(before, statuses[..i], errs, now)
    {
      ghost var contents := PassOver(before, statuses[..i], errs, now);
      ghost var ran, more := PassRuns(before, statuses[..i], errs, now), RunsOfOne(contents, statuses[i]);
      var err := RecordOne(store, registrar, pending, statuses[i], now, contents, taken);
      PassStep(before, statuses, i, errs, err, now);
      Associative(start, ran, more);
      errs := errs + [err];
    }
    assert statuses[..|statuses|] == statuses;
  }

  lemma Associative<T>(a: seq<T>, b: seq<T>, c: seq<T>)
    ensures (a + b) + c == a + (b + c)
  {
  }

  lemma {:induction false} PassStep(before: map<string, Contents>, statuses: seq<Option<Status>>, n: nat,
                                    errs: seq<Option<string>>,
                 err: Option<string>, now: nat)
    requires n < |statuses| && |errs| == n
    ensures PassOver(before, statuses[..n + 1], errs + [err], now)
      == AfterOne(PassOver(before, statuses[..n], errs, now), statuses[n], err, now)
    ensures PassRuns(before, statuses[..n + 1], errs + [err], now)
         == PassRuns(before, statuses[..n], errs, now) + RunsOfOne(PassOver(before, statuses[..n], errs, now),
                                                                   statuses[n])
  {
    assert statuses[..n + 1][..n] == statuses[..n] && (errs + [err])[..n] == errs;
  }

  /** All a pass needs to know about the records it can match with a reply. */
  ghost predicate Ready(store: Store, pending: map<string, Record>, txIDs: seq<string>, before: map<string, Contents>,
                        matched: set<Record>)
    reads store, store.begun, matched
  {
    && store.Valid() && Holding(store, matched) && Holds(pending, before, matched) && IsImage(pending, matched)
       && Snapshot(before)
    && (forall id :: id in txIDs <==> id in pending)
  }

  /** The records of the pending map. */
  ghost predicate IsImage(pending: map<string, Record>, matched: set<Record>) {
    && (forall id | id in pending :: pending[id] in matched)
    && (forall r | r in matched :: exists id :: id in pending && pending[id] == r)
  }

  /** The deferred release: every record of the pending map. */
  method UnlockAll(store: Store, pending: map<string, Record>, ghost contents: map<string, Contents>,
                   ghost matched: set<Record>)
    requires Recording(store, pending, contents, matched) && IsImage(pending, matched)
    modifies matched`finalityCheck
    ensures store.Valid() && Holds(pending, contents, matched) && forall r | r in matched :: !r.finalityCheck
  {
    AllDistinct(pending, contents, matched);
    var ids := pending.Keys;
    while ids != {}
      invariant ids <= pending.Keys
      invariant forall id | id in ids :: pending[id].finalityCheck
      invariant forall id | id in pending && id !in ids :: !pending[id].finalityCheck
      decreases ids
    {
      var id :| id in ids;
      ids := ids - {id};
      pending[id].UnlockFinality();
    }
  }

  lemma NextOfBatch(batch: seq<Record>, i: nat)
    requires NoDup(batch) && i < |batch|
    ensures batch[i] !in batch[..i] && forall r :: r in batch[..i + 1] <==> r in batch[..i] || r == batch[i]
  {
    assert batch[..i + 1] == batch[..i] + [batch[i]];
  }

  /** Locks the due records that are free; of several with one transaction ID the map keeps the last. */
  method LockDue(store: Store, batch: seq<Record>, ghost due: set<Record>)
    returns (pending: map<string, Record>, txIDs: seq<string>, ghost taken: set<Record>)
    requires store.Valid() && NoDup(batch) && due == Elems(batch) && due <= store.begun
    modifies due`finalityCheck
    ensures Matches(pending, txIDs, taken)
    ensures forall r :: r in taken <==> r in due && r.contents.state == Submitted && !old(r.finalityCheck)
    ensures forall r | r in due :: r.finalityCheck == (old(r.finalityCheck) || r in taken)
  {
    pending, txIDs, taken := map[], [], {};
    ghost var busy := set r | r in due && r.finalityCheck;
    for i := 0 to |batch|
      invariant Matches(pending, txIDs, taken)
      invariant forall r :: r in taken <==> r in batch[..i] && r.contents.state == Submitted && r !in busy
      invariant forall r | r in due :: r.finalityCheck <==> r in busy || r in taken
    {
      var record := batch[i];
      NextOfBatch(batch, i);
      pending, txIDs, taken := TakePending(store, record, pending, txIDs, taken);
    }
    assert batch[..|batch|] == batch;
  }

  lemma MatchedRecords(pending: map<string, Record>, txIDs: seq<string>, due: set<Record>, was: map<Record, Contents>,
                       taken: set<Record>, before: map<string, Contents>)
    returns (matched: set<Record>)
    requires Matches(pending, txIDs, taken) && taken <= due
    requires before == (map id | id in pending :: pending[id].contents) && was == (map r | r in due :: r.contents)
    ensures Holds(pending, before, matched) && Snapshot(before)
    ensures MatchingOf(due, was, taken, matched, pending, txIDs, before)
  {
    matched := set r | r in taken && pending[r.contents.response.txID] == r;
    assert forall id | id in pending :: pending[id].contents.response.txID == id && pending[id] in matched;
  }

  /**
   * What a lazy pass did: the records it locked, those it could match with a
   * reply, the reply, and the callbacks run.
   */
  datatype LazyPass = LazyPass(
    due: set<Record>, was: map<Record, Contents>, taken: set<Record>, matched: set<Record>,
    pending: map<string, Record>, txIDs: seq<string>, reply: seq<Option<Status>>,
    before: map<string, Contents>, after: map<string, Contents>, called: seq<string>, ran: seq<Lifecycle.Definition>)

  method RecordReply(store: Store, registrar: Registrar, pending: map<string, Record>, txIDs: seq<string>,
                     reply: seq<Option<Status>>, now: nat,
                     ghost before: map<string, Contents>, ghost matched: set<Record>)
    returns (ghost after: map<string, Contents>, ghost called: seq<string>, ghost ran: seq<Lifecycle.Definition>)
    requires Ready(store, pending, txIDs, before, matched)
    modifies store`records, matched`contents, registrar`runs
    ensures Recording(store, pending, after, matched)
    ensures Passed(before, after, reply, called, ran, now) && registrar.runs == old(registrar.runs) + ran
  {
    ghost var errs := RecordStatuses(store, registrar, pending, reply, now, before, matched);
    called := PassRecordsFirstFinal(before, reply, errs, now);
    after, ran := PassOver(before, reply, errs, now), PassRuns(before, reply, errs, now);
  }

  /** The query, the recordings and the release, for the records of the pending map. */
  method MatchReply(store: Store, registrar: Registrar, pending: map<string, Record>, txIDs: seq<string>,
                    query: seq<string> -> Option<seq<Option<Status>>>, now: nat,
                    ghost before: map<string, Contents>, ghost matched: set<Record>)
    returns (ghost reply: seq<Option<Status>>, ghost after: map<string, Contents>, ghost called: seq<string>,
             ghost ran: seq<Lifecycle.Definition>)
    requires Ready(store, pending, txIDs, before, matched)
    modifies store`records, matched, registrar`runs
    ensures store.Valid() && Holds(pending, after, matched) && (forall r | r in matched :: !r.finalityCheck)
    ensures Passed(before, after, reply, called, ran, now) && registrar.runs == old(registrar.runs) + ran
    ensures reply == if txIDs != [] && query(txIDs).Some? then query(txIDs).value else []
  {
    reply, after, called, ran := [], before, [], [];
    NothingPassed(before, now);
    if |txIDs| == 0 {
      assert forall id :: id !in pending;
      return;
    }
    var answer := query(txIDs);
    if answer.Some? {
      reply := answer.value;
      after, called, ran := RecordReply(store, registrar, pending, txIDs, answer.value, now, before, matched);
    }
    UnlockAll(store, pending, after, matched);
  }

  /**
   * The records that could be matched are those the pending map holds, each under
   * its own transaction ID, and every record taken has a record under its own.
   */
  ghost predicate MatchingOf(due: set<Record>, was: map<Record, Contents>, taken: set<Record>, matched: set<Record>,
                             pending: map<string, Record>, txIDs: seq<string>, before: map<string, Contents>) {
    && matched <= taken <= due && was.Keys == due && before.Keys == pending.Keys
    && IsImage(pending, matched) && (forall id :: id in txIDs <==> id in pending)
    && (forall id | id in pending :: was[pending[id]].response.txID == id)
    && (forall r | r in taken :: was[r].response.txID in pending)
    && (forall r | r in matched :: pending[was[r].response.txID] == r && before[was[r].response.txID] == was[r])
  }

  ghost predicate Matching(pass: LazyPass) {
    MatchingOf(pass.due, pass.was, pass.taken, pass.matched, pass.pending, pass.txIDs, pass.before)
  }

  /** Every matched record tells its client the outcome the reply first reports for its own transaction. */
  ghost predicate PassTold(pass: LazyPass)
    reads pass.matched`contents
  {
    forall r | r in pass.matched && r in pass.was ::
      Told(pass.was[r], r.contents, FirstFinal(pass.reply, pass.was[r].response.txID))
  }

  lemma PassTells(pass: LazyPass, now: nat)
    requires Matching(pass) && Holds(pass.pending, pass.after, pass.matched)
    requires Passed(pass.before, pass.after, pass.reply, pass.called, pass.ran, now)
    ensures PassTold(pass)
  {
    forall r | r in pass.matched && r in pass.was
      ensures Told(pass.was[r], r.contents, FirstFinal(pass.reply, pass.was[r].response.txID))
    {
      var id := pass.was[r].response.txID;
      assert pass.pending[id] == r && r.contents == pass.after[id];
      BecomesTold(pass.before[id], pass.after[id], FirstFinal(pass.reply, id), now);
    }
  }

  method LockPending(store: Store, batch: seq<Record>, ghost due: set<Record>)
    returns (pending: map<string, Record>, txIDs: seq<string>, ghost taken: set<Record>,
             ghost was: map<Record, Contents>, ghost before: map<string, Contents>, ghost matched: set<Record>)
    requires store.Valid() && NoDup(batch) && due == Elems(batch) && due <= store.begun
    modifies due`finalityCheck
    ensures Ready(store, pending, txIDs, before, matched)
    ensures MatchingOf(due, was, taken, matched, pending, txIDs, before)
    ensures forall r | r in due :: was[r] == r.contents
    ensures forall r | r in due :: r in taken <==> r.contents.state == Submitted && !old(r.finalityCheck)
    ensures forall r | r in due :: r.finalityCheck == (old(r.finalityCheck) || r in taken)
  {
    pending, txIDs, taken := LockDue(store, batch, due);
    was := map r | r in due :: r.contents;
    before := map id | id in pending :: pending[id].contents;
    matched := MatchedRecords(pending, txIDs, due, was, taken, before);
  }

  /**
   * The lazy pass over the batch that PendingRecordsBefore returned: each due
   * record it could lock and match records the first final status of its own
   * transaction and runs its callback at most once; everything else stays. All
   * locks are released, except those of records displaced in the pending map by
   * another one of the same transaction.
   */
  method ReconcilePending(store: Store, registrar: Registrar, batch: seq<Record>,
                          query: seq<string> -> Option<seq<Option<Status>>>, now: nat,
                          ghost due: set<Record>)
    returns (ghost pass: LazyPass)
    requires store.Valid() && NoDup(batch) && due == Elems(batch) && due <= store.begun
    modifies store`records, registrar`runs, due
    ensures store.Valid() && pass.due == due && Matching(pass)
    ensures forall r | r in due :: pass.was[r] == old(r.contents)
    ensures forall r | r in due :: r in pass.taken <==> pass.was[r].state == Submitted && !old(r.finalityCheck)
    ensures pass.reply == if pass.txIDs != [] && query(pass.txIDs).Some? then query(pass.txIDs).value else []
    ensures Holds(pass.pending, pass.after, pass.matched)
      && Passed(pass.before, pass.after, pass.reply, pass.called, pass.ran, now)
    ensures registrar.runs == old(registrar.runs) + pass.ran
    ensures PassTold(pass)
    ensures forall r | r in due && r !in pass.matched :: r.contents == pass.was[r]
    ensures forall r | r in due :: r.finalityCheck == (old(r.finalityCheck) || (r in pass.taken && r !in pass.matched))
  {
    var pending, txIDs;
    ghost var taken, was, before, matched;
    pending, txIDs, taken, was, before, matched := LockPending(store, batch, due);
    ghost var reply, after, called, ran := MatchReply(store, registrar, pending, txIDs, query, now, before, matched);
    pass := LazyPass(due, was, taken, matched, pending, txIDs, reply, before, after, called, ran);
    PassTells(pass, now);
  }

  /** Locked records are all matched, and released, exactly if no two of them are of the same transaction. */
  lemma AllMatchedUnlessTwins(pass: LazyPass)
    requires Matching(pass)
    ensures pass.matched == pass.taken <==>
      forall r, q | r in pass.taken && q in pass.taken && pass.was[r].response.txID == pass.was[q].response.txID ::
        r == q
  {
    if pass.matched != pass.taken {
      var r :| r in pass.taken && r !in pass.matched;
      var q := pass.pending[pass.was[r].response.txID];
      assert q in pass.taken && pass.was[r].response.txID == pass.was[q].response.txID && q != r;
    }
  }

  // ------------------------------------------------------------------------
  // The refresh after an explicit status request
  // ------------------------------------------------------------------------

  /** One pending record: it records the result if it is of the same transaction and its lock is free. */
  method RefreshOne(store: Store, registrar: Registrar, record: Record, result: Status, now: nat)
    returns (err: Option<string>)
    requires store.Valid() && record in store.begun
    modifies store`records, registrar`runs, record
    ensures store.Valid() && record.finalityCheck == old(record.finalityCheck)
    ensures record.contents == if old(record.finalityCheck) then old(record.contents)
      else AfterStatus(old(record.contents), Some(result), err, now)
    ensures registrar.runs == old(registrar.runs) + if old(record.finalityCheck) then []
      else old(Callbacks(record.contents, Some(result)))
    ensures if old(record.finalityCheck) then record.contents == old(record.contents)
      else Told(old(record.contents), record.contents, Some(result))
  {
    StatusTells(record.contents, Some(result), None, now);
    var response, _, _ := store.Pending(record);
    if response.None? || response.value.txID != result.txID { return None; }
    var locked := record.TryLockFinality();
    if !locked { return None; }
    err := RecordFinality(store, registrar, record, Some(result), now);
    record.UnlockFinality();
  }

  /** The callbacks of a refresh so far: those of the records visited, in order. */
  ghost function RefreshRuns(batch: seq<Record>, free: set<Record>, before: map<Record, Contents>, result: Status)
    : seq<Lifecycle.Definition>
    requires forall r | r in batch :: r in before
  {
    if batch == [] then []
    else
      var last := batch[|batch| - 1];
      RefreshRuns(batch[..|batch| - 1], free, before, result) + RunsOfRefresh(last, free, before, result)
  }

  /**
   * Every pending record of the transaction whose lock is free records the
   * result and runs its callback if it has to; no other record changes.
   */
  method RefreshObservedFinality(store: Store, registrar: Registrar, batch: seq<Record>, result: Status, now: nat,
                                 ghost due: set<Record>)
    returns (ghost free: set<Record>, ghost before: map<Record, Contents>, ghost after: map<Record, Contents>)
    requires store.Valid() && NoDup(batch) && due == Elems(batch) && due <= store.begun
    modifies store`records, registrar`runs, due
    ensures forall r | r in due :: r in before && before[r] == old(r.contents) && (r in free <==> !old(r.finalityCheck))
    ensures store.Valid() && Lock(due, free) && Contain(due, after)
      && Refreshed(batch, free, before, after, result, now)
    ensures registrar.runs == old(registrar.runs) + RefreshRuns(batch, free, before, result)
    ensures forall r | r in due ::
      if r in free then Told(before[r], r.contents, Some(result)) else r.contents == before[r]
  {
    free, before := set r | r in due && !r.finalityCheck, map r | r in due :: r.contents;
    after := before;
    ghost var start, ran := registrar.runs, [];
    for i := 0 to |batch|
      invariant store.Valid() && Lock(due, free) && Contain(due, after) && registrar.runs == start + ran
      invariant Visited(batch, i, free, before, after, ran, result, now)
    {
      VisitedSoFar(batch, i, due, free, before, after, ran, result, now);
      ghost var more := RunsOfRefresh(batch[i], free, before, result);
      var err := RefreshAt(store, registrar, batch[i], result, now, due, free, before, after);
      Associative(start, ran, more);
      VisitedNext(batch, i, free, before, after, ran, result, err, now);
      after, ran := after[batch[i] := AfterRefresh(batch[i], free, before, result, err, now)], ran + more;
    }
    VisitedAll(batch, free, before, after, ran, result, now);
    forall r | r in due && r in free ensures Told(before[r], r.contents, Some(result)) {
      BecomesTold(before[r], after[r], Some(result), now);
    }
  }

  ghost function AfterRefresh(r: Record, free: set<Record>, before: map<Record, Contents>, result: Status,
                              err: Option<string>, now: nat): Contents
    requires r in before
  {
    if r in free then AfterStatus(before[r], Some(result), err, now) else before[r]
  }

  ghost function RunsOfRefresh(r: Record, free: set<Record>, before: map<Record, Contents>, result: Status)
    : seq<Lifecycle.Definition>
    requires r in before
  {
    if r in free then Callbacks(before[r], Some(result)) else []
  }

  method RefreshAt(store: Store, registrar: Registrar, record: Record, result: Status, now: nat, ghost due: set<Record>,
                   ghost free: set<Record>, ghost before: map<Record, Contents>, ghost after: map<Record, Contents>)
    returns (err: Option<string>)
    requires store.Valid() && due <= store.begun && Lock(due, free) && Contain(due, after)
    requires record in due && record in before && record in after && after[record] == before[record]
    modifies store`records, registrar`runs, record
    ensures store.Valid() && Lock(due, free)
    ensures Contain(due, after[record := AfterRefresh(record, free, before, result, err, now)])
    ensures registrar.runs == old(registrar.runs) + RunsOfRefresh(record, free, before, result)
  {
    err := RefreshOne(store, registrar, record, result, now);
  }

  ghost predicate Lock(due: set<Record>, free: set<Record>)
    reads due`finalityCheck
  {
    forall r | r in due :: r.finalityCheck <==> r !in free
  }

  ghost predicate Contain(due: set<Record>, contents: map<Record, Contents>)
    reads due`contents
  {
    forall r | r in due :: r in contents && contents[r] == r.contents
  }

  /** The records as they are after these were visited. */
  ghost predicate Refreshed(visited: seq<Record>, free: set<Record>, before: map<Record, Contents>,
                            after: map<Record, Contents>, result: Status, now: nat) {
    && after.Keys == before.Keys && (forall r | r in visited :: r in before)
    && (forall r | r in before && !(r in free && r in visited) :: after[r] == before[r])
    && (forall r | r in before && r in free && r in visited :: Becomes(before[r], after[r], Some(result), now))
  }

  /** What a refresh did for the first i records of its batch. */
  ghost predicate Visited(batch: seq<Record>, i: nat, free: set<Record>, before: map<Record, Contents>,
                          after: map<Record, Contents>, ran: seq<Lifecycle.Definition>, result: Status, now: nat) {
    && NoDup(batch) && i <= |batch| && (forall r | r in batch :: r in before)
    && Refreshed(batch[..i], free, before, after, result, now) && ran == RefreshRuns(batch[..i], free, before, result)
  }

  lemma VisitedSoFar(batch: seq<Record>, i: nat, due: set<Record>, free: set<Record>, before: map<Record, Contents>,
                     after: map<Record, Contents>, ran: seq<Lifecycle.Definition>, result: Status, now: nat)
    requires i < |batch| && Visited(batch, i, free, before, after, ran, result, now) && due == Elems(batch)
    ensures batch[i] in due && batch[i] in before && batch[i] in after && after[batch[i]] == before[batch[i]]
  {
    NextOfBatch(batch, i);
  }

  lemma {:induction false} VisitedAll(batch: seq<Record>, free: set<Record>, before: map<Record, Contents>,
                                      after: map<Record, Contents>,
                   ran: seq<Lifecycle.Definition>, result: Status, now: nat)
    requires Visited(batch, |batch|, free, before, after, ran, result, now)
    ensures Refreshed(batch, free, before, after, result, now) && ran == RefreshRuns(batch, free, before, result)
  {
    assert batch[..|batch|] == batch;
  }

  lemma RefreshedNext(batch: seq<Record>, i: nat, free: set<Record>, before: map<Record, Contents>,
                      after: map<Record, Contents>, result: Status, err: Option<string>, now: nat)
    requires NoDup(batch) && i < |batch| && Refreshed(batch[..i], free, before, after, result, now)
      && batch[i] in before
    ensures Refreshed(batch[..i + 1], free, before,
                      after[batch[i] := AfterRefresh(batch[i], free, before, result, err, now)],
                      result, now)
  {
    NextOfBatch(batch, i);
    var record, next := batch[i], after[batch[i] := AfterRefresh(batch[i], free, before, result, err, now)];
    forall r | r in before && r in free && r in batch[..i + 1] ensures Becomes(before[r], next[r], Some(result), now) {
      if r == record {
        assert next[r] == AfterStatus(before[r], Some(result), err, now);
      }
    }
  }

  lemma {:induction false} RefreshRunsNext(batch: seq<Record>, i: nat, free: set<Record>, before: map<Record, Contents>,
                                           result: Status)
    requires i < |batch| && forall r | r in batch :: r in before
    ensures RefreshRuns(batch[..i + 1], free, before, result) ==
      RefreshRuns(batch[..i], free, before, result) + RunsOfRefresh(batch[i], free, before, result)
  {
    assert batch[..i + 1][..i] == batch[..i];
  }

  lemma VisitedNext(batch: seq<Record>, i: nat, free: set<Record>, before: map<Record, Contents>,
                    after: map<Record, Contents>, ran: seq<Lifecycle.Definition>, result: Status,
                    err: Option<string>, now: nat)
    requires i < |batch| && Visited(batch, i, free, before, after, ran, result, now)
    ensures Visited(batch, i + 1, free, before,
                    after[batch[i] := AfterRefresh(batch[i], free, before, result, err, now)],
                    ran + RunsOfRefresh(batch[i], free, before, result), result, now)
  {
    RefreshedNext(batch, i, free, before, after, result, err, now);
    RefreshRunsNext(batch, i, free, before, result);
  }
}
