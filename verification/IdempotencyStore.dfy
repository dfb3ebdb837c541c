/**
 * The in-memory transaction records that make retries share one submission
 * (compatibility_service/pkg/orchestrator/idempotency.go).
 */
module IdempotencyStore {
  import opened Common
  import Lifecycle = LifecycleLedger

  datatype RecordState = InProgress | Executed | Submitted | Completed | Failed

  datatype Response = Response(
    idempotencyKey: string, txID: string, payload: string, event: Option<string>,
    submitted: bool, finalityPending: bool, commitStatus: string, blockNum: nat, txNum: nat)

  /**
   * The contents of one record. The callback is represented by the definition
   * whose initialization it marks; submittedClosed and doneClosed say which of
   * the record's channels were closed.
   */
  datatype Contents = Contents(
    digest: string, state: RecordState, helperTxID: string, response: Response, err: Option<string>, updatedAt: nat,
    afterCommit: Option<Lifecycle.Definition>, event: Option<string>, submittedClosed: bool, doneClosed: bool)

  const NO_RESPONSE := Response("", "", "", None, false, false, "", 0, 0)

  function NewContents(digest: string, now: nat): Contents {
    Contents(digest, InProgress, "", NO_RESPONSE, None, now, None, None, false, false)
  }

  predicate Unsubmitted(c: Contents) {
    c.state == InProgress || c.state == Executed
  }

  /** Begun and not yet terminal. */
  predicate Live(c: Contents) {
    Unsubmitted(c) || c.state == Submitted
  }

  /** Each channel is closed exactly by the transition it announces. */
  predicate ChannelsFit(c: Contents) {
    && (Unsubmitted(c) ==> !c.submittedClosed && !c.doneClosed)
    && (c.state == Submitted ==> c.submittedClosed && !c.doneClosed)
    && (!Live(c) ==> c.doneClosed)
  }

  function AfterExecuted(c: Contents, helperTxID: string, now: nat): Contents {
    c.(helperTxID := helperTxID, state := Executed, updatedAt := now)
  }

  function AfterSubmission(c: Contents, response: Response, event: Option<string>,
                           afterCommit: Option<Lifecycle.Definition>,
                           err: Option<string>, now: nat): Contents
  {
    if !Unsubmitted(c) then c
    else c.(response := response.(finalityPending := true), err := err, event := event, afterCommit := afterCommit,
            state := Submitted, updatedAt := now, submittedClosed := true)
  }

  function AfterCompletion(c: Contents, response: Response, err: Option<string>, now: nat): Contents {
    if !Unsubmitted(c) then c
    else c.(response := response, err := err, state := if err.Some? then Failed
            else Completed, updatedAt := now, doneClosed := true)
  }

  function AfterFinality(c: Contents, response: Response, err: Option<string>, now: nat): Contents {
    if c.state != Submitted || response.commitStatus == "" then c
    else c.(response := response.(finalityPending := false), err := err, state := Completed, updatedAt := now,
            afterCommit := None, event := None, doneClosed := true)
  }

  class Record {
    const key: string
    var contents: Contents
    var finalityCheck: bool   // the one-slot finality lock is taken

    constructor (key: string, digest: string, now: nat)
      ensures this.key == key && contents == NewContents(digest, now) && !finalityCheck
      ensures contents.state == InProgress && contents.digest == digest && contents.updatedAt == now
      ensures contents.err.None? && contents.afterCommit.None? && contents.event.None? && contents.helperTxID == ""
      ensures !contents.response.submitted && !contents.response.finalityPending
        && contents.response.commitStatus == "" && contents.response.txID == ""
    {
      this.key := key;
      contents := NewContents(digest, now);
      finalityCheck := false;
    }

    method TryLockFinality() returns (locked: bool)
      modifies this`finalityCheck
      ensures finalityCheck && locked == !old(finalityCheck)
    {
      if finalityCheck { return false; }
      finalityCheck := true;
      return true;
    }

    method UnlockFinality()
      requires finalityCheck
      modifies this`finalityCheck
      ensures !finalityCheck
    {
      finalityCheck := false;
    }

    /** Closing a closed channel would panic. */
    method CloseSubmitted()
      requires !contents.submittedClosed
      modifies this`contents
      ensures contents == old(contents).(submittedClosed := true)
    {
      contents := contents.(submittedClosed := true);
    }

    method CloseDone()
      requires !contents.doneClosed
      modifies this`contents
      ensures contents == old(contents).(doneClosed := true)
    {
      contents := contents.(doneClosed := true);
    }
  }

  class Store {
    var records: map<string, Record>
    ghost var begun: set<Record>

    /** The map holds exactly the begun records that are not terminal, under their own keys. */
    ghost predicate Valid()
      reads this, begun`contents
    {
      && (forall key | key in records ::
          records[key] in begun && records[key].key == key && Live(records[key].contents))
      && (forall r | r in begun ::
          ChannelsFit(r.contents) && (Live(r.contents) ==> r.key in records && records[r.key] == r))
    }

    constructor ()
      ensures Valid() && records == map[] && begun == {}
    {
      records := map[];
      begun := {};
    }

    method Existing(key: string, digest: string) returns (record: Option<Record>, conflict: bool)
      requires Valid()
      ensures conflict == (key in records && records[key].contents.digest != digest)
      ensures !conflict ==> record == if key in records then Some(records[key]) else None
    {
      if key in records && records[key].contents.digest != digest { return None, true; }
      return if key in records then Some(records[key]) else None, false;
    }

    method Begin(key: string, digest: string, now: nat) returns (record: Option<Record>, first: bool)
      requires Valid()
      modifies this
      ensures Valid()
      ensures record.None? <==>
        key == "" || digest == "" || (key in old(records) && old(records[key].contents).digest != digest)
      ensures first <==> record.Some? && key !in old(records)
      ensures first ==>
        fresh(record.value) && record.value.key == key && record.value.contents == NewContents(digest, now)
                        && records == old(records)[key := record.value] && begun == old(begun) + {record.value}
      ensures first ==> record.value.contents.state == InProgress && record.value.contents.digest == digest
      ensures !first ==> records == old(records) && begun == old(begun)
      ensures record.Some? && !first ==> record.value == old(records[key])
    {
      if key == "" || digest == "" { return None, false; }
      if key in records {
        if records[key].contents.digest != digest { return None, false; }
        return Some(records[key]), false;
      }
      var fresh' := new Record(key, digest, now);
      records := records[key := fresh'];
      begun := begun + {fresh'};
      return Some(fresh'), true;
    }

    /**
     * There is no state guard here: the store stays consistent exactly when the
     * record was not yet submitted or finished, which only the order of calls by
     * the record's owner provides.
     */
    method MarkExecuted(record: Record, helperTxID: string, now: nat)
      requires Valid() && record in begun
      modifies record`contents
      ensures record.contents == AfterExecuted(old(record.contents), helperTxID, now)
      ensures Valid() <==> Unsubmitted(old(record.contents))
      ensures var before, after := old(record.contents), record.contents;
        && after.state == Executed && after.helperTxID == helperTxID && after.updatedAt == now
        && after == before.(state := after.state, helperTxID := after.helperTxID, updatedAt := after.updatedAt)
    {
      record.contents := record.contents.(helperTxID := helperTxID, state := Executed, updatedAt := now);
    }

    method MarkSubmission(record: Record, response: Response, event: Option<string>,
                          afterCommit: Option<Lifecycle.Definition>, err: Option<string>, now: nat)
      requires Valid() && record in begun
      modifies record`contents
      ensures Valid()
      ensures record.contents == AfterSubmission(old(record.contents), response, event, afterCommit, err, now)
      ensures var before, after := old(record.contents), record.contents;
        if before.state == InProgress || before.state == Executed then
          && after.state == Submitted && after.submittedClosed && !after.doneClosed
          && after.response == response.(finalityPending := true) && after.err == err && after.event == event
          && after.afterCommit == afterCommit && after.updatedAt == now && after.digest == before.digest
          && after.helperTxID == before.helperTxID
        else after == before
    {
      var c := record.contents;
      if c.state == Submitted || c.state == Completed || c.state == Failed { return; }
      record.contents := c.(response := response.(finalityPending := true), err := err, event := event,
                            afterCommit := afterCommit, state := Submitted, updatedAt := now);
      record.CloseSubmitted();
    }

    method Complete(record: Record, response: Response, err: Option<string>, now: nat)
      requires Valid() && record in begun
      modifies this`records, record`contents
      ensures Valid()
      ensures record.contents == AfterCompletion(old(record.contents), response, err, now)
      ensures var before, after := old(record.contents), record.contents;
        if before.state == InProgress || before.state == Executed then
          && after.state == (if err == None then Completed else Failed) && after.doneClosed && !after.submittedClosed
          && after.response == response && after.err == err && after.event == before.event
          && after.afterCommit == before.afterCommit && after.updatedAt == now && after.digest == before.digest
          && after.helperTxID == before.helperTxID
        else after == before
      ensures records == if Unsubmitted(old(record.contents)) then old(records) - {record.key} else old(records)
    {
      var c := record.contents;
      if c.state == Submitted || c.state == Completed || c.state == Failed { return; }
      record.contents := c.(response := response, err := err, updatedAt := now, state := if err.Some? then Failed
                            else Completed);
      record.CloseDone();
      Remove(record);
    }

    method Pending(record: Record)
      returns (response: Option<Response>, event: Option<string>, afterCommit: Option<Lifecycle.Definition>)
      requires Valid() && record in begun
      ensures response.Some? <==> record.contents.state == Submitted
      ensures response.Some? ==> response.value == record.contents.response && event == record.contents.event
                                 && afterCommit == record.contents.afterCommit
    {
      if record.contents.state != Submitted { return None, None, None; }
      return Some(record.contents.response), record.contents.event, record.contents.afterCommit;
    }

    method ConfirmFinality(record: Record, response: Response, err: Option<string>, now: nat)
      requires Valid() && record in begun
      modifies this`records, record`contents
      ensures Valid()
      ensures record.contents == AfterFinality(old(record.contents), response, err, now)
      ensures var before, after := old(record.contents), record.contents;
        if before.state == Submitted && response.commitStatus != "" then
          && after.state == Completed && after.doneClosed && after.submittedClosed
          && after.response == response.(finalityPending := false) && after.err == err && after.event.None?
          && after.afterCommit.None? && after.updatedAt == now && after.digest == before.digest
          && after.helperTxID == before.helperTxID
        else after == before
      ensures records == if old(record.contents).state == Submitted && response.commitStatus != ""
                         then old(records) - {record.key} else old(records)
    {
      var c := record.contents;
      if c.state != Submitted || response.commitStatus == "" { return; }
      record.contents := c.(response := response.(finalityPending := false), err := err, state :=
                            Completed, updatedAt := now,
                            afterCommit := None, event := None);
      record.CloseDone();
      Remove(record);
    }

    /** A cleanup by an old caller leaves a newer record under the same key alone. */
    method Remove(record: Record)
      modifies this`records
      ensures records == if record.key in old(records) && old(records)[record.key] == record
                         then old(records) - {record.key} else old(records)
    {
      if record.key in records && records[record.key] == record {
        records := records - {record.key};
      }
    }

    /** Submitted records for a recovery batch, in any order, at most `limit` when that is positive. */
    method PendingRecordsBefore(limit: nat, cutoff: Option<nat>) returns (pending: seq<Record>)
      requires Valid()
      ensures NoDup(pending)
      ensures forall r | r in pending :: r in begun && Due(r, cutoff)
      ensures limit > 0 ==> |pending| <= limit
      ensures limit == 0 || |pending| < limit ==> forall r | r in begun && Due(r, cutoff) :: r in pending
    {
      pending := [];
      var keys := records.Keys;
      while keys != {}
        invariant keys <= records.Keys
        invariant NoDup(pending)
        invariant forall r | r in pending :: r in begun && Due(r, cutoff) && r.key !in keys
        invariant limit > 0 ==> |pending| < limit
        invariant forall key | key in records && key !in keys && Due(records[key], cutoff) :: records[key] in pending
        decreases keys
      {
        var key :| key in keys;
        keys := keys - {key};
        var record := records[key];
        if record.contents.state == Submitted && (cutoff.None? || record.contents.updatedAt <= cutoff.value) {
          pending := pending + [record];
          if limit > 0 && |pending| == limit { return; }
        }
      }
    }

    static ghost predicate Due(r: Record, cutoff: Option<nat>)
      reads r
    {
      r.contents.state == Submitted && (cutoff.None? || r.contents.updatedAt <= cutoff.value)
    }

    /** What a caller that holds the record is told once it stops waiting. */
    method WaitResult(record: Record, waitErr: Option<string>) returns (out: Response, err: Option<string>)
      requires Valid() && record in begun
      ensures var pending := record.contents.state == Submitted || record.contents.response.finalityPending;
        out == record.contents.response.(idempotencyKey := record.key, finalityPending := pending)
      ensures record.contents.state == Submitted ==> err.None?
      ensures !Live(record.contents) ==> err == record.contents.err
      ensures Unsubmitted(record.contents) ==> err == waitErr
    {
      out := record.contents.response.(idempotencyKey := record.key);
      match record.contents.state
      case Submitted => return out.(finalityPending := true), None;
      case Completed => return out, record.contents.err;
      case Failed => return out, record.contents.err;
      case _ => return out, waitErr;
    }

    /** Whether ordering is known to have the transaction. */
    method SubmissionOutcome(record: Record) returns (submitted: bool, err: Option<string>)
      requires Valid() && record in begun
      ensures submitted == record.contents.response.submitted
      ensures err == if submitted && record.contents.state != Submitted then None else record.contents.err
    {
      if record.contents.state == Submitted { return record.contents.response.submitted, record.contents.err; }
      if record.contents.response.submitted { return true, None; }
      return false, record.contents.err;
    }
  }
}
