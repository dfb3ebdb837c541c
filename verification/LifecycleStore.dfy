/**
 * The local mirror of the lifecycle ledger: one row per chaincode, changed by a
 * SELECT followed by a guarded UPSERT
 * (compatibility_service/pkg/lifecycle/store.go:352-423, 470-483).
 */
module LifecycleStore {
  import opened Common
  import opened LifecycleLedger

  type Table = map<string, Committed>

  function RowOf(table: Table, name: string): Option<Committed> {
    if name in table then Some(table[name]) else None
  }

  /**
   * The row a guarded UPSERT leaves: newer sequences replace, equal revisions
   * merge their markers, the rest is ignored.
   */
  function Guarded(row: Option<Committed>, c: Committed): Committed {
    match row
    case None => c
    case Some(old') =>
      if c.definition.sequence > old'.definition.sequence then c
      else if c.definition.sequence == old'.definition.sequence
              && c.definition.version == old'.definition.version
                 && c.definition.initRequired == old'.definition.initRequired
      then Committed(c.definition, old'.initialized || c.initialized)
      else old'
  }

  /** The later of the two revisions, with the markers of both if they are the same. */
  ghost predicate Supersedes(row: Option<Committed>, c: Committed, kept: Committed) {
    && (row.None? || row.value.definition.sequence < c.definition.sequence ==> kept == c)
    && (row.Some? && row.value.definition.sequence > c.definition.sequence ==> kept == row.value)
    && (row.Some? && row.value.definition == c.definition ==>
          kept.definition == c.definition && kept.initialized == (row.value.initialized || c.initialized))
  }

  /** What the SELECT before the UPSERT decides. */
  datatype Selected = Keep(row: Committed) | Conflict | Proceed

  function Select(row: Option<Committed>, c: Committed): Selected {
    match row
    case None => Proceed
    case Some(existing) =>
      if existing.definition.sequence > c.definition.sequence then Keep(existing)
      else if existing.definition.sequence == c.definition.sequence then
        if existing.definition != c.definition then Conflict
        else if existing.initialized || existing.initialized == c.initialized then Keep(existing)
        else Proceed
      else Proceed
  }

  datatype Outcome = Hydrated(row: Committed) | Invalid | Conflicting

  class Store {
    var committed: Table

    constructor ()
      ensures committed == map[]
    {
      committed := map[];
    }

    /** Rows are stored under their own names. */
    ghost predicate Valid()
      reads this
    {
      forall name | name in committed :: committed[name].definition.name == name
    }

    method UpsertCommittedFromLedger(def: Definition, initialized: bool) returns (r: Outcome)
      requires Valid()
      modifies this
      ensures Valid()
      ensures var c, row := Committed(def, initialized), old(RowOf(committed, def.name));
        if !ValidDefinition(def) then r == Invalid && committed == old(committed)
        else if Select(row, c).Conflict? then r == Conflicting && committed == old(committed)
        else r == Hydrated(Guarded(row, c)) && committed == old(committed)[def.name := Guarded(row, c)]
      ensures r == Invalid <==> def.name == "" || def.version == "" || def.sequence <= 0
      ensures r == Conflicting <==>
        && r != Invalid && def.name in old(committed) && old(committed)[def.name].definition != def
        && old(committed)[def.name].definition.sequence == def.sequence
      ensures !r.Hydrated? ==> committed == old(committed)
      ensures r.Hydrated? ==>
        && committed == old(committed)[def.name := r.row]
        && Supersedes(old(RowOf(committed, def.name)), Committed(def, initialized), r.row)
    {
      if !ValidDefinition(def) { return Invalid; }
      var decided := SelectCommitted(def, initialized);
      match decided
      case Keep(row) => return Hydrated(row);
      case Conflict => return Conflicting;
      case Proceed => r := UpsertCommitted(Committed(def, initialized));
    }

    /** The SELECT and what it decides; other requests may write before the UPSERT. */
    method SelectCommitted(def: Definition, initialized: bool) returns (decided: Selected)
      ensures decided == Select(RowOf(committed, def.name), Committed(def, initialized))
      ensures decided == Conflict <==>
        && def.name in committed && committed[def.name].definition != def
        && committed[def.name].definition.sequence == def.sequence
      ensures decided == Proceed <==> (
        || def.name !in committed || committed[def.name].definition.sequence < def.sequence
        || (committed[def.name] == Committed(def, false) && initialized))
      ensures decided.Keep? ==> def.name in committed && decided.row == committed[def.name]
    {
      if def.name in committed {
        var existing := committed[def.name];
        if existing.definition.sequence > def.sequence { return Keep(existing); }
        if existing.definition.sequence == def.sequence {
          if existing.definition != def { return Conflict; }
          if existing.initialized || existing.initialized == initialized { return Keep(existing); }
        }
      }
      return Proceed;
    }

    method UpsertCommitted(c: Committed) returns (r: Outcome)
      requires Valid()
      modifies this
      ensures Valid()
      ensures var row := old(RowOf(committed, c.definition.name));
        if !ValidDefinition(c.definition) then r == Invalid && committed == old(committed)
        else
          && committed == old(committed)[c.definition.name := Guarded(row, c)]
          && r == if Guarded(row, c).definition.sequence == c.definition.sequence
             && Guarded(row, c).definition != c.definition
                  then Conflicting else Hydrated(Guarded(row, c))
      ensures r.Hydrated? ==>
        && committed == old(committed)[c.definition.name := r.row]
        && Supersedes(old(RowOf(committed, c.definition.name)), c, r.row)
      ensures r == Conflicting <==>
        && r != Invalid && c.definition.name in old(committed)
        && old(committed)[c.definition.name].definition != c.definition
        && old(committed)[c.definition.name].definition.sequence == c.definition.sequence
      ensures r == Invalid <==> c.definition.name == "" || c.definition.version == "" || c.definition.sequence <= 0
      ensures !r.Hydrated? ==> committed == old(committed)
    {
      var def := c.definition;
      if !ValidDefinition(def) { return Invalid; }
      if def.name !in committed {
        committed := committed[def.name := c];
      } else {
        var row := committed[def.name];
        if def.sequence > row.definition.sequence
           || (def.sequence == row.definition.sequence && def.version == row.definition.version
               && def.initRequired == row.definition.initRequired)
        {
          var marker := if row.definition.sequence == def.sequence then row.initialized || c.initialized
            else c.initialized;
          committed := committed[def.name := Committed(def, marker)];
        }
      }
      var active := committed[def.name];
      if active.definition.sequence == def.sequence && active.definition != def { return Conflicting; }
      r := Hydrated(active);
    }
  }

  // ------------------------------------------------------------------------
  // Concurrent hydration of one row
  // ------------------------------------------------------------------------

  /** r holds c or something later: the lexicographic order on (sequence, initialized). */
  predicate AtLeast(row: Option<Committed>, c: Committed) {
    row.Some?
    && (row.value.definition.sequence > c.definition.sequence
        || (row.value.definition.sequence == c.definition.sequence && (c.initialized ==> row.value.initialized)))
  }

  /** Equal sequences have equal definitions: what one ledger guarantees. */
  ghost predicate OneDefinitionPerSequence(cs: set<Committed>) {
    forall c, d | c in cs && d in cs && c.definition.sequence == d.definition.sequence :: c.definition == d.definition
  }

  /** One atomic database access of some hydration: its SELECT, or the UPSERT it decided on. */
  datatype Access = SelectRow(c: Committed) | UpsertRow(c: Committed)

  /** The row after a schedule of accesses by any number of concurrent hydrations. */
  function RowAfter(row: Option<Committed>, schedule: seq<Access>): Option<Committed>
    decreases |schedule|
  {
    if schedule == [] then row
    else
      var last, before := schedule[|schedule| - 1], RowAfter(row, schedule[..|schedule| - 1]);
      if last.UpsertRow? then Some(Guarded(before, last.c)) else before
  }

  /** Every hydration that selected and decided to write did write later; repetitions are allowed. */
  ghost predicate Complete(row: Option<Committed>, schedule: seq<Access>) {
    forall i | 0 <= i < |schedule| && schedule[i].SelectRow? ::
      Select(RowAfter(row, schedule[..i]), schedule[i].c).Proceed?
      ==> exists j :: i < j < |schedule| && schedule[j] == UpsertRow(schedule[i].c)
  }

  ghost function Values(row: Option<Committed>, schedule: seq<Access>): set<Committed> {
    (if row.Some? then {row.value} else {}) + set i | 0 <= i < |schedule| :: schedule[i].c
  }

  lemma GuardedIsJoin(row: Option<Committed>, c: Committed, values: set<Committed>)
    requires OneDefinitionPerSequence(values) && c in values && (row.Some? ==> row.value in values)
    ensures Guarded(row, c) in values
    ensures AtLeast(Some(Guarded(row, c)), c)
    ensures forall d | AtLeast(row, d) :: AtLeast(Some(Guarded(row, c)), d)
    ensures forall d | AtLeast(Some(d), c) && (row.Some? ==> AtLeast(Some(d), row.value)) ::
      AtLeast(Some(d), Guarded(row, c))
  {
  }

  /** The row stays one of the hydrated values and never goes back. */
  lemma {:induction false} RowOnlyAdvances(row: Option<Committed>, schedule: seq<Access>, from: nat,
                                           values: set<Committed>)
    requires from <= |schedule| && Values(row, schedule) <= values && OneDefinitionPerSequence(values)
    ensures RowAfter(row, schedule).Some? ==> RowAfter(row, schedule).value in values
    ensures forall d | AtLeast(RowAfter(row, schedule[..from]), d) :: AtLeast(RowAfter(row, schedule), d)
    decreases |schedule|
  {
    if from == |schedule| {
      assert schedule[..from] == schedule;
    }
    if schedule != [] {
      var n := |schedule| - 1;
      var before := schedule[..n];
      assert Values(row, before) <= values by {
        forall i | 0 <= i < |before| ensures before[i].c in values { assert schedule[i].c in Values(row, schedule); }
      }
      assert schedule[n].c in Values(row, schedule);
      RowOnlyAdvances(row, before, if from <= n then from else n, values);
      if from <= n { assert before[..from] == schedule[..from]; }
      if schedule[n].UpsertRow? { GuardedIsJoin(RowAfter(row, before), schedule[n].c, values); }
    }
  }

  /**
   * Concurrent hydrations converge: whatever the interleaving of their SELECTs
   * and UPSERTs, and however often they repeat, the row ends as the
   * lexicographic maximum of its old value and everything hydrated, and no
   * SELECT sees a conflict.
   */
  lemma {:induction false} HydrationsConverge(row: Option<Committed>, schedule: seq<Access>)
    requires OneDefinitionPerSequence(Values(row, schedule)) && Complete(row, schedule)
    ensures forall c | c in Values(row, schedule) :: AtLeast(RowAfter(row, schedule), c)
    ensures RowAfter(row, schedule).Some? ==> RowAfter(row, schedule).value in Values(row, schedule)
    ensures forall i | 0 <= i < |schedule| :: !Select(RowAfter(row, schedule[..i]), schedule[i].c).Conflict?
  {
    var values := Values(row, schedule);
    RowOnlyAdvances(row, schedule, 0, values);
    assert schedule[..0] == [];
    forall i | 0 <= i < |schedule|
      ensures !Select(RowAfter(row, schedule[..i]), schedule[i].c).Conflict?
        && AtLeast(RowAfter(row, schedule), schedule[i].c)
    {
      NoConflictAt(row, schedule, i);
      AccessCovered(row, schedule, i);
    }
  }

  /** Whatever an access of a complete schedule hydrates, the final row is at least that. */
  lemma {:induction false} AccessCovered(row: Option<Committed>, schedule: seq<Access>, i: nat)
    requires OneDefinitionPerSequence(Values(row, schedule)) && Complete(row, schedule) && i < |schedule|
    ensures AtLeast(RowAfter(row, schedule), schedule[i].c)
  {
    NoConflictAt(row, schedule, i);
    if schedule[i].SelectRow? && Select(RowAfter(row, schedule[..i]), schedule[i].c).Proceed? {
      var j :| i < j < |schedule| && schedule[j] == UpsertRow(schedule[i].c);
      UpsertLasts(row, schedule, j);
    } else if schedule[i].UpsertRow? {
      UpsertLasts(row, schedule, i);
    } else {
      RowOnlyAdvances(row, schedule, i, Values(row, schedule));
    }
  }

  lemma {:induction false} NoConflictAt(row: Option<Committed>, schedule: seq<Access>, i: nat)
    requires OneDefinitionPerSequence(Values(row, schedule)) && i < |schedule|
    ensures !Select(RowAfter(row, schedule[..i]), schedule[i].c).Conflict?
    ensures Select(RowAfter(row, schedule[..i]), schedule[i].c).Keep? ==>
      AtLeast(RowAfter(row, schedule[..i]), schedule[i].c)
  {
    PrefixValues(row, schedule, i);
    RowOnlyAdvances(row, schedule[..i], 0, Values(row, schedule));
    assert schedule[i].c in Values(row, schedule);
  }

  lemma {:induction false} UpsertLasts(row: Option<Committed>, schedule: seq<Access>, j: nat)
    requires OneDefinitionPerSequence(Values(row, schedule)) && j < |schedule| && schedule[j].UpsertRow?
    ensures AtLeast(RowAfter(row, schedule), schedule[j].c)
  {
    var values := Values(row, schedule);
    PrefixValues(row, schedule, j);
    RowOnlyAdvances(row, schedule[..j], 0, values);
    assert schedule[j].c in values;
    GuardedIsJoin(RowAfter(row, schedule[..j]), schedule[j].c, values);
    assert schedule[..j + 1][..j] == schedule[..j];
    RowOnlyAdvances(row, schedule, j + 1, values);
  }

  lemma PrefixValues(row: Option<Committed>, schedule: seq<Access>, n: nat)
    requires n <= |schedule|
    ensures Values(row, schedule[..n]) <= Values(row, schedule)
  {
    forall i | 0 <= i < n
      ensures schedule[..n][i].c in Values(row, schedule) { assert schedule[i].c in Values(row, schedule); }
  }
}
