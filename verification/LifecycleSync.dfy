/**
 * Replaying the append-only lifecycle index into the local mirror while the
 * ledger may keep advancing (compatibility_service/pkg/orchestrator/lifecycle_sync.go:12-74).
 */
module LifecycleSync {
  import opened Common
  import opened LifecycleLedger
  import opened LifecycleStore

  datatype SyncResult =
    | Synced
    | BadWatermark
    | MissingEntry(number: int)
    | BadEntry(number: int)
    | EntryMismatch(number: int)
    | MissingDefinition(number: int)
    | BadDefinition(number: int)
    | DefinitionMismatch(number: int)
    | HydrationFailed(number: int)

  /** The ledger as seen by successive reads; it only evolves as lifecycle transactions let it. */
  ghost predicate LedgerHistory(view: nat -> Ledger, abs: nat -> Channels) {
    && (forall t: nat :: Represents(view(t), abs(t)) && WellFormedChannels(abs(t)))
    && (forall s: nat, t: nat | s <= t :: Evolves(abs(s), abs(t)))
  }

  /** Every local row was on the ledger at some time: no mirror is ahead of it. */
  ghost predicate NotAhead(table: Table, a: Channels, channel: string) {
    forall name | name in table ::
      table[name].definition.name == name && Recorded(Revisions(a, channel, name), table[name])
  }

  lemma NotAheadStays(table: Table, a: Channels, b: Channels, channel: string)
    requires NotAhead(table, a, channel) && Evolves(a, b)
    ensures NotAhead(table, b, channel)
  {
    forall name | name in table ensures Recorded(Revisions(b, channel, name), table[name]) {
      RecordedStays(a, b, channel, table[name]);
    }
  }

  /** No row goes back. */
  ghost predicate Advances(before: Table, after: Table) {
    forall name | name in before :: AtLeast(RowOf(after, name), before[name])
  }

  /**
   * Hydrating with anything that was on the ledger meets no conflict, stays
   * within the ledger and never moves a row back.
   */
  lemma HydrateWithRecorded(table: Table, a: Channels, channel: string, c: Committed)
    requires NotAhead(table, a, channel) && WellFormedChannels(a)
    requires Recorded(Revisions(a, channel, c.definition.name), c)
    ensures var row := RowOf(table, c.definition.name);
      var kept := Guarded(row, c);
      && ValidDefinition(c.definition) && !Select(row, c).Conflict? && (Select(row, c).Keep? ==> AtLeast(row, c))
      && (kept.definition.sequence == c.definition.sequence ==> kept.definition == c.definition)
      && NotAhead(table[c.definition.name := kept], a, channel)
      && Advances(table, table[c.definition.name := kept]) && AtLeast(Some(kept), c)
  {
    assert RevisionChain(c.definition.name, Revisions(a, channel, c.definition.name));
  }

  /** What other requests do to the mirror at time t: hydrate it from the ledger of that time. */
  ghost predicate Hydrates(others: (nat, Table) -> Table, abs: nat -> Channels, channel: string) {
    forall t, table {:trigger others(t, table)} :: NotAhead(table, abs(t), channel) ==>
      NotAhead(others(t, table), abs(t), channel) && Advances(table, others(t, table))
  }

  /**
   * syncLifecycleFromLedger. Between any two accesses to ledger or mirror the
   * ledger may advance and other requests may hydrate the mirror. The loop
   * counter is an unsigned 64-bit number.
   */
  method SyncFromLedger(store: Store, channel: string, view: nat -> Ledger, others: (nat, Table) -> Table,
                        ghost abs: nat -> Channels)
    returns (r: SyncResult, ghost end: nat)
    requires LedgerHistory(view, abs) && Hydrates(others, abs, channel) && channel != ""
    requires store.Valid() && NotAhead(store.committed, abs(0), channel)
    modifies store
    ensures r == if |Index(abs(0), channel)| < MAX_UINT64 then Synced else MissingEntry(0)
    ensures store.Valid() && NotAhead(store.committed, abs(end), channel)
      && Advances(old(store.committed), store.committed)
    ensures forall name :: CaughtUp(store.committed, abs(0), channel, name)
    ensures (forall t :: abs(t) == abs(0)) ==>
      forall name :: RowOf(store.committed, name) == Active(abs(0), channel, name)
  {
    var now: nat := 0;
    var watermarkRow := Lookup(view(now), WatermarkKey(channel));
    WatermarkAt(view(now), abs(now), channel);
    end := now;
    if watermarkRow.None? {
      NothingToReplay(store.committed, abs(0), channel);
      return Synced, end;
    }
    var highWatermark := DecodeWatermark(watermarkRow.value.value);
    if highWatermark.None? { return BadWatermark, end; }
    r, end := ReplayIndex(store, channel, highWatermark.value, view, others, abs);
    FinishReplay(store.committed, abs, channel, end);
  }

  /** The loop over the index entries up to the watermark. */
  method ReplayIndex(store: Store, channel: string, highWatermark: nat, view: nat -> Ledger,
                     others: (nat, Table) -> Table,
                     ghost abs: nat -> Channels) returns (r: SyncResult, now: nat)
    requires LedgerHistory(view, abs) && Hydrates(others, abs, channel) && channel != ""
    requires store.Valid() && NotAhead(store.committed, abs(0), channel)
    requires highWatermark == |Index(abs(0), channel)| <= MAX_UINT64
    modifies store
    ensures r == if highWatermark < MAX_UINT64 then Synced else MissingEntry(0)
    ensures store.Valid() && NotAhead(store.committed, abs(now), channel)
      && Advances(old(store.committed), store.committed)
    ensures ReplayedTo(store.committed, abs(0), channel, highWatermark)
  {
    ghost var initial := store.committed;
    now := 0;
    var i: nat := 1;
    while i <= highWatermark
      invariant i <= MAX_UINT64 && i <= highWatermark + 1 && (i == 0 ==> highWatermark == MAX_UINT64)
      invariant store.Valid() && NotAhead(store.committed, abs(now), channel) && Advances(initial, store.committed)
      invariant ReplayedTo(store.committed, abs(0), channel, if i == 0 then highWatermark else i - 1)
      decreases if i == 0 then 0 else highWatermark + 2 - i
    {
      ghost var before := store.committed;
      r, now := ReplayEntry(store, channel, i, now, view, others, abs);
      AdvancesTrans(initial, before, store.committed);
      if r != Synced { return; }
      i := if i == MAX_UINT64 then 0 else i + 1;
    }
    return Synced, now;
  }

  /** One index entry: the entry, the definition it points to, the SELECT and the UPSERT happen one after the other. */
  method ReplayEntry(store: Store, channel: string, i: nat, start: nat, view: nat -> Ledger,
                     others: (nat, Table) -> Table,
                     ghost abs: nat -> Channels) returns (r: SyncResult, now: nat)
    requires LedgerHistory(view, abs) && Hydrates(others, abs, channel) && channel != ""
      && i <= |Index(abs(0), channel)|
    requires store.Valid() && NotAhead(store.committed, abs(start), channel)
    requires ReplayedTo(store.committed, abs(0), channel, if i == 0 then |Index(abs(0), channel)| else i - 1)
    modifies store
    ensures r == if i == 0 then MissingEntry(0) else Synced
    ensures start <= now && store.Valid() && NotAhead(store.committed, abs(now), channel)
    ensures Advances(old(store.committed), store.committed)
    ensures ReplayedTo(store.committed, abs(0), channel, if i == 0 then |Index(abs(0), channel)| else i)
  {
    now := start + 1;
    var entryRow := Lookup(view(now), IndexKey(channel, i));
    EntryAt(view(now), abs(0), abs(now), channel, i);
    if entryRow.None? {
      NotAheadStays(store.committed, abs(start), abs(now), channel);
      return MissingEntry(i), now;
    }
    var entry := DecodeIndexEntry(entryRow.value.value);
    if entry.None? { return BadEntry(i), now; }
    if entry.value.channel != channel || entry.value.number != i { return EntryMismatch(i), now; }
    var name := entry.value.committed.definition.name;

    now := now + 1;
    var definitionRow := Lookup(view(now), entry.value.definitionKey);
    DefinitionAt(view(now), abs(0), abs(now), channel, i);
    if definitionRow.None? { return MissingDefinition(i), now; }
    var record := DecodeDefinition(definitionRow.value.value);
    if record.None? { return BadDefinition(i), now; }
    if record.value.channel != channel
        || record.value.committed.definition.name != name { return DefinitionMismatch(i), now; }

    var active := record.value.committed;
    ghost var before := store.committed;
    ActiveIsRecorded(abs(now), channel, active);
    ActiveCoversEarlier(abs(0), abs(now), channel, active);
    NotAheadStays(store.committed, abs(start), abs(now), channel);
    var hydrated;
    hydrated, now := HydrateConcurrently(store, channel, active, now, view, others, abs);
    if !hydrated { return HydrationFailed(i), now; }
    ReplayExtends(before, store.committed, abs(0), channel, i);
    return Synced, now;
  }

  /** UpsertCommittedFromLedger with other requests writing before its SELECT and before its UPSERT. */
  method HydrateConcurrently(store: Store, channel: string, c: Committed, start: nat, view: nat -> Ledger,
                             others: (nat, Table) -> Table,
                             ghost abs: nat -> Channels) returns (hydrated: bool, now: nat)
    requires LedgerHistory(view, abs) && Hydrates(others, abs, channel)
    requires store.Valid() && NotAhead(store.committed, abs(start), channel)
    requires Recorded(Revisions(abs(start), channel, c.definition.name), c)
    modifies store
    ensures hydrated && start <= now && store.Valid() && NotAhead(store.committed, abs(now), channel)
    ensures Advances(old(store.committed), store.committed) && AtLeast(RowOf(store.committed, c.definition.name), c)
  {
    now := start + 1;
    Interfere(store, channel, c, start, now, view, others, abs);
    HydrateWithRecorded(store.committed, abs(now), channel, c);
    var decided := store.SelectCommitted(c.definition, c.initialized);
    if decided.Conflict? { return false, now; }
    if decided.Keep? { return true, now; }
    ghost var selected := store.committed;
    Interfere(store, channel, c, now, now + 1, view, others, abs);
    now := now + 1;
    HydrateWithRecorded(store.committed, abs(now), channel, c);
    AdvancesTrans(old(store.committed), selected, store.committed);
    ghost var before := store.committed;
    var outcome := store.UpsertCommitted(c);
    AdvancesTrans(old(store.committed), before, store.committed);
    return outcome.Hydrated?, now;
  }

  lemma AdvancesTrans(a: Table, b: Table, c: Table)
    requires Advances(a, b) && Advances(b, c)
    ensures Advances(a, c)
  {
    forall name | name in a ensures AtLeast(RowOf(c, name), a[name]) {
      assert AtLeast(RowOf(b, name), a[name]) && AtLeast(RowOf(c, name), b[name]);
    }
  }

  /** The ledger advances, then other requests hydrate the mirror. */
  method Interfere(store: Store, channel: string, ghost c: Committed, ghost before: nat, now: nat, view: nat -> Ledger,
                   others: (nat, Table) -> Table,
                   ghost abs: nat -> Channels)
    requires LedgerHistory(view, abs) && Hydrates(others, abs, channel) && before <= now
    requires store.Valid() && NotAhead(store.committed, abs(before), channel)
    requires Recorded(Revisions(abs(before), channel, c.definition.name), c)
    modifies store
    ensures store.Valid() && NotAhead(store.committed, abs(now), channel)
      && Advances(old(store.committed), store.committed)
    ensures WellFormedChannels(abs(now)) && Recorded(Revisions(abs(now), channel, c.definition.name), c)
  {
    RecordedStays(abs(before), abs(now), channel, c);
    NotAheadStays(store.committed, abs(before), abs(now), channel);
    store.committed := others(now, store.committed);
  }

  /** The local row is at least what was active when the replay started. */
  ghost predicate CaughtUp(table: Table, a: Channels, channel: string, name: string) {
    Active(a, channel, name).Some? ==> AtLeast(RowOf(table, name), Active(a, channel, name).value)
  }

  ghost predicate ReplayedTo(table: Table, a: Channels, channel: string, n: nat) {
    n <= |Index(a, channel)|
    && forall k | 0 <= k < n :: CaughtUp(table, a, channel, Index(a, channel)[k].committed.definition.name)
  }

  lemma ActiveIsRecorded(a: Channels, channel: string, active: Committed)
    requires WellFormedChannels(a) && Active(a, channel, active.definition.name) == Some(active)
    ensures Recorded(Revisions(a, channel, active.definition.name), active)
  {
    assert RevisionChain(active.definition.name, Revisions(a, channel, active.definition.name));
  }

  /** A revision active later covers the one active when the replay started. */
  lemma ActiveCoversEarlier(origin: Channels, a: Channels, channel: string, active: Committed)
    requires WellFormedChannels(origin) && WellFormedChannels(a) && Evolves(origin, a)
    requires Active(a, channel, active.definition.name) == Some(active)
    ensures CaughtUp(map[active.definition.name := active], origin, channel, active.definition.name)
  {
    var name := active.definition.name;
    assert RevisionsGrow(Revisions(origin, channel, name), Revisions(a, channel, name));
    assert RevisionChain(name, Revisions(origin, channel, name)) && RevisionChain(name, Revisions(a, channel, name));
  }

  /** Replaying entry i catches up its chaincode, and no advance of the mirror loses one that was caught up. */
  lemma ReplayExtends(before: Table, after: Table, origin: Channels, channel: string, i: nat)
    requires 1 <= i <= |Index(origin, channel)| && ReplayedTo(before, origin, channel, i - 1) && Advances(before, after)
    requires CaughtUp(after, origin, channel, Index(origin, channel)[i - 1].committed.definition.name)
    ensures ReplayedTo(after, origin, channel, i)
  {
    forall k | 0 <= k < i
      ensures CaughtUp(after, origin, channel, Index(origin, channel)[k].committed.definition.name) {
      assert k < i - 1 ==> CaughtUp(before, origin, channel, Index(origin, channel)[k].committed.definition.name);
    }
  }

  /** All entries replayed: caught up with every name, and equal to the ledger if it did not move. */
  lemma FinishReplay(table: Table, abs: nat -> Channels, channel: string, now: nat)
    requires WellFormedChannels(abs(0)) && channel in abs(0) && NotAhead(table, abs(now), channel)
    requires ReplayedTo(table, abs(0), channel, |Index(abs(0), channel)|)
    ensures forall name :: CaughtUp(table, abs(0), channel, name)
    ensures (forall t :: abs(t) == abs(0)) ==> forall name :: RowOf(table, name) == Active(abs(0), channel, name)
  {
    ReplayCoversAll(table, abs(0), channel);
    if abs(now) == abs(0) {
      CaughtUpIsEqual(table, abs(0), channel);
    }
  }

  lemma NothingToReplay(table: Table, a: Channels, channel: string)
    requires WellFormedChannels(a) && Index(a, channel) == [] && NotAhead(table, a, channel)
    ensures forall name :: Active(a, channel, name).None? && RowOf(table, name).None?
  {
    forall name ensures Revisions(a, channel, name) == [] {
      assert channel in a ==> HasEntry(a, channel, name) || Revisions(a, channel, name) == [];
    }
  }

  lemma WatermarkAt(ledger: Ledger, a: Channels, channel: string)
    requires Represents(ledger, a) && WellFormedChannels(a)
    ensures var row := Lookup(ledger, WatermarkKey(channel));
            if Index(a, channel) == [] then row.None?
            else channel in a && row.Some? && DecodeWatermark(row.value.value) == Some(|Index(a, channel)|)
  {
    var key := WatermarkKey(channel);
    assert Prescribed(a, key) == if key in ledger then Some(ledger[key].value) else None;
  }

  lemma EntryAt(ledger: Ledger, old': Channels, a: Channels, channel: string, i: nat)
    requires Represents(ledger, a) && WellFormedChannels(old') && Evolves(old', a)
    requires channel != "" && i <= |Index(old', channel)|
    ensures var row := Lookup(ledger, IndexKey(channel, i));
            if i == 0 then row.None?
            else row.Some? && DecodeIndexEntry(row.value.value) == Some(Index(old', channel)[i - 1])
                 && EntryOf(old', channel, i, Index(old', channel)[i - 1])
  {
    var key := IndexKey(channel, i);
    if i == 0 {
      assert Prescribed(a, key) == None;
      return;
    }
    assert channel in old' && IndexCovers(old', channel);
    assert EntryOf(old', channel, i, Index(old', channel)[i - 1]);
    assert RevisionChain(Index(old', channel)[i - 1].committed.definition.name,
                         Revisions(old', channel, Index(old', channel)[i - 1].committed.definition.name));
    assert Index(old', channel) <= Index(a, channel);
    assert Prescribed(a, key) == if key in ledger then Some(ledger[key].value) else None;
  }

  lemma DefinitionAt(ledger: Ledger, old': Channels, a: Channels, channel: string, i: nat)
    requires Represents(ledger, a) && WellFormedChannels(old') && WellFormedChannels(a) && Evolves(old', a)
    requires channel != "" && 1 <= i <= |Index(old', channel)|
    requires EntryOf(old', channel, i, Index(old', channel)[i - 1])
    ensures var name := Index(old', channel)[i - 1].committed.definition.name;
            var row := Lookup(ledger, DefinitionKey(channel, name));
            && Active(a, channel, name).Some?
            && row.Some? && DecodeDefinition(row.value.value)
                  == Some(DefinitionValue(channel, Active(a, channel, name).value))
            && Active(a, channel, name).value.definition.name == name
  {
    var name := Index(old', channel)[i - 1].committed.definition.name;
    var key := DefinitionKey(channel, name);
    RecordedStays(old', a, channel, Index(old', channel)[i - 1].committed);
    assert RevisionChain(name, Revisions(a, channel, name));
    assert Prescribed(a, key) == if key in ledger then Some(ledger[key].value) else None;
  }

  lemma ReplayCoversAll(table: Table, a: Channels, channel: string)
    requires WellFormedChannels(a) && channel in a
    requires ReplayedTo(table, a, channel, |Index(a, channel)|)
    ensures forall name :: CaughtUp(table, a, channel, name)
  {
    forall name | Active(a, channel, name).Some? ensures CaughtUp(table, a, channel, name) {
      assert IndexCovers(a, channel) && HasEntry(a, channel, name);
    }
  }

  lemma CaughtUpIsEqual(table: Table, a: Channels, channel: string)
    requires WellFormedChannels(a) && NotAhead(table, a, channel)
    requires forall name :: CaughtUp(table, a, channel, name)
    ensures forall name :: RowOf(table, name) == Active(a, channel, name)
  {
    forall name ensures RowOf(table, name) == Active(a, channel, name) {
      assert CaughtUp(table, a, channel, name) && RevisionChain(name, Revisions(a, channel, name));
    }
  }
}
