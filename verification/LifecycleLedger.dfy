/**
 * Lifecycle transactions over the shared versioned ledger: each is prepared
 * from three separate reads, ordered later, and applied if its read versions
 * are still current. Every applied transaction is one atomic revision step
 * (compatibility_service/pkg/orchestrator/lifecycle_ledger.go:311-432,
 * compatibility_service/pkg/lifecycle/ledger.go,
 * compatibility_service/pkg/lifecycle/store.go:707-762).
 */
module LifecycleLedger {
  import opened Common

  const MAX_INT64 := 0x7fff_ffff_ffff_ffff
  const SCHEMA_VERSION := 2

  type int64 = x: int | -MAX_INT64 - 1 <= x <= MAX_INT64

  function WrapInt64(x: int): (r: int64) {
    (x + MAX_INT64 + 1) % (2 * (MAX_INT64 + 1)) - MAX_INT64 - 1
  }

  datatype Definition = Definition(name: string, version: string, sequence: int64, initRequired: bool)

  /** A definition with its initialization marker. */
  datatype Committed = Committed(definition: Definition, initialized: bool)

  datatype Event = CommitEvent | InitializedEvent

  predicate ValidDefinition(def: Definition) {
    def.name != "" && def.version != "" && def.sequence > 0
  }

  /** The revision rule shared by approvals and ledger commits. */
  predicate ValidNextSequence(current: Option<Definition>, next: Definition) {
    && ValidDefinition(next)
    && match current
       case None => next.sequence == 1
       case Some(active) => active.name == next.name && next.sequence == WrapInt64(active.sequence + 1)
  }

  /** No definition follows the largest sequence: the wrapped successor is never a valid sequence. */
  lemma NextSequenceNeverWraps(active: Definition, next: Definition)
    requires ValidNextSequence(Some(active), next) && ValidDefinition(active)
    ensures next.sequence == active.sequence + 1
  {
    WrapInt64Values(active.sequence);
  }

  lemma WrapInt64Values(x: int64)
    ensures WrapInt64(x + 1) == if x == MAX_INT64 then -MAX_INT64 - 1 else x + 1
  {
  }

  // ------------------------------------------------------------------------
  // Rows
  // ------------------------------------------------------------------------

  datatype Key =
    | DefinitionKey(channel: string, name: string)
    | WatermarkKey(channel: string)
    | IndexKey(channel: string, number: nat)

  datatype IndexEntry = IndexEntry(schema: int, number: nat, event: Event, definitionKey: Key, channel: string,
                                   committed: Committed)

  /** Stored bytes, up to their injective encoding. */
  datatype Value =
    | DefinitionValue(channel: string, committed: Committed)
    | WatermarkValue(watermark: nat)
    | IndexValue(entry: IndexEntry)

  datatype Row = Row(value: Value, version: nat)
  type Ledger = map<Key, Row>

  function Lookup(ledger: Ledger, key: Key): Option<Row> {
    if key in ledger then Some(ledger[key]) else None
  }

  function DecodeDefinition(value: Value): Option<Value> {
    if value.DefinitionValue? && value.channel != "" && ValidDefinition(value.committed.definition) then Some(value)
      else None
  }

  function DecodeWatermark(value: Value): Option<nat> {
    if value.WatermarkValue? && value.watermark <= MAX_UINT64 then Some(value.watermark) else None
  }

  function DecodeIndexEntry(value: Value): Option<IndexEntry> {
    if value.IndexValue?
       && value.entry.schema == SCHEMA_VERSION && value.entry.channel != ""
          && value.entry.committed.definition.name != ""
       && value.entry.definitionKey == DefinitionKey(value.entry.channel, value.entry.committed.definition.name)
    then Some(value.entry) else None
  }

  /** Which rows can be read, and as what. */
  lemma ReadableRows(value: Value)
    ensures DecodeDefinition(value).Some? <==>
      && value.DefinitionValue? && value.channel != "" && value.committed.definition.name != ""
      && value.committed.definition.version != "" && value.committed.definition.sequence >= 1
    ensures DecodeDefinition(value).Some? ==> DecodeDefinition(value).value == value
    ensures forall n: nat :: DecodeWatermark(value) == Some(n) <==>
      value == WatermarkValue(n) && n < 0x1_0000_0000_0000_0000
    ensures forall entry :: DecodeIndexEntry(value) == Some(entry) <==>
      && value == IndexValue(entry) && entry.schema == 2 && entry.channel != ""
      && entry.committed.definition.name != ""
      && entry.definitionKey == DefinitionKey(entry.channel, entry.committed.definition.name)
  {
  }

  function NewIndexEntry(channel: string, number: nat, event: Event, committed: Committed): IndexEntry {
    IndexEntry(SCHEMA_VERSION, number, event, DefinitionKey(channel, committed.definition.name), channel, committed)
  }

  // ------------------------------------------------------------------------
  // Preparing a transaction, one read at a time
  // ------------------------------------------------------------------------

  datatype Read = Read(key: Key, version: Option<nat>)
  datatype Transaction = Transaction(readSet: seq<Read>, writeSet: map<Key, Value>)

  datatype Failure = Superseded | NotActive | BadSequence | BadRecord | BadChannel | SlotTaken

  /** After reading the definition row. */
  datatype Decision =
    | Rejected(failure: Failure)
    | Proved                        // the ledger already holds the outcome: nothing to send
    | Write(committed: Committed)

  function Decide(channel: string, def: Definition, event: Event, row: Option<Row>): Decision {
    match row
    case None => DecideWrite(channel, def, event, None)
    case Some(Row(value, _)) =>
      match DecodeDefinition(value)
      case None => Rejected(BadRecord)
      case Some(record) =>
        var active := record.committed.definition;
        if record.channel != channel || active.name != def.name then Rejected(BadRecord)
        else if active.sequence > def.sequence then Rejected(Superseded)
        else if active == def && (event == CommitEvent || record.committed.initialized) then Proved
        else DecideWrite(channel, def, event, Some(active))
  }

  function DecideWrite(channel: string, def: Definition, event: Event, active: Option<Definition>): Decision {
    if event == InitializedEvent && active != Some(def) then Rejected(NotActive)
    else if event == CommitEvent && !ValidNextSequence(active, def) then Rejected(BadSequence)
    else if channel == "" || !ValidDefinition(def) then Rejected(BadChannel)
    else Write(Committed(def, event == InitializedEvent || !def.initRequired))
  }

  /** After reading the high watermark: the index slot to take (64-bit addition). */
  function NextIndex(row: Option<Row>): Option<nat> {
    match row
    case None => Some(1)
    case Some(Row(value, _)) =>
      match DecodeWatermark(value)
      case None => None
      case Some(watermark) => Some((watermark + 1) % (MAX_UINT64 + 1))
  }

  function VersionOf(row: Option<Row>): Option<nat> {
    if row.Some? then Some(row.value.version) else None
  }

  /** After finding the index slot free. */
  function Assemble(channel: string, event: Event, committed: Committed, definitionRow: Option<Row>,
                    watermarkRow: Option<Row>, next: nat): Transaction {
    var key := DefinitionKey(channel, committed.definition.name);
    Transaction(
      [Read(key, VersionOf(definitionRow)), Read(WatermarkKey(channel), VersionOf(watermarkRow)),
       Read(IndexKey(channel, next), None)],
      map[key := DefinitionValue(channel, committed),
          IndexKey(channel, next) := IndexValue(NewIndexEntry(channel, next, event, committed)),
          WatermarkKey(channel) := WatermarkValue(next)])
  }

  datatype Prepared = Failed(failure: Failure) | NothingToSend | ToSend(tx: Transaction)

  /** Preparation when all three reads see the same ledger. */
  function PrepareAtomically(ledger: Ledger, channel: string, def: Definition, event: Event): Prepared {
    var definitionRow := Lookup(ledger, DefinitionKey(channel, def.name));
    match Decide(channel, def, event, definitionRow)
    case Rejected(failure) => Failed(failure)
    case Proved => NothingToSend
    case Write(committed) =>
      var watermarkRow := Lookup(ledger, WatermarkKey(channel));
      match NextIndex(watermarkRow)
      case None => Failed(BadRecord)
      case Some(next) =>
        if IndexKey(channel, next) in ledger then Failed(SlotTaken)
        else ToSend(Assemble(channel, event, committed, definitionRow, watermarkRow, next))
  }

  // ------------------------------------------------------------------------
  // Validation and commit
  // ------------------------------------------------------------------------

  /** Every read version is the current one; an absent key has none. */
  predicate Current(ledger: Ledger, tx: Transaction) {
    forall r | r in tx.readSet :: r.version == VersionOf(Lookup(ledger, r.key))
  }

  function Apply(ledger: Ledger, tx: Transaction, version: nat): Ledger {
    ledger + map k | k in tx.writeSet :: Row(tx.writeSet[k], version)
  }

  // ------------------------------------------------------------------------
  // The abstract ledger: revisions and index entries, changed atomically
  // ------------------------------------------------------------------------

  /** revisions[name][i] is the definition with sequence i + 1. */
  datatype Channel = Channel(revisions: map<string, seq<Committed>>, index: seq<IndexEntry>)
  type Channels = map<string, Channel>

  function ChannelOf(a: Channels, channel: string): Channel {
    if channel in a then a[channel] else Channel(map[], [])
  }

  function Revisions(a: Channels, channel: string, name: string): seq<Committed> {
    var revisions := ChannelOf(a, channel).revisions;
    if name in revisions then revisions[name] else []
  }

  function Index(a: Channels, channel: string): seq<IndexEntry> {
    ChannelOf(a, channel).index
  }

  /** The revision a chaincode is on. */
  function Active(a: Channels, channel: string, name: string): Option<Committed> {
    var revisions := Revisions(a, channel, name);
    if revisions == [] then None else Some(revisions[|revisions| - 1])
  }

  /** Sequences are 1,2,3,…, every revision is valid, and one without init is initialized. */
  ghost predicate RevisionChain(name: string, revisions: seq<Committed>) {
    forall i | 0 <= i < |revisions| ::
      && ValidDefinition(revisions[i].definition)
      && revisions[i].definition.name == name
      && revisions[i].definition.sequence == i + 1
      && (revisions[i].definition.initRequired || revisions[i].initialized)
  }

  /** Entry k describes a recorded revision under its own number; every chaincode has an entry. */
  ghost predicate IndexCovers(a: Channels, channel: string) {
    && (forall k | 0 <= k < |Index(a, channel)| :: EntryOf(a, channel, k + 1, Index(a, channel)[k]))
    && (forall name {:trigger HasEntry(a, channel, name)} | Revisions(a, channel, name) != [] ::
        HasEntry(a, channel, name))
  }

  ghost predicate HasEntry(a: Channels, channel: string, name: string) {
    exists k :: 0 <= k < |Index(a, channel)| && Index(a, channel)[k].committed.definition.name == name
  }

  ghost predicate EntryOf(a: Channels, channel: string, number: nat, entry: IndexEntry) {
    var def := entry.committed.definition;
    && entry == NewIndexEntry(channel, number, entry.event, entry.committed)
    && Recorded(Revisions(a, channel, def.name), entry.committed)
  }

  /** The committed value was on the ledger at some time. */
  ghost predicate Recorded(revisions: seq<Committed>, c: Committed) {
    && 1 <= c.definition.sequence <= |revisions|
    && revisions[c.definition.sequence - 1].definition == c.definition
    && (c.initialized ==> revisions[c.definition.sequence - 1].initialized)
  }

  ghost predicate WellFormedChannels(a: Channels) {
    && (forall channel | channel in a :: channel != "" && |Index(a, channel)| <= MAX_UINT64 && IndexCovers(a, channel))
    && (forall channel, name {:trigger RevisionChain(name, Revisions(a, channel, name))} ::
          RevisionChain(name, Revisions(a, channel, name)))
  }

  /** The one row the abstract ledger prescribes for each key. */
  function Prescribed(a: Channels, key: Key): Option<Value> {
    match key
    case DefinitionKey(channel, name) =>
      var revisions := Revisions(a, channel, name);
      if revisions == [] then None else Some(DefinitionValue(channel, revisions[|revisions| - 1]))
    case WatermarkKey(channel) =>
      if Index(a, channel) == [] then None else Some(WatermarkValue(|Index(a, channel)|))
    case IndexKey(channel, number) =>
      if 1 <= number <= |Index(a, channel)| then Some(IndexValue(Index(a, channel)[number - 1])) else None
  }

  ghost predicate Represents(ledger: Ledger, a: Channels) {
    forall key :: Prescribed(a, key) == if key in ledger then Some(ledger[key].value) else None
  }

  /** The atomic effect of a lifecycle transaction. */
  function Record(a: Channels, channel: string, event: Event, committed: Committed): Channels {
    var name := committed.definition.name;
    var old' := Revisions(a, channel, name);
    var new' := if event == CommitEvent || old' == [] then old' + [committed] else old'[|old'| - 1 := committed];
    var index := Index(a, channel);
    a[channel := Channel(ChannelOf(a, channel).revisions[name := new'],
                         index + [NewIndexEntry(channel, |index| + 1, event, committed)])]
  }

  /** The revision rule on the abstract ledger: append the next sequence, or mark the active revision. */
  ghost predicate MayRecord(a: Channels, channel: string, event: Event, committed: Committed) {
    var revisions := Revisions(a, channel, committed.definition.name);
    && channel != "" && ValidDefinition(committed.definition)
    && match event
       case CommitEvent =>
         committed.definition.sequence == |revisions| + 1 && committed.initialized == !committed.definition.initRequired
       case InitializedEvent =>
         && revisions != []
         && revisions[|revisions| - 1] == Committed(committed.definition, false)
         && committed.initialized
  }

  /** Revisions are only appended, and Initialized never reverts; the index only grows. */
  ghost predicate Evolves(a: Channels, b: Channels) {
    && (forall channel, name {:trigger RevisionsGrow(Revisions(a, channel, name), Revisions(b, channel, name))} ::
          RevisionsGrow(Revisions(a, channel, name), Revisions(b, channel, name)))
    && (forall channel :: Index(a, channel) <= Index(b, channel))
  }

  ghost predicate RevisionsGrow(a: seq<Committed>, b: seq<Committed>) {
    && |a| <= |b|
    && forall i | 0 <= i < |a| :: a[i].definition == b[i].definition && (a[i].initialized ==> b[i].initialized)
  }

  lemma EvolvesRefl(a: Channels)
    ensures Evolves(a, a)
  {
  }

  lemma EvolvesTrans(a: Channels, b: Channels, c: Channels)
    requires Evolves(a, b) && Evolves(b, c)
    ensures Evolves(a, c)
  {
    forall channel, name ensures RevisionsGrow(Revisions(a, channel, name), Revisions(c, channel, name)) {
      assert RevisionsGrow(Revisions(a, channel, name), Revisions(b, channel, name));
      assert RevisionsGrow(Revisions(b, channel, name), Revisions(c, channel, name));
    }
  }

  // ------------------------------------------------------------------------
  // Commit-time atomicity
  // ------------------------------------------------------------------------

  /** What a preparation saw on a ledger that moved between its reads. */
  datatype Observation = Observation(definitionRow: Option<Row>, watermarkRow: Option<Row>)

  ghost predicate PreparedFrom(channel: string, def: Definition, event: Event, seen: Observation, tx: Transaction) {
    var decision := Decide(channel, def, event, seen.definitionRow);
    && decision.Write?
    && NextIndex(seen.watermarkRow).Some?
    && tx == Assemble(channel, event, decision.committed, seen.definitionRow, seen.watermarkRow,
                      NextIndex(seen.watermarkRow).value)
  }

  /** Key versions never repeat: rows with equal versions under one key are equal. */
  ghost predicate SameVersionSameRow(seen: Option<Row>, current: Option<Row>) {
    seen.Some? && current.Some? && seen.value.version == current.value.version ==> seen == current
  }

  /**
   * A transaction that passes read-version validation is exactly the one that
   * preparing on the commit-time ledger would produce.
   */
  lemma ValidatedIsAtomic(ledger: Ledger, channel: string, def: Definition, event: Event, seen: Observation,
                          tx: Transaction)
    requires PreparedFrom(channel, def, event, seen, tx) && Current(ledger, tx)
    requires SameVersionSameRow(seen.definitionRow, Lookup(ledger, DefinitionKey(channel, def.name)))
    requires SameVersionSameRow(seen.watermarkRow, Lookup(ledger, WatermarkKey(channel)))
    ensures PrepareAtomically(ledger, channel, def, event) == ToSend(tx)
  {
    assert tx.readSet[0] in tx.readSet && tx.readSet[1] in tx.readSet && tx.readSet[2] in tx.readSet;
    assert seen.definitionRow == Lookup(ledger, DefinitionKey(channel, def.name));
    assert seen.watermarkRow == Lookup(ledger, WatermarkKey(channel));
  }

  /** The decision read off a represented ledger is the revision rule of the abstract one. */
  lemma DecisionIsRevisionRule(ledger: Ledger, a: Channels, channel: string, def: Definition, event: Event)
    requires Represents(ledger, a) && WellFormedChannels(a)
    requires Decide(channel, def, event, Lookup(ledger, DefinitionKey(channel, def.name))).Write?
    ensures var committed := Decide(channel, def, event, Lookup(ledger, DefinitionKey(channel, def.name))).committed;
            committed.definition == def && MayRecord(a, channel, event, committed)
  {
    var key := DefinitionKey(channel, def.name);
    var revisions := Revisions(a, channel, def.name);
    assert Prescribed(a, key) == if key in ledger then Some(ledger[key].value) else None;
    assert RevisionChain(def.name, revisions);
    if revisions != [] && event == CommitEvent {
      NextSequenceNeverWraps(revisions[|revisions| - 1].definition, def);
    }
  }

  lemma SlotIsNext(ledger: Ledger, a: Channels, channel: string)
    requires Represents(ledger, a) && |Index(a, channel)| < MAX_UINT64
    ensures NextIndex(Lookup(ledger, WatermarkKey(channel))) == Some(|Index(a, channel)| + 1)
  {
    var key := WatermarkKey(channel);
    assert Prescribed(a, key) == if key in ledger then Some(ledger[key].value) else None;
  }

  /** On the commit-time ledger, the transaction is one step of the revision rule. */
  lemma AtomicPreparationRecords(ledger: Ledger, a: Channels, channel: string, def: Definition, event: Event,
                                 tx: Transaction)
    returns (committed: Committed)
    requires Represents(ledger, a) && WellFormedChannels(a) && |Index(a, channel)| < MAX_UINT64
    requires PrepareAtomically(ledger, channel, def, event) == ToSend(tx)
    ensures committed.definition == def && MayRecord(a, channel, event, committed)
    ensures forall version :: Represents(Apply(ledger, tx, version), Record(a, channel, event, committed))
  {
    committed := Decide(channel, def, event, Lookup(ledger, DefinitionKey(channel, def.name))).committed;
    DecisionIsRevisionRule(ledger, a, channel, def, event);
    SlotIsNext(ledger, a, channel);
    forall version ensures Represents(Apply(ledger, tx, version), Record(a, channel, event, committed)) {
      RecordIsApply(ledger, a, channel, event, committed, tx, version);
    }
  }

  /** The revision the operation would record. */
  function Intended(def: Definition, event: Event): Committed {
    Committed(def, event == InitializedEvent || !def.initRequired)
  }

  /**
   * What a preparation on one state of the ledger answers, in terms of the
   * recorded revisions: nothing to send exactly if the outcome is already active,
   * a transaction exactly if the revision rule allows the step, superseded exactly
   * by a larger active sequence, and otherwise the reason why the step is refused.
   */
  lemma PreparationAnswers(ledger: Ledger, a: Channels, channel: string, def: Definition, event: Event)
    requires Represents(ledger, a) && WellFormedChannels(a) && |Index(a, channel)| < MAX_UINT64
    ensures var r, active := PrepareAtomically(ledger, channel, def, event), Active(a, channel, def.name);
      && (r == NothingToSend <==>
            active.Some? && active.value.definition == def && (event == CommitEvent || active.value.initialized))
      && (r.ToSend? <==> MayRecord(a, channel, event, Intended(def, event)))
      && (r == Failed(Superseded) <==> active.Some? && active.value.definition.sequence > def.sequence)
      && (r.Failed? && r.failure != Superseded ==>
            r.failure == if event == InitializedEvent then NotActive
                         else if ValidDefinition(def) && def.sequence == |Revisions(a, channel, def.name)| + 1
                         then BadChannel else BadSequence)
  {
    DecisionAnswers(ledger, a, channel, def, event);
    SlotIsNext(ledger, a, channel);
    SlotIsFree(ledger, a, channel);
  }

  /** The same of the decision, before the slot is looked for. */
  lemma DecisionAnswers(ledger: Ledger, a: Channels, channel: string, def: Definition, event: Event)
    requires Represents(ledger, a) && WellFormedChannels(a)
    ensures var r, active := Decide(channel, def, event, Lookup(ledger, DefinitionKey(channel, def.name))),
                             Active(a, channel, def.name);
      && (r == Proved <==>
            active.Some? && active.value.definition == def && (event == CommitEvent || active.value.initialized))
      && (r.Write? <==> MayRecord(a, channel, event, Intended(def, event)))
      && (r.Write? ==> r.committed == Intended(def, event))
      && (r == Rejected(Superseded) <==> active.Some? && active.value.definition.sequence > def.sequence)
      && (r.Rejected? && r.failure != Superseded ==>
            r.failure == if event == InitializedEvent then NotActive
                         else if ValidDefinition(def) && def.sequence == |Revisions(a, channel, def.name)| + 1
                         then BadChannel else BadSequence)
  {
    DefinitionRow(ledger, a, channel, def.name);
    if Revisions(a, channel, def.name) != [] {
      WrapInt64Values(Active(a, channel, def.name).value.definition.sequence);
    }
  }

  lemma SlotIsFree(ledger: Ledger, a: Channels, channel: string)
    requires Represents(ledger, a)
    ensures IndexKey(channel, |Index(a, channel)| + 1) !in ledger
  {
    RowIsPrescribed(ledger, a, IndexKey(channel, |Index(a, channel)| + 1));
  }

  lemma RowIsPrescribed(ledger: Ledger, a: Channels, key: Key)
    requires Represents(ledger, a)
    ensures Prescribed(a, key) == if key in ledger then Some(ledger[key].value) else None
  {
  }

  /** The definition row of a represented ledger, as a preparation reads it. */
  lemma DefinitionRow(ledger: Ledger, a: Channels, channel: string, name: string)
    requires Represents(ledger, a) && WellFormedChannels(a)
    ensures var row, revisions := Lookup(ledger, DefinitionKey(channel, name)), Revisions(a, channel, name);
      if revisions == [] then row.None?
      else
        && row.Some? && channel != "" && DecodeDefinition(row.value.value) == Some(row.value.value)
        && row.value.value == DefinitionValue(channel, revisions[|revisions| - 1])
        && revisions[|revisions| - 1].definition.name == name
        && revisions[|revisions| - 1].definition.sequence == |revisions|
        && (revisions[|revisions| - 1].definition.initRequired || revisions[|revisions| - 1].initialized)
  {
    var key := DefinitionKey(channel, name);
    assert Prescribed(a, key) == if key in ledger then Some(ledger[key].value) else None;
    assert RevisionChain(name, Revisions(a, channel, name));
  }

  /** On an unchanged ledger a prepared transaction passes validation. */
  lemma PreparedIsCurrent(ledger: Ledger, channel: string, def: Definition, event: Event, tx: Transaction)
    requires PrepareAtomically(ledger, channel, def, event) == ToSend(tx)
    ensures Current(ledger, tx)
  {
  }

  /**
   * What a prepared transaction reads and writes: the definition row, the
   * watermark and the next index entry, each read at its current version and
   * written with this operation's event and definition; no other row changes.
   */
  lemma PreparedRows(ledger: Ledger, a: Channels, channel: string, def: Definition, event: Event, tx: Transaction,
                     version: nat)
    requires Represents(ledger, a) && WellFormedChannels(a) && |Index(a, channel)| < MAX_UINT64
    requires PrepareAtomically(ledger, channel, def, event) == ToSend(tx)
    ensures var n, after := |Index(a, channel)| + 1, Apply(ledger, tx, version);
      var c := Committed(def, event == InitializedEvent || !def.initRequired);
      var d, w, i := DefinitionKey(channel, def.name), WatermarkKey(channel), IndexKey(channel, n);
      && after == ledger[d := Row(DefinitionValue(channel, c), version)][w := Row(WatermarkValue(n), version)][
           i := Row(IndexValue(IndexEntry(2, n, event, d, channel, c)), version)]
      && Read(d, if d in ledger then Some(ledger[d].version) else None) in tx.readSet
      && Read(w, if w in ledger then Some(ledger[w].version) else None) in tx.readSet
      && Read(i, None) in tx.readSet && |tx.readSet| == 3
  {
    SlotIsNext(ledger, a, channel);
    SlotIsFree(ledger, a, channel);
    DecisionAnswers(ledger, a, channel, def, event);
    RowsOf(ledger, channel, def, event, tx, |Index(a, channel)| + 1, version);
  }

  lemma RowsOf(ledger: Ledger, channel: string, def: Definition, event: Event, tx: Transaction, n: nat, version: nat)
    requires tx == Assemble(channel, event, Intended(def, event), Lookup(ledger, DefinitionKey(channel, def.name)),
                            Lookup(ledger, WatermarkKey(channel)), n)
    ensures var after, c := Apply(ledger, tx, version), Committed(def, event == InitializedEvent || !def.initRequired);
      var d, w, i := DefinitionKey(channel, def.name), WatermarkKey(channel), IndexKey(channel, n);
      && after == ledger[d := Row(DefinitionValue(channel, c), version)][w := Row(WatermarkValue(n), version)][
           i := Row(IndexValue(IndexEntry(2, n, event, d, channel, c)), version)]
      && Read(d, if d in ledger then Some(ledger[d].version) else None) in tx.readSet
      && Read(w, if w in ledger then Some(ledger[w].version) else None) in tx.readSet
      && Read(i, None) in tx.readSet && |tx.readSet| == 3
  {
    assert tx.readSet[0] in tx.readSet && tx.readSet[1] in tx.readSet && tx.readSet[2] in tx.readSet;
    var d, w, i := DefinitionKey(channel, def.name), WatermarkKey(channel), IndexKey(channel, n);
    ApplyThree(ledger, d, w, i, tx, tx.writeSet[d], tx.writeSet[w], tx.writeSet[i], version);
  }

  lemma ApplyThree(ledger: Ledger, d: Key, w: Key, i: Key, tx: Transaction, x: Value, y: Value, z: Value, version: nat)
    requires tx.writeSet == map[d := x, w := y, i := z] && d != w && w != i && d != i
    ensures Apply(ledger, tx, version) == ledger[d := Row(x, version)][w := Row(y, version)][i := Row(z, version)]
  {
  }

  /** What recording changes, and what it leaves alone. */
  lemma RecordEffect(a: Channels, channel: string, event: Event, committed: Committed, other: string, name: string)
    ensures Revisions(Record(a, channel, event, committed), other, name) ==
              (var before := Revisions(a, other, name);
               if other != channel || name != committed.definition.name then before
               else if event == CommitEvent || before == [] then before + [committed]
               else before[|before| - 1 := committed])
    ensures Index(Record(a, channel, event, committed), other) ==
              (var before := Index(a, other);
               if other != channel then before
               else before + [NewIndexEntry(channel, |before| + 1, event, committed)])
  {
  }

  lemma RecordIsApply(ledger: Ledger, a: Channels, channel: string, event: Event, committed: Committed, tx: Transaction,
                      version: nat)
    requires Represents(ledger, a) && MayRecord(a, channel, event, committed)
    requires tx.writeSet == Assemble(channel, event, committed, None, None, |Index(a, channel)| + 1).writeSet
    ensures Represents(Apply(ledger, tx, version), Record(a, channel, event, committed))
  {
    var ledger', b := Apply(ledger, tx, version), Record(a, channel, event, committed);
    forall key ensures Prescribed(b, key) == if key in ledger' then Some(ledger'[key].value) else None {
      assert Prescribed(a, key) == if key in ledger then Some(ledger[key].value) else None;
      RecordPrescribes(a, channel, event, committed, key);
    }
  }

  lemma RecordPrescribes(a: Channels, channel: string, event: Event, committed: Committed, key: Key)
    requires MayRecord(a, channel, event, committed)
    ensures var written := Assemble(channel, event, committed, None, None, |Index(a, channel)| + 1).writeSet;
            Prescribed(Record(a, channel, event, committed), key) ==
            if key in written then Some(written[key]) else Prescribed(a, key)
  {
    RecordEffect(a, channel, event, committed, key.channel, if key.DefinitionKey? then key.name else "");
  }

  /** Revisions stay a chain 1,2,3,…, no definition changes, and no marker is lost. */
  lemma RecordEvolves(a: Channels, channel: string, event: Event, committed: Committed)
    requires WellFormedChannels(a) && MayRecord(a, channel, event, committed)
    ensures Evolves(a, Record(a, channel, event, committed))
    ensures forall other, name :: RevisionChain(name, Revisions(Record(a, channel, event, committed), other, name))
  {
    var b := Record(a, channel, event, committed);
    forall other, name
      ensures RevisionChain(name, Revisions(b, other, name))
        && RevisionsGrow(Revisions(a, other, name), Revisions(b, other, name))
    {
      RecordEffect(a, channel, event, committed, other, name);
      assert RevisionChain(name, Revisions(a, other, name));
    }
    forall other ensures Index(a, other) <= Index(b, other) {
      RecordEffect(a, channel, event, committed, other, "");
    }
  }

  lemma RecordKeepsOrder(a: Channels, channel: string, event: Event, committed: Committed)
    requires WellFormedChannels(a) && MayRecord(a, channel, event, committed) && |Index(a, channel)| < MAX_UINT64
    ensures WellFormedChannels(Record(a, channel, event, committed))
    ensures Evolves(a, Record(a, channel, event, committed))
  {
    var b := Record(a, channel, event, committed);
    RecordEvolves(a, channel, event, committed);
    forall other | other in b ensures other != "" && |Index(b, other)| <= MAX_UINT64 && IndexCovers(b, other) {
      RecordIndexed(a, channel, event, committed, other);
    }
  }

  lemma RecordIndexed(a: Channels, channel: string, event: Event, committed: Committed, other: string)
    requires WellFormedChannels(a) && MayRecord(a, channel, event, committed) && |Index(a, channel)| < MAX_UINT64
    requires Evolves(a, Record(a, channel, event, committed)) && other in Record(a, channel, event, committed)
    ensures other != "" && |Index(Record(a, channel, event, committed), other)| <= MAX_UINT64
    ensures IndexCovers(Record(a, channel, event, committed), other)
  {
    RecordEffect(a, channel, event, committed, other, "");
    if other in a { EntriesStayRecorded(a, Record(a, channel, event, committed), other); }
    assert RevisionChain(committed.definition.name, Revisions(a, channel, committed.definition.name));
    RecordCovers(a, channel, event, committed, other);
  }

  lemma EntriesStayRecorded(a: Channels, b: Channels, channel: string)
    requires IndexCovers(a, channel) && Evolves(a, b)
    ensures forall k | 0 <= k < |Index(a, channel)| :: EntryOf(b, channel, k + 1, Index(b, channel)[k])
  {
    forall k | 0 <= k < |Index(a, channel)| ensures EntryOf(b, channel, k + 1, Index(b, channel)[k]) {
      var entry := Index(a, channel)[k];
      assert EntryOf(a, channel, k + 1, entry);
      assert Index(a, channel)[..|Index(a, channel)|] == Index(b, channel)[..|Index(a, channel)|];
      RecordedStays(a, b, channel, entry.committed);
    }
  }

  /** What was once on the ledger stays part of its history. */
  lemma RecordedStays(a: Channels, b: Channels, channel: string, c: Committed)
    requires Evolves(a, b) && Recorded(Revisions(a, channel, c.definition.name), c)
    ensures Recorded(Revisions(b, channel, c.definition.name), c)
  {
    assert RevisionsGrow(Revisions(a, channel, c.definition.name), Revisions(b, channel, c.definition.name));
  }

  lemma RecordCovers(a: Channels, channel: string, event: Event, committed: Committed, other: string)
    requires MayRecord(a, channel, event, committed) && other in Record(a, channel, event, committed)
    requires RevisionChain(committed.definition.name, Revisions(a, channel, committed.definition.name))
    requires other in a ==> IndexCovers(a, other)
    requires other in a ==> var b := Record(a, channel, event, committed);
               forall k | 0 <= k < |Index(a, other)| :: EntryOf(b, other, k + 1, Index(b, other)[k])
    ensures IndexCovers(Record(a, channel, event, committed), other)
  {
    var b := Record(a, channel, event, committed);
    var def := committed.definition;
    RecordEffect(a, channel, event, committed, other, def.name);
    if other == channel {
      assert EntryOf(b, channel, |Index(a, channel)| + 1, Index(b, channel)[|Index(a, channel)|]);
    }
    forall name | Revisions(b, other, name) != [] ensures HasEntry(b, other, name) {
      RecordEffect(a, channel, event, committed, other, name);
      if other == channel && name == def.name {
        assert Index(b, other)[|Index(a, channel)|].committed.definition.name == name;
      } else {
        assert HasEntry(a, other, name);
        var k :| 0 <= k < |Index(a, other)| && Index(a, other)[k].committed.definition.name == name;
        assert Index(b, other)[k].committed.definition.name == name;
      }
    }
  }

  /**
   * The 64-bit watermark is the limit: a transaction appends the next index
   * slot exactly while the watermark has not reached it; at the limit the slot
   * number wraps to 0.
   */
  lemma AppendsExactlyBelowLimit(ledger: Ledger, a: Channels, channel: string, def: Definition, event: Event,
                                 tx: Transaction)
    requires Represents(ledger, a) && |Index(a, channel)| <= MAX_UINT64
    requires PrepareAtomically(ledger, channel, def, event) == ToSend(tx)
    ensures IndexKey(channel, |Index(a, channel)| + 1) in tx.writeSet <==> |Index(a, channel)| < MAX_UINT64
    ensures |Index(a, channel)| == MAX_UINT64 ==> tx.writeSet[WatermarkKey(channel)] == WatermarkValue(0)
  {
    var key := WatermarkKey(channel);
    assert Prescribed(a, key) == if key in ledger then Some(ledger[key].value) else None;
  }
}
