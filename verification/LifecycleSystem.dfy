/**
 * Any number of orchestrators working on one ledger: optimistic lifecycle
 * transactions, asynchronous mirrors, and initialization markers that follow a
 * committed application Init
 * (compatibility_service/pkg/orchestrator/lifecycle_ledger.go,
 * compatibility_service/pkg/orchestrator/init.go,
 * compatibility_service/pkg/lifecycle/rpc.go:582-600).
 */
module LifecycleSystem {
  import opened Common
  import opened LifecycleLedger
  import opened LifecycleStore
  import opened LifecycleSync

  datatype Node = Node(id: nat, channel: string)

  /** A lifecycle transaction in preparation, with the rows read so far, or sent for ordering. */
  datatype Attempt =
    | NeedWatermark(channel: string, def: Definition, event: Event, definitionRow: Option<Row>)
    | NeedSlot(channel: string, def: Definition, event: Event, seen: Observation)
    | Sent(channel: string, def: Definition, event: Event, seen: Observation, tx: Transaction)

  /** A committed value in some request of a node: read from the ledger, or selected from its mirror. */
  datatype Held = Held(node: Node, committed: Committed)

  /** An application Init admitted for one definition. */
  datatype InitRun = InitRun(node: Node, def: Definition)

  datatype State = State(
    ledger: Ledger,
    clock: nat,                  // the largest version handed out
    attempts: set<Attempt>,
    mirrors: map<Node, Table>,
    hydrations: set<Held>,       // ledger definitions on their way into a mirror
    selections: set<Held>,       // mirror definitions selected by invocations
    admitted: set<InitRun>,
    confirmed: set<InitRun>)     // whose application transaction was observed COMMITTED

  /** The admission decision of validateInitState for an Init invocation with a selected definition. */
  datatype InitDecision = AdmitInit(def: Definition) | NotRequired | AlreadyInitialized

  function ValidateInit(selected: Committed): InitDecision {
    if !selected.definition.initRequired then NotRequired
    else if selected.initialized then AlreadyInitialized
    else AdmitInit(selected.definition)
  }

  /** Exactly an uninitialized definition that requires it is admitted; an initialized one is refused as such. */
  lemma InitAdmission(selected: Committed)
    ensures ValidateInit(selected) == AdmitInit(selected.definition) <==>
      selected == Committed(selected.definition, false) && selected.definition.initRequired
    ensures ValidateInit(selected).AlreadyInitialized? <==> selected.initialized && selected.definition.initRequired
    ensures ValidateInit(selected).NotRequired? <==> !selected.definition.initRequired
  {
  }

  function MirrorOf(s: State, node: Node): Table {
    if node in s.mirrors then s.mirrors[node] else map[]
  }

  ghost predicate Initial(s: State) {
    s == State(map[], 0, {}, map[], {}, {}, {}, {})
  }

  // ------------------------------------------------------------------------
  // Steps. Attempts and held values are never withdrawn, so every lost, late,
  // duplicated or abandoned request is some run of these steps.
  // ------------------------------------------------------------------------

  datatype Step =
    | StartCommit(channel: string, def: Definition)
    | StartMarker(run: InitRun)
    | ReadWatermark(attempt: Attempt)
    | ReadSlot(attempt: Attempt)
    | CommitTransaction(attempt: Attempt)
    | ReadForMirror(node: Node, name: string)
    | UpsertMirror(hydration: Held)
    | SelectDefinition(node: Node, name: string)
    | AdmitRun(selection: Held)
    | ConfirmRun(run: InitRun)
    | Idle     // something happens that touches none of this

  ghost predicate StartAttempt(s: State, s': State, channel: string, def: Definition, event: Event) {
    var row := Lookup(s.ledger, DefinitionKey(channel, def.name));
    && Decide(channel, def, event, row).Write?
    && s' == s.(attempts := s.attempts + {NeedWatermark(channel, def, event, row)})
  }

  ghost predicate Takes(s: State, s': State, step: Step) {
    match step
    case StartCommit(channel, def) =>
      StartAttempt(s, s', channel, def, CommitEvent)
    case StartMarker(run) =>
      run in s.confirmed && run.def.initRequired && StartAttempt(s, s', run.node.channel, run.def, InitializedEvent)
    case ReadWatermark(t) =>
      && t in s.attempts && t.NeedWatermark?
      && var row := Lookup(s.ledger, WatermarkKey(t.channel));
         && NextIndex(row).Some?
         && s' == s.(attempts := s.attempts + {NeedSlot(t.channel, t.def, t.event, Observation(t.definitionRow, row))})
    case ReadSlot(t) =>
      && t in s.attempts && t.NeedSlot?
      && Decide(t.channel, t.def, t.event, t.seen.definitionRow).Write? && NextIndex(t.seen.watermarkRow).Some?
      && var next := NextIndex(t.seen.watermarkRow).value;
         && IndexKey(t.channel, next) !in s.ledger
         && s' == s.(attempts := s.attempts + {Sent(t.channel, t.def, t.event, t.seen,
              Assemble(t.channel, t.event, Decide(t.channel, t.def, t.event, t.seen.definitionRow).committed,
                       t.seen.definitionRow, t.seen.watermarkRow, next))})
    case CommitTransaction(t) =>
      && t in s.attempts && t.Sent? && Current(s.ledger, t.tx)
      && s' == s.(ledger := Apply(s.ledger, t.tx, s.clock + 1), clock := s.clock + 1)
    case ReadForMirror(node, name) =>
      && var row := Lookup(s.ledger, DefinitionKey(node.channel, name));
         && row.Some? && DecodeDefinition(row.value.value).Some?
         && s' == s.(hydrations := s.hydrations + {Held(node, row.value.value.committed)})
    case UpsertMirror(h) =>
      && h in s.hydrations
      && var name := h.committed.definition.name;
         s' == s.(mirrors := s.mirrors[h.node :=
                                       MirrorOf(s, h.node)[name :=
                                                           Guarded(RowOf(MirrorOf(s, h.node), name), h.committed)]])
    case SelectDefinition(node, name) =>
      && name in MirrorOf(s, node)
      && s' == s.(selections := s.selections + {Held(node, MirrorOf(s, node)[name])})
    case AdmitRun(selection) =>
      && selection in s.selections && ValidateInit(selection.committed).AdmitInit?
      && s' == s.(admitted := s.admitted + {InitRun(selection.node, ValidateInit(selection.committed).def)})
    case ConfirmRun(run) =>
      run in s.admitted && s' == s.(confirmed := s.confirmed + {run})
    case Idle => s' == s
  }

  ghost predicate Next(s: State, s': State) {
    exists step :: Takes(s, s', step)
  }

  ghost predicate Run(states: seq<State>) {
    && states != [] && Initial(states[0])
    && forall i | 0 <= i < |states| - 1 :: Next(states[i], states[i + 1])
  }

  // ------------------------------------------------------------------------
  // The invariant
  // ------------------------------------------------------------------------

  /** A row read earlier: the current row is the same or newer. */
  ghost predicate Known(ledger: Ledger, key: Key, row: Option<Row>) {
    row.Some? ==>
      && key in ledger && row.value.version <= ledger[key].version
      && (row.value.version == ledger[key].version ==> row.value == ledger[key])
  }

  ghost predicate AttemptInv(s: State, t: Attempt) {
    && (t.event == InitializedEvent ==>
        exists node: Node :: node.channel == t.channel && InitRun(node, t.def) in s.confirmed)
    && match t
       case NeedWatermark(channel, def, event, row) =>
         Known(s.ledger, DefinitionKey(channel, def.name), row) && Decide(channel, def, event, row).Write?
       case NeedSlot(channel, def, event, seen) =>
         && Known(s.ledger, DefinitionKey(channel, def.name), seen.definitionRow)
         && Known(s.ledger, WatermarkKey(channel), seen.watermarkRow)
         && Decide(channel, def, event, seen.definitionRow).Write? && NextIndex(seen.watermarkRow).Some?
       case Sent(channel, def, event, seen, tx) =>
         && Known(s.ledger, DefinitionKey(channel, def.name), seen.definitionRow)
         && Known(s.ledger, WatermarkKey(channel), seen.watermarkRow)
         && PreparedFrom(channel, def, event, seen, tx)
  }

  ghost predicate LedgerInv(s: State, a: Channels) {
    && Represents(s.ledger, a) && WellFormedChannels(a)
    && (forall key | key in s.ledger :: s.ledger[key].version <= s.clock)
    && (forall t | t in s.attempts :: AttemptInv(s, t))
  }

  ghost predicate HeldInv(a: Channels, held: set<Held>) {
    forall h | h in held :: Recorded(Revisions(a, h.node.channel, h.committed.definition.name), h.committed)
  }

  ghost predicate MirrorInv(s: State, a: Channels) {
    && (forall node | node in s.mirrors :: NotAhead(s.mirrors[node], a, node.channel))
    && HeldInv(a, s.hydrations) && HeldInv(a, s.selections)
  }

  ghost predicate ConfirmedFor(s: State, channel: string, def: Definition) {
    exists node: Node :: node.channel == channel && InitRun(node, def) in s.confirmed
  }

  ghost predicate InitInv(s: State, a: Channels) {
    && s.confirmed <= s.admitted
    && (forall run | run in s.admitted ::
          run.def.initRequired && Recorded(Revisions(a, run.node.channel, run.def.name), Committed(run.def, false)))
    && (forall channel, name, i | 0 <= i < |Revisions(a, channel, name)| ::
          var c := Revisions(a, channel, name)[i];
          c.definition.initRequired && c.initialized ==> ConfirmedFor(s, channel, c.definition))
  }

  ghost predicate Inv(s: State, a: Channels) {
    LedgerInv(s, a) && MirrorInv(s, a) && InitInv(s, a)
  }

  // ------------------------------------------------------------------------
  // Preservation
  // ------------------------------------------------------------------------

  lemma KnownAfterApply(ledger: Ledger, tx: Transaction, version: nat, key: Key, row: Option<Row>)
    requires Known(ledger, key, row) && forall k | k in ledger :: ledger[k].version < version
    ensures Known(Apply(ledger, tx, version), key, row)
  {
  }

  /** The ledger step: a validated transaction is one atomic revision step. */
  lemma CommitStep(s: State, s': State, t: Attempt, a: Channels) returns (b: Channels, committed: Committed)
    requires LedgerInv(s, a) && Takes(s, s', CommitTransaction(t)) && |Index(a, t.channel)| < MAX_UINT64
    ensures committed.definition == t.def && MayRecord(a, t.channel, t.event, committed)
    ensures b == Record(a, t.channel, t.event, committed) && Evolves(a, b)
    ensures LedgerInv(s', b)
  {
    ValidatedIsAtomic(s.ledger, t.channel, t.def, t.event, t.seen, t.tx);
    committed := AtomicPreparationRecords(s.ledger, a, t.channel, t.def, t.event, t.tx);
    b := Record(a, t.channel, t.event, committed);
    RecordKeepsOrder(a, t.channel, t.event, committed);
    AttemptsSurvive(s, s', t.tx);
  }

  lemma AttemptsSurvive(s: State, s': State, tx: Transaction)
    requires (forall u | u in s.attempts :: AttemptInv(s, u)) && forall k | k in s.ledger ::
      s.ledger[k].version <= s.clock
    requires s' == s.(ledger := Apply(s.ledger, tx, s.clock + 1), clock := s.clock + 1)
    ensures forall u | u in s'.attempts :: AttemptInv(s', u)
    ensures forall k | k in s'.ledger :: s'.ledger[k].version <= s'.clock
  {
    forall u | u in s'.attempts ensures AttemptInv(s', u) {
      AttemptSurvives(s, s', tx, u);
    }
  }

  lemma AttemptSurvives(s: State, s': State, tx: Transaction, u: Attempt)
    requires AttemptInv(s, u) && forall k | k in s.ledger :: s.ledger[k].version <= s.clock
    requires s' == s.(ledger := Apply(s.ledger, tx, s.clock + 1), clock := s.clock + 1)
    ensures AttemptInv(s', u)
  {
    match u
    case NeedWatermark(channel, def, event, row) =>
      KnownAfterApply(s.ledger, tx, s.clock + 1, DefinitionKey(channel, def.name), row);
    case _ =>
      KnownAfterApply(s.ledger, tx, s.clock + 1, DefinitionKey(u.channel, u.def.name), u.seen.definitionRow);
      KnownAfterApply(s.ledger, tx, s.clock + 1, WatermarkKey(u.channel), u.seen.watermarkRow);
  }

  lemma CommitKeepsMirrors(s: State, s': State, a: Channels, b: Channels)
    requires MirrorInv(s, a) && Evolves(a, b)
    requires s'.mirrors == s.mirrors && s'.hydrations == s.hydrations && s'.selections == s.selections
    ensures MirrorInv(s', b)
  {
    forall node | node in s.mirrors ensures NotAhead(s.mirrors[node], b, node.channel) {
      NotAheadStays(s.mirrors[node], a, b, node.channel);
    }
    forall h | h in s.hydrations + s.selections
      ensures Recorded(Revisions(b, h.node.channel, h.committed.definition.name), h.committed) {
      RecordedStays(a, b, h.node.channel, h.committed);
    }
  }

  /** Only a marker whose Init was confirmed turns a revision initialized. */
  lemma CommitKeepsInit(s: State, s': State, t: Attempt, a: Channels, committed: Committed)
    requires InitInv(s, a) && AttemptInv(s, t)
    requires committed.definition == t.def && MayRecord(a, t.channel, t.event, committed)
    requires Evolves(a, Record(a, t.channel, t.event, committed))
    requires s'.confirmed == s.confirmed && s'.admitted == s.admitted
    ensures InitInv(s', Record(a, t.channel, t.event, committed))
  {
    var b := Record(a, t.channel, t.event, committed);
    forall run | run in s.admitted
      ensures Recorded(Revisions(b, run.node.channel, run.def.name), Committed(run.def, false)) {
      RecordedStays(a, b, run.node.channel, Committed(run.def, false));
    }
    forall channel, name, i | 0 <= i < |Revisions(b, channel, name)|
      ensures var c := Revisions(b, channel, name)[i];
              c.definition.initRequired && c.initialized ==> ConfirmedFor(s', channel, c.definition)
    {
      RecordEffect(a, t.channel, t.event, committed, channel, name);
      var c := Revisions(b, channel, name)[i];
      if i < |Revisions(a, channel, name)| && c == Revisions(a, channel, name)[i] {
        assert c.definition.initRequired && c.initialized ==> ConfirmedFor(s, channel, c.definition);
      }
    }
  }

  lemma UpsertKeepsMirrors(s: State, s': State, h: Held, a: Channels)
    requires MirrorInv(s, a) && Takes(s, s', UpsertMirror(h))
    ensures MirrorInv(s', a)
  {
    var name := h.committed.definition.name;
    var table := MirrorOf(s, h.node);
    assert NotAhead(table, a, h.node.channel);
    forall n | n in s'.mirrors[h.node]
      ensures s'.mirrors[h.node][n].definition.name == n
        && Recorded(Revisions(a, h.node.channel, n), s'.mirrors[h.node][n])
    {
    }
  }

  lemma ReadKeepsMirrors(s: State, s': State, node: Node, name: string, a: Channels)
    requires LedgerInv(s, a) && MirrorInv(s, a) && Takes(s, s', ReadForMirror(node, name))
    ensures MirrorInv(s', a)
  {
    var key := DefinitionKey(node.channel, name);
    assert Prescribed(a, key) == if key in s.ledger then Some(s.ledger[key].value) else None;
    assert RevisionChain(name, Revisions(a, node.channel, name));
  }

  lemma SameLedger(s: State, s': State, a: Channels)
    requires LedgerInv(s, a) && s'.ledger == s.ledger && s'.clock == s.clock && s.confirmed <= s'.confirmed
    requires forall t | t in s'.attempts && t !in s.attempts :: AttemptInv(s', t)
    ensures LedgerInv(s', a)
  {
    forall t | t in s'.attempts ensures AttemptInv(s', t) {
      if t in s.attempts { assert AttemptInv(s, t); }
    }
  }

  /** No chaincode gains more than one revision. */
  ghost predicate OneRevisionMore(a: Channels, b: Channels) {
    forall channel, name :: |Revisions(b, channel, name)| <= |Revisions(a, channel, name)| + 1
  }

  lemma CommitSafe(s: State, s': State, t: Attempt, a: Channels) returns (b: Channels)
    requires Inv(s, a) && Takes(s, s', CommitTransaction(t)) && |Index(a, t.channel)| < MAX_UINT64
    ensures Inv(s', b) && Evolves(a, b)
    ensures forall channel :: |Index(b, channel)| <= |Index(a, channel)| + 1
    ensures OneRevisionMore(a, b)
  {
    var committed;
    b, committed := CommitStep(s, s', t, a);
    CommitKeepsMirrors(s, s', a, b);
    CommitKeepsInit(s, s', t, a, committed);
    RecordAddsOne(a, t.channel, t.event, committed);
  }

  lemma RecordAddsOne(a: Channels, channel: string, event: Event, committed: Committed)
    ensures var b := Record(a, channel, event, committed);
      OneRevisionMore(a, b) && forall other :: |Index(b, other)| <= |Index(a, other)| + 1
  {
    var b := Record(a, channel, event, committed);
    forall other, name ensures |Revisions(b, other, name)| <= |Revisions(a, other, name)| + 1 {
      RecordEffect(a, channel, event, committed, other, name);
    }
    forall other ensures |Index(b, other)| <= |Index(a, other)| + 1 {
      RecordEffect(a, channel, event, committed, other, "");
    }
  }

  /**
   * Every step keeps the invariant; the ledger changes only by the revision
   * rule, one index entry at a time.
   */
  lemma StepSafe(s: State, s': State, step: Step, a: Channels) returns (b: Channels)
    requires Inv(s, a) && Takes(s, s', step)
    requires forall channel :: |Index(a, channel)| < MAX_UINT64
    ensures Inv(s', b) && Evolves(a, b) && OneRevisionMore(a, b)
    ensures forall channel :: |Index(b, channel)| <= |Index(a, channel)| + 1
  {
    if step.CommitTransaction? {
      b := CommitSafe(s, s', step.attempt, a);
    } else {
      b := a;
      EvolvesRefl(a);
      if step.StartCommit? || step.StartMarker? || step.ReadWatermark? || step.ReadSlot? {
        PreparationSafe(s, s', step, a);
      } else {
        LocalStepSafe(s, s', step, a);
      }
    }
  }

  /** Steps of mirrors and invocations, which leave ledger and attempts alone. */
  lemma LocalStepSafe(s: State, s': State, step: Step, a: Channels)
    requires Inv(s, a) && Takes(s, s', step)
    requires !step.StartCommit? && !step.StartMarker? && !step.ReadWatermark? && !step.ReadSlot?
      && !step.CommitTransaction?
    ensures Inv(s', a)
  {
    SameLedger(s, s', a);
    if step.AdmitRun? {
      AdmissionSafe(s, s', step.selection, a);
    } else if step.ConfirmRun? {
      ConfirmationSafe(s, s', step.run, a);
    } else {
      SameMarkers(s, s', a);
      MirrorStepSafe(s, s', step, a);
    }
  }

  lemma MirrorStepSafe(s: State, s': State, step: Step, a: Channels)
    requires LedgerInv(s, a) && MirrorInv(s, a) && Takes(s, s', step)
    requires step.ReadForMirror? || step.UpsertMirror? || step.SelectDefinition? || step.Idle?
    ensures MirrorInv(s', a)
  {
    match step
    case ReadForMirror(node, name) => ReadKeepsMirrors(s, s', node, name, a);
    case UpsertMirror(h) => UpsertKeepsMirrors(s, s', h, a);
    case SelectDefinition(node, name) => assert NotAhead(MirrorOf(s, node), a, node.channel);
    case Idle =>
  }

  lemma PreparationSafe(s: State, s': State, step: Step, a: Channels)
    requires Inv(s, a) && Takes(s, s', step)
    requires step.StartCommit? || step.StartMarker? || step.ReadWatermark? || step.ReadSlot?
    ensures Inv(s', a)
  {
    assert s' == s.(attempts := s'.attempts);
    forall t | t in s'.attempts && t !in s.attempts ensures AttemptInv(s', t) {
      NewAttempt(s, s', step, t);
    }
    SameLedger(s, s', a);
    SameMarkers(s, s', a);
  }

  lemma SameMarkers(s: State, s': State, a: Channels)
    requires InitInv(s, a) && s'.confirmed == s.confirmed && s'.admitted == s.admitted
    ensures InitInv(s', a)
  {
    forall channel, name, i | 0 <= i < |Revisions(a, channel, name)|
      ensures var c := Revisions(a, channel, name)[i];
              c.definition.initRequired && c.initialized ==> ConfirmedFor(s', channel, c.definition)
    {
      var c := Revisions(a, channel, name)[i];
      assert c.definition.initRequired && c.initialized ==> ConfirmedFor(s, channel, c.definition);
    }
  }

  lemma NewAttempt(s: State, s': State, step: Step, t: Attempt)
    requires step.StartCommit? || step.StartMarker? || step.ReadWatermark? || step.ReadSlot?
    requires Takes(s, s', step) && (forall u | u in s.attempts :: AttemptInv(s, u)) && t in s'.attempts
      && t !in s.attempts
    ensures AttemptInv(s', t)
  {
    match step
    case StartMarker(run) => assert InitRun(run.node, run.def) in s'.confirmed;
    case ReadWatermark(u) => assert AttemptInv(s, u);
    case ReadSlot(u) => assert AttemptInv(s, u);
    case _ =>
  }

  lemma AdmissionSafe(s: State, s': State, selection: Held, a: Channels)
    requires MirrorInv(s, a) && InitInv(s, a) && Takes(s, s', AdmitRun(selection))
    ensures MirrorInv(s', a) && InitInv(s', a)
  {
    forall channel, name, i | 0 <= i < |Revisions(a, channel, name)|
      ensures var c := Revisions(a, channel, name)[i];
              c.definition.initRequired && c.initialized ==> ConfirmedFor(s', channel, c.definition)
    {
      var c := Revisions(a, channel, name)[i];
      assert c.definition.initRequired && c.initialized ==> ConfirmedFor(s, channel, c.definition);
    }
  }

  lemma ConfirmationSafe(s: State, s': State, run: InitRun, a: Channels)
    requires MirrorInv(s, a) && InitInv(s, a) && Takes(s, s', ConfirmRun(run))
    ensures MirrorInv(s', a) && InitInv(s', a)
  {
    forall channel, name, i | 0 <= i < |Revisions(a, channel, name)|
      ensures var c := Revisions(a, channel, name)[i];
              c.definition.initRequired && c.initialized ==> ConfirmedFor(s', channel, c.definition)
    {
      var c := Revisions(a, channel, name)[i];
      assert c.definition.initRequired && c.initialized ==> ConfirmedFor(s, channel, c.definition);
    }
  }

  // ------------------------------------------------------------------------
  // Whole runs
  // ------------------------------------------------------------------------

  /** No watermark has reached the largest 64-bit number: every channel can append one more index entry. */
  ghost predicate BelowLimit(s: State) {
    forall key | key in s.ledger && key.WatermarkKey? :: s.ledger[key].value != WatermarkValue(MAX_UINT64)
  }

  /** A run that never takes a step from a ledger at the limit. */
  ghost predicate LimitedRun(states: seq<State>) {
    Run(states) && forall i | 0 <= i < |states| - 1 :: BelowLimit(states[i])
  }

  lemma IndexBelowLimit(s: State, a: Channels, channel: string)
    requires BelowLimit(s) && Represents(s.ledger, a) && WellFormedChannels(a)
    ensures |Index(a, channel)| < MAX_UINT64
  {
    var key := WatermarkKey(channel);
    assert Prescribed(a, key) == if key in s.ledger then Some(s.ledger[key].value) else None;
  }

  /**
   * Moment i: the invariant holds, and the step that led there was one of the
   * system and let the ledger grow as intended.
   */
  ghost predicate JustifiedAt(states: seq<State>, abs: seq<Channels>, i: nat)
    requires i < |states| == |abs|
  {
    && Inv(states[i], abs[i]) && (forall channel :: |Index(abs[i], channel)| <= i)
    && (i > 0 ==> Next(states[i - 1], states[i]) && Evolves(abs[i - 1], abs[i]) && OneRevisionMore(abs[i - 1], abs[i]))
  }

  ghost predicate Justifies(states: seq<State>, abs: seq<Channels>) {
    |abs| == |states| && forall i | 0 <= i < |states| :: JustifiedAt(states, abs, i)
  }

  /**
   * In every run whose steps start below the watermark limit all invariants hold
   * throughout, and the ledger only ever appends revisions, adds markers and adds
   * index entries.
   */
  lemma {:induction false} RunSafe(states: seq<State>) returns (abs: seq<Channels>)
    requires LimitedRun(states)
    ensures Justifies(states, abs)
    decreases |states|
  {
    var n := |states| - 1;
    if n == 0 {
      InitialSafe(states[0]);
      abs := [map[]];
    } else {
      PrefixRun(states);
      var before := RunSafe(states[..n]);
      var last := LastStepSafe(states, before);
      abs := before + [last];
      Extends(states, before, last);
    }
  }

  lemma Extends(states: seq<State>, before: seq<Channels>, last: Channels)
    requires |states| > 1 && Justifies(states[..|states| - 1], before)
      && JustifiedAt(states, before + [last], |states| - 1)
    ensures Justifies(states, before + [last])
  {
    forall i | 0 <= i < |states| - 1 ensures JustifiedAt(states, before + [last], i) {
      assert JustifiedAt(states[..|states| - 1], before, i);
    }
  }

  /** A run of no more steps than a 64-bit watermark can count stays below the limit. */
  lemma {:induction false} ShortRunsAreLimited(states: seq<State>)
    requires Run(states) && |states| <= MAX_UINT64
    ensures LimitedRun(states)
    decreases |states|
  {
    var n := |states| - 1;
    if n == 0 {
      return;
    }
    PrefixOfRun(states);
    ShortRunsAreLimited(states[..n]);
    var abs := RunSafe(states[..n]);
    forall i | 0 <= i < n ensures BelowLimit(states[i]) {
      assert states[..n][i] == states[i] && JustifiedAt(states[..n], abs, i);
      FewEntriesBelowLimit(states[i], abs[i]);
    }
  }

  lemma FewEntriesBelowLimit(s: State, a: Channels)
    requires Represents(s.ledger, a) && forall channel :: |Index(a, channel)| < MAX_UINT64
    ensures BelowLimit(s)
  {
    forall key | key in s.ledger && key.WatermarkKey? ensures s.ledger[key].value != WatermarkValue(MAX_UINT64) {
      assert Prescribed(a, key) == Some(s.ledger[key].value);
    }
  }

  lemma InitialSafe(s: State)
    requires Initial(s)
    ensures Inv(s, map[]) && forall channel :: Index(map[], channel) == []
  {
  }

  lemma PrefixOfRun(states: seq<State>)
    requires Run(states) && |states| > 1
    ensures Run(states[..|states| - 1])
  {
    var before := states[..|states| - 1];
    forall i | 0 <= i < |before| - 1 ensures Next(before[i], before[i + 1]) {
      assert Next(states[i], states[i + 1]);
    }
  }

  lemma PrefixRun(states: seq<State>)
    requires LimitedRun(states) && |states| > 1
    ensures LimitedRun(states[..|states| - 1])
  {
    PrefixOfRun(states);
    assert forall i | 0 <= i < |states| - 2 :: BelowLimit(states[i]) && states[..|states| - 1][i] == states[i];
  }

  lemma LastStepSafe(states: seq<State>, abs: seq<Channels>) returns (last: Channels)
    requires LimitedRun(states) && 1 < |states| && Justifies(states[..|states| - 1], abs)
    ensures JustifiedAt(states, abs + [last], |states| - 1)
  {
    var n := |states| - 1;
    assert JustifiedAt(states[..n], abs, n - 1);
    assert Next(states[n - 1], states[n - 1 + 1]);
    var step :| Takes(states[n - 1], states[n], step);
    var a := abs[n - 1];
    forall channel ensures |Index(a, channel)| < MAX_UINT64 {
      IndexBelowLimit(states[n - 1], a, channel);
    }
    last := StepSafe(states[n - 1], states[n], step, a);
  }

  lemma InvAt(states: seq<State>, abs: seq<Channels>, i: nat)
    requires Justifies(states, abs) && i < |states|
    ensures Inv(states[i], abs[i])
  {
    assert JustifiedAt(states, abs, i);
  }

  /** The step that leads to moment i of a run. */
  lemma NextAt(states: seq<State>, abs: seq<Channels>, i: nat)
    requires Justifies(states, abs) && 0 < i < |states|
    ensures Next(states[i - 1], states[i]) && Inv(states[i - 1], abs[i - 1])
    ensures Evolves(abs[i - 1], abs[i]) && OneRevisionMore(abs[i - 1], abs[i])
  {
    assert JustifiedAt(states, abs, i - 1) && JustifiedAt(states, abs, i);
  }

  lemma {:induction false} EvolvesInRun(states: seq<State>, abs: seq<Channels>, i: nat, j: nat)
    requires Justifies(states, abs) && i <= j < |states|
    ensures Evolves(abs[i], abs[j])
    decreases j - i
  {
    if i < j {
      EvolvesInRun(states, abs, i, j - 1);
      NextAt(states, abs, j);
      EvolvesTrans(abs[i], abs[j - 1], abs[j]);
    } else {
      EvolvesRefl(abs[i]);
    }
  }

  /**
   * Reads of one node at any increasing moments of a run see a ledger history
   * in the sense of LifecycleSync: index replay succeeds during every run.
   */
  lemma ReadsSeeHistory(states: seq<State>, abs: seq<Channels>, at: nat -> nat, view: nat -> Ledger,
                        seen: nat -> Channels)
    requires Justifies(states, abs)
    requires forall t: nat :: at(t) < |states| && view(t) == states[at(t)].ledger && seen(t) == abs[at(t)]
    requires forall s: nat, t: nat | s <= t :: at(s) <= at(t)
    ensures LedgerHistory(view, seen)
  {
    forall t: nat ensures Represents(view(t), seen(t)) && WellFormedChannels(seen(t)) {
      InvAt(states, abs, at(t));
    }
    forall s: nat, t: nat | s <= t ensures Evolves(seen(s), seen(t)) {
      EvolvesInRun(states, abs, at(s), at(t));
    }
  }

  // ------------------------------------------------------------------------
  // What the invariant says of the rows themselves
  // ------------------------------------------------------------------------

  function LedgerDefinition(s: State, channel: string, name: string): Option<Committed> {
    var row := Lookup(s.ledger, DefinitionKey(channel, name));
    if row.Some? && row.value.value.DefinitionValue? then Some(row.value.value.committed) else None
  }

  lemma LedgerShowsActive(s: State, a: Channels, channel: string, name: string)
    requires LedgerInv(s, a)
    ensures LedgerDefinition(s, channel, name) == Active(a, channel, name)
  {
    var key := DefinitionKey(channel, name);
    assert Prescribed(a, key) == if key in s.ledger then Some(s.ledger[key].value) else None;
  }

  /** A mirror row is never ahead of the ledger, and at equal sequences it is the same definition. */
  lemma MirrorNotAhead(s: State, a: Channels, node: Node, name: string)
    requires Inv(s, a) && name in MirrorOf(s, node)
    ensures var mirrored, ledger := MirrorOf(s, node)[name], LedgerDefinition(s, node.channel, name);
            && ledger.Some?
            && mirrored.definition.sequence <= ledger.value.definition.sequence
            && (mirrored.definition.sequence == ledger.value.definition.sequence ==>
                  mirrored.definition == ledger.value.definition && (mirrored.initialized ==> ledger.value.initialized))
  {
    LedgerShowsActive(s, a, node.channel, name);
    assert NotAhead(MirrorOf(s, node), a, node.channel) && RevisionChain(name, Revisions(a, node.channel, name));
    assert Recorded(Revisions(a, node.channel, name), MirrorOf(s, node)[name]);
  }

  /** One step moves no mirror row back: not in sequence, and within a sequence not in its marker. */
  lemma StepAdvancesMirror(s: State, s': State, step: Step, a: Channels, node: Node, name: string)
    requires MirrorInv(s, a) && Takes(s, s', step) && name in MirrorOf(s, node)
    ensures AtLeast(RowOf(MirrorOf(s', node), name), MirrorOf(s, node)[name])
  {
    if step.UpsertMirror? && step.hydration.node == node && step.hydration.committed.definition.name == name {
      UpsertJoins(s, step.hydration, a);
    } else {
      assert RowOf(MirrorOf(s', node), name) == RowOf(MirrorOf(s, node), name);
    }
  }

  /**
   * An upsert leaves its row in the mirror, and every other row of every mirror
   * as it is; no other step touches one.
   */
  lemma OneMirrorRow(s: State, s': State, step: Step, a: Channels)
    requires MirrorInv(s, a) && Takes(s, s', step)
    ensures !step.UpsertMirror? ==> s'.mirrors == s.mirrors
    ensures step.UpsertMirror? ==>
      var node, c := step.hydration.node, step.hydration.committed;
      && node in s'.mirrors && AtLeast(RowOf(s'.mirrors[node], c.definition.name), c)
      && (node in s.mirrors ==> s'.mirrors[node] - {c.definition.name} == s.mirrors[node] - {c.definition.name})
      && (node !in s.mirrors ==> s'.mirrors[node] == map[c.definition.name := c])
      && s'.mirrors - {node} == s.mirrors - {node}
  {
    if step.UpsertMirror? { UpsertJoins(s, step.hydration, a); }
  }

  /** What an upsert leaves in the row: one of the two values, and at least both. */
  lemma UpsertJoins(s: State, h: Held, a: Channels)
    requires MirrorInv(s, a) && h in s.hydrations
    ensures var row := RowOf(MirrorOf(s, h.node), h.committed.definition.name);
      && !Select(row, h.committed).Conflict? && AtLeast(Some(Guarded(row, h.committed)), h.committed)
      && (Some(Guarded(row, h.committed)) == row || Guarded(row, h.committed) == h.committed)
      && (row.Some? ==> AtLeast(Some(Guarded(row, h.committed)), row.value))
  {
    assert NotAhead(MirrorOf(s, h.node), a, h.node.channel);
  }

  /**
   * The ledger shows an init-required revision as initialized only if an
   * application Init admitted for exactly that definition (name, version and
   * sequence) on that channel was confirmed committed.
   */
  lemma InitializedOnlyAfterConfirmedInit(s: State, a: Channels, channel: string, name: string)
    requires Inv(s, a)
    ensures var shown := LedgerDefinition(s, channel, name);
            (shown.Some? && shown.value.definition.initRequired && shown.value.initialized) ==>
              ConfirmedFor(s, channel, shown.value.definition)
  {
    LedgerShowsActive(s, a, channel, name);
  }

  /** The same for every mirror row. */
  lemma MirrorInitializedOnlyAfterConfirmedInit(s: State, a: Channels, node: Node, name: string)
    requires Inv(s, a) && name in MirrorOf(s, node)
    requires MirrorOf(s, node)[name].definition.initRequired && MirrorOf(s, node)[name].initialized
    ensures ConfirmedFor(s, node.channel, MirrorOf(s, node)[name].definition)
  {
    assert NotAhead(MirrorOf(s, node), a, node.channel);
  }

  // ------------------------------------------------------------------------
  // Whole runs, in terms of the rows
  // ------------------------------------------------------------------------

  /**
   * At every moment of a run the index of a channel occupies exactly the slots
   * 1 to watermark, and a slot once written keeps its entry.
   */
  lemma SlotsWrittenOnce(states: seq<State>, i: nat, j: nat, channel: string) returns (n: nat)
    requires LimitedRun(states) && i <= j < |states|
    ensures var row := Lookup(states[i].ledger, WatermarkKey(channel));
      if n == 0 then row.None? else row.Some? && row.value.value == WatermarkValue(n)
    ensures forall k: nat :: IndexKey(channel, k) in states[i].ledger <==> 1 <= k <= n
    ensures forall k | 1 <= k <= n ::
      IndexKey(channel, k) in states[j].ledger
          && states[j].ledger[IndexKey(channel, k)].value == states[i].ledger[IndexKey(channel, k)].value
  {
    var abs := RunSafe(states);
    n := |Index(abs[i], channel)|;
    InvAt(states, abs, i);
    InvAt(states, abs, j);
    IndexRows(states[i], abs[i], channel);
    IndexRows(states[j], abs[j], channel);
    EvolvesInRun(states, abs, i, j);
    assert Index(abs[i], channel) <= Index(abs[j], channel);
  }

  lemma IndexRows(s: State, a: Channels, channel: string)
    requires LedgerInv(s, a)
    ensures var row := Lookup(s.ledger, WatermarkKey(channel));
      if |Index(a, channel)| == 0 then row.None?
        else row.Some? && row.value.value == WatermarkValue(|Index(a, channel)|)
    ensures forall k: nat :: IndexKey(channel, k) in s.ledger <==> 1 <= k <= |Index(a, channel)|
    ensures forall k | 1 <= k <= |Index(a, channel)| ::
      s.ledger[IndexKey(channel, k)].value == IndexValue(Index(a, channel)[k - 1])
  {
    assert Prescribed(a, WatermarkKey(channel)) ==
      if WatermarkKey(channel) in s.ledger then Some(s.ledger[WatermarkKey(channel)].value) else None;
    forall k: nat ensures IndexKey(channel, k) in s.ledger <==> 1 <= k <= |Index(a, channel)|
             ensures 1 <= k <= |Index(a, channel)| ==>
               s.ledger[IndexKey(channel, k)].value == IndexValue(Index(a, channel)[k - 1])
    {
      assert Prescribed(a, IndexKey(channel, k)) ==
        if IndexKey(channel, k) in s.ledger then Some(s.ledger[IndexKey(channel, k)].value) else None;
    }
  }

  function Newest(revisions: seq<Committed>): Option<Committed> {
    if revisions == [] then None else Some(revisions[|revisions| - 1])
  }

  /** The definition rows of a chaincode at two moments of a run are the newest of two growing revision chains. */
  lemma RevisionsInRun(states: seq<State>, i: nat, j: nat, channel: string, name: string)
    returns (x: seq<Committed>, y: seq<Committed>)
    requires LimitedRun(states) && i <= j < |states|
    ensures LedgerDefinition(states[i], channel, name) == Newest(x)
      && LedgerDefinition(states[j], channel, name) == Newest(y)
    ensures RevisionChain(name, x) && RevisionChain(name, y) && RevisionsGrow(x, y) && (j == i + 1 ==> |y| <= |x| + 1)
  {
    var abs := RunSafe(states);
    InvAt(states, abs, i);
    InvAt(states, abs, j);
    x := RowIsNewest(states[i], abs[i], channel, name);
    y := RowIsNewest(states[j], abs[j], channel, name);
    EvolvesInRun(states, abs, i, j);
    assert RevisionsGrow(Revisions(abs[i], channel, name), Revisions(abs[j], channel, name));
    if j == i + 1 {
      NextAt(states, abs, j);
    }
  }

  lemma RowIsNewest(s: State, a: Channels, channel: string, name: string) returns (x: seq<Committed>)
    requires LedgerInv(s, a)
    ensures x == Revisions(a, channel, name) && LedgerDefinition(s, channel, name) == Newest(x)
      && RevisionChain(name, x)
  {
    LedgerShowsActive(s, a, channel, name);
    x := Revisions(a, channel, name);
    assert RevisionChain(name, Revisions(a, channel, name));
  }

  /**
   * Over every run: the definition row of a chaincode starts at sequence 1, its
   * sequence grows one at a time, each sequence has one definition, a marker
   * never disappears within a sequence, and no init means initialized.
   */
  lemma DefinitionsAdvance(states: seq<State>, i: nat, j: nat, channel: string, name: string)
    requires LimitedRun(states) && i <= j < |states|
    ensures var before, after := LedgerDefinition(states[i], channel, name), LedgerDefinition(states[j], channel, name);
      && (before.Some? ==>
            && before.value.definition.sequence >= 1
               && (before.value.definition.initRequired || before.value.initialized)
            && after.Some? && before.value.definition.sequence <= after.value.definition.sequence)
      && (before.Some? && before.value.definition.sequence == after.value.definition.sequence ==>
            before.value.definition == after.value.definition && (before.value.initialized ==> after.value.initialized))
      && (before.None? && after.Some? && j == i + 1 ==> after.value.definition.sequence == 1)
      && (before.Some? && j == i + 1 ==> after.value.definition.sequence <= before.value.definition.sequence + 1)
  {
    var x, y := RevisionsInRun(states, i, j, channel, name);
    assert Newest(y).Some? ==> Newest(y).value.definition.sequence == |y|;
    assert Newest(x).Some? ==> Newest(x).value.definition.sequence == |x|;
  }

  // ------------------------------------------------------------------------
  // Mirrors over whole runs
  // ------------------------------------------------------------------------

  /** The ledger showed exactly this value as the definition of the chaincode at moment i or before. */
  ghost predicate WasShown(states: seq<State>, i: nat, channel: string, c: Committed) {
    exists k :: 0 <= k <= i && k < |states| && LedgerDefinition(states[k], channel, c.definition.name) == Some(c)
  }

  ghost predicate AllWereShown(states: seq<State>, i: nat)
    requires i < |states|
  {
    && (forall h | h in states[i].hydrations :: WasShown(states, i, h.node.channel, h.committed))
    && (forall node: Node, name | name in MirrorOf(states[i], node) ::
          MirrorOf(states[i], node)[name].definition.name == name
              && WasShown(states, i, node.channel, MirrorOf(states[i], node)[name]))
  }

  lemma {:induction false} MirrorsWereShown(states: seq<State>, abs: seq<Channels>, i: nat)
    requires Justifies(states, abs) && i < |states| && Initial(states[0])
    ensures AllWereShown(states, i)
    decreases i
  {
    if i == 0 {
      NothingToShow(states);
    } else {
      MirrorsWereShown(states, abs, i - 1);
      NextShowsMirrors(states, abs, i);
    }
  }

  lemma NextShowsMirrors(states: seq<State>, abs: seq<Channels>, i: nat)
    requires Justifies(states, abs) && 0 < i < |states| && AllWereShown(states, i - 1)
    ensures AllWereShown(states, i)
  {
    NextAt(states, abs, i);
    var step :| Takes(states[i - 1], states[i], step);
    StepShowsMirrors(states, i, step, abs[i - 1]);
  }

  lemma NothingToShow(states: seq<State>)
    requires states != [] && Initial(states[0])
    ensures AllWereShown(states, 0)
  {
  }

  lemma StepShowsMirrors(states: seq<State>, i: nat, step: Step, a: Channels)
    requires 0 < i < |states| && Takes(states[i - 1], states[i], step) && Inv(states[i - 1], a)
      && AllWereShown(states, i - 1)
    ensures AllWereShown(states, i)
  {
    var s, s' := states[i - 1], states[i];
    forall h | h in s'.hydrations ensures WasShown(states, i, h.node.channel, h.committed) {
      StepShowsHydration(states, i, step, h, a);
    }
    forall node: Node, name | name in MirrorOf(s', node)
      ensures MirrorOf(s', node)[name].definition.name == name
        && WasShown(states, i, node.channel, MirrorOf(s', node)[name])
    {
      var c := MirrorRowFrom(s, s', step, node, name, a);
      ShownLater(states, i - 1, node.channel, c);
    }
  }

  lemma StepShowsHydration(states: seq<State>, i: nat, step: Step, h: Held, a: Channels)
    requires 0 < i < |states| && Takes(states[i - 1], states[i], step) && LedgerInv(states[i - 1], a)
      && h in states[i].hydrations
    requires h in states[i - 1].hydrations ==> WasShown(states, i - 1, h.node.channel, h.committed)
    ensures WasShown(states, i, h.node.channel, h.committed)
  {
    if h in states[i - 1].hydrations {
      ShownLater(states, i - 1, h.node.channel, h.committed);
    } else {
      ReadWasShown(states[i - 1], states[i], step, h, a);
    }
  }

  lemma ShownLater(states: seq<State>, i: nat, channel: string, c: Committed)
    requires WasShown(states, i, channel, c)
    ensures WasShown(states, i + 1, channel, c)
  {
    var k :| 0 <= k <= i && k < |states| && LedgerDefinition(states[k], channel, c.definition.name) == Some(c);
  }

  lemma ReadWasShown(s: State, s': State, step: Step, h: Held, a: Channels)
    requires Takes(s, s', step) && LedgerInv(s, a) && h in s'.hydrations && h !in s.hydrations
    ensures LedgerDefinition(s, h.node.channel, h.committed.definition.name) == Some(h.committed)
  {
    LedgerShowsActive(s, a, step.node.channel, step.name);
    assert RevisionChain(step.name, Revisions(a, step.node.channel, step.name));
  }

  /** A mirror row after a step is the row before it or a value on its way into this mirror. */
  lemma MirrorRowFrom(s: State, s': State, step: Step, node: Node, name: string, a: Channels) returns (c: Committed)
    requires Takes(s, s', step) && MirrorInv(s, a) && name in MirrorOf(s', node)
    ensures c == MirrorOf(s', node)[name]
    ensures RowOf(MirrorOf(s, node), name) == Some(c) || (Held(node, c) in s.hydrations && c.definition.name == name)
  {
    c := MirrorOf(s', node)[name];
    if step.UpsertMirror? {
      UpsertJoins(s, step.hydration, a);
    }
  }

  /**
   * Over every run: a mirror row holds exactly what the ledger showed at some
   * earlier moment, is never ahead of the ledger, and at equal sequences is the
   * same definition.
   */
  lemma MirrorFollowsLedger(states: seq<State>, i: nat, node: Node, name: string)
    requires LimitedRun(states) && i < |states| && name in MirrorOf(states[i], node)
    ensures var mirrored, ledger := MirrorOf(states[i], node)[name], LedgerDefinition(states[i], node.channel, name);
      && mirrored.definition.name == name && WasShown(states, i, node.channel, mirrored)
      && ledger.Some?
      && mirrored.definition.sequence <= ledger.value.definition.sequence
      && (mirrored.definition.sequence == ledger.value.definition.sequence ==>
            mirrored.definition == ledger.value.definition && (mirrored.initialized ==> ledger.value.initialized))
  {
    var abs := RunSafe(states);
    InvAt(states, abs, i);
    MirrorsWereShown(states, abs, i);
    MirrorNotAhead(states[i], abs[i], node, name);
  }

  /** Over every run: no two mirrors of a channel disagree on a revision, at whatever moments they are read. */
  lemma MirrorsAgree(states: seq<State>, i: nat, j: nat, left: Node, right: Node, name: string)
    requires LimitedRun(states) && i <= j < |states| && left.channel == right.channel
    requires name in MirrorOf(states[i], left) && name in MirrorOf(states[j], right)
    requires MirrorOf(states[i], left)[name].definition.sequence == MirrorOf(states[j], right)[name].definition.sequence
    ensures MirrorOf(states[i], left)[name].definition == MirrorOf(states[j], right)[name].definition
  {
    var abs := RunSafe(states);
    var x := MirrorRowRecorded(states, abs, i, left, name);
    var y := MirrorRowRecorded(states, abs, j, right, name);
    EvolvesInRun(states, abs, i, j);
    RecordedStays(abs[i], abs[j], left.channel, x);
  }

  lemma MirrorRowRecorded(states: seq<State>, abs: seq<Channels>, i: nat, node: Node, name: string)
    returns (c: Committed)
    requires Justifies(states, abs) && i < |states| && name in MirrorOf(states[i], node)
    ensures c == MirrorOf(states[i], node)[name] && c.definition.name == name
    ensures Recorded(Revisions(abs[i], node.channel, name), c)
  {
    InvAt(states, abs, i);
    assert NotAhead(MirrorOf(states[i], node), abs[i], node.channel);
    c := MirrorOf(states[i], node)[name];
  }

  /** Over every run: a mirror row never goes back, not in sequence, and within a sequence not in its marker. */
  lemma MirrorAdvances(states: seq<State>, i: nat, j: nat, node: Node, name: string)
    requires LimitedRun(states) && i <= j < |states| && name in MirrorOf(states[i], node)
    ensures AtLeast(RowOf(MirrorOf(states[j], node), name), MirrorOf(states[i], node)[name])
  {
    var abs := RunSafe(states);
    MirrorAdvancesTo(states, abs, i, j, node, name);
  }

  lemma AtLeastTrans(row: Option<Committed>, c: Committed, d: Committed)
    requires AtLeast(row, c) && AtLeast(Some(c), d)
    ensures AtLeast(row, d)
  {
  }

  lemma {:induction false} MirrorAdvancesTo(states: seq<State>, abs: seq<Channels>, i: nat, j: nat, node: Node,
                                            name: string)
    requires Justifies(states, abs) && i <= j < |states| && name in MirrorOf(states[i], node)
    ensures AtLeast(RowOf(MirrorOf(states[j], node), name), MirrorOf(states[i], node)[name])
    decreases j - i
  {
    if i < j {
      MirrorAdvancesTo(states, abs, i, j - 1, node, name);
      NextAt(states, abs, j);
      var step :| Takes(states[j - 1], states[j], step);
      StepAdvancesMirror(states[j - 1], states[j], step, abs[j - 1], node, name);
      AtLeastTrans(RowOf(MirrorOf(states[j], node), name), MirrorOf(states[j - 1], node)[name],
                   MirrorOf(states[i], node)[name]);
    }
  }

  /** Everything ever read for the mirror row of a chaincode so far, and the row itself. */
  ghost function Candidates(s: State, node: Node, name: string): set<Committed> {
    (set h | h in s.hydrations && h.node == node && h.committed.definition.name == name :: h.committed)
    + if name in MirrorOf(s, node) then {MirrorOf(s, node)[name]} else {}
  }

  /**
   * Over every run, hydrations never conflict: all values on their way into a
   * mirror row have one definition per sequence, so no SELECT sees a conflict and
   * every complete schedule of their accesses ends with the maximum.
   */
  lemma {:induction false} HydrationsNeverConflict(states: seq<State>, i: nat, node: Node, name: string,
                                                   schedule: seq<Access>)
    requires LimitedRun(states) && i < |states|
    requires forall access | access in schedule ::
      Held(node, access.c) in states[i].hydrations && access.c.definition.name == name
    ensures OneDefinitionPerSequence(Candidates(states[i], node, name))
    ensures var row := RowOf(MirrorOf(states[i], node), name);
      forall k | 0 <= k < |schedule| :: !Select(RowAfter(row, schedule[..k]), schedule[k].c).Conflict?
    ensures var row := RowOf(MirrorOf(states[i], node), name);
      Complete(row, schedule) ==> forall c | c in Values(row, schedule) :: AtLeast(RowAfter(row, schedule), c)
  {
    var abs := RunSafe(states);
    InvAt(states, abs, i);
    HydrationsAgree(states[i], abs[i], node, name);
    var row := RowOf(MirrorOf(states[i], node), name);
    assert Values(row, schedule) <= Candidates(states[i], node, name);
    forall k | 0 <= k < |schedule| ensures !Select(RowAfter(row, schedule[..k]), schedule[k].c).Conflict? {
      NoConflictAt(row, schedule, k);
    }
    if Complete(row, schedule) {
      HydrationsConverge(row, schedule);
    }
  }

  /** Whatever was on its way into a mirror row was on the ledger, where each sequence has one definition. */
  lemma HydrationsAgree(s: State, a: Channels, node: Node, name: string)
    requires MirrorInv(s, a)
    ensures OneDefinitionPerSequence(Candidates(s, node, name))
  {
    forall c | c in Candidates(s, node, name)
      ensures c.definition.name == name && Recorded(Revisions(a, node.channel, name), c) {
      CandidateRecorded(s, a, node, name, c);
    }
  }

  lemma CandidateRecorded(s: State, a: Channels, node: Node, name: string, c: Committed)
    requires MirrorInv(s, a) && c in Candidates(s, node, name)
    ensures c.definition.name == name && Recorded(Revisions(a, node.channel, name), c)
  {
    if Held(node, c) !in s.hydrations || c.definition.name != name {
      assert NotAhead(MirrorOf(s, node), a, node.channel);
    }
  }

  /**
   * Over every run: an init-required revision shown as initialized follows a
   * confirmed Init of exactly that definition.
   */
  lemma MarkersFollowInits(states: seq<State>, i: nat, channel: string, name: string)
    requires LimitedRun(states) && i < |states|
    ensures var shown := LedgerDefinition(states[i], channel, name);
      shown.Some? && shown.value.definition.initRequired && shown.value.initialized ==>
        ConfirmedFor(states[i], channel, shown.value.definition)
    ensures forall node: Node | node.channel == channel && name in MirrorOf(states[i], node) ::
      var row := MirrorOf(states[i], node)[name];
      row.definition.initRequired && row.initialized ==> ConfirmedFor(states[i], channel, row.definition)
  {
    var abs := RunSafe(states);
    InvAt(states, abs, i);
    InitializedOnlyAfterConfirmedInit(states[i], abs[i], channel, name);
    forall node: Node | node.channel == channel && name in MirrorOf(states[i], node)
                  && MirrorOf(states[i], node)[name].definition.initRequired
                     && MirrorOf(states[i], node)[name].initialized
      ensures ConfirmedFor(states[i], channel, MirrorOf(states[i], node)[name].definition)
    {
      MirrorInitializedOnlyAfterConfirmedInit(states[i], abs[i], node, name);
    }
  }

  /** The node's mirror had this row at moment i or before. */
  ghost predicate Mirrored(states: seq<State>, i: nat, node: Node, c: Committed) {
    exists k, name :: 0 <= k <= i && MirroredAt(states, k, node, name, c)
  }

  ghost predicate MirroredAt(states: seq<State>, k: nat, node: Node, name: string, c: Committed) {
    k < |states| && name in MirrorOf(states[k], node) && MirrorOf(states[k], node)[name] == c
  }

  lemma MirroredLater(states: seq<State>, i: nat, node: Node, c: Committed)
    requires Mirrored(states, i, node, c)
    ensures Mirrored(states, i + 1, node, c)
  {
    var k, name :| 0 <= k <= i && MirroredAt(states, k, node, name, c);
  }

  ghost predicate AllMirrored(states: seq<State>, i: nat)
    requires i < |states|
  {
    && (forall h | h in states[i].selections :: Mirrored(states, i, h.node, h.committed))
    && (forall run | run in states[i].admitted ::
          run.def.initRequired && Mirrored(states, i, run.node, Committed(run.def, false)))
  }

  lemma SelectionMirrored(states: seq<State>, i: nat, step: Step, h: Held)
    requires 0 < i < |states| && Takes(states[i - 1], states[i], step) && h in states[i].selections
    requires h in states[i - 1].selections ==> Mirrored(states, i - 1, h.node, h.committed)
    ensures Mirrored(states, i, h.node, h.committed)
  {
    if h in states[i - 1].selections {
      MirroredLater(states, i - 1, h.node, h.committed);
    } else {
      assert MirroredAt(states, i - 1, h.node, step.name, h.committed);
    }
  }

  lemma AdmissionMirrored(states: seq<State>, i: nat, step: Step, run: InitRun)
    requires 0 < i < |states| && Takes(states[i - 1], states[i], step) && run in states[i].admitted
    requires run in states[i - 1].admitted ==>
      run.def.initRequired && Mirrored(states, i - 1, run.node, Committed(run.def, false))
    requires forall h | h in states[i - 1].selections :: Mirrored(states, i - 1, h.node, h.committed)
    ensures run.def.initRequired && Mirrored(states, i, run.node, Committed(run.def, false))
  {
    if run !in states[i - 1].admitted {
      InitAdmission(step.selection.committed);
      assert step.selection == Held(run.node, Committed(run.def, false));
    }
    MirroredLater(states, i - 1, run.node, Committed(run.def, false));
  }

  /**
   * Over every run: an invocation only selects rows its own mirror had, and an
   * Init is only ever admitted for a definition that requires it and that this
   * mirror showed uninitialized.
   */
  lemma {:induction false} InitsAdmittedUninitialized(states: seq<State>, i: nat)
    requires Run(states) && i < |states|
    ensures AllMirrored(states, i)
    decreases i
  {
    if i > 0 {
      InitsAdmittedUninitialized(states, i - 1);
      assert Next(states[i - 1], states[i - 1 + 1]);
      var step :| Takes(states[i - 1], states[i], step);
      forall h | h in states[i].selections ensures Mirrored(states, i, h.node, h.committed) {
        SelectionMirrored(states, i, step, h);
      }
      forall run | run in states[i].admitted
        ensures run.def.initRequired && Mirrored(states, i, run.node, Committed(run.def, false))
      {
        AdmissionMirrored(states, i, step, run);
      }
    }
  }

  lemma ConfirmedWereAdmitted(states: seq<State>, i: nat)
    requires LimitedRun(states) && i < |states|
    ensures states[i].confirmed <= states[i].admitted
  {
    var abs := RunSafe(states);
    InvAt(states, abs, i);
  }
}
