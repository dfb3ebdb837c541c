/**
 * The shim message loop and the endorsement decision around it: what a
 * chaincode is told, what is captured, and why the captured read versions
 * suffice to repeat the invocation
 * (compatibility_service/pkg/shim/handler.go:40-98 and 175-263,
 * compatibility_service/pkg/helper/service.go:445-541).
 */
module ShimHandling {
  import opened Common
  import opened InvocationState

  /** A chaincode message; None is a payload that does not decode. */
  datatype Message =
    | KeepAlive
    | GetRequest(get: Option<Target>)
    | PutRequest(put: Option<Target>, value: Data)
    | DelRequest(del: Option<Target>)
    | Completed(response: Option<PeerResponse>, event: Option<Event>)
    | Failed(payload: Data, event: Option<Event>)
    | Unsupported(kind: string)

  datatype Target = Target(key: string, collection: string)
  datatype PeerResponse = PeerResponse(status: int, message: Data, payload: Data)
  datatype Event = Event(name: string, payload: Data)

  /** What an invocation yields: the response and the chaincode event, empty if there is none. */
  datatype ChaincodeResponse = ChaincodeResponse(status: int, message: Data, payload: Data, eventName: string,
                                                 event: Data)

  /** What the chaincode is told first: INIT or TRANSACTION with its input. */
  datatype Start = Start(isInit: bool, args: seq<Data>)
  datatype Reply = Respond(payload: Data) | RespondError(reason: string)

  /** One received message and what was sent back; a keep-alive gets no answer. */
  datatype Exchange = Exchange(message: Message, reply: Option<Reply>)

  /**
   * A chaincode: its next message may depend on how it was started and on
   * everything it was told so far.
   * The stream ends after `length` messages at the latest; every run that ends
   * is a run of some such chaincode.
   */
  datatype Chaincode = Chaincode(next: (Start, seq<Exchange>) -> Option<Message>, length: nat)

  function Receive(code: Chaincode, start: Start, trace: seq<Exchange>): Option<Message> {
    if |trace| >= code.length then None else code.next(start, trace)
  }

  // ------------------------------------------------------------------------
  // The invocation on a fixed committed state, with no fault
  // ------------------------------------------------------------------------

  datatype Run = Run(trace: seq<Exchange>, readSet: map<string, Option<nat>>, writeSet: map<string, Write>)

  predicate Final(m: Message) {
    m.Completed? || m.Failed?
  }

  /** The target a request addresses, if it is decodable and public. */
  function Addressed(m: Message): Option<string> {
    var target := match m { case GetRequest(t) => t case PutRequest(t, _) => t case DelRequest(t) => t case _ => None };
    if target.Some? && target.value.collection == "" then Some(target.value.key) else None
  }

  function Refusal(target: Option<Target>): Reply {
    if target.None? then RespondError("unmarshal") else RespondError("private data collections are not supported in V1")
  }

  function ReplyTo(rows: Rows, m: Message): Option<Reply>
    requires !Final(m)
  {
    match m
    case KeepAlive => None
    case GetRequest(target) => Some(if Addressed(m).Some? then Respond(ValueIn(rows, Addressed(m).value))
                                    else Refusal(target))
    case PutRequest(target, _) => Some(if Addressed(m).Some? then Respond([]) else Refusal(target))
    case DelRequest(target) => Some(if Addressed(m).Some? then Respond([]) else Refusal(target))
    case Unsupported(kind) => Some(RespondError(kind))
  }

  function Step(rows: Rows, run: Run, m: Message): Run
    requires !Final(m)
  {
    var key := Addressed(m);
    Run(run.trace + [Exchange(m, ReplyTo(rows, m))],
        if key.Some? && m.GetRequest? then run.readSet[key.value := VersionIn(rows, key.value)] else run.readSet,
        if key.Some? && m.PutRequest? then run.writeSet[key.value := Put(m.value)]
        else if key.Some? && m.DelRequest? then run.writeSet[key.value := Delete]
        else run.writeSet)
  }

  function Outcome(m: Message): Option<ChaincodeResponse>
    requires Final(m)
  {
    var name, event := if m.event.Some? then m.event.value.name else "", if m.event.Some? then m.event.value.payload
      else [];
    if m.Failed? then Some(ChaincodeResponse(500, m.payload, m.payload, name, event))
    else if m.response.None? then None
    else Some(ChaincodeResponse(m.response.value.status, m.response.value.message, m.response.value.payload, name,
                                event))
  }

  /** The whole run from `run` on, and the chaincode's response if it gives one. */
  function Simulate(code: Chaincode, start: Start, rows: Rows, run: Run): (r: (Run, Option<ChaincodeResponse>))
    decreases code.length - |run.trace|
  {
    match Receive(code, start, run.trace)
    case None => (run, None)
    case Some(m) => if Final(m) then (run, Outcome(m)) else Simulate(code, start, rows, Step(rows, run, m))
  }

  const FRESH_RUN: Run := Run([], map[], map[])

  // ------------------------------------------------------------------------
  // What an invocation owes the chaincode and the proposal
  // ------------------------------------------------------------------------

  ghost predicate Gets(m: Message, key: string) {
    m == GetRequest(Some(Target(key, "")))
  }

  ghost predicate Puts(m: Message, key: string) {
    m.PutRequest? && m.put == Some(Target(key, ""))
  }

  ghost predicate Writes(m: Message, key: string) {
    Puts(m, key) || m == DelRequest(Some(Target(key, "")))
  }

  /**
   * A public read is answered with the committed value, or nothing for an absent
   * key; a public write with nothing; whatever else asks for an answer with an
   * error.
   */
  ghost predicate Answers(rows: Rows, e: Exchange) {
    && !e.message.Completed? && !e.message.Failed?
    && (e.reply.None? <==> e.message.KeepAlive?)
    && (forall key :: Gets(e.message, key) ==>
          e.reply == Some(Respond(if key in rows then rows[key].value else [])))
    && (forall key :: Writes(e.message, key) ==> e.reply == Some(Respond([])))
    && (e.reply.Some? && (forall key :: !Gets(e.message, key) && !Writes(e.message, key)) ==>
          e.reply.value.RespondError?)
  }

  /** Exchange i is the last to write the key. */
  ghost predicate LastWriter(trace: seq<Exchange>, i: nat, key: string) {
    i < |trace| && Writes(trace[i].message, key) && forall j :: i < j < |trace| ==> !Writes(trace[j].message, key)
  }

  /**
   * The captured sets in terms of the exchanges: answers are committed values
   * whatever was written before; the read set has the keys asked for, each with
   * its committed version; the write set has the keys written, each with its last write.
   */
  ghost predicate Recorded(rows: Rows, run: Run) {
    AnswersRecorded(rows, run) && ReadsRecorded(rows, run) && WritesRecorded(run)
  }

  ghost predicate AnswersRecorded(rows: Rows, run: Run) {
    forall i :: 0 <= i < |run.trace| ==> Answers(rows, run.trace[i])
  }

  ghost predicate ReadsRecorded(rows: Rows, run: Run) {
    && (forall k :: k in run.readSet <==> exists i :: 0 <= i < |run.trace| && Gets(run.trace[i].message, k))
    && (forall k | k in run.readSet :: run.readSet[k] == if k in rows then Some(rows[k].version) else None)
  }

  ghost predicate WritesRecorded(run: Run) {
    && (forall k :: k in run.writeSet <==> exists i :: 0 <= i < |run.trace| && Writes(run.trace[i].message, k))
    && (forall k, i: nat :: LastWriter(run.trace, i, k) ==>
        && k in run.writeSet
        && run.writeSet[k] == if run.trace[i].message.DelRequest? then Delete else Put(run.trace[i].message.value))
  }

  /** The messages are those the chaincode sends when told this. */
  ghost predicate Conversation(code: Chaincode, start: Start, trace: seq<Exchange>) {
    |trace| <= code.length && forall i :: 0 <= i < |trace| ==> Sends(code, start, trace, i)
  }

  ghost predicate Sends(code: Chaincode, start: Start, trace: seq<Exchange>, i: nat)
    requires i < |trace|
  {
    code.next(start, trace[..i]) == Some(trace[i].message)
  }

  /**
   * The chaincode ends the conversation with this response: an error is a status
   * 500 carrying its text, a completion the chaincode's own response, both with
   * their event; None if the stream ends first or the completion does not decode.
   */
  ghost predicate Concludes(code: Chaincode, start: Start, trace: seq<Exchange>,
                            response: Option<ChaincodeResponse>) {
    var last := if |trace| < code.length then code.next(start, trace) else None;
    match last
    case None => response.None?
    case Some(Failed(payload, event)) =>
      response.Some? && Carries(response.value, PeerResponse(500, payload, payload), event)
    case Some(Completed(None, _)) => response.None?
    case Some(Completed(Some(sent), event)) => response.Some? && Carries(response.value, sent, event)
    case Some(_) => false
  }

  ghost predicate Carries(r: ChaincodeResponse, sent: PeerResponse, event: Option<Event>) {
    && r.status == sent.status && r.message == sent.message && r.payload == sent.payload
    && (event.Some? ==> r.eventName == event.value.name && r.event == event.value.payload)
    && (event.None? ==> r.eventName == "" && r.event == [])
  }

  /** A run of this chaincode on these rows, from the start to this end. */
  ghost predicate Ran(code: Chaincode, start: Start, rows: Rows, run: Run, response: Option<ChaincodeResponse>) {
    Conversation(code, start, run.trace) && Concludes(code, start, run.trace, response) && Recorded(rows, run)
  }

  lemma Addresses(m: Message)
    ensures forall key :: Gets(m, key) <==> m.GetRequest? && Addressed(m) == Some(key)
    ensures forall key :: Writes(m, key) <==> (m.PutRequest? || m.DelRequest?) && Addressed(m) == Some(key)
  {
    forall key ensures Gets(m, key) <==> m.GetRequest? && Addressed(m) == Some(key) {
      if m.GetRequest? && m.get.Some? { assert m.get.value == Target(m.get.value.key, m.get.value.collection); }
    }
    forall key ensures Writes(m, key) <==> (m.PutRequest? || m.DelRequest?) && Addressed(m) == Some(key) {
      if m.PutRequest? && m.put.Some? { assert m.put.value == Target(m.put.value.key, m.put.value.collection); }
      if m.DelRequest? && m.del.Some? { assert m.del.value == Target(m.del.value.key, m.del.value.collection); }
    }
  }

  lemma ReplyAnswers(rows: Rows, m: Message)
    requires !Final(m)
    ensures Answers(rows, Exchange(m, ReplyTo(rows, m)))
  {
    Addresses(m);
  }

  /**
   * One message served: a public read is told and leaves its key's committed
   * version, a public write is told nothing and leaves its effect, whatever else
   * is refused and leaves nothing.
   */
  ghost predicate Served(rows: Rows, m: Message, before: Run, after: Run) {
    && after.trace != [] && after.trace[..|after.trace| - 1] == before.trace
    && after.trace[|after.trace| - 1].message == m && Answers(rows, after.trace[|after.trace| - 1])
    && (forall key :: Gets(m, key) ==>
          && after.readSet == before.readSet[key := if key in rows then Some(rows[key].version) else None]
          && after.writeSet == before.writeSet)
    && (forall key :: Writes(m, key) ==>
          && after.readSet == before.readSet
          && after.writeSet == before.writeSet[key := if m.DelRequest? then Delete else Put(m.value)])
    && ((forall key :: !Gets(m, key) && !Writes(m, key)) ==>
          after.readSet == before.readSet && after.writeSet == before.writeSet)
  }

  lemma ServesStep(rows: Rows, run: Run, m: Message)
    requires !Final(m)
    ensures Served(rows, m, run, Step(rows, run, m))
  {
    Addresses(m);
    ReplyAnswers(rows, m);
    var next := Step(rows, run, m);
    assert next.trace == run.trace + [Exchange(m, ReplyTo(rows, m))];
    if forall key :: !Gets(m, key) && !Writes(m, key) {
      assert Addressed(m).Some? ==> !Gets(m, Addressed(m).value) && !Writes(m, Addressed(m).value);
    }
  }

  // ------------------------------------------------------------------------
  // The handler
  // ------------------------------------------------------------------------

  /** The stream to the chaincode: what it was told, and which sends fail. */
  class Stream {
    const code: Chaincode
    const startFails: bool
    const sendFails: nat -> bool
    var started: Option<Start>
    var trace: seq<Exchange>

    constructor (code: Chaincode, startFails: bool, sendFails: nat -> bool)
      ensures this.code == code && this.startFails == startFails && this.sendFails == sendFails && started == None
        && trace == []
    {
      this.code, this.startFails, this.sendFails, started, trace := code, startFails, sendFails, None, [];
    }

    /** sendTransaction. */
    method SendStart(start: Start) returns (ok: bool)
      modifies this`started
      ensures ok == !startFails && started == if ok then Some(start) else old(started)
    {
      ok := !startFails;
      if ok { started := Some(start); }
    }

    method Send(m: Message, reply: Reply) returns (ok: bool)
      modifies this`trace
      ensures ok == !sendFails(|old(trace)|)
      ensures trace == if ok then old(trace) + [Exchange(m, Some(reply))] else old(trace)
    {
      ok := !sendFails(|trace|);
      if ok { trace := trace + [Exchange(m, Some(reply))]; }
    }
  }

  class MessageHandler {
    const stream: Stream
    const state: ExecutionContext

    constructor (stream: Stream, state: ExecutionContext)
      ensures this.stream == stream && this.state == state
    {
      this.stream, this.state := stream, state;
    }

    ghost function Footprint(): set<object?> {
      {stream, state, state.reader}
    }

    /** The run so far, as captured. */
    ghost function Captured(): Run
      reads stream, state
    {
      Run(stream.trace, state.readSet, state.writeSet)
    }

    ghost predicate Ready()
      reads this, Footprint()
    {
      state.Valid() && !state.closed
    }

    /** No fault can occur: the deadline never passes, a view can be had, and no read or send fails. */
    ghost predicate Healthy(ctx: Context)
      reads this, Footprint()
    {
      && ctx.expiresAt.None? && state.reader != null && (state.queryView.Some? || Usable(state.reader.begins))
      && (forall n :: !state.reader.fails(n)) && (forall n :: !stream.sendFails(n)) && !stream.startFails
    }

    method HandleGetState(ctx: Context, m: Message) returns (ok: bool)
      requires Ready() && m.GetRequest?
      modifies Footprint(), ctx
      ensures stream.started == old(stream.started)
      ensures Ready() && state.Source() == old(state.Source()) && ctx.polls >= old(ctx.polls)
      ensures ok ==> |stream.trace| == |old(stream.trace)| + 1
      ensures old(state.readErr).Some? ==> state.readErr.Some?
      ensures ok && state.readErr.None? ==> Captured() == Step(state.Source(), old(Captured()), m)
      ensures old(Healthy(ctx)) && old(state.readErr).None? ==> ok && state.readErr.None? && Healthy(ctx)
      ensures ok && state.readErr.None? && m.get.Some? && m.get.value.collection == "" ==>
        var key, rows := m.get.value.key, state.Source();
        && stream.trace == old(stream.trace) + [Exchange(m, Some(Respond(if key in rows then rows[key].value else [])))]
        && state.readSet == old(state.readSet)[key := if key in rows then Some(rows[key].version) else None]
        && state.writeSet == old(state.writeSet)
    {
      if m.get.None? || m.get.value.collection != "" {
        ok := stream.Send(m, Refusal(m.get));
        return;
      }
      var answer := state.GetState(ctx, m.get.value.key);
      if answer.ReadFailed? {
        ok := stream.Send(m, RespondError(answer.reason));
        return;
      }
      ok := stream.Send(m, Respond(answer.value));
    }

    method HandlePutState(m: Message) returns (ok: bool)
      requires Ready() && m.PutRequest?
      modifies stream`trace, state
      ensures Ready() && state.Source() == old(state.Source())
      ensures ok ==> |stream.trace| == |old(stream.trace)| + 1
      ensures state.readErr == old(state.readErr)
      ensures ok ==> Captured() == Step(state.Source(), old(Captured()), m)
      ensures state.queryView == old(state.queryView) && ((forall n :: !stream.sendFails(n)) ==> ok)
      ensures ok && m.put.Some? && m.put.value.collection == "" ==>
        && stream.trace == old(stream.trace) + [Exchange(m, Some(Respond([])))]
        && state.readSet == old(state.readSet)
        && state.writeSet == old(state.writeSet)[m.put.value.key := Put(m.value)]
    {
      if m.put.None? || m.put.value.collection != "" {
        ok := stream.Send(m, Refusal(m.put));
        return;
      }
      state.PutState(m.put.value.key, m.value);
      ok := stream.Send(m, Respond([]));
    }

    method HandleDelState(m: Message) returns (ok: bool)
      requires Ready() && m.DelRequest?
      modifies stream`trace, state
      ensures Ready() && state.Source() == old(state.Source())
      ensures ok ==> |stream.trace| == |old(stream.trace)| + 1
      ensures state.readErr == old(state.readErr)
      ensures ok ==> Captured() == Step(state.Source(), old(Captured()), m)
      ensures state.queryView == old(state.queryView) && ((forall n :: !stream.sendFails(n)) ==> ok)
      ensures ok && m.del.Some? && m.del.value.collection == "" ==>
        && stream.trace == old(stream.trace) + [Exchange(m, Some(Respond([])))]
        && state.readSet == old(state.readSet)
        && state.writeSet == old(state.writeSet)[m.del.value.key := Delete]
    {
      if m.del.None? || m.del.value.collection != "" {
        ok := stream.Send(m, Refusal(m.del));
        return;
      }
      state.DelState(m.del.value.key);
      ok := stream.Send(m, Respond([]));
    }

    /** One message that does not end the invocation. */
    method Dispatch(ctx: Context, m: Message) returns (ok: bool)
      requires Ready() && !Final(m)
      modifies Footprint(), ctx
      ensures stream.started == old(stream.started)
      ensures Ready() && state.Source() == old(state.Source())
      ensures ok ==> |stream.trace| == |old(stream.trace)| + 1
      ensures old(state.readErr).Some? ==> state.readErr.Some?
      ensures ok && state.readErr.None? ==> Captured() == Step(state.Source(), old(Captured()), m)
      ensures old(Healthy(ctx)) && old(state.readErr).None? ==> ok && state.readErr.None? && Healthy(ctx)
    {
      match m
      case KeepAlive =>
        stream.trace := stream.trace + [Exchange(m, None)];
        ok := true;
      case GetRequest(_) => ok := HandleGetState(ctx, m);
      case PutRequest(_, _) => ok := HandlePutState(m);
      case DelRequest(_) => ok := HandleDelState(m);
      case Unsupported(kind) => ok := stream.Send(m, RespondError(kind));
    }

    /** completedResult, and the answer to an ERROR message. */
    method FinalResult(m: Message) returns (r: Option<ChaincodeResponse>)
      requires Final(m)
      ensures r == Outcome(m)
    {
      var event := if m.event.Some? then m.event.value.payload else [];
      var eventName := if m.event.Some? then m.event.value.name else "";
      match m
      case Failed(payload, _) => return Some(ChaincodeResponse(500, payload, payload, eventName, event));
      case Completed(response, _) =>
        if response.None? { return None; }
        return Some(ChaincodeResponse(response.value.status, response.value.message, response.value.payload, eventName,
                                      event));
    }

    /** INIT or TRANSACTION is sent, then messages are served until one ends the invocation. */
    method Execute(ctx: Context, start: Start) returns (r: Option<ChaincodeResponse>)
      requires Ready()
      modifies Footprint(), ctx
      ensures Ready() && state.Source() == old(state.Source())
      ensures r.Some? ==> stream.started == Some(start)
      ensures r.Some? && state.readErr.None? ==>
        Simulate(stream.code, start, state.Source(), old(Captured())) == (Captured(), r)
      ensures old(Healthy(ctx)) && old(state.readErr).None? ==>
        state.readErr.None? && Simulate(stream.code, start, state.Source(), old(Captured())) == (Captured(), r)
      ensures r.Some? && state.readErr.None? && old(Captured()) == FRESH_RUN ==>
        Ran(stream.code, start, state.Source(), Captured(), r)
    {
      SimulateRan(stream.code, start, state.Source());
      ghost var healthy := Healthy(ctx) && state.readErr.None?;
      ghost var before, source := Captured(), state.Source();
      var sent := stream.SendStart(start);
      if !sent { return None; }
      while true
        invariant Ready() && state.Source() == source && stream.started == Some(start)
        invariant healthy ==> Healthy(ctx) && state.readErr.None?
        invariant state.readErr.None? ==>
          Simulate(stream.code, start, source, before) == Simulate(stream.code, start, source, Captured())
        decreases stream.code.length - |stream.trace|
      {
        var canceled := ctx.Err();
        if canceled { return None; }
        var msg := Receive(stream.code, start, stream.trace);
        if msg.None? { return None; }
        if Final(msg.value) {
          r := FinalResult(msg.value);
          return;
        }
        ghost var reached := Captured();
        var ok := Dispatch(ctx, msg.value);
        if !ok { return None; }
        if state.readErr.None? {
          assert Captured() == Step(source, reached, msg.value);
        }
      }
    }
  }

  // ------------------------------------------------------------------------
  // Endorsing the result
  // ------------------------------------------------------------------------

  /**
   * What ProcessProposal returns: an error, a chaincode failure without
   * signature, or a response signed with its effects.
   */
  datatype Endorsement = Rejected | Unsigned(response: ChaincodeResponse) | Signed(response: ChaincodeResponse,
      rws: ReadWriteSet)

  predicate Succeeded(response: ChaincodeResponse) {
    200 <= response.status < 400
  }

  /** The committed state a fresh context of this reader works on. */
  ghost function View(reader: StateReader): Rows {
    if reader.begins.Some? then reader.shows(reader.begins.value) else map[]
  }

  /** ProcessProposal from the execution context on; the deferred Close runs on every path. */
  method ProcessProposal(reader: StateReader, code: Chaincode, start: Start, startFails: bool, sendFails: nat -> bool,
                         ctx: Context) returns (r: Endorsement)
    requires reader.begun == 0 && reader.ended == []
    modifies reader, ctx
    ensures reader.begun <= 1 && reader.ended == if reader.begun == 1 && Usable(reader.begins) then
      [reader.begins.value] else []
    ensures r.Unsigned? ==>
      Simulate(code, start, View(reader), FRESH_RUN).1 == Some(r.response) && !Succeeded(r.response)
    ensures r.Signed? ==>
              && var (run, response) := Simulate(code, start, View(reader), FRESH_RUN);
              && response == Some(r.response) && Succeeded(r.response)
              && Lists(r.rws.reads', run.readSet) && Lists(r.rws.writes, run.writeSet)
    ensures r.Unsigned? ==>
      && !(200 <= r.response.status < 400)
      && exists run :: Ran(code, start, View(reader), run, Some(r.response))
    ensures r.Signed? ==>
      && 200 <= r.response.status < 400
      && exists run :: Ran(code, start, View(reader), run, Some(r.response))
                       && Lists(r.rws.reads', run.readSet) && Lists(r.rws.writes, run.writeSet)
    ensures
      && ctx.expiresAt.None? && Usable(reader.begins) && !startFails
      && (forall n :: !reader.fails(n)) && (forall n :: !sendFails(n)) ==>
        (r.Rejected? <==> Simulate(code, start, View(reader), FRESH_RUN).1.None?)
  {
    SimulateRan(code, start, View(reader));
    var state := new ExecutionContext(reader, None);
    var stream := new Stream(code, startFails, sendFails);
    var handler := new MessageHandler(stream, state);
    var response := handler.Execute(ctx, start);
    r := Rejected;
    if response.Some? && state.readErr.None? {
      var rws := state.Result();
      r := if Succeeded(response.value) then Signed(response.value, rws) else Unsigned(response.value);
    }
    state.Close();
  }

  // ------------------------------------------------------------------------
  // What the captured sets say, and why they suffice
  // ------------------------------------------------------------------------

  lemma {:induction false} StepRecordsReads(rows: Rows, run: Run, m: Message)
    requires ReadsRecorded(rows, run) && !Final(m)
    ensures ReadsRecorded(rows, Step(rows, run, m))
  {
    var next, n := Step(rows, run, m), |run.trace|;
    forall k ensures k in next.readSet <==> exists i :: 0 <= i <= n && Gets(next.trace[i].message, k) {
      StepRecordsRead(rows, run, m, k);
    }
    ServesStep(rows, run, m);
  }

  lemma StepRecordsRead(rows: Rows, run: Run, m: Message, k: string)
    requires ReadsRecorded(rows, run) && !Final(m)
    ensures var next := Step(rows, run, m);
      && |next.trace| == |run.trace| + 1
      && (k in next.readSet <==> exists i :: 0 <= i <= |run.trace| && Gets(next.trace[i].message, k))
  {
    Addresses(m);
    var next, n := Step(rows, run, m), |run.trace|;
    assert next.trace[n].message == m;
    if k in run.readSet {
      var i :| 0 <= i < n && Gets(run.trace[i].message, k);
      assert Gets(next.trace[i].message, k);
    } else if k in next.readSet {
      assert Gets(next.trace[n].message, k);
    }
  }

  lemma {:induction false} StepRecordsWrites(rows: Rows, run: Run, m: Message)
    requires WritesRecorded(run) && !Final(m)
    ensures WritesRecorded(Step(rows, run, m))
  {
    ServesStep(rows, run, m);
    var next, n := Step(rows, run, m), |run.trace|;
    assert next.trace[n].message == m;
    forall k ensures k in next.writeSet <==> exists i :: 0 <= i <= n && Writes(next.trace[i].message, k) {
      if k in run.writeSet {
        var i :| 0 <= i < n && Writes(run.trace[i].message, k);
        assert Writes(next.trace[i].message, k);
      } else if k in next.writeSet {
        assert Writes(next.trace[n].message, k);
      }
    }
    forall k, i: nat | LastWriter(next.trace, i, k)
      ensures k in next.writeSet
      ensures next.writeSet[k] == if next.trace[i].message.DelRequest? then Delete else Put(next.trace[i].message.value)
    {
      if i < n { WroteEarlier(run.trace, next.trace, i, k); }
    }
  }

  lemma WroteEarlier(trace: seq<Exchange>, longer: seq<Exchange>, i: nat, key: string)
    requires |longer| == |trace| + 1 && longer[..|trace|] == trace && i < |trace| && LastWriter(longer, i, key)
    ensures LastWriter(trace, i, key) && !Writes(longer[|trace|].message, key) && longer[i] == trace[i]
  {
    forall j | i <= j < |trace| ensures longer[j] == trace[j] {
      assert longer[..|trace|][j] == longer[j];
    }
  }

  /** Every fault-free run records its exchanges. */
  lemma {:induction false} SimulateRecorded(code: Chaincode, start: Start, rows: Rows, run: Run)
    requires Recorded(rows, run)
    ensures Recorded(rows, Simulate(code, start, rows, run).0)
    decreases code.length - |run.trace|
  {
    var m := Receive(code, start, run.trace);
    if m.Some? && !Final(m.value) {
      ServesStep(rows, run, m.value);
      StepRecordsReads(rows, run, m.value);
      StepRecordsWrites(rows, run, m.value);
      SimulateRecorded(code, start, rows, Step(rows, run, m.value));
    }
  }

  /** It is the conversation the chaincode holds on these answers, to its end. */
  lemma {:induction false} SimulateConverses(code: Chaincode, start: Start, rows: Rows, run: Run)
    requires Conversation(code, start, run.trace)
    ensures var (ran, response) := Simulate(code, start, rows, run);
      Conversation(code, start, ran.trace) && Concludes(code, start, ran.trace, response)
    decreases code.length - |run.trace|
  {
    var m := Receive(code, start, run.trace);
    if m.Some? && !Final(m.value) {
      var next := Step(rows, run, m.value);
      forall i | 0 <= i < |next.trace| ensures Sends(code, start, next.trace, i) {
        assert i < |run.trace| ==> next.trace[..i] == run.trace[..i] && Sends(code, start, run.trace, i);
      }
      SimulateConverses(code, start, rows, next);
    }
  }

  lemma {:induction false} SimulateRan(code: Chaincode, start: Start, rows: Rows)
    ensures var (run, response) := Simulate(code, start, rows, FRESH_RUN); Ran(code, start, rows, run, response)
  {
    SimulateRecorded(code, start, rows, FRESH_RUN);
    SimulateConverses(code, start, rows, FRESH_RUN);
  }

  ghost predicate SameVersions(readSet: map<string, Option<nat>>, rows: Rows) {
    forall k | k in readSet :: readSet[k] == VersionIn(rows, k)
  }

  /** Versions of a key never repeat: one version, one value. */
  ghost predicate VersionsIdentifyValues(a: Rows, b: Rows) {
    forall k | k in a && k in b :: a[k].version == b[k].version ==> a[k].value == b[k].value
  }

  lemma {:induction false} ReadSetGrows(code: Chaincode, start: Start, rows: Rows, run: Run)
    ensures run.readSet.Keys <= Simulate(code, start, rows, run).0.readSet.Keys
    ensures SameVersions(run.readSet, rows) ==> SameVersions(Simulate(code, start, rows, run).0.readSet, rows)
    decreases code.length - |run.trace|
  {
    var m := Receive(code, start, run.trace);
    if m.Some? && !Final(m.value) {
      ReadSetGrows(code, start, rows, Step(rows, run, m.value));
    }
  }

  /**
   * Main result. If the read versions still match at commit time, invoking the
   * same chaincode, however it adapts, on the commit-time state tells it the
   * same and yields the same effects and response.
   */
  lemma {:induction false} ReplayAgrees(code: Chaincode, start: Start, rows: Rows, later: Rows, run: Run)
    requires SameVersions(run.readSet, rows) && VersionsIdentifyValues(rows, later)
    requires SameVersions(Simulate(code, start, rows, run).0.readSet, later)
    ensures Simulate(code, start, later, run) == Simulate(code, start, rows, run)
    decreases code.length - |run.trace|
  {
    var m := Receive(code, start, run.trace);
    if m.Some? && !Final(m.value) {
      var next := Step(rows, run, m.value);
      ReadSetGrows(code, start, rows, next);
      if m.value.GetRequest? && Addressed(m.value).Some? {
        var key := Addressed(m.value).value;
        assert key in Simulate(code, start, rows, next).0.readSet;
        assert VersionIn(later, key) == VersionIn(rows, key);
      }
      assert Step(later, run, m.value) == next;
      ReplayAgrees(code, start, rows, later, next);
    }
  }

  /** A committed endorsement acts as if invoked at its commit point, and its sets are those of that invocation. */
  lemma {:induction false} CommittedActsAtCommit(code: Chaincode, start: Start, rows: Rows, later: Rows,
                                                 rws: ReadWriteSet)
    requires Lists(rws.reads', Simulate(code, start, rows, FRESH_RUN).0.readSet)
      && Lists(rws.writes, Simulate(code, start, rows, FRESH_RUN).0.writeSet)
    requires VersionsIdentifyValues(rows, later)
    requires forall i :: 0 <= i < |rws.reads'| ==> rws.reads'[i].1 == VersionIn(later, rws.reads'[i].0)
    ensures Simulate(code, start, later, FRESH_RUN) == Simulate(code, start, rows, FRESH_RUN)
    ensures Lists(rws.reads', Simulate(code, start, later, FRESH_RUN).0.readSet)
      && Lists(rws.writes, Simulate(code, start, later, FRESH_RUN).0.writeSet)
    ensures Recorded(later, Simulate(code, start, later, FRESH_RUN).0)
  {
    var final := Simulate(code, start, rows, FRESH_RUN).0;
    ReadSetGrows(code, start, rows, FRESH_RUN);
    forall k | k in final.readSet ensures final.readSet[k] == VersionIn(later, k) {
      var i :| 0 <= i < |rws.reads'| && rws.reads'[i].0 == k;
    }
    ReplayAgrees(code, start, rows, later, FRESH_RUN);
    SimulateRecorded(code, start, later, FRESH_RUN);
  }
}
