/**
 * Committed chaincode events: decoding them from blocks, and replaying them
 * from a start block and after a checkpoint transaction
 * (compatibility_service/pkg/orchestrator/execution.go:779-894,
 * compatibility_service/pkg/orchestrator/service.go:1008-1036 and 1392-1482).
 */
module EventReplay {
  import opened Common
  import opened EnvelopeCriteria
  import opened GatewayEnvelope

  /** The native validation code COMMITTED. */
  const COMMITTED: int := 1

  /**
   * A block as delivered: its number if it has a header, its envelopes (None:
   * undecodable), its validation codes if present.
   */
  datatype Block = Block(number: Option<nat>, transactions: seq<Option<Bytes>>, filter: Option<seq<int>>)

  datatype Event = Event(chaincode: string, txID: TxID, name: string, payload: Bytes)

  // ------------------------------------------------------------------------
  // Decoding
  // ------------------------------------------------------------------------

  /** chaincodeEventFromTransaction. */
  function EventFromTransaction(tx: Tx, txID: TxID): Result<Option<Event>> {
    if tx.metadata == [] then Ok(None)
    else if !Canonical(tx.metadata[0]).OfMetadata? then Err("decode chaincode event metadata")
    else
      var m := Canonical(tx.metadata[0]).metadata;
      if m.eventName == "" && m.event == EMPTY_BYTES then Ok(None)
      else
        match IdentityFromMetadata(tx.metadata)
        case Err(reason) => Err(reason)
        case Ok(None) => Ok(Some(Event(if tx.namespaces == [] then ""
                                       else tx.namespaces[0].nsID, txID, m.eventName, m.event)))
        case Ok(Some(identity)) =>
          if |tx.namespaces| != 1 || identity.namespace != tx.namespaces[0].nsID then
            Err("event identity does not match the native namespace")
          else Ok(Some(Event(identity.name + ":" + identity.namespace, txID, m.eventName, m.event)))
  }

  /** The event of one committed envelope, if it has one that can be attributed. */
  function EventOf(raw: Option<Bytes>, channel: string): Result<Option<Event>> {
    if raw.None? then Err("decode committed envelope")
    else
      var payload := Canonical(raw.value);
      if !payload.OfPayload? || payload.payload.header.None? then Err("invalid payload/header")
      else
        var header := Canonical(payload.payload.header.value.channelHeader);
        if !header.OfChannelHeader? then Err("decode committed channel header")
        else if header.channelHeader.channelID != channel || header.channelHeader.kind != Message then Ok(None)
        else if !Canonical(payload.payload.data).OfTx? then Err("decode native transaction")
        else
          var tx := Canonical(payload.payload.data).tx;
          match IdentityFromMetadata(tx.metadata)
          case Err(reason) => Err(reason)
          case Ok(None) => Ok(None)
          case Ok(Some(identity)) =>
            if identity.channelID != channel then Err("signed event channel does not match committed envelope")
            else if header.channelHeader.txID == Named("") then Err("committed event transaction has no ID")
            else EventFromTransaction(tx, header.channelHeader.txID)
  }

  /** A committed envelope that can be read: its channel header and its data. */
  ghost predicate Reads(raw: Option<Bytes>, channel: ChannelHeader, data: Bytes) {
    && raw.Some? && Canonical(raw.value).OfPayload? && Canonical(raw.value).payload.header.Some?
    && Canonical(Canonical(raw.value).payload.header.value.channelHeader) == OfChannelHeader(channel)
    && data == Canonical(Canonical(raw.value).payload.data)
  }

  /** The envelope is a transaction of this channel by this identified chaincode. */
  ghost predicate IsTransaction(raw: Option<Bytes>, channel: string, txID: TxID, id: ChaincodeIdentity, tx: Tx) {
    && txID != Named("") && id.channelID == channel && Identifies(tx.metadata, Some(id))
    && exists header :: Reads(raw, header, OfTx(tx)) && header.channelID == channel && header.kind == Message
                        && header.txID == txID
  }

  /** The identified transaction carries this event, under its own identity, with the name and payload endorsed. */
  ghost predicate Tells(tx: Tx, id: ChaincodeIdentity, e: Event) {
    && tx.metadata != [] && Canonical(tx.metadata[0]).OfMetadata?
    && |tx.namespaces| == 1 && tx.namespaces[0].nsID == id.namespace
    && var m := Canonical(tx.metadata[0]).metadata;
    && (m.eventName != "" || m.event != Raw([]))
    && e.chaincode == id.name + ":" + id.namespace && e.name == m.eventName && e.payload == m.event
  }

  ghost predicate TellsNothing(tx: Tx) {
    && tx.metadata != [] && Canonical(tx.metadata[0]).OfMetadata?
    && Canonical(tx.metadata[0]).metadata.eventName == "" && Canonical(tx.metadata[0]).metadata.event == Raw([])
  }

  ghost predicate Announces(raw: Option<Bytes>, channel: string, e: Event) {
    exists id, tx :: IsTransaction(raw, channel, e.txID, id, tx) && Tells(tx, id, e)
  }

  /** It has no event to report: not a transaction of this channel, without identity, or without event. */
  ghost predicate Silent(raw: Option<Bytes>, channel: string) {
    || (exists header, data :: Reads(raw, header, data) && (header.channelID != channel || header.kind != Message))
    || (exists header, tx :: Reads(raw, header, OfTx(tx)) && Identifies(tx.metadata, None))
    || (exists txID, id, tx :: IsTransaction(raw, channel, txID, id, tx) && TellsNothing(tx))
  }

  lemma EventFromIdentified(tx: Tx, txID: TxID, id: ChaincodeIdentity)
    requires Identifies(tx.metadata, Some(id))
    ensures forall e: Event :: EventFromTransaction(tx, txID) == Ok(Some(e)) <==> e.txID == txID && Tells(tx, id, e)
    ensures EventFromTransaction(tx, txID) == Ok(None) <==> TellsNothing(tx)
  {
    IdentityIsTheRecord(tx.metadata);
  }

  /** The one transaction an envelope can be, once it is read. */
  ghost predicate IsThis(channel: string, header: ChannelHeader, data: Bytes, id: ChaincodeIdentity) {
    && header.channelID == channel && header.kind == Message && header.txID != Named("") && data.OfTx?
    && Identifies(data.tx.metadata, Some(id)) && id.channelID == channel
  }

  lemma TransactionRead(raw: Option<Bytes>, channel: string, header: ChannelHeader, data: Bytes)
    requires Reads(raw, header, data)
    ensures forall txID, id, tx :: IsTransaction(raw, channel, txID, id, tx) <==>
      txID == header.txID && data == OfTx(tx) && IsThis(channel, header, data, id)
  {
  }

  /** What is read from an envelope, given its header, its data and the identity among its metadata. */
  lemma EventOfRead(raw: Option<Bytes>, channel: string, header: ChannelHeader, data: Bytes)
    requires Reads(raw, header, data)
    ensures forall e: Event :: EventOf(raw, channel) == Ok(Some(e)) <==> exists id ::
      IsThis(channel, header, data, id) && e.txID == header.txID && Tells(data.tx, id, e)
    ensures EventOf(raw, channel) == Ok(None) <==>
      || header.channelID != channel || header.kind != Message
      || (data.OfTx? && Identifies(data.tx.metadata, None))
      || exists id :: IsThis(channel, header, data, id) && TellsNothing(data.tx)
  {
    if header.channelID == channel && header.kind == Message && data.OfTx? {
      var identity := IdentityFromMetadata(data.tx.metadata);
      if identity.Ok? && identity.value.Some? {
        EventOfTransaction(raw, channel, header, data.tx, identity.value.value);
      } else {
        EventOfUnidentified(raw, channel, header, data.tx);
      }
    }
  }

  lemma EventOfUnidentified(raw: Option<Bytes>, channel: string, header: ChannelHeader, tx: Tx)
    requires Reads(raw, header, OfTx(tx)) && header.channelID == channel && header.kind == Message
    requires !(IdentityFromMetadata(tx.metadata).Ok? && IdentityFromMetadata(tx.metadata).value.Some?)
    ensures forall id :: !IsThis(channel, header, OfTx(tx), id)
    ensures forall e: Event :: EventOf(raw, channel) != Ok(Some(e))
    ensures EventOf(raw, channel) == Ok(None) <==> Identifies(tx.metadata, None)
  {
    IdentityIsTheRecord(tx.metadata);
  }

  lemma EventOfTransaction(raw: Option<Bytes>, channel: string, header: ChannelHeader, tx: Tx, id: ChaincodeIdentity)
    requires Reads(raw, header, OfTx(tx)) && header.channelID == channel && header.kind == Message
    requires IdentityFromMetadata(tx.metadata) == Ok(Some(id))
    ensures forall other :: IsThis(channel, header, OfTx(tx), other) <==>
      other == id && id.channelID == channel && header.txID != Named("")
    ensures IsThis(channel, header, OfTx(tx), id) ==> EventOf(raw, channel) == EventFromTransaction(tx, header.txID)
    ensures !IsThis(channel, header, OfTx(tx), id) ==> EventOf(raw, channel).Err?
    ensures forall e: Event :: EventFromTransaction(tx, header.txID) == Ok(Some(e)) <==>
      e.txID == header.txID && Tells(tx, id, e)
    ensures EventFromTransaction(tx, header.txID) == Ok(None) <==> TellsNothing(tx)
    ensures !Identifies(tx.metadata, None)
  {
    IdentityIsTheRecord(tx.metadata);
    EventFromIdentified(tx, header.txID, id);
  }

  lemma SilentRead(raw: Option<Bytes>, channel: string, header: ChannelHeader, data: Bytes)
    requires Reads(raw, header, data)
    ensures Silent(raw, channel) <==>
      || header.channelID != channel || header.kind != Message
      || (data.OfTx? && Identifies(data.tx.metadata, None))
      || exists id :: IsThis(channel, header, data, id) && TellsNothing(data.tx)
  {
    TransactionRead(raw, channel, header, data);
    if id :| IsThis(channel, header, data, id) && TellsNothing(data.tx) {
      assert IsTransaction(raw, channel, header.txID, id, data.tx);
    }
  }

  lemma AnnouncedRead(raw: Option<Bytes>, channel: string, header: ChannelHeader, data: Bytes, e: Event)
    requires Reads(raw, header, data)
    ensures Announces(raw, channel, e) <==> exists id ::
      IsThis(channel, header, data, id) && e.txID == header.txID && Tells(data.tx, id, e)
  {
    TransactionRead(raw, channel, header, data);
    if id :| IsThis(channel, header, data, id) && e.txID == header.txID && Tells(data.tx, id, e) {
      assert IsTransaction(raw, channel, e.txID, id, data.tx);
    }
  }

  /** An event is read from exactly the envelopes that announce it, and none from exactly the silent ones. */
  lemma EventIsAnnounced(raw: Option<Bytes>, channel: string)
    ensures forall e :: EventOf(raw, channel) == Ok(Some(e)) <==> Announces(raw, channel, e)
    ensures EventOf(raw, channel) == Ok(None) <==> Silent(raw, channel)
  {
    if header, data :| Reads(raw, header, data) {
      EventOfRead(raw, channel, header, data);
      SilentRead(raw, channel, header, data);
      forall e ensures EventOf(raw, channel) == Ok(Some(e)) <==> Announces(raw, channel, e) {
        AnnouncedRead(raw, channel, header, data, e);
      }
    } else {
      UnreadableFails(raw, channel);
    }
  }

  lemma UnreadableFails(raw: Option<Bytes>, channel: string)
    requires forall header, data :: !Reads(raw, header, data)
    ensures EventOf(raw, channel).Err? && !Silent(raw, channel) && forall e :: !Announces(raw, channel, e)
  {
    if raw.Some? && Canonical(raw.value).OfPayload? && Canonical(raw.value).payload.header.Some?
      && Canonical(Canonical(raw.value).payload.header.value.channelHeader).OfChannelHeader? {
      assert Reads(raw, Canonical(Canonical(raw.value).payload.header.value.channelHeader).channelHeader,
                   Canonical(Canonical(raw.value).payload.data));
    }
  }

  /** The events of the first n transactions, committed ones only. */
  function EventsUpTo(transactions: seq<Option<Bytes>>, filter: seq<int>, channel: string, n: nat): Result<seq<Event>>
    requires n <= |transactions| == |filter|
  {
    if n == 0 then Ok([])
    else
      match EventsUpTo(transactions, filter, channel, n - 1)
      case Err(reason) => Err(reason)
      case Ok(events) =>
        if filter[n - 1] != COMMITTED then Ok(events)
        else
          match EventOf(transactions[n - 1], channel)
          case Err(reason) => Err(reason)
          case Ok(None) => Ok(events)
          case Ok(Some(event)) => Ok(events + [event])
  }

  function EventsOf(block: Block, channel: string): Result<seq<Event>> {
    if block.number.None? then Err("committed block has no header")
    else if block.transactions == [] then Ok([])
    else if block.filter.None? || |block.filter.value| != |block.transactions| then
      Err("inconsistent transaction validation codes")
    else EventsUpTo(block.transactions, block.filter.value, channel, |block.transactions|)
  }

  /** The event of the transaction can be told, if it is committed. */
  ghost predicate Tellable(transactions: seq<Option<Bytes>>, filter: seq<int>, channel: string, i: nat)
    requires i < |transactions| == |filter|
  {
    filter[i] == COMMITTED ==> EventOf(transactions[i], channel).Ok?
  }

  lemma {:induction false} EventsUpToTellable(transactions: seq<Option<Bytes>>, filter: seq<int>, channel: string,
                                              n: nat)
    requires n <= |transactions| == |filter|
    ensures EventsUpTo(transactions, filter, channel, n).Ok? <==>
      forall i :: 0 <= i < n ==> Tellable(transactions, filter, channel, i)
  {
    if n > 0 {
      EventsUpToTellable(transactions, filter, channel, n - 1);
      assert EventsUpTo(transactions, filter, channel, n).Ok? <==>
        EventsUpTo(transactions, filter, channel, n - 1).Ok? && Tellable(transactions, filter, channel, n - 1);
    }
  }

  /**
   * A block is refused exactly if it has no header, or its validation codes do not
   * fit its transactions, or a committed transaction cannot be read.
   */
  lemma BlockIsReadable(block: Block, channel: string)
    ensures EventsOf(block, channel).Ok? <==>
      && block.number.Some?
      && (block.transactions == []
          || (block.filter.Some? && |block.filter.value| == |block.transactions|
              && forall i :: 0 <= i < |block.transactions| ==>
                   Tellable(block.transactions, block.filter.value, channel, i)))
  {
    if block.filter.Some? && |block.filter.value| == |block.transactions| {
      EventsUpToTellable(block.transactions, block.filter.value, channel, |block.transactions|);
    }
  }

  lemma {:induction false} ErrorStays(transactions: seq<Option<Bytes>>, filter: seq<int>, channel: string, n: nat,
                                      k: nat)
    requires n <= k <= |transactions| == |filter| && EventsUpTo(transactions, filter, channel, n).Err?
    ensures EventsUpTo(transactions, filter, channel, k) == EventsUpTo(transactions, filter, channel, n)
  {
    if n < k {
      ErrorStays(transactions, filter, channel, n, k - 1);
    }
  }

  method CommittedChaincodeEvents(block: Block, channel: string) returns (r: Result<seq<Event>>)
    ensures r == EventsOf(block, channel)
  {
    if block.number.None? { return Err("committed block has no header"); }
    if |block.transactions| == 0 { return Ok([]); }
    if block.filter.None?
        || |block.filter.value| != |block.transactions| { return Err("inconsistent transaction validation codes"); }
    var filter := block.filter.value;
    var events: seq<Event> := [];
    for i := 0 to |block.transactions|
      invariant EventsUpTo(block.transactions, filter, channel, i) == Ok(events)
    {
      if filter[i] != COMMITTED { continue; }
      var event := EventOf(block.transactions[i], channel);
      if event.Err? {
        ErrorStays(block.transactions, filter, channel, i + 1, |block.transactions|);
        return Err(event.reason);
      }
      if event.value.Some? { events := events + [event.value.value]; }
    }
    r := Ok(events);
  }

  /** Exactly the committed transactions that yield an event contribute, in block order. */
  lemma {:induction false} EventsAreCommitted(transactions: seq<Option<Bytes>>, filter: seq<int>, channel: string,
                                              n: nat, e: Event)
    requires n <= |transactions| == |filter| && EventsUpTo(transactions, filter, channel, n).Ok?
    ensures e in EventsUpTo(transactions, filter, channel, n).value <==>
              exists i :: 0 <= i < n && filter[i] == COMMITTED && EventOf(transactions[i], channel) == Ok(Some(e))
  {
    if n > 0 {
      EventsAreCommitted(transactions, filter, channel, n - 1, e);
      var before := EventsUpTo(transactions, filter, channel, n - 1).value;
      if filter[n - 1] == COMMITTED && EventOf(transactions[n - 1], channel) == Ok(Some(e)) {
        assert e in EventsUpTo(transactions, filter, channel, n).value;
      } else {
        assert e in EventsUpTo(transactions, filter, channel, n).value <==> e in before;
      }
    }
  }

  // ------------------------------------------------------------------------
  // What a subscriber should receive
  // ------------------------------------------------------------------------

  /** What follows the checkpoint, and whether it is still to come. */
  function After(previous: Option<TxID>, events: seq<Event>): (Option<TxID>, seq<Event>) {
    if previous.None? then (None, events)
    else if events == [] then (previous, [])
    else if events[0].txID == previous.value then (None, events[1..])
    else After(previous, events[1..])
  }

  function Matching(events: seq<Event>, chaincode: string): seq<Event> {
    if events == [] then []
    else (if events[0].chaincode == chaincode then [events[0]] else []) + Matching(events[1..], chaincode)
  }

  lemma {:induction false} AfterConcat(previous: Option<TxID>, a: seq<Event>, b: seq<Event>)
    ensures var (mid, x) := After(previous, a); var (end, y) := After(mid, b); After(previous, a + b) == (end, x + y)
  {
    if previous.None? {
    } else if a == [] {
      assert a + b == b && [] + After(previous, b).1 == After(previous, b).1;
    } else {
      assert (a + b)[1..] == a[1..] + b;
      if a[0].txID != previous.value { AfterConcat(previous, a[1..], b); }
    }
  }

  lemma {:induction false} MatchingConcat(a: seq<Event>, b: seq<Event>, chaincode: string)
    ensures Matching(a + b, chaincode) == Matching(a, chaincode) + Matching(b, chaincode)
  {
    if a == [] {
      assert a + b == b;
    } else {
      assert (a + b)[1..] == a[1..] + b;
      MatchingConcat(a[1..], b, chaincode);
      var first, x, y := if a[0].chaincode == chaincode then [a[0]]
        else [], Matching(a[1..], chaincode), Matching(b, chaincode);
      assert first + (x + y) == (first + x) + y;
    }
  }

  /** The events of the blocks from `start` on. */
  function EventsFrom(blocks: seq<Block>, start: nat, channel: string): seq<Event> {
    if blocks == [] then []
    else
      var last := blocks[|blocks| - 1];
      EventsFrom(blocks[..|blocks| - 1], start, channel)
      + if last.number.Some? && last.number.value >= start && EventsOf(last, channel).Ok? then
        EventsOf(last, channel).value else []
  }

  // ------------------------------------------------------------------------
  // The subscription
  // ------------------------------------------------------------------------

  datatype Delivery = Delivery(blockNumber: nat, events: seq<Event>)

  function AllEvents(sent: seq<Delivery>): seq<Event> {
    if sent == [] then [] else AllEvents(sent[..|sent| - 1]) + sent[|sent| - 1].events
  }

  /** Deliveries carry events of their own block and are in increasing block order, never empty. */
  ghost predicate WellNumbered(sent: seq<Delivery>, blocks: seq<Block>, channel: string) {
    && (forall i, j :: 0 <= i < j < |sent| ==> sent[i].blockNumber < sent[j].blockNumber)
    && (forall i :: 0 <= i < |sent| ==> sent[i].events != [] && FromItsBlock(sent[i], blocks, channel))
  }

  ghost predicate FromItsBlock(d: Delivery, blocks: seq<Block>, channel: string) {
    exists b :: b in blocks && b.number == Some(d.blockNumber) && EventsOf(b, channel).Ok?
        && forall e | e in d.events :: e in EventsOf(b, channel).value
  }

  /** With this checkpoint still sought and these deliveries sent, the blocks have been dealt with. */
  ghost predicate Served(checkpoint: Option<TxID>, blocks: seq<Block>, start: nat, channel: string, chaincode: string,
                         previous: Option<TxID>, sent: seq<Delivery>) {
    && After(checkpoint, EventsFrom(blocks, start, channel)).0 == previous
    && AllEvents(sent) == Matching(After(checkpoint, EventsFrom(blocks, start, channel)).1, chaincode)
    && WellNumbered(sent, blocks, channel)
  }

  datatype Stop = EndOfStream | StatusOnly | OutOfSequence | Malformed | SendFailed | LastBlock

  /** The stream of one subscriber and the variables its callback captures. */
  class Subscription {
    const channel: string
    const chaincode: string
    const start: nat
    const sendFails: nat -> bool
    var previous: Option<TxID>
    var sent: seq<Delivery>

    constructor (channel: string, chaincode: string, start: nat, previous: Option<TxID>, sendFails: nat -> bool)
      ensures this.channel == channel && this.chaincode == chaincode && this.start == start
      ensures this.previous == previous && this.sendFails == sendFails && sent == []
    {
      this.channel, this.chaincode, this.start, this.sendFails := channel, chaincode, start, sendFails;
      this.previous, sent := previous, [];
    }

    ghost predicate HasServed(checkpoint: Option<TxID>, blocks: seq<Block>)
      reads this
    {
      Served(checkpoint, blocks, start, channel, chaincode, previous, sent)
    }

    /** The loop of the callback over the events of one block. */
    method Filter(events: seq<Event>) returns (matching: seq<Event>)
      modifies this`previous
      ensures previous == After(old(previous), events).0
      ensures matching == Matching(After(old(previous), events).1, chaincode)
    {
      matching := [];
      ghost var checkpoint := previous;
      for i := 0 to |events|
        invariant previous == After(checkpoint, events[..i]).0
        invariant matching == Matching(After(checkpoint, events[..i]).1, chaincode)
      {
        var event := events[i];
        assert events[..i + 1] == events[..i] + [event];
        AfterConcat(checkpoint, events[..i], [event]);
        assert After(previous, [event]) == if previous.None? then (None, [event])
          else if event.txID == previous.value then (None, []) else (previous, []) by {
          assert [event][1..] == [];
        }
        MatchingConcat(After(checkpoint, events[..i]).1, After(previous, [event]).1, chaincode);
        assert Matching([event], chaincode) == if event.chaincode == chaincode then [event] else [];
        if previous.Some? {
          if event.txID == previous.value { previous := None; }
          continue;
        }
        if event.chaincode == chaincode { matching := matching + [event]; }
      }
      assert events[..|events|] == events;
    }

    /** The callback for one block. */
    method Visit(block: Block, ghost checkpoint: Option<TxID>, ghost blocks: seq<Block>) returns (stop: Option<Stop>)
      requires HasServed(checkpoint, blocks) && block.number.Some?
      requires forall b | b in blocks :: b.number.Some? && b.number.value < block.number.value
      modifies this`previous, this`sent
      ensures stop.None? ==> HasServed(checkpoint, blocks + [block])
      ensures stop.None? && block.number.value >= start ==> EventsOf(block, channel).Ok?
      ensures stop.Some? ==> sent == old(sent) && (stop.value.Malformed? || stop.value.SendFailed?)
      ensures stop == Some(Malformed) ==> block.number.value >= start && EventsOf(block, channel).Err?
      ensures stop == Some(SendFailed) ==> sendFails(|sent|)
    {
      if block.number.value < start {
        ServesEarlier(checkpoint, blocks, start, channel, chaincode, previous, sent, block);
        return None;
      }
      var events := CommittedChaincodeEvents(block, channel);
      if events.Err? { return Some(Malformed); }
      ghost var before := previous;
      var matching := Filter(events.value);
      ServesNext(checkpoint, blocks, start, channel, chaincode, before, sent, block);
      if |matching| == 0 { return None; }
      if sendFails(|sent|) { return Some(SendFailed); }
      sent := sent + [Delivery(block.number.value, matching)];
      stop := None;
    }

    /** The visited blocks are an unbroken, readable run of responses and have been dealt with. */
    ghost predicate Progress(checkpoint: Option<TxID>, visited: seq<Block>, from: nat, responses: seq<Option<Block>>)
      reads this
    {
      Contiguous(visited, from, responses) && HasServed(checkpoint, visited) && Decoded(visited, start, channel)
    }

    /** One received response, `expected` being the next block number. */
    method Receive(from: nat, expected: nat, responses: seq<Option<Block>>, ghost checkpoint: Option<TxID>,
                   ghost visited: seq<Block>)
      returns (stop: Option<Stop>)
      requires Progress(checkpoint, visited, from, responses) && expected == from + |visited| && |visited| < |responses|
      modifies this`previous, this`sent
      ensures stop.None? ==>
        responses[|visited|].Some? && Progress(checkpoint, visited + [responses[|visited|].value], from, responses)
      ensures stop.Some? ==>
        Justifies(stop.value, from, responses, |visited|, start, channel, sendFails(|sent|)) && sent == old(sent)
    {
      var response := responses[expected - from];
      if response.None? { return Some(StatusOnly); }
      if response.value.number != Some(expected) { return Some(OutOfSequence); }
      stop := Visit(response.value, checkpoint, visited);
      if stop.None? {
        ContiguousNext(visited, from, responses, start, channel);
      }
    }

    /** streamCommittedBlocks with this callback, over what the delivery stream yields before it ends. */
    method StreamCommittedBlocks(from: nat, responses: seq<Option<Block>>)
      returns (stop: Stop, ghost visited: seq<Block>)
      requires from <= MAX_UINT64 && sent == []
      modifies this`previous, this`sent
      ensures Contiguous(visited, from, responses)
      ensures AllEvents(sent) == Matching(After(old(previous), EventsFrom(visited, start, channel)).1, chaincode)
      ensures WellNumbered(sent, visited, channel)
      ensures Decoded(visited, start, channel)
      ensures Justifies(stop, from, responses, |visited|, start, channel, sendFails(|sent|))
    {
      ghost var checkpoint := previous;
      var expected := from;
      visited := [];
      while true
        invariant from <= expected <= MAX_UINT64 && expected == from + |visited|
        invariant Progress(checkpoint, visited, from, responses)
        decreases |responses| - |visited|
      {
        if expected - from == |responses| { return EndOfStream, visited; }
        var failed := Receive(from, expected, responses, checkpoint, visited);
        if failed.Some? { return failed.value, visited; }
        visited := visited + [responses[expected - from].value];
        if expected == MAX_UINT64 { return LastBlock, visited; }
        expected := expected + 1;
      }
    }
  }

  /** The stream stopped after n blocks for the stated reason and no earlier. */
  ghost predicate Justifies(stop: Stop, from: nat, responses: seq<Option<Block>>, n: nat, start: nat, channel: string,
                            sendFails: bool) {
    n <= |responses| &&
    match stop
    case EndOfStream => n == |responses|
    case StatusOnly => n < |responses| && responses[n].None?
    case OutOfSequence => n < |responses| && responses[n].Some? && responses[n].value.number != Some(from + n)
    case Malformed =>
      && n < |responses| && responses[n].Some? && responses[n].value.number == Some(from + n) && from + n >= start
      && EventsOf(responses[n].value, channel).Err?
    case SendFailed => n < |responses| && sendFails
    case LastBlock => from + n == MAX_UINT64 + 1
  }

  /** The visited blocks are the first responses, numbered from `from` without a gap. */
  ghost predicate Contiguous(visited: seq<Block>, from: nat, responses: seq<Option<Block>>) {
    && |visited| <= |responses|
    && (forall i :: 0 <= i < |visited| ==> responses[i] == Some(visited[i]) && visited[i].number == Some(from + i))
    && (forall b | b in visited :: b.number.Some? && from <= b.number.value < from + |visited|)
  }

  /** Every visited block from the start on could be decoded. */
  ghost predicate Decoded(visited: seq<Block>, start: nat, channel: string) {
    forall b | b in visited && b.number.Some? && b.number.value >= start :: EventsOf(b, channel).Ok?
  }

  lemma {:induction false} ContiguousNext(visited: seq<Block>, from: nat, responses: seq<Option<Block>>, start: nat,
                                          channel: string)
    requires Contiguous(visited, from, responses) && Decoded(visited, start, channel)
    requires |visited| < |responses| && responses[|visited|].Some?
      && responses[|visited|].value.number == Some(from + |visited|)
    requires from + |visited| >= start ==> EventsOf(responses[|visited|].value, channel).Ok?
    ensures Contiguous(visited + [responses[|visited|].value], from, responses)
    ensures Decoded(visited + [responses[|visited|].value], start, channel)
  {
  }

  /** A block before the start changes nothing. */
  lemma {:induction false} ServesEarlier(checkpoint: Option<TxID>, blocks: seq<Block>, start: nat, channel: string,
                                         chaincode: string,
                                         previous: Option<TxID>, sent: seq<Delivery>, block: Block)
    requires Served(checkpoint, blocks, start, channel, chaincode, previous, sent)
    requires block.number.Some? && block.number.value < start
    ensures Served(checkpoint, blocks + [block], start, channel, chaincode, previous, sent)
  {
    assert (blocks + [block])[..|blocks|] == blocks;
    assert EventsFrom(blocks, start, channel) + [] == EventsFrom(blocks, start, channel);
    StillNumbered(sent, blocks, block, channel);
  }

  lemma {:induction false} StillNumbered(sent: seq<Delivery>, blocks: seq<Block>, block: Block, channel: string)
    requires WellNumbered(sent, blocks, channel)
    ensures WellNumbered(sent, blocks + [block], channel)
  {
    forall i | 0 <= i < |sent| ensures FromItsBlock(sent[i], blocks + [block], channel) {
      assert FromItsBlock(sent[i], blocks, channel);
      var b :| b in blocks && b.number == Some(sent[i].blockNumber) && EventsOf(b, channel).Ok?
               && forall e | e in sent[i].events :: e in EventsOf(b, channel).value;
      assert b in blocks + [block];
    }
  }

  function Extended(sent: seq<Delivery>, number: nat, matching: seq<Event>): seq<Delivery> {
    if matching == [] then sent else sent + [Delivery(number, matching)]
  }

  lemma {:induction false} NumberedNext(sent: seq<Delivery>, blocks: seq<Block>, block: Block, channel: string,
                                        matching: seq<Event>)
    requires WellNumbered(sent, blocks, channel)
    requires block.number.Some? && EventsOf(block, channel).Ok? && forall e | e in matching ::
      e in EventsOf(block, channel).value
    requires forall b | b in blocks :: b.number.Some? && b.number.value < block.number.value
    ensures WellNumbered(Extended(sent, block.number.value, matching), blocks + [block], channel)
  {
    StillNumbered(sent, blocks, block, channel);
    var more := Extended(sent, block.number.value, matching);
    forall i | 0 <= i < |sent| ensures sent[i].blockNumber < block.number.value {
      assert FromItsBlock(sent[i], blocks, channel);
    }
    forall i | 0 <= i < |more| ensures FromItsBlock(more[i], blocks + [block], channel) {
      if i == |sent| {
        assert block in blocks + [block];
      } else {
        assert FromItsBlock(sent[i], blocks + [block], channel);
      }
    }
  }

  /** Filtering the next block's events and sending what is left keeps the subscription on course. */
  lemma {:induction false} ServesNext(checkpoint: Option<TxID>, blocks: seq<Block>, start: nat, channel: string,
                                      chaincode: string,
                                      previous: Option<TxID>, sent: seq<Delivery>, block: Block)
    requires Served(checkpoint, blocks, start, channel, chaincode, previous, sent)
    requires block.number.Some? && block.number.value >= start && EventsOf(block, channel).Ok?
    requires forall b | b in blocks :: b.number.Some? && b.number.value < block.number.value
    ensures var (previous', added) := After(previous, EventsOf(block, channel).value);
      Served(checkpoint, blocks + [block], start, channel, chaincode, previous',
             Extended(sent, block.number.value, Matching(added, chaincode)))
  {
    var sofar, events := EventsFrom(blocks, start, channel), EventsOf(block, channel).value;
    assert EventsFrom(blocks + [block], start, channel)
        == sofar + events by { assert (blocks + [block])[..|blocks|] == blocks; }
    var (previous', added) := After(previous, events);
    AfterConcat(checkpoint, sofar, events);
    MatchingConcat(After(checkpoint, sofar).1, added, chaincode);
    MatchingComesFrom(previous, events, chaincode);
    var matching := Matching(added, chaincode);
    NumberedNext(sent, blocks, block, channel, matching);
    assert AllEvents(Extended(sent, block.number.value, matching)) == AllEvents(sent) + matching by {
      if matching == [] {
        assert AllEvents(sent) + [] == AllEvents(sent);
      } else {
        assert (sent + [Delivery(block.number.value, matching)])[..|sent|] == sent;
      }
    }
  }

  lemma {:induction false} MatchingComesFrom(previous: Option<TxID>, events: seq<Event>, chaincode: string)
    ensures forall e | e in Matching(After(previous, events).1, chaincode) :: e in events && e.chaincode == chaincode
    decreases events
  {
    if events != [] {
      if previous.None? || events[0].txID == previous.value {
        MatchingComesFrom(None, events[1..], chaincode);
      } else {
        MatchingComesFrom(previous, events[1..], chaincode);
      }
    }
  }

  // ------------------------------------------------------------------------
  // Replay on one ledger
  // ------------------------------------------------------------------------

  /** Blocks numbered from 0. */
  ghost predicate Ledger(ledger: seq<Block>) {
    forall i :: 0 <= i < |ledger| ==> ledger[i].number == Some(i)
  }

  predicate HasEvent(events: seq<Event>, txID: TxID) {
    exists i | 0 <= i < |events| :: events[i].txID == txID
  }

  /** After a checkpoint: everything behind its first event; before it appears, nothing. */
  lemma {:induction false} AfterIsSuffix(events: seq<Event>, txID: TxID) returns (i: nat)
    ensures HasEvent(events, txID) ==>
      i < |events| && events[i].txID == txID && !HasEvent(events[..i], txID)
          && After(Some(txID), events) == (None, events[i + 1..])
    ensures !HasEvent(events, txID) ==> After(Some(txID), events) == (Some(txID), [])
    decreases events
  {
    i := 0;
    if events != [] && events[0].txID != txID {
      i := AfterIsSuffix(events[1..], txID);
      i := i + 1;
      if HasEvent(events, txID) {
        assert HasEvent(events[1..], txID);
        assert events[1..][i - 1] == events[i] && events[1..][i..] == events[i + 1..];
        forall k | 0 <= k < i ensures events[k].txID != txID {
          if k > 0 { assert events[1..][..i - 1][k - 1].txID != txID; }
        }
      } else {
        forall k | 0 <= k < |events[1..]| ensures events[1..][k].txID != txID {
          assert events[1..][k] == events[k + 1];
        }
      }
    }
  }

  /** Where a transaction stands on the ledger. */
  datatype Position = Position(block: nat, tx: nat)

  predicate Before(p: Position, q: Position) {
    p.block < q.block || (p.block == q.block && p.tx < q.tx)
  }

  /** The transaction at this position is committed and yields this event. */
  ghost predicate Yields(ledger: seq<Block>, channel: string, p: Position, e: Event) {
    && p.block < |ledger| && YieldsIn(ledger[p.block], channel, p.tx, e)
  }

  ghost predicate YieldsIn(block: Block, channel: string, tx: nat, e: Event) {
    && tx < |block.transactions| && block.filter.Some? && tx < |block.filter.value|
    && block.filter.value[tx] == COMMITTED && EventOf(block.transactions[tx], channel) == Ok(Some(e))
  }

  /**
   * The events stand at these positions, which are in ledger order, between `from`
   * and the end of block `until - 1`, and are all the positions there that yield
   * an event of the chaincode (of any, for None).
   */
  ghost predicate ListedAt(ledger: seq<Block>, channel: string, chaincode: Option<string>, from: Position, until: nat,
                           events: seq<Event>, at: seq<Position>) {
    && |at| == |events|
    && (forall i, j :: 0 <= i < j < |at| ==> Before(at[i], at[j]))
    && (forall i :: 0 <= i < |at| ==> Yields(ledger, channel, at[i], events[i])
                                      && Within(chaincode, from, until, at[i], events[i]))
    && NoneLeftOut(ledger, channel, chaincode, from, until, at)
  }

  ghost predicate NoneLeftOut(ledger: seq<Block>, channel: string, chaincode: Option<string>, from: Position,
                              until: nat, at: seq<Position>) {
    forall p, e :: Yields(ledger, channel, p, e) && Within(chaincode, from, until, p, e) ==> p in at
  }

  predicate Within(chaincode: Option<string>, from: Position, until: nat, p: Position, e: Event) {
    !Before(p, from) && p.block < until && (chaincode.Some? ==> e.chaincode == chaincode.value)
  }

  ghost predicate Listed(ledger: seq<Block>, channel: string, chaincode: string, from: Position, until: nat,
                         events: seq<Event>) {
    exists at :: ListedAt(ledger, channel, Some(chaincode), from, until, events, at)
  }

  /** The first event of this transaction at or behind block `start` and before block `until`. */
  ghost predicate FirstOf(ledger: seq<Block>, channel: string, txID: TxID, start: nat, until: nat, p: Position) {
    && start <= p.block < until
    && (exists e :: Yields(ledger, channel, p, e) && e.txID == txID)
    && NoneBefore(ledger, channel, txID, start, p)
  }

  ghost predicate NoneBefore(ledger: seq<Block>, channel: string, txID: TxID, start: nat, p: Position) {
    forall q, e :: Yields(ledger, channel, q, e) && start <= q.block && Before(q, p) ==> e.txID != txID
  }

  /**
   * What a subscriber has received once the blocks before `until` were dealt with:
   * exactly the chaincode's events from the start block on, in ledger order; with
   * a checkpoint exactly those behind its event, and nothing before it appeared.
   */
  ghost predicate Replayed(ledger: seq<Block>, channel: string, chaincode: string, after: Option<TxID>, start: nat,
                           until: nat, events: seq<Event>) {
    if after.None? then Listed(ledger, channel, chaincode, Position(start, 0), until, events)
    else
      || (exists p :: ListedBehindFirst(ledger, channel, chaincode, after.value, start, until, events, p))
      || (events == [] && forall p :: !FirstOf(ledger, channel, after.value, start, until, p))
  }

  ghost predicate ListedBehindFirst(ledger: seq<Block>, channel: string, chaincode: string, txID: TxID, start: nat,
                                    until: nat, events: seq<Event>, p: Position) {
    && FirstOf(ledger, channel, txID, start, until, p)
    && Listed(ledger, channel, chaincode, Position(p.block, p.tx + 1), until, events)
  }

  /** The transactions of one block that yield its events, in order. */
  lemma {:induction false} EventsUpToAt(block: Block, channel: string, n: nat) returns (at: seq<nat>)
    requires block.filter.Some? && n <= |block.transactions| == |block.filter.value|
    requires EventsUpTo(block.transactions, block.filter.value, channel, n).Ok?
    ensures InBlock(block, channel, n, EventsUpTo(block.transactions, block.filter.value, channel, n).value, at)
  {
    at := [];
    if n > 0 {
      var events := EventsUpTo(block.transactions, block.filter.value, channel, n).value;
      var earlier := EventsUpToAt(block, channel, n - 1);
      at := earlier;
      if block.filter.value[n - 1] == COMMITTED && EventOf(block.transactions[n - 1], channel).value.Some? {
        at := earlier + [n - 1];
        assert at[|earlier|] == n - 1;
      }
      forall k: nat, e | k < n && YieldsIn(block, channel, k, e) ensures k in at {
        if k < n - 1 {
          var i :| 0 <= i < |earlier| && earlier[i] == k;
          assert at[i] == k;
        }
      }
    }
  }

  ghost predicate InBlock(block: Block, channel: string, n: nat, events: seq<Event>, at: seq<nat>) {
    && |at| == |events|
    && (forall i, j :: 0 <= i < j < |at| ==> at[i] < at[j])
    && (forall i :: 0 <= i < |at| ==> at[i] < n && YieldsIn(block, channel, at[i], events[i]))
    && (forall k: nat, e :: k < n && YieldsIn(block, channel, k, e) ==> k in at)
  }

  /** The events of one readable block stand at its positions. */
  lemma {:induction false} EventsOfAt(block: Block, channel: string) returns (at: seq<nat>)
    requires EventsOf(block, channel).Ok?
    ensures InBlock(block, channel, |block.transactions|, EventsOf(block, channel).value, at)
  {
    if block.transactions == [] {
      at := [];
    } else {
      at := EventsUpToAt(block, channel, |block.transactions|);
    }
  }

  /** One more block: its positions follow. */
  lemma ListedNext(ledger: seq<Block>, channel: string, start: nat, n: nat, events: seq<Event>, at: seq<Position>,
                   more: seq<Event>, txs: seq<nat>) returns (all: seq<Position>)
    requires start <= n < |ledger| && ListedAt(ledger, channel, None, Position(start, 0), n, events, at)
    requires InBlock(ledger[n], channel, |ledger[n].transactions|, more, txs)
    ensures ListedAt(ledger, channel, None, Position(start, 0), n + 1, events + more, all)
  {
    var last := seq(|txs|, i requires 0 <= i < |txs| => Position(n, txs[i]));
    NextComplete(ledger, channel, start, n, at, more, txs, last);
    all := at + last;
  }

  lemma NextComplete(ledger: seq<Block>, channel: string, start: nat, n: nat, at: seq<Position>, more: seq<Event>,
                     txs: seq<nat>, last: seq<Position>)
    requires start <= n < |ledger| && NoneLeftOut(ledger, channel, None, Position(start, 0), n, at)
    requires InBlock(ledger[n], channel, |ledger[n].transactions|, more, txs)
    requires |last| == |txs| && forall i :: 0 <= i < |txs| ==> last[i] == Position(n, txs[i])
    ensures NoneLeftOut(ledger, channel, None, Position(start, 0), n + 1, at + last)
  {
    forall p, e | Yields(ledger, channel, p, e) && Within(None, Position(start, 0), n + 1, p, e)
      ensures p in at + last {
      if p.block == n {
        var i :| 0 <= i < |txs| && txs[i] == p.tx;
        assert last[i] == p;
      } else {
        assert p in at;
      }
    }
  }

  /** The ledger's events from block `start` up to block `n - 1` stand at their positions. */
  lemma {:induction false} EventsFromAt(ledger: seq<Block>, channel: string, start: nat, n: nat)
    returns (at: seq<Position>)
    requires Ledger(ledger) && n <= |ledger|
    requires forall i :: start <= i < n ==> EventsOf(ledger[i], channel).Ok?
    ensures ListedAt(ledger, channel, None, Position(start, 0), n, EventsFrom(ledger[..n], start, channel), at)
  {
    at := [];
    if n > 0 {
      assert ledger[..n][..n - 1] == ledger[..n - 1];
      at := EventsFromAt(ledger, channel, start, n - 1);
      if n - 1 >= start {
        var txs := EventsOfAt(ledger[n - 1], channel);
        at := ListedNext(ledger, channel, start, n - 1, EventsFrom(ledger[..n - 1], start, channel), at,
                         EventsOf(ledger[n - 1], channel).value, txs);
      } else {
        assert EventsFrom(ledger[..n - 1], start, channel) + [] == EventsFrom(ledger[..n - 1], start, channel);
      }
    }
  }

  /** Those behind one of them. */
  lemma ListedBehind(ledger: seq<Block>, channel: string, from: Position, until: nat, events: seq<Event>,
                     at: seq<Position>, i: nat)
    requires ListedAt(ledger, channel, None, from, until, events, at) && i < |at|
    ensures ListedAt(ledger, channel, None, Position(at[i].block, at[i].tx + 1), until, events[i + 1..], at[i + 1..])
  {
    BehindComplete(ledger, channel, from, until, at, i);
  }

  lemma BehindComplete(ledger: seq<Block>, channel: string, from: Position, until: nat, at: seq<Position>, i: nat)
    requires NoneLeftOut(ledger, channel, None, from, until, at) && i < |at| && !Before(at[i], from)
    requires forall j :: 0 <= j < i ==> Before(at[j], at[i])
    ensures NoneLeftOut(ledger, channel, None, Position(at[i].block, at[i].tx + 1), until, at[i + 1..])
  {
    var next, rest := Position(at[i].block, at[i].tx + 1), at[i + 1..];
    forall p, e | Yields(ledger, channel, p, e) && Within(None, next, until, p, e) ensures p in rest {
      assert p in at;
      var k :| 0 <= k < |at| && at[k] == p;
      assert rest[k - i - 1] == p;
    }
  }

  /** These are the chaincode's events, at these places: in order, none left out. */
  ghost predicate Picked(events: seq<Event>, chaincode: string, picked: seq<Event>, at: seq<nat>) {
    && |at| == |picked|
    && (forall i, j :: 0 <= i < j < |at| ==> at[i] < at[j])
    && (forall i :: 0 <= i < |at| ==>
        at[i] < |events| && events[at[i]] == picked[i] && picked[i].chaincode == chaincode)
    && (forall k: nat :: k < |events| && events[k].chaincode == chaincode ==> k in at)
  }

  lemma {:induction false} MatchingAt(events: seq<Event>, chaincode: string) returns (at: seq<nat>)
    ensures Picked(events, chaincode, Matching(events, chaincode), at)
  {
    at := [];
    if events != [] {
      var n := |events| - 1;
      var last := events[n];
      var earlier := MatchingAt(events[..n], chaincode);
      assert events[..n] + [last] == events;
      MatchingConcat(events[..n], [last], chaincode);
      assert Matching([last], chaincode) == if last.chaincode == chaincode then [last] else [];
      if last.chaincode == chaincode {
        at := earlier + [n];
        PickedAdded(events[..n], chaincode, Matching(events[..n], chaincode), earlier, last);
      } else {
        at := earlier;
        PickedSkipped(events[..n], chaincode, Matching(events[..n], chaincode), earlier, last);
        assert Matching(events[..n], chaincode) + [] == Matching(events[..n], chaincode);
      }
    }
  }

  lemma PickedAdded(events: seq<Event>, chaincode: string, picked: seq<Event>, at: seq<nat>, last: Event)
    requires Picked(events, chaincode, picked, at) && last.chaincode == chaincode
    ensures Picked(events + [last], chaincode, picked + [last], at + [|events|])
  {
    var all, more, those := events + [last], picked + [last], at + [|events|];
    forall i | 0 <= i < |those|
      ensures those[i] < |all| && all[those[i]] == more[i] && more[i].chaincode == chaincode
    {
      assert i < |at| ==> those[i] == at[i] && more[i] == picked[i];
    }
    forall k: nat | k < |all| && all[k].chaincode == chaincode ensures k in those {
      if k < |events| {
        assert k in at;
      } else {
        assert those[|at|] == k;
      }
    }
  }

  lemma PickedSkipped(events: seq<Event>, chaincode: string, picked: seq<Event>, at: seq<nat>, last: Event)
    requires Picked(events, chaincode, picked, at) && last.chaincode != chaincode
    ensures Picked(events + [last], chaincode, picked, at)
  {
    forall i | 0 <= i < |at| ensures (events + [last])[at[i]] == picked[i] {
      assert at[i] < |events| && events[at[i]] == picked[i];
    }
  }

  lemma {:induction false} ListedMatching(ledger: seq<Block>, channel: string, chaincode: string, from: Position,
                                          until: nat,
                       events: seq<Event>, at: seq<Position>)
    requires ListedAt(ledger, channel, None, from, until, events, at)
    ensures Listed(ledger, channel, chaincode, from, until, Matching(events, chaincode))
  {
    var ks := MatchingAt(events, chaincode);
    var those := seq(|ks|, i requires 0 <= i < |ks| => at[ks[i]]);
    MatchingStands(ledger, channel, chaincode, from, until, events, at, Matching(events, chaincode), ks, those);
  }

  lemma MatchingStands(ledger: seq<Block>, channel: string, chaincode: string, from: Position, until: nat,
                       events: seq<Event>, at: seq<Position>, picked: seq<Event>, ks: seq<nat>, those: seq<Position>)
    requires ListedAt(ledger, channel, None, from, until, events, at) && Picked(events, chaincode, picked, ks)
    requires |those| == |ks| && forall i :: 0 <= i < |ks| ==> those[i] == at[ks[i]]
    ensures ListedAt(ledger, channel, Some(chaincode), from, until, picked, those)
  {
    MatchingComplete(ledger, channel, chaincode, from, until, events, at, picked, ks, those);
    forall i | 0 <= i < |those|
      ensures Yields(ledger, channel, those[i], picked[i]) && Within(Some(chaincode), from, until, those[i], picked[i])
    {
      assert Within(None, from, until, at[ks[i]], events[ks[i]]);
    }
  }

  lemma MatchingComplete(ledger: seq<Block>, channel: string, chaincode: string, from: Position, until: nat,
                         events: seq<Event>, at: seq<Position>, picked: seq<Event>, ks: seq<nat>, those: seq<Position>)
    requires NoneLeftOut(ledger, channel, None, from, until, at) && Picked(events, chaincode, picked, ks)
    requires |at| == |events| && forall i :: 0 <= i < |at| ==> Yields(ledger, channel, at[i], events[i])
    requires |those| == |ks| && forall i :: 0 <= i < |ks| ==> those[i] == at[ks[i]]
    ensures NoneLeftOut(ledger, channel, Some(chaincode), from, until, those)
  {
    forall p, e | Yields(ledger, channel, p, e) && Within(Some(chaincode), from, until, p, e) ensures p in those {
      var k := WhereListed(ledger, channel, from, until, events, at, p, e);
      var i :| 0 <= i < |ks| && ks[i] == k;
      assert those[i] == p;
    }
  }

  /** Whatever follows the checkpoint among the events of these blocks is a replay. */
  lemma {:induction false} AfterIsReplayed(ledger: seq<Block>, channel: string, chaincode: string,
                                           after: Option<TxID>, start: nat, until: nat)
    requires Ledger(ledger) && until <= |ledger|
    requires forall i :: start <= i < until ==> EventsOf(ledger[i], channel).Ok?
    ensures Replayed(ledger, channel, chaincode, after, start, until,
                     Matching(After(after, EventsFrom(ledger[..until], start, channel)).1, chaincode))
  {
    var events := EventsFrom(ledger[..until], start, channel);
    var at := EventsFromAt(ledger, channel, start, until);
    if after.None? {
      ListedMatching(ledger, channel, chaincode, Position(start, 0), until, events, at);
    } else {
      ListIsReplayed(ledger, channel, chaincode, after.value, start, until, events, at);
    }
  }

  lemma {:induction false} ListIsReplayed(ledger: seq<Block>, channel: string, chaincode: string, txID: TxID,
                                          start: nat, until: nat,
                       events: seq<Event>, at: seq<Position>)
    requires ListedAt(ledger, channel, None, Position(start, 0), until, events, at)
    ensures Replayed(ledger, channel, chaincode, Some(txID), start, until,
                     Matching(After(Some(txID), events).1, chaincode))
  {
    var i := AfterIsSuffix(events, txID);
    if HasEvent(events, txID) {
      FirstInList(ledger, channel, start, until, events, at, txID, i);
      ListedBehind(ledger, channel, Position(start, 0), until, events, at, i);
      ListedMatching(ledger, channel, chaincode, Position(at[i].block, at[i].tx + 1), until, events[i + 1..],
                     at[i + 1..]);
      assert ListedBehindFirst(ledger, channel, chaincode, txID, start, until, Matching(events[i + 1..], chaincode),
                               at[i]);
    } else {
      NoneInList(ledger, channel, start, until, events, at, txID);
    }
  }

  lemma FirstInList(ledger: seq<Block>, channel: string, start: nat, until: nat, events: seq<Event>,
                    at: seq<Position>, txID: TxID, i: nat)
    requires ListedAt(ledger, channel, None, Position(start, 0), until, events, at)
    requires i < |events| && events[i].txID == txID && !HasEvent(events[..i], txID)
    ensures FirstOf(ledger, channel, txID, start, until, at[i])
  {
    forall k | 0 <= k < i ensures events[k].txID != txID {
      assert events[..i][k] == events[k];
    }
    assert Within(None, Position(start, 0), until, at[i], events[i]);
    NothingEarlier(ledger, channel, start, until, events, at, txID, i);
  }

  lemma NothingEarlier(ledger: seq<Block>, channel: string, start: nat, until: nat, events: seq<Event>,
                       at: seq<Position>, txID: TxID, i: nat)
    requires NoneLeftOut(ledger, channel, None, Position(start, 0), until, at) && |at| == |events| && i < |at|
    requires forall j :: 0 <= j < |at| ==> Yields(ledger, channel, at[j], events[j])
    requires at[i].block < until && forall j :: i < j < |at| ==> Before(at[i], at[j])
    requires forall k :: 0 <= k < i ==> events[k].txID != txID
    ensures forall q, e :: Yields(ledger, channel, q, e) && start <= q.block && Before(q, at[i]) ==> e.txID != txID
  {
    forall q, e | Yields(ledger, channel, q, e) && start <= q.block && Before(q, at[i]) ensures e.txID != txID {
      var k := WhereListed(ledger, channel, Position(start, 0), until, events, at, q, e);
      assert k < i;
    }
  }

  lemma WhereListed(ledger: seq<Block>, channel: string, from: Position, until: nat, events: seq<Event>,
                    at: seq<Position>, p: Position, e: Event) returns (k: nat)
    requires NoneLeftOut(ledger, channel, None, from, until, at) && |at| == |events|
    requires forall j :: 0 <= j < |at| ==> Yields(ledger, channel, at[j], events[j])
    requires Yields(ledger, channel, p, e) && Within(None, from, until, p, e)
    ensures k < |at| && at[k] == p && events[k] == e
  {
    assert p in at;
    k :| 0 <= k < |at| && at[k] == p;
    assert Yields(ledger, channel, at[k], events[k]);
  }

  lemma NoneInList(ledger: seq<Block>, channel: string, start: nat, until: nat, events: seq<Event>,
                   at: seq<Position>, txID: TxID)
    requires ListedAt(ledger, channel, None, Position(start, 0), until, events, at) && !HasEvent(events, txID)
    ensures forall p :: !FirstOf(ledger, channel, txID, start, until, p)
  {
    forall p, e | Yields(ledger, channel, p, e) && start <= p.block < until ensures e.txID != txID {
      var k := WhereListed(ledger, channel, Position(start, 0), until, events, at, p, e);
    }
  }

  // ------------------------------------------------------------------------
  // ChaincodeEvents
  // ------------------------------------------------------------------------

  type Uint64 = n: nat | n <= MAX_UINT64 witness 0

  /** Looking up the checkpoint transaction's block. */
  datatype Lookup = Located(block: Block) | NotFound | LookupFailed

  datatype Ended =
    NoLedgerInformation | CheckpointUnreadable | CheckpointHasNoEvent | LookupError | Streamed(stop: Stop)

  /** The search for the checkpoint among the events of its block. */
  method FindEvent(events: seq<Event>, txID: TxID) returns (found: bool)
    ensures found <==> HasEvent(events, txID)
  {
    for i := 0 to |events|
      invariant forall k | 0 <= k < i :: events[k].txID != txID
    {
      if events[i].txID == txID { return true; }
    }
    return false;
  }

  /** The first event of this transaction from block `start` on is in that block. */
  ghost predicate FirstIn(ledger: seq<Block>, channel: string, txID: TxID, start: nat) {
    exists tx :: FirstOf(ledger, channel, txID, start, start + 1, Position(start, tx))
  }

  /** The delivery stream from this block shows this ledger: a block with the expected number is the ledger's. */
  ghost predicate Shows(responses: seq<Option<Block>>, from: nat, ledger: seq<Block>) {
    forall i :: 0 <= i < |responses| && responses[i].Some? && responses[i].value.number == Some(from + i) ==>
      from + i < |ledger| && responses[i].value == ledger[from + i]
  }

  /**
   * ChaincodeEvents from the ledger information on. Replay starts at the block of
   * the checkpoint if the ledger has it, else at the requested block, else at the
   * next one; delivery starts there or, if that is still to come, at the tip.
   * `deliver` is the delivery stream as a function of the first block asked for,
   * and `ledger` any ledger it shows.
   */
  method ChaincodeEvents(channel: string, chaincode: string, seek: Option<nat>, after: Option<TxID>,
                         info: Option<Uint64>, lookup: Lookup, deliver: nat -> seq<Option<Block>>,
                         sendFails: nat -> bool, ghost ledger: seq<Block>)
    returns (r: Ended, sent: seq<Delivery>, ghost start: nat, ghost from: nat, ghost visited: seq<Block>)
    ensures r.NoLedgerInformation? <==> info.None?
    ensures r.LookupError? <==> info.Some? && after.Some? && lookup.LookupFailed?
    ensures r.CheckpointUnreadable? <==>
      info.Some? && after.Some? && lookup.Located? && EventsOf(lookup.block, channel).Err?
    ensures r.CheckpointHasNoEvent? <==>
      && info.Some? && after.Some? && lookup.Located? && EventsOf(lookup.block, channel).Ok?
      && !HasEvent(EventsOf(lookup.block, channel).value, after.value)
    ensures !r.Streamed? ==> sent == []
    ensures r.Streamed? && after.Some? && lookup.Located? ==> lookup.block.number == Some(start)
    ensures r.Streamed? && !(after.Some? && lookup.Located?) ==>
      start == if seek.Some? then seek.value else info.value
    ensures r.Streamed? ==> from == if start < info.value then start else info.value
    ensures r.Streamed? ==>
      Delivered(channel, chaincode, start, after, deliver(from), r.stop, from, visited, sent, sendFails(|sent|),
                ledger)
    ensures r.Streamed? && Ledger(ledger) && after.Some? && lookup.Located? && lookup.block in ledger ==>
      FirstIn(ledger, channel, after.value, start)
  {
    r, sent, start, from, visited := NoLedgerInformation, [], 0, 0, [];
    if info.None? { return; }
    var fault, first := FindStart(channel, seek, after, info.value, lookup, ledger);
    if fault.Some? { return fault.value, sent, start, from, visited; }
    var stop;
    stop, sent, from, visited := StreamFrom(channel, chaincode, first, after, info.value, deliver, sendFails, ledger);
    r, start := Streamed(stop), first;
  }

  /**
   * What was delivered from block `from` on, why it stopped, and what the
   * subscriber received: on any ledger the stream shows, the replay due.
   */
  ghost predicate Delivered(channel: string, chaincode: string, start: nat, after: Option<TxID>,
                            responses: seq<Option<Block>>, stop: Stop, from: nat, visited: seq<Block>,
                            sent: seq<Delivery>, sendFails: bool, ledger: seq<Block>) {
    && Contiguous(visited, from, responses) && Decoded(visited, start, channel)
    && AllEvents(sent) == Matching(After(after, EventsFrom(visited, start, channel)).1, chaincode)
    && WellNumbered(sent, visited, channel)
    && Justifies(stop, from, responses, |visited|, start, channel, sendFails)
    && (Ledger(ledger) && Shows(responses, from, ledger) ==>
          Replayed(ledger, channel, chaincode, after, start, from + |visited|, AllEvents(sent)))
  }

  /** Delivery begins at the start block or, if that is still to come, at the tip. */
  method StreamFrom(channel: string, chaincode: string, start: nat, after: Option<TxID>, height: Uint64,
                    deliver: nat -> seq<Option<Block>>, sendFails: nat -> bool, ghost ledger: seq<Block>)
    returns (stop: Stop, sent: seq<Delivery>, ghost from: nat, ghost visited: seq<Block>)
    ensures from == if start < height then start else height
    ensures Delivered(channel, chaincode, start, after, deliver(from), stop, from, visited, sent, sendFails(|sent|),
                      ledger)
  {
    var deliverFrom := if start < height then start else height;
    var subscription := new Subscription(channel, chaincode, start, after, sendFails);
    stop, visited := subscription.StreamCommittedBlocks(deliverFrom, deliver(deliverFrom));
    sent, from := subscription.sent, deliverFrom;
    if Ledger(ledger) && Shows(deliver(from), from, ledger) {
      StreamReplays(ledger, channel, chaincode, after, start, from, deliver(from), visited);
    }
  }

  /**
   * Main result. A subscriber that resumes behind a checkpoint of the ledger, once
   * its block was delivered, has received exactly the chaincode's events behind
   * the checkpoint's own, whatever start position it asked for.
   */
  lemma ResumesBehindCheckpoint(ledger: seq<Block>, channel: string, chaincode: string, checkpoint: TxID, start: nat,
                                until: nat, events: seq<Event>) returns (tx: nat)
    requires FirstIn(ledger, channel, checkpoint, start) && start < until
    requires Replayed(ledger, channel, chaincode, Some(checkpoint), start, until, events)
    ensures exists e :: Yields(ledger, channel, Position(start, tx), e) && e.txID == checkpoint
    ensures Listed(ledger, channel, chaincode, Position(start, tx + 1), until, events)
  {
    tx := FirstWithin(ledger, channel, checkpoint, start, until);
    var p := ReplayedBehind(ledger, channel, chaincode, checkpoint, start, until, events, Position(start, tx));
    FirstIsOne(ledger, channel, checkpoint, start, until, p, Position(start, tx));
  }

  lemma FirstWithin(ledger: seq<Block>, channel: string, txID: TxID, start: nat, until: nat) returns (tx: nat)
    requires FirstIn(ledger, channel, txID, start) && start < until
    ensures FirstOf(ledger, channel, txID, start, until, Position(start, tx))
  {
    tx :| FirstOf(ledger, channel, txID, start, start + 1, Position(start, tx));
  }

  lemma ReplayedBehind(ledger: seq<Block>, channel: string, chaincode: string, checkpoint: TxID, start: nat,
                       until: nat, events: seq<Event>, first: Position) returns (p: Position)
    requires Replayed(ledger, channel, chaincode, Some(checkpoint), start, until, events)
    requires FirstOf(ledger, channel, checkpoint, start, until, first)
    ensures FirstOf(ledger, channel, checkpoint, start, until, p)
    ensures Listed(ledger, channel, chaincode, Position(p.block, p.tx + 1), until, events)
  {
    p :| ListedBehindFirst(ledger, channel, chaincode, checkpoint, start, until, events, p);
  }

  lemma FirstIsOne(ledger: seq<Block>, channel: string, txID: TxID, start: nat, until: nat, p: Position, q: Position)
    requires FirstOf(ledger, channel, txID, start, until, p) && FirstOf(ledger, channel, txID, start, until, q)
    ensures p == q
  {
    assert !Before(p, q) && !Before(q, p);
  }

  /** The block replay starts from, unless the checkpoint cannot be used. */
  method FindStart(channel: string, seek: Option<nat>, after: Option<TxID>, height: nat, lookup: Lookup,
                   ghost ledger: seq<Block>)
    returns (fault: Option<Ended>, start: nat)
    ensures fault.Some? ==>
      fault.value.LookupError? || fault.value.CheckpointUnreadable? || fault.value.CheckpointHasNoEvent?
    ensures fault == Some(LookupError) <==> after.Some? && lookup.LookupFailed?
    ensures fault == Some(CheckpointUnreadable) <==>
      after.Some? && lookup.Located? && EventsOf(lookup.block, channel).Err?
    ensures fault == Some(CheckpointHasNoEvent) <==>
      && after.Some? && lookup.Located? && EventsOf(lookup.block, channel).Ok?
      && !HasEvent(EventsOf(lookup.block, channel).value, after.value)
    ensures fault.None? && after.Some? && lookup.Located? ==> lookup.block.number == Some(start)
    ensures fault.None? && !(after.Some? && lookup.Located?) ==> start == if seek.Some? then seek.value else height
    ensures fault.None? && after.Some? && lookup.Located? && Ledger(ledger) && lookup.block in ledger ==>
      FirstIn(ledger, channel, after.value, start)
  {
    fault, start := None, height;
    if seek.Some? { start := seek.value; }
    if after.Some? {
      match lookup
      case Located(block) =>
        if block.number.None? { return Some(CheckpointUnreadable), start; }
        start := block.number.value;
        var events := CommittedChaincodeEvents(block, channel);
        if events.Err? { return Some(CheckpointUnreadable), start; }
        var found := FindEvent(events.value, after.value);
        if !found { return Some(CheckpointHasNoEvent), start; }
        if Ledger(ledger) && block in ledger {
          CheckpointIsFirst(ledger, channel, after.value, start);
        }
      case NotFound =>
      case LookupFailed => return Some(LookupError), start;
    }
  }

  /** What the delivered blocks hold of the ledger is a replay of it. */
  lemma {:induction false} StreamReplays(ledger: seq<Block>, channel: string, chaincode: string, after: Option<TxID>,
                                         start: nat,
                      from: nat, responses: seq<Option<Block>>, visited: seq<Block>)
    requires Ledger(ledger) && Shows(responses, from, ledger) && from <= start
    requires Contiguous(visited, from, responses) && Decoded(visited, start, channel)
    ensures Replayed(ledger, channel, chaincode, after, start, from + |visited|,
                     Matching(After(after, EventsFrom(visited, start, channel)).1, chaincode))
    ensures visited != [] ==> from + |visited| <= |ledger|
  {
    var until := from + |visited|;
    if visited == [] {
      assert EventsFrom(visited, start, channel) == [];
      NothingYet(ledger, channel, chaincode, after, start, until);
    } else {
      forall i | 0 <= i < |visited| ensures from + i < |ledger| && visited[i] == ledger[from + i] {
        assert responses[i] == Some(visited[i]);
      }
      assert visited[|visited| - 1].number == Some(until - 1);
      VisitedAreLedger(visited, from, ledger);
      DeliveredFrom(ledger[..until], from, start, channel);
      forall i | start <= i < until ensures EventsOf(ledger[i], channel).Ok? {
        var k := i - from;
        assert visited[k] == ledger[from + k];
        assert ledger[i].number == Some(i);
      }
      AfterIsReplayed(ledger, channel, chaincode, after, start, until);
    }
  }

  lemma {:induction false} NothingYet(ledger: seq<Block>, channel: string, chaincode: string, after: Option<TxID>,
                                      start: nat, until: nat)
    requires until <= start
    ensures Replayed(ledger, channel, chaincode, after, start, until, Matching(After(after, []).1, chaincode))
  {
    assert ListedAt(ledger, channel, Some(chaincode), Position(start, 0), until, [], []);
  }

  /** A checkpoint whose block is on the ledger: the first event of its transaction there is in that block. */
  lemma CheckpointIsFirst(ledger: seq<Block>, channel: string, txID: TxID, start: nat)
    requires Ledger(ledger) && start < |ledger| && EventsOf(ledger[start], channel).Ok?
    requires HasEvent(EventsOf(ledger[start], channel).value, txID)
    ensures FirstIn(ledger, channel, txID, start)
  {
    var events := EventsOf(ledger[start], channel).value;
    var at := EventsOfAt(ledger[start], channel);
    var i := AfterIsSuffix(events, txID);
    var p := Position(start, at[i]);
    assert Yields(ledger, channel, p, events[i]);
    NoneBeforeInBlock(ledger, channel, txID, start, events, at, i);
    assert FirstOf(ledger, channel, txID, start, start + 1, p);
  }

  lemma NoneBeforeInBlock(ledger: seq<Block>, channel: string, txID: TxID, start: nat, events: seq<Event>,
                          at: seq<nat>, i: nat)
    requires start < |ledger| && InBlock(ledger[start], channel, |ledger[start].transactions|, events, at)
    requires i < |at| && !HasEvent(events[..i], txID)
    ensures NoneBefore(ledger, channel, txID, start, Position(start, at[i]))
  {
    forall q, e | Yields(ledger, channel, q, e) && start <= q.block && Before(q, Position(start, at[i]))
      ensures e.txID != txID
    {
      assert q.tx in at;
      var k :| 0 <= k < |at| && at[k] == q.tx;
      assert k < i;
      assert events[..i][k] == events[k] == e;
    }
  }

  // ------------------------------------------------------------------------
  // What was visited, and what of the ledger that is
  // ------------------------------------------------------------------------

  /** The events of ledger blocks from `start` on do not depend on where delivery began. */
  lemma {:induction false} DeliveredFrom(ledger: seq<Block>, from: nat, start: nat, channel: string)
    requires Ledger(ledger) && from <= start && from <= |ledger|
    ensures EventsFrom(ledger[from..], start, channel) == EventsFrom(ledger, start, channel)
    decreases |ledger|
  {
    if from == |ledger| {
      NothingFrom(ledger, start, channel);
    } else {
      var front := ledger[..|ledger| - 1];
      assert ledger[from..][..|ledger| - from - 1] == front[from..];
      DeliveredFrom(front, from, start, channel);
    }
  }

  lemma {:induction false} NothingFrom(ledger: seq<Block>, start: nat, channel: string)
    requires Ledger(ledger) && |ledger| <= start
    ensures EventsFrom(ledger, start, channel) == []
  {
    if ledger != [] {
      NothingFrom(ledger[..|ledger| - 1], start, channel);
    }
  }

  /** All events are those before the start block and those from it. */
  lemma {:induction false} SplitAt(ledger: seq<Block>, start: nat, channel: string)
    requires Ledger(ledger) && start <= |ledger|
    ensures EventsFrom(ledger, 0, channel)
      == EventsFrom(ledger[..start], 0, channel) + EventsFrom(ledger, start, channel)
    decreases |ledger|
  {
    if |ledger| == start {
      NothingFrom(ledger, start, channel);
      assert ledger[..start] == ledger;
      assert EventsFrom(ledger, 0, channel) + [] == EventsFrom(ledger, 0, channel);
    } else {
      var front := ledger[..|ledger| - 1];
      SplitAt(front, start, channel);
      assert front[..start] == ledger[..start];
    }
  }

  /** The visited blocks are those of the ledger. */
  lemma {:induction false} VisitedAreLedger(visited: seq<Block>, from: nat, ledger: seq<Block>)
    requires Ledger(ledger) && from + |visited| <= |ledger|
    requires forall i :: 0 <= i < |visited| ==> visited[i] == ledger[from + i]
    ensures visited == ledger[..from + |visited|][from..]
  {
  }

  /** Without a checkpoint, every matching event from the start block to the last visited block, in order. */
  lemma {:induction false} ReplayWithoutCheckpoint(ledger: seq<Block>, visited: seq<Block>, from: nat, start: nat,
                                                   channel: string, chaincode: string,
                                                   sent: seq<Delivery>)
    requires Ledger(ledger) && from <= start && from + |visited| <= |ledger|
    requires forall i :: 0 <= i < |visited| ==> visited[i] == ledger[from + i]
    requires AllEvents(sent) == Matching(After(None, EventsFrom(visited, start, channel)).1, chaincode)
    ensures AllEvents(sent) == Matching(EventsFrom(ledger[..from + |visited|], start, channel), chaincode)
  {
    VisitedAreLedger(visited, from, ledger);
    DeliveredFrom(ledger[..from + |visited|], from, start, channel);
  }

  /**
   * Main result. With a checkpoint found on the ledger, the events of the whole
   * ledger up to the last visited block split at the checkpoint's event, and the
   * subscriber has received exactly the matching ones behind it.
   */
  lemma {:induction false} ReplayAfterCheckpoint(ledger: seq<Block>, visited: seq<Block>, from: nat, start: nat,
                                                 channel: string,
                                                 chaincode: string, checkpoint: TxID, sent: seq<Delivery>)
                                                   returns (at: nat)
    requires Ledger(ledger) && from <= start < from + |visited| <= |ledger|
    requires forall i :: 0 <= i < |visited| ==> visited[i] == ledger[from + i]
    requires EventsOf(ledger[start], channel).Ok? && HasEvent(EventsOf(ledger[start], channel).value, checkpoint)
    requires AllEvents(sent) == Matching(After(Some(checkpoint), EventsFrom(visited, start, channel)).1, chaincode)
    ensures var events := EventsFrom(ledger[..from + |visited|], 0, channel);
      && at < |events| && events[at].txID == checkpoint
      && AllEvents(sent) == Matching(events[at + 1..], chaincode)
  {
    DeliversCheckpoint(visited, start - from, start, channel, checkpoint);
    var head := EventsBefore(ledger, visited, from, start, channel);
    at := BehindCheckpoint(head, EventsFrom(visited, start, channel), checkpoint);
  }

  lemma {:induction false} DeliversCheckpoint(visited: seq<Block>, k: nat, start: nat, channel: string,
                                              checkpoint: TxID)
    requires k < |visited| && visited[k].number.Some? && visited[k].number.value >= start
    requires EventsOf(visited[k], channel).Ok? && HasEvent(EventsOf(visited[k], channel).value, checkpoint)
    ensures HasEvent(EventsFrom(visited, start, channel), checkpoint)
  {
    var events := EventsOf(visited[k], channel).value;
    var i :| 0 <= i < |events| && events[i].txID == checkpoint;
    DeliversBlock(visited, k, start, channel, events[i]);
    IsEvent(EventsFrom(visited, start, channel), events[i]);
  }

  lemma {:induction false} IsEvent(events: seq<Event>, e: Event)
    requires e in events
    ensures HasEvent(events, e.txID)
  {
    var i :| 0 <= i < |events| && events[i] == e;
    assert events[i].txID == e.txID;
  }

  /** Every event of a visited block from the start on is among the replayed events. */
  lemma {:induction false} DeliversBlock(visited: seq<Block>, k: nat, start: nat, channel: string, e: Event)
    requires k < |visited| && visited[k].number.Some? && visited[k].number.value >= start
    requires EventsOf(visited[k], channel).Ok? && e in EventsOf(visited[k], channel).value
    ensures e in EventsFrom(visited, start, channel)
  {
    var n := |visited| - 1;
    if k < n {
      DeliversBlock(visited[..n], k, start, channel, e);
    }
  }

  /** The ledger's events up to the last visited block are some earlier events and the replayed ones. */
  lemma {:induction false} EventsBefore(ledger: seq<Block>, visited: seq<Block>, from: nat, start: nat, channel: string)
    returns (head: seq<Event>)
    requires Ledger(ledger) && from <= start <= from + |visited| <= |ledger|
    requires forall i :: 0 <= i < |visited| ==> visited[i] == ledger[from + i]
    ensures EventsFrom(ledger[..from + |visited|], 0, channel) == head + EventsFrom(visited, start, channel)
  {
    var known := ledger[..from + |visited|];
    VisitedAreLedger(visited, from, ledger);
    DeliveredFrom(known, from, start, channel);
    SplitAt(known, start, channel);
    head := EventsFrom(known[..start], 0, channel);
  }

  lemma {:induction false} BehindCheckpoint(head: seq<Event>, tail: seq<Event>, checkpoint: TxID) returns (at: nat)
    requires HasEvent(tail, checkpoint)
    ensures at < |head + tail| && (head + tail)[at].txID == checkpoint
    ensures After(Some(checkpoint), tail).1 == (head + tail)[at + 1..]
  {
    var i := AfterIsSuffix(tail, checkpoint);
    at := |head| + i;
    BehindConcat(head, tail, i);
  }

  lemma {:induction false} BehindConcat(a: seq<Event>, b: seq<Event>, i: nat)
    requires i < |b|
    ensures (a + b)[|a| + i] == b[i] && (a + b)[|a| + i + 1..] == b[i + 1..]
  {
  }

  /** A checkpoint the ledger does not have yet holds everything back until it appears. */
  lemma {:induction false} ReplayBeforeCheckpoint(ledger: seq<Block>, visited: seq<Block>, from: nat, start: nat,
                                                  channel: string, chaincode: string,
                                                  checkpoint: TxID, sent: seq<Delivery>)
    requires Ledger(ledger) && from <= start && from + |visited| <= |ledger|
    requires forall i :: 0 <= i < |visited| ==> visited[i] == ledger[from + i]
    requires AllEvents(sent) == Matching(After(Some(checkpoint), EventsFrom(visited, start, channel)).1, chaincode)
    ensures var events := EventsFrom(ledger[..from + |visited|], start, channel);
      if HasEvent(events, checkpoint)
      then exists i :: 0 <= i < |events| && events[i].txID == checkpoint && !HasEvent(events[..i], checkpoint)
                       && AllEvents(sent) == Matching(events[i + 1..], chaincode)
      else AllEvents(sent) == []
  {
    VisitedAreLedger(visited, from, ledger);
    DeliveredFrom(ledger[..from + |visited|], from, start, channel);
    var i := AfterIsSuffix(EventsFrom(ledger[..from + |visited|], start, channel), checkpoint);
  }
}
