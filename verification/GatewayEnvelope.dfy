/**
 * The prepared Gateway transaction: what Endorse prints, Submit parses back,
 * and rebuilding reproduces byte for byte
 * (compatibility_service/pkg/orchestrator/fabricx_packager.go,
 * compatibility_service/pkg/helper/proposal.go:37-92).
 *
 * Serialized fields are values of Bytes: the canonical encoding of a message,
 * another encoding of the same message (Variant), or bytes that decode to none
 * of these messages (Raw). Canonical encodings are injective.
 */
module GatewayEnvelope {
  import opened Common

  datatype Result<+T> = Ok(value: T) | Err(reason: string)

  datatype Bytes =
    | Raw(data: seq<int>)
    | OfHeader(header: Header)
    | OfChannelHeader(channelHeader: ChannelHeader)
    | OfSignatureHeader(signatureHeader: SignatureHeader)
    | OfExtension(chaincodeID: Option<ChaincodeID>)
    | OfProposalPayload(proposalPayload: ProposalPayload)
    | OfSpec(spec: Spec)
    | OfIdentity(identity: Identity)
    | OfTx(tx: Tx)
    | OfMetadata(metadata: Metadata)
    | OfBinding(binding: Binding)
    | OfChaincodeIdentity(chaincodeIdentity: ChaincodeIdentity)
    | OfEvent(chaincode: string, eventTxID: TxID, eventName: string, eventPayload: Bytes)
    | OfAction(action: ChaincodeAction)
    | OfResponsePayload(proposalHash: Digest, extension: Bytes)
    | OfActionPayload(actionPayload: ActionPayload)
    | OfTransaction(actions: seq<Option<TransactionAction>>)
    | OfPayload(payload: Payload)
    | Variant(canonical: Bytes, n: nat)

  /** Transaction IDs: the hash of nonce and creator, or any other string. */
  datatype TxID = Computed(nonce: Bytes, creator: Bytes) | Named(name: string)

  /** Collision-free hash of the header fields and the public proposal payload. */
  datatype Digest = Digest(channelHeader: Bytes, signatureHeader: Bytes, publicPayload: Bytes)

  datatype Header = Header(channelHeader: Bytes, signatureHeader: Bytes)
  datatype HeaderType = EndorserTransaction | Message | OtherType(n: int)
  datatype ChannelHeader = ChannelHeader(kind: HeaderType, channelID: string, txID: TxID, extension: Bytes, rest: Bytes)
  datatype SignatureHeader = SignatureHeader(creator: Bytes, nonce: Bytes)
  datatype Proposal = Proposal(header: Bytes, payload: Bytes)
  datatype ProposalPayload = ProposalPayload(input: Bytes, transient: map<string, Bytes>)
  datatype ChaincodeID = ChaincodeID(name: string, version: string)
  datatype Input = Input(args: seq<Bytes>, isInit: bool)
  datatype Spec = Spec(chaincodeID: Option<ChaincodeID>, input: Option<Input>)
  datatype Identity = Identity(mspID: string, certificate: Bytes)
  datatype IdentityEndorsement = IdentityEndorsement(identity: Option<Identity>, signature: Bytes)
  datatype Namespace = Namespace(nsID: string, version: nat, content: Bytes)
  datatype Tx = Tx(namespaces: seq<Namespace>, endorsements: seq<seq<IdentityEndorsement>>, metadata: seq<Bytes>)
  datatype Metadata = Metadata(payload: Bytes, inputArgs: seq<Bytes>, eventName: string, event: Bytes)
  datatype Binding = Binding(format: int, proposalHash: Digest, version: string, sequence: int, status: int,
                             message: string)
  datatype ChaincodeIdentity = ChaincodeIdentity(kind: string, version: int, channelID: string, name: string,
                                                 namespace: string)
  datatype ChaincodeAction = ChaincodeAction(results: Bytes, events: Bytes, response: Option<Response>,
                                             chaincodeID: ChaincodeID)
  datatype ActionPayload = ActionPayload(proposalPayload: Bytes, endorsed: Option<EndorsedAction>)
  datatype EndorsedAction = EndorsedAction(responsePayload: Bytes, endorsements: seq<Endorsement>)
  datatype TransactionAction = TransactionAction(header: Bytes, payload: Bytes)
  datatype Payload = Payload(header: Option<Header>, data: Bytes)
  datatype Response = Response(status: int, message: string, payload: Bytes)
  datatype Endorsement = Endorsement(endorser: Bytes, signature: Bytes)
  datatype ProposalResponse = ProposalResponse(response: Option<Response>, payload: Bytes,
                                               endorsement: Option<Endorsement>)
  datatype Endorsed = Endorsed(proposal: Option<Proposal>, responses: seq<Option<ProposalResponse>>)

  const EMPTY_BYTES: Bytes := Raw([])
  const CHAINCODE_IDENTITY_TYPE := "fabric-x-chaincode-identity"

  /** The canonical encoding of what the bytes decode to. */
  function Canonical(b: Bytes): Bytes {
    if b.Variant? then Canonical(b.canonical) else b
  }

  // ------------------------------------------------------------------------
  // Names
  // ------------------------------------------------------------------------

  predicate IsSpace(c: char) {
    c in {' ', '\t', '\n', '\r', '\U{000B}', '\U{000C}', '\U{0085}', '\U{00A0}', '\U{1680}', '\U{2028}', '\U{2029}',
          '\U{202F}', '\U{205F}', '\U{3000}'}
    || '\U{2000}' <= c <= '\U{200A}'
  }

  predicate Trimmed(s: string) {
    s == "" || (!IsSpace(s[0]) && !IsSpace(s[|s| - 1]))
  }

  /** gatewayChaincodeRoute: "<name>:<namespace>" with exactly one colon and no surrounding blanks. */
  function Route(name: string, i: nat := 0): (r: Option<(string, string)>)
    requires i <= |name| && forall k | 0 <= k < i :: name[k] != ':'
    decreases |name| - i
    ensures r.Some? ==> name == r.value.0 + ":" + r.value.1 && r.value.0 != "" && r.value.1 != ""
    ensures r.Some? ==> ':' !in r.value.0 && ':' !in r.value.1 && Trimmed(r.value.0) && Trimmed(r.value.1)
  {
    if i == |name| then None
    else if name[i] != ':' then Route(name, i + 1)
    else
      var chaincode, namespace := name[..i], name[i + 1..];
      if chaincode == "" || namespace == "" || ':' in namespace || !Trimmed(chaincode) || !Trimmed(namespace) then None
      else Some((chaincode, namespace))
  }

  // ------------------------------------------------------------------------
  // The native envelope
  // ------------------------------------------------------------------------

  predicate Usable(resp: Option<ProposalResponse>) {
    resp.Some? && resp.value.response.Some? && 200 <= resp.value.response.value.status < 400
  }

  predicate AllUsable(responses: seq<Option<ProposalResponse>>) {
    forall i :: 0 <= i < |responses| ==> Usable(responses[i])
  }

  /** What the first unacceptable response from index i on is refused for. */
  function ResponseFault(responses: seq<Option<ProposalResponse>>, i: nat): (r: Option<string>)
    requires i <= |responses|
    requires forall k :: 0 <= k < i ==> Usable(responses[k])
    ensures r.None? ==> AllUsable(responses) && forall k :: i <= k < |responses| ==>
      responses[k].value.payload == responses[0].value.payload
    decreases |responses| - i
  {
    if i == |responses| then None
    else if !Usable(responses[i]) then Some("proposal response")
    else if assert Usable(responses[0]); responses[i].value.payload != responses[0].value.payload then
      Some("payloads do not match")
    else ResponseFault(responses, i + 1)
  }

  /** The native endorsements of the responses: one per distinct endorser string, None if one does not decode. */
  function NativeEndorsements(responses: seq<Option<ProposalResponse>>,
                              seen: set<Bytes>): Option<seq<IdentityEndorsement>> {
    if responses == [] then Some([])
    else if responses[0].None? || responses[0].value.endorsement.None?
        || responses[0].value.endorsement.value.endorser in seen then
      NativeEndorsements(responses[1..], seen)
    else
      var e := responses[0].value.endorsement.value;
      if !Canonical(e.endorser).OfIdentity? then None
      else
        match NativeEndorsements(responses[1..], seen + {e.endorser})
        case None => None
        case Some(rest) => Some([IdentityEndorsement(Some(Canonical(e.endorser).identity), e.signature)] + rest)
  }

  /** createCompatFabricXTx: header and data of the native envelope. */
  function CreateNative(end: Endorsed): (r: Result<Payload>)
    ensures r.Ok? ==> end.responses != [] && AllUsable(end.responses)
    ensures r.Ok? ==> r.value.header.Some? && r.value.header.value.channelHeader.OfChannelHeader? && r.value.data.OfTx?
  {
    if end.proposal.None? then Err("an endorsed proposal is required")
    else if end.responses == [] then Err("at least one proposal response is required")
    else if !Canonical(end.proposal.value.header).OfHeader? then Err("header")
    else
      var header := Canonical(end.proposal.value.header).header;
      if !Canonical(header.signatureHeader).OfSignatureHeader? then Err("signature header")
      else
        var fault := ResponseFault(end.responses, 0);
        if fault.Some? then Err(fault.value)
        else
          var endorsements := NativeEndorsements(end.responses, {});
          if endorsements.None? then Err("endorser identity")
            else FinishNative(header, end.responses[0].value.payload, endorsements.value)
  }

  /** The end of createCompatFabricXTx: every namespace carries the same endorsements. */
  function FinishNative(header: Header, payload: Bytes, endorsements: seq<IdentityEndorsement>): (r: Result<Payload>)
    requires Canonical(header.signatureHeader).OfSignatureHeader?
    ensures r.Ok? ==> r.value.header.Some? && r.value.header.value.channelHeader.OfChannelHeader? && r.value.data.OfTx?
  {
    if endorsements == [] then Err("no endorsements")
    else if !Canonical(payload).OfTx? then Err("payload")
    else if !Canonical(header.channelHeader).OfChannelHeader? then Err("channel header")
    else
      var tx := Canonical(payload).tx;
      Ok(Payload(
        Some(Header(OfChannelHeader(Canonical(header.channelHeader).channelHeader.(kind := Message)),
                    OfSignatureHeader(Canonical(header.signatureHeader).signatureHeader.(creator := EMPTY_BYTES)))),
        OfTx(tx.(endorsements := seq(|tx.namespaces|, _ => endorsements)))))
  }

  /** createCompatFabricXTx with its two passes over the responses. */
  method CreateCompatTx(end: Endorsed) returns (r: Result<Payload>)
    ensures r == CreateNative(end)
  {
    if end.proposal.None? { return Err("an endorsed proposal is required"); }
    if end.responses == [] { return Err("at least one proposal response is required"); }
    if !Canonical(end.proposal.value.header).OfHeader? { return Err("header"); }
    var header := Canonical(end.proposal.value.header).header;
    if !Canonical(header.signatureHeader).OfSignatureHeader? { return Err("signature header"); }
    var rs := end.responses;
    for i := 0 to |rs|
      invariant forall k :: 0 <= k < i ==> Usable(rs[k])
      invariant forall k :: 0 <= k < i ==> rs[k].value.payload == rs[0].value.payload
      invariant ResponseFault(rs, 0) == ResponseFault(rs, i)
    {
      if !Usable(rs[i]) { return Err("proposal response"); }
      if rs[i].value.payload != rs[0].value.payload { return Err("payloads do not match"); }
    }
    var seen: set<Bytes> := {};
    var endorsements: seq<IdentityEndorsement> := [];
    assert rs[0..] == rs;
    PrefixedEmpty(NativeEndorsements(rs, {}));
    for i := 0 to |rs|
      invariant NativeEndorsements(rs, {}) == Prefixed(endorsements, NativeEndorsements(rs[i..], seen))
    {
      assert rs[i..][1..] == rs[i + 1..];
      if rs[i].value.endorsement.None? { continue; }
      var e := rs[i].value.endorsement.value;
      if e.endorser in seen { continue; }
      seen := seen + {e.endorser};
      if !Canonical(e.endorser).OfIdentity? { return Err("endorser identity"); }
      var native := IdentityEndorsement(Some(Canonical(e.endorser).identity), e.signature);
      PrefixedMore(endorsements, native, NativeEndorsements(rs[i + 1..], seen));
      endorsements := endorsements + [native];
    }
    assert rs[|rs|..] == [] && endorsements + [] == endorsements;
    r := FinishNative(header, rs[0].value.payload, endorsements);
  }

  function Prefixed<T>(front: seq<T>, rest: Option<seq<T>>): Option<seq<T>> {
    if rest.None? then None else Some(front + rest.value)
  }

  lemma PrefixedEmpty<T>(rest: Option<seq<T>>)
    ensures Prefixed([], rest) == rest
  {
    if rest.Some? {
      assert [] + rest.value == rest.value;
    }
  }

  lemma PrefixedMore<T>(front: seq<T>, x: T, rest: Option<seq<T>>)
    ensures Prefixed(front + [x], rest) == Prefixed(front, Prefixed([x], rest))
  {
    if rest.Some? {
      assert (front + [x]) + rest.value == front + ([x] + rest.value);
    }
  }

  // ------------------------------------------------------------------------
  // The binding and identity records in native metadata
  // ------------------------------------------------------------------------

  /** The proposal payload without its transient data. */
  function Public(payload: ProposalPayload): Bytes {
    OfProposalPayload(payload.(transient := map[]))
  }

  function MarshalBinding(proposal: Proposal, version: string, sequence: int, response: Response): Option<Bytes> {
    if version == "" || sequence < 1 || !Canonical(proposal.header).OfHeader?
        || !Canonical(proposal.payload).OfProposalPayload? then None
    else
      var header := Canonical(proposal.header).header;
      Some(OfBinding(Binding(1,
                             Digest(header.channelHeader, header.signatureHeader,
                                    Public(Canonical(proposal.payload).proposalPayload)),
                             version, sequence, response.status, response.message)))
  }

  /** Identity records among later metadata; records of other kinds are ignored. */
  function IdentityRecords(records: seq<Bytes>): seq<ChaincodeIdentity> {
    if records == [] then []
    else
      var head := Canonical(records[0]);
      (if head.OfChaincodeIdentity? && head.chaincodeIdentity.kind == CHAINCODE_IDENTITY_TYPE then
       [head.chaincodeIdentity] else [])
      + IdentityRecords(records[1..])
  }

  function IdentityFromMetadata(metadata: seq<Bytes>): Result<Option<ChaincodeIdentity>> {
    if |metadata| < 2 then Ok(None)
    else
      var found := IdentityRecords(metadata[1..]);
      if found == [] then Ok(None)
      else if |found| > 1 || found[0].version != 1 || found[0].channelID == "" || found[0].name == ""
          || found[0].namespace == "" then
        Err("invalid or duplicate chaincode identity metadata")
      else Ok(Some(found[0]))
  }

  // ------------------------------------------------------------------------
  // Printing
  // ------------------------------------------------------------------------

  predicate ClientHeader(channel: ChannelHeader, signature: SignatureHeader) {
    && channel.kind == EndorserTransaction && signature.creator != EMPTY_BYTES && signature.nonce != EMPTY_BYTES
    && channel.txID == Computed(signature.nonce, signature.creator)
  }

  function ProposalTxID(proposal: Proposal): Option<TxID> {
    var header := Canonical(proposal.header);
    if header.OfHeader? && Canonical(header.header.channelHeader).OfChannelHeader?
    then Some(Canonical(header.header.channelHeader).channelHeader.txID) else None
  }

  function ChaincodeName(spec: Spec): string {
    if spec.chaincodeID.Some? then spec.chaincodeID.value.name else ""
  }

  function Args(spec: Spec): seq<Bytes> {
    if spec.input.Some? then spec.input.value.args else []
  }

  function EventBytes(m: Metadata, chaincode: string, txID: TxID): Bytes {
    if m.eventName != "" || m.event != EMPTY_BYTES then OfEvent(chaincode, txID, m.eventName, m.event) else EMPTY_BYTES
  }

  /** The public projection of a checked native transaction. */
  function Project(header: Header, payload: ProposalPayload, txID: TxID, chaincode: string, version: string,
                   native: Bytes, m: Metadata,
                   response: Response, endorsements: seq<Endorsement>): Bytes {
    var public := Public(payload);
    var action := OfAction(ChaincodeAction(native, EventBytes(m, chaincode, txID), Some(response),
                                           ChaincodeID(chaincode, version)));
    var responsePayload := OfResponsePayload(Digest(header.channelHeader, header.signatureHeader, public), action);
    var actionPayload := OfActionPayload(ActionPayload(public, Some(EndorsedAction(responsePayload, endorsements))));
    OfPayload(Payload(Some(header), OfTransaction([Some(TransactionAction(header.signatureHeader, actionPayload))])))
  }

  /** The native transaction is the one this proposal, version and response were endorsed for. */
  function CheckNative(native: Tx, proposal: Proposal, version: string, channelID: string, chaincode: string,
                       namespace: string,
                       spec: Spec, response: Response): Result<Metadata> {
    if |native.namespaces| != 1 || native.namespaces[0].nsID != namespace || |native.metadata| < 2 then Err("namespace")
    else if !Canonical(native.metadata[1]).OfBinding? || Canonical(native.metadata[1]).binding.format != 1 then
      Err("binding")
    else
      var expected := MarshalBinding(proposal, version, Canonical(native.metadata[1]).binding.sequence, response);
      if expected != Some(native.metadata[1]) then Err("binding mismatch")
      else
        match IdentityFromMetadata(native.metadata)
        case Err(reason) => Err(reason)
        case Ok(identity) =>
          if identity.Some? && (identity.value.channelID != channelID
                                || identity.value.name + ":" + identity.value.namespace != chaincode
                                || identity.value.namespace != namespace) then Err("chaincode identity")
          else if !Canonical(native.metadata[0]).OfMetadata? then Err("metadata")
          else
            var m := Canonical(native.metadata[0]).metadata;
            if m.payload != response.payload || m.inputArgs != Args(spec) then Err("arguments or response") else Ok(m)
  }

  /** createGatewayTransaction. */
  function CreateGateway(proposal: Option<Proposal>, version: string, end: Endorsed): (r: Result<Bytes>)
    ensures r.Ok? ==> end.responses != [] && AllUsable(end.responses) && Signed(end.responses)
  {
    if proposal.None? || !Canonical(proposal.value.header).OfHeader? then Err("proposal")
    else
      var header := Canonical(proposal.value.header).header;
      var c, s := Canonical(header.channelHeader), Canonical(header.signatureHeader);
      if !c.OfChannelHeader? || !s.OfSignatureHeader? || !ClientHeader(c.channelHeader, s.signatureHeader) then
        Err("client header")
      else if end.proposal.None? || ProposalTxID(end.proposal.value) != Some(c.channelHeader.txID) then
        Err("transaction ID")
      else
        var p := Canonical(proposal.value.payload);
        if !p.OfProposalPayload? || !Canonical(p.proposalPayload.input).OfSpec? then Err("proposal payload")
        else
          var spec := Canonical(p.proposalPayload.input).spec;
          var route := Route(ChaincodeName(spec));
          if route.None? then Err("chaincode name")
          else CreateRouted(proposal.value, version, end, header, c.channelHeader, p.proposalPayload, spec,
                            route.value.1)
  }

  ghost predicate Signed(responses: seq<Option<ProposalResponse>>) {
    forall i :: 0 <= i < |responses| ==> responses[i].Some? && responses[i].value.endorsement.Some?
  }

  function EndorsementsOf(responses: seq<Option<ProposalResponse>>): (r: Result<seq<Endorsement>>)
    ensures r.Ok? <==> Signed(responses)
    ensures r.Ok? ==> |r.value| == |responses| && forall i :: 0 <= i < |responses| ==>
      r.value[i] == responses[i].value.endorsement.value
  {
    if responses == [] then Ok([])
    else if responses[0].None? || responses[0].value.endorsement.None? then Err("missing endorsement")
    else
      match EndorsementsOf(responses[1..])
      case Err(reason) =>
        assert !Signed(responses) by { assert !Signed(responses[1..]); assert forall i :: 0 <= i < |responses[1..]| ==>
                                      responses[1..][i] == responses[i + 1]; }
        Err(reason)
      case Ok(rest) => Ok([responses[0].value.endorsement.value] + rest)
  }

  function CreateRouted(proposal: Proposal, version: string, end: Endorsed, header: Header, channel: ChannelHeader,
                        payload: ProposalPayload, spec: Spec, namespace: string): (r: Result<Bytes>)
    ensures r.Ok? ==> end.responses != [] && AllUsable(end.responses) && Signed(end.responses)
  {
    match CreateNative(end)
    case Err(reason) => Err(reason)
    case Ok(native) =>
      if native.header.value.channelHeader.channelHeader.channelID != channel.channelID then Err("channel")
      else
        var response := end.responses[0].value.response.value;
        match CheckNative(native.data.tx, proposal, version, channel.channelID, ChaincodeName(spec), namespace, spec,
                          response)
        case Err(reason) => Err(reason)
        case Ok(m) =>
          match EndorsementsOf(end.responses)
          case Err(reason) => Err(reason)
          case Ok(endorsements) =>
            Ok(Project(header, payload, channel.txID, ChaincodeName(spec), version, native.data, m, response,
                       endorsements))
  }

  // ------------------------------------------------------------------------
  // Parsing
  // ------------------------------------------------------------------------

  /** What the checks before the rebuild read out of an envelope. */
  datatype View = View(header: Header, channel: ChannelHeader, signature: SignatureHeader, publicPayload: Bytes,
                       proposalPayload: ProposalPayload,
                       spec: Spec, execution: ChaincodeAction, native: Tx, binding: Binding)

  datatype Request = Request(chaincode: string, namespace: string, function': Bytes, args: seq<Bytes>, isInit: bool,
                             transient: map<string, Bytes>,
                             txID: TxID, creator: Bytes, nonce: Bytes, version: string)

  datatype Prepared = Prepared(request: Request, endorsement: Endorsed, binding: Binding, native: Tx)

  function Open(env: Bytes): (r: Result<View>)
    ensures r.Ok? ==> r.value.spec.chaincodeID.Some? && r.value.spec.input.Some? && r.value.execution.response.Some?
    ensures r.Ok? ==> |r.value.native.endorsements| == 1
  {
    if env == EMPTY_BYTES || !Canonical(env).OfPayload? || Canonical(env).payload.header.None? then Err("payload")
    else
      var header, data := Canonical(env).payload.header.value, Canonical(Canonical(env).payload.data);
      var c, s := Canonical(header.channelHeader), Canonical(header.signatureHeader);
      if !c.OfChannelHeader? || !s.OfSignatureHeader? || !ClientHeader(c.channelHeader, s.signatureHeader) then
        Err("client header")
      else if !data.OfTransaction? || |data.actions| != 1 || data.actions[0].None? then Err("exactly one action")
      else if data.actions[0].value.header != header.signatureHeader then Err("signature headers differ")
      else OpenAction(header, c.channelHeader, s.signatureHeader, Canonical(data.actions[0].value.payload))
  }

  function OpenAction(header: Header, channel: ChannelHeader, signature: SignatureHeader,
                      action: Bytes): (r: Result<View>)
    ensures r.Ok? ==> r.value.spec.chaincodeID.Some? && r.value.spec.input.Some? && r.value.execution.response.Some?
    ensures r.Ok? ==> |r.value.native.endorsements| == 1
  {
    if !action.OfActionPayload? || action.actionPayload.endorsed.None? then Err("chaincode action")
    else
      var cpp := Canonical(action.actionPayload.proposalPayload);
      if !cpp.OfProposalPayload? || cpp.proposalPayload.transient != map[] then Err("transient data")
      else
        var spec := Canonical(cpp.proposalPayload.input);
        if !spec.OfSpec? || spec.spec.chaincodeID.None? || spec.spec.input.None? then Err("proposal input")
        else if Canonical(channel.extension) != OfExtension(spec.spec.chaincodeID) then
          Err("chaincode identifiers differ")
        else
          var response := Canonical(action.actionPayload.endorsed.value.responsePayload);
          if !response.OfResponsePayload? then Err("response payload")
          else
            var execution := Canonical(response.extension);
            if !execution.OfAction? || execution.action.response.None? then Err("chaincode response")
            else
              var native := Canonical(execution.action.results);
              if !native.OfTx? || |native.tx.namespaces| != 1 || |native.tx.endorsements| != 1
                  || |native.tx.metadata| < 2 then Err("native transaction")
              else
                var binding := Canonical(native.tx.metadata[1]);
                if !binding.OfBinding? || binding.binding.format != 1 then Err("binding")
                else Ok(View(header, channel, signature, action.actionPayload.proposalPayload, cpp.proposalPayload,
                             spec.spec,
                             execution.action, native.tx, binding.binding))
  }

  /** The responses rebuilt from the native endorsements; None if one lacks its identity or signature. */
  function Rebuilt(native: seq<IdentityEndorsement>, response: Response,
                   results: Bytes): (r: Option<seq<Option<ProposalResponse>>>)
    ensures r.Some? <==> forall i :: 0 <= i < |native| ==>
      native[i].identity.Some? && native[i].signature != EMPTY_BYTES
    ensures r.Some? ==> |r.value| == |native| && forall i :: 0 <= i < |native| ==>
      r.value[i] == Some(ProposalResponse(Some(response), results,
                                          Some(Endorsement(OfIdentity(native[i].identity.value), native[i].signature))))
  {
    if native == [] then Some([])
    else
      var last := native[|native| - 1];
      var front := Rebuilt(native[..|native| - 1], response, results);
      if front.None? || last.identity.None? || last.signature == EMPTY_BYTES then None
      else Some(front.value + [RebuiltOne(last, response, results)])
  }

  function RebuiltOne(e: IdentityEndorsement, response: Response, results: Bytes): Option<ProposalResponse>
    requires e.identity.Some?
  {
    Some(ProposalResponse(Some(response), results, Some(Endorsement(OfIdentity(e.identity.value), e.signature))))
  }

  /** requestFromProposal and the client fields set after it. */
  function RequestOf(v: View): Result<Request>
    requires v.spec.chaincodeID.Some? && v.spec.input.Some?
  {
    var args, route := v.spec.input.value.args, Route(v.spec.chaincodeID.value.name);
    if args == [] || args[0] == EMPTY_BYTES then Err("function")
    else if route.None? then Err("chaincode name")
    else Ok(Request(route.value.0, route.value.1, args[0], args[1..], v.spec.input.value.isInit,
                    v.proposalPayload.transient,
                    v.channel.txID, v.signature.creator, v.signature.nonce, v.binding.version))
  }

  /** The end of parseGatewayTransaction: rebuild the public projection, compare, and return the request. */
  function Conclude(env: Bytes, v: View, responses: seq<Option<ProposalResponse>>): Result<Prepared>
    requires v.spec.chaincodeID.Some? && v.spec.input.Some?
  {
    var proposal := Proposal(OfHeader(v.header), v.publicPayload);
    var end := Endorsed(Some(proposal), responses);
    match CreateGateway(Some(proposal), v.binding.version, end)
    case Err(reason) => Err(reason)
    case Ok(expected) =>
      if expected != env then Err("differs from its endorsed public projection")
      else
        match RequestOf(v)
        case Err(reason) => Err(reason)
        case Ok(request) => Ok(Prepared(request, end, v.binding, v.native))
  }

  /** parseGatewayTransaction. */
  function Parse(env: Bytes): Result<Prepared> {
    match Open(env)
    case Err(reason) => Err(reason)
    case Ok(v) =>
      match Rebuilt(v.native.endorsements[0], v.execution.response.value, v.execution.results)
      case None => Err("endorsement identity or signature")
      case Some(responses) => Conclude(env, v, responses)
  }

  lemma {:induction false} RebuiltNext(native: seq<IdentityEndorsement>, i: nat, response: Response, results: Bytes)
    requires i < |native|
    ensures Rebuilt(native[..i + 1], response, results) ==
      var front := Rebuilt(native[..i], response, results);
      if front.None? || native[i].identity.None? || native[i].signature == EMPTY_BYTES then None
      else Some(front.value + [RebuiltOne(native[i], response, results)])
    ensures native[i].identity.None? || native[i].signature == EMPTY_BYTES ==> Rebuilt(native, response, results).None?
  {
    assert native[..i + 1][..i] == native[..i] && native[..i + 1][i] == native[i];
  }

  /** The loop over the native endorsements. */
  method RebuildResponses(native: seq<IdentityEndorsement>, response: Response, results: Bytes)
    returns (r: Option<seq<Option<ProposalResponse>>>)
    ensures r == Rebuilt(native, response, results)
  {
    var responses: seq<Option<ProposalResponse>> := [];
    for i := 0 to |native|
      invariant Rebuilt(native[..i], response, results) == Some(responses)
    {
      RebuiltNext(native, i, response, results);
      if native[i].identity.None? || native[i].signature == EMPTY_BYTES { return None; }
      responses := responses + [RebuiltOne(native[i], response, results)];
    }
    assert native[..|native|] == native;
    return Some(responses);
  }

  /** parseGatewayTransaction. */
  method ParseGatewayTransaction(env: Bytes) returns (r: Result<Prepared>)
    ensures r == Parse(env)
  {
    var view := Open(env);
    if view.Err? { return Err(view.reason); }
    var v := view.value;
    var responses := RebuildResponses(v.native.endorsements[0], v.execution.response.value, v.execution.results);
    if responses.None? { return Err("endorsement identity or signature"); }
    r := Conclude(env, v, responses.value);
  }

  // ------------------------------------------------------------------------
  // The round trip
  // ------------------------------------------------------------------------

  /** Nonempty signatures by pairwise distinct endorsers in canonical encoding. */
  ghost predicate Canonically(endorsements: seq<Endorsement>) {
    && (forall i :: 0 <= i < |endorsements| ==>
        endorsements[i].endorser.OfIdentity? && endorsements[i].signature != EMPTY_BYTES)
    && (forall i, j :: 0 <= i < j < |endorsements| ==> endorsements[i].endorser != endorsements[j].endorser)
  }

  function NativeOf(endorsements: seq<Endorsement>): (r: seq<IdentityEndorsement>)
    requires forall i :: 0 <= i < |endorsements| ==> endorsements[i].endorser.OfIdentity?
    ensures |r| == |endorsements|
    ensures forall i :: 0 <= i < |r| ==>
      r[i] == IdentityEndorsement(Some(endorsements[i].endorser.identity), endorsements[i].signature)
  {
    if endorsements == [] then []
    else [IdentityEndorsement(Some(endorsements[0].endorser.identity),
                              endorsements[0].signature)] + NativeOf(endorsements[1..])
  }

  /** The native endorsements depend only on the endorsements, which all survive when canonical and distinct. */
  lemma {:induction false} AllSurvive(responses: seq<Option<ProposalResponse>>, endorsements: seq<Endorsement>,
                                      seen: set<Bytes>)
    requires EndorsementsOf(responses) == Ok(endorsements) && Canonically(endorsements)
    requires forall i :: 0 <= i < |endorsements| ==> endorsements[i].endorser !in seen
    ensures NativeEndorsements(responses, seen) == Some(NativeOf(endorsements))
  {
    if responses != [] {
      var e, rest := endorsements[0], endorsements[1..];
      assert EndorsementsOf(responses[1..]) == Ok(rest) && Canonical(e.endorser) == e.endorser;
      forall i | 0 <= i < |rest| ensures rest[i].endorser !in seen + {e.endorser} {
        assert rest[i] == endorsements[i + 1];
      }
      AllSurvive(responses[1..], rest, seen + {e.endorser});
    }
  }

  /** None is dropped only if all endorser strings are distinct. */
  lemma {:induction false} NoneDropped(responses: seq<Option<ProposalResponse>>, endorsements: seq<Endorsement>,
                                       seen: set<Bytes>)
    requires EndorsementsOf(responses) == Ok(endorsements) && NativeEndorsements(responses, seen).Some?
    ensures |NativeEndorsements(responses, seen).value| <= |responses|
    ensures |NativeEndorsements(responses, seen).value| == |responses| ==>
              && (forall i :: 0 <= i < |endorsements| ==> endorsements[i].endorser !in seen)
              && (forall i, j :: 0 <= i < j < |endorsements| ==> endorsements[i].endorser != endorsements[j].endorser)
  {
    if responses != [] {
      var e := endorsements[0].endorser;
      NoneDropped(responses[1..], endorsements[1..], if e in seen then seen else seen + {e});
      if |NativeEndorsements(responses, seen).value| == |responses| {
        assert e !in seen;
        forall i, j | 0 <= i < j < |endorsements| ensures endorsements[i].endorser != endorsements[j].endorser {
          assert endorsements[j] == endorsements[1..][j - 1];
        }
      }
    }
  }

  /** The proposal as it is printed: canonical header, no transient data. */
  function PublicProposal(proposal: Proposal): Proposal
    requires Canonical(proposal.header).OfHeader? && Canonical(proposal.payload).OfProposalPayload?
  {
    Proposal(OfHeader(Canonical(proposal.header).header), Public(Canonical(proposal.payload).proposalPayload))
  }

  ghost predicate Decodes(proposal: Proposal) {
    && Canonical(proposal.header).OfHeader? && Canonical(proposal.payload).OfProposalPayload?
    && Canonical(Canonical(proposal.header).header.channelHeader).OfChannelHeader?
    && Canonical(Canonical(proposal.header).header.signatureHeader).OfSignatureHeader?
    && Canonical(Canonical(proposal.payload).proposalPayload.input).OfSpec?
  }

  function ChannelOf(proposal: Proposal): ChannelHeader
    requires Decodes(proposal)
  {
    Canonical(Canonical(proposal.header).header.channelHeader).channelHeader
  }

  function SignatureOf(proposal: Proposal): SignatureHeader
    requires Decodes(proposal)
  {
    Canonical(Canonical(proposal.header).header.signatureHeader).signatureHeader
  }

  function SpecOf(proposal: Proposal): Spec
    requires Decodes(proposal)
  {
    Canonical(Canonical(proposal.payload).proposalPayload.input).spec
  }

  /** Everything a printed transaction was made of. */
  datatype Print = Print(native: Tx, payload: Bytes, survivors: seq<IdentityEndorsement>, response: Response,
                         endorsements: seq<Endorsement>, metadata: Metadata)

  ghost predicate IsPrint(p: Print, proposal: Proposal, version: string, end: Endorsed) {
    && Decodes(proposal) && end.responses != [] && Usable(end.responses[0])
    && var rs := end.responses;
    && p.payload == rs[0].value.payload && p.response == rs[0].value.response.value
    && EndorsementsOf(rs) == Ok(p.endorsements)
    && NativeEndorsements(rs, {}) == Some(p.survivors) && p.survivors != []
    && Canonical(p.payload).OfTx? && p.native == Canonical(p.payload).tx.(endorsements := [p.survivors])
       && |p.native.namespaces| == 1
    && Route(ChaincodeName(SpecOf(proposal))).Some?
    && ClientHeader(ChannelOf(proposal), SignatureOf(proposal))
    && CheckNative(p.native, proposal, version, ChannelOf(proposal).channelID, ChaincodeName(SpecOf(proposal)),
                   Route(ChaincodeName(SpecOf(proposal))).value.1, SpecOf(proposal), p.response) == Ok(p.metadata)
  }

  function Printed(p: Print, proposal: Proposal, version: string): Bytes
    requires Decodes(proposal)
  {
    Project(Canonical(proposal.header).header, Canonical(proposal.payload).proposalPayload, ChannelOf(proposal).txID,
            ChaincodeName(SpecOf(proposal)), version, OfTx(p.native), p.metadata, p.response, p.endorsements)
  }

  /** Takes a printed transaction apart. */
  lemma PrintOf(proposal: Proposal, version: string, end: Endorsed) returns (p: Print)
    requires CreateGateway(Some(proposal), version, end).Ok?
    ensures IsPrint(p, proposal, version, end)
    ensures CreateGateway(Some(proposal), version, end) == Ok(Printed(p, proposal, version))
  {
    var rs := end.responses;
    var native := CreateNative(end).value;
    var channel := ChannelOf(proposal);
    var name := ChaincodeName(SpecOf(proposal));
    var response := rs[0].value.response.value;
    var m := CheckNative(native.data.tx, proposal, version, channel.channelID, name, Route(name).value.1,
                         SpecOf(proposal), response).value;
    var survivors := NativeEndorsements(rs, {}).value;
    assert native.data.tx.endorsements == [survivors];
    p := Print(native.data.tx, rs[0].value.payload, survivors, response, EndorsementsOf(rs).value, m);
  }

  /** Responses rebuilt from a print: all usable, one payload, carrying the native endorsements canonically. */
  lemma {:induction false} RebuiltResponses(survivors: seq<IdentityEndorsement>, response: Response, results: Bytes,
                                            endorsements: seq<Endorsement>)
    requires Canonically(endorsements) && survivors == NativeOf(endorsements)
    requires 200 <= response.status < 400
    ensures Rebuilt(survivors, response, results).Some?
    ensures var rs := Rebuilt(survivors, response, results).value;
      && EndorsementsOf(rs) == Ok(endorsements) && NativeEndorsements(rs, {}) == Some(survivors)
      && ResponseFault(rs, 0) == None
  {
    var rs := Rebuilt(survivors, response, results).value;
    assert Signed(rs);
    assert EndorsementsOf(rs).value == endorsements;
    AllSurvive(rs, endorsements, {});
    SamePayload(rs, 0);
  }

  lemma {:induction false} SamePayload(responses: seq<Option<ProposalResponse>>, i: nat)
    requires i <= |responses| && AllUsable(responses)
    requires forall k :: 0 <= k < |responses| ==>
      Usable(responses[k]) && responses[k].value.payload == responses[0].value.payload
    ensures ResponseFault(responses, i) == None
    decreases |responses| - i
  {
    if i < |responses| {
      SamePayload(responses, i + 1);
    }
  }

  /** The native transaction packaged again from rebuilt responses is the same one. */
  lemma {:induction false} NativeAgain(native: Tx, survivors: seq<IdentityEndorsement>, response: Response,
                                       endorsements: seq<Endorsement>, proposal: Proposal)
    requires Decodes(proposal) && Canonically(endorsements) && survivors == NativeOf(endorsements) && survivors != []
    requires 200 <= response.status < 400 && |native.namespaces| == 1 && native.endorsements == [survivors]
    ensures Rebuilt(survivors, response, OfTx(native)).Some?
    ensures var public, rs := PublicProposal(proposal), Rebuilt(survivors, response, OfTx(native)).value;
      && |rs| > 0 && rs[0].Some? && rs[0].value.response == Some(response) && EndorsementsOf(rs) == Ok(endorsements)
      && CreateNative(Endorsed(Some(public), rs))
            == FinishNative(Canonical(proposal.header).header, OfTx(native), survivors)
      && CreateNative(Endorsed(Some(public), rs)).Ok?
      && CreateNative(Endorsed(Some(public), rs)).value.data == OfTx(native)
      && CreateNative(Endorsed(Some(public), rs)).value.header.value.channelHeader.channelHeader.channelID
            == ChannelOf(proposal).channelID
  {
    RebuiltResponses(survivors, response, OfTx(native), endorsements);
    assert seq(|native.namespaces|, _ => survivors) == native.endorsements;
  }

  /** The native checks do not see transient data. */
  lemma CheckPublic(native: Tx, proposal: Proposal, version: string, channelID: string, chaincode: string,
                    namespace: string,
                    spec: Spec, response: Response)
    requires Decodes(proposal)
    ensures CheckNative(native, PublicProposal(proposal), version, channelID, chaincode, namespace, spec, response)
         == CheckNative(native, proposal, version, channelID, chaincode, namespace, spec, response)
  {
    var payload := Canonical(proposal.payload).proposalPayload;
    assert Public(payload.(transient := map[])) == Public(payload);
  }

  /** The last steps of printing, from a native transaction that passes the checks. */
  lemma {:induction false} PrintsFrom(p: Print, proposal: Proposal, version: string, rs: seq<Option<ProposalResponse>>)
    requires Decodes(proposal) && ClientHeader(ChannelOf(proposal), SignatureOf(proposal))
      && Route(ChaincodeName(SpecOf(proposal))).Some?
    requires rs != [] && rs[0].Some? && rs[0].value.response == Some(p.response)
      && EndorsementsOf(rs) == Ok(p.endorsements)
    requires var public := PublicProposal(proposal);
      && var native := CreateNative(Endorsed(Some(public), rs));
      && native.Ok? && native.value.data == OfTx(p.native)
      && native.value.header.value.channelHeader.channelHeader.channelID == ChannelOf(proposal).channelID
      && CheckNative(p.native, public, version, ChannelOf(proposal).channelID, ChaincodeName(SpecOf(proposal)),
                     Route(ChaincodeName(SpecOf(proposal))).value.1, SpecOf(proposal), p.response) == Ok(p.metadata)
    ensures CreateGateway(Some(PublicProposal(proposal)), version, Endorsed(Some(PublicProposal(proposal)), rs))
      == Ok(Printed(p, proposal, version))
  {
  }

  /** Printing again from what was printed reproduces it, although it already contains its endorsements. */
  lemma RebuildIsFixpoint(p: Print, proposal: Proposal, version: string, end: Endorsed)
    requires IsPrint(p, proposal, version, end) && Canonically(p.endorsements)
    ensures p.survivors == NativeOf(p.endorsements)
    ensures Rebuilt(p.survivors, p.response, OfTx(p.native)).Some?
    ensures var public, rs := PublicProposal(proposal), Rebuilt(p.survivors, p.response, OfTx(p.native)).value;
      CreateGateway(Some(public), version, Endorsed(Some(public), rs)) == Ok(Printed(p, proposal, version))
  {
    AllSurvive(end.responses, p.endorsements, {});
    NativeAgain(p.native, p.survivors, p.response, p.endorsements, proposal);
    var spec := SpecOf(proposal);
    CheckPublic(p.native, proposal, version, ChannelOf(proposal).channelID, ChaincodeName(spec),
                Route(ChaincodeName(spec)).value.1, spec, p.response);
    var rs := Rebuilt(p.survivors, p.response, OfTx(p.native)).value;
    PrintsFrom(p, proposal, version, rs);
  }

  /** What a printed transaction must satisfy to be parsed back. */
  ghost predicate Parsable(proposal: Proposal, responses: seq<Option<ProposalResponse>>)
    requires Decodes(proposal)
  {
    && Canonical(ChannelOf(proposal).extension) == OfExtension(SpecOf(proposal).chaincodeID)
    && SpecOf(proposal).input.Some? && Args(SpecOf(proposal)) != [] && Args(SpecOf(proposal))[0] != EMPTY_BYTES
    && EndorsementsOf(responses).Ok? && Canonically(EndorsementsOf(responses).value)
  }

  /** What the native checks establish: the binding is canonical and binds this proposal, version and response. */
  lemma {:induction false} CheckedNative(native: Tx, proposal: Proposal, version: string, channelID: string,
                                         chaincode: string, namespace: string,
                                         spec: Spec, response: Response)
    requires Decodes(proposal)
      && CheckNative(native, proposal, version, channelID, chaincode, namespace, spec, response).Ok?
    ensures |native.namespaces| == 1 && native.namespaces[0].nsID == namespace && |native.metadata| >= 2
      && native.metadata[1].OfBinding?
    ensures var b, header := native.metadata[1].binding, Canonical(proposal.header).header;
      && b.format == 1 && b.version == version && b.status == response.status && b.message == response.message
      && b.proposalHash == Digest(header.channelHeader, header.signatureHeader,
                                  Public(Canonical(proposal.payload).proposalPayload))
    ensures Canonical(native.metadata[0]).OfMetadata?
    ensures var m := Canonical(native.metadata[0]).metadata;
      && CheckNative(native, proposal, version, channelID, chaincode, namespace, spec, response) == Ok(m)
      && m.payload == response.payload && m.inputArgs == Args(spec)
  {
  }

  /** The action of a printed transaction opens exactly when the header extension matches and the input is present. */
  lemma {:induction false} OpenPrintedAction(header: Header, channel: ChannelHeader, signature: SignatureHeader,
                                             payload: ProposalPayload, spec: Spec,
                                             responsePayload: Bytes, endorsements: seq<Endorsement>, hash: Digest,
                                                 action: ChaincodeAction, native: Tx)
    requires Canonical(payload.input) == OfSpec(spec) && spec.chaincodeID.Some?
    requires responsePayload == OfResponsePayload(hash, OfAction(action)) && action.response.Some?
      && action.results == OfTx(native)
    requires |native.namespaces| == 1 && |native.endorsements| == 1 && |native.metadata| >= 2
    requires native.metadata[1].OfBinding? && native.metadata[1].binding.format == 1
    ensures var r := OpenAction(header, channel, signature,
                                OfActionPayload(ActionPayload(Public(payload),
                                                              Some(EndorsedAction(responsePayload, endorsements)))));
      && (r.Ok? <==> Canonical(channel.extension) == OfExtension(spec.chaincodeID) && spec.input.Some?)
      && (r.Ok? ==>
          r.value == View(header, channel, signature, Public(payload), payload.(transient := map[]), spec, action,
                          native, native.metadata[1].binding))
  {
  }

  /** A payload with a client header and one action under the same signature header opens as that action does. */
  lemma {:induction false} OpenTransaction(header: Header, actionPayload: Bytes)
    requires Canonical(header.channelHeader).OfChannelHeader? && Canonical(header.signatureHeader).OfSignatureHeader?
    requires ClientHeader(Canonical(header.channelHeader).channelHeader,
                          Canonical(header.signatureHeader).signatureHeader)
    ensures var action := TransactionAction(header.signatureHeader, actionPayload);
      Open(OfPayload(Payload(Some(header), OfTransaction([Some(action)])))) ==
        OpenAction(header, Canonical(header.channelHeader).channelHeader,
                   Canonical(header.signatureHeader).signatureHeader, Canonical(actionPayload))
  {
  }

  lemma {:induction false} OpenProjection(header: Header, payload: ProposalPayload, chaincode: string, version: string,
                                          native: Tx, m: Metadata,
                                          response: Response, endorsements: seq<Endorsement>, spec: Spec)
    requires Canonical(header.channelHeader).OfChannelHeader? && Canonical(header.signatureHeader).OfSignatureHeader?
    requires ClientHeader(Canonical(header.channelHeader).channelHeader,
                          Canonical(header.signatureHeader).signatureHeader)
    requires Canonical(payload.input) == OfSpec(spec) && spec.chaincodeID.Some?
    requires |native.namespaces| == 1 && |native.endorsements| == 1 && |native.metadata| >= 2
    requires native.metadata[1].OfBinding? && native.metadata[1].binding.format == 1
    ensures var channel, signature :=
      Canonical(header.channelHeader).channelHeader, Canonical(header.signatureHeader).signatureHeader;
      var r := Open(Project(header, payload, channel.txID, chaincode, version, OfTx(native), m, response,
                            endorsements));
      var action := ChaincodeAction(OfTx(native), EventBytes(m, chaincode, channel.txID), Some(response),
                                    ChaincodeID(chaincode, version));
      && (r.Ok? <==> Canonical(channel.extension) == OfExtension(spec.chaincodeID) && spec.input.Some?)
      && (r.Ok? ==>
          r.value == View(header, channel, signature, Public(payload), payload.(transient := map[]), spec, action,
                          native, native.metadata[1].binding))
  {
    var channel, signature :=
      Canonical(header.channelHeader).channelHeader, Canonical(header.signatureHeader).signatureHeader;
    var hash := Digest(header.channelHeader, header.signatureHeader, Public(payload));
    var action := ChaincodeAction(OfTx(native), EventBytes(m, chaincode, channel.txID), Some(response),
                                  ChaincodeID(chaincode, version));
    var responsePayload := OfResponsePayload(hash, OfAction(action));
    var actionPayload := OfActionPayload(ActionPayload(Public(payload),
                                                       Some(EndorsedAction(responsePayload, endorsements))));
    OpenTransaction(header, actionPayload);
    OpenPrintedAction(header, channel, signature, payload, spec, responsePayload, endorsements, hash, action, native);
  }

  /** Opening a printed transaction: refused exactly when the header extension differs or the input is missing. */
  lemma {:induction false} OpenPrinted(p: Print, proposal: Proposal, version: string, end: Endorsed)
    requires IsPrint(p, proposal, version, end)
    ensures Open(Printed(p, proposal, version)).Ok? <==>
              && Canonical(ChannelOf(proposal).extension) == OfExtension(SpecOf(proposal).chaincodeID)
              && SpecOf(proposal).input.Some?
    ensures Open(Printed(p, proposal, version)).Ok? ==>
              && var v := Open(Printed(p, proposal, version)).value;
              && v.native == p.native && v.execution.results == OfTx(p.native)
                 && v.execution.response == Some(p.response)
              && v.header == Canonical(proposal.header).header
                 && v.publicPayload == Public(Canonical(proposal.payload).proposalPayload)
              && v.proposalPayload == Canonical(proposal.payload).proposalPayload.(transient := map[])
              && v.spec == SpecOf(proposal) && v.channel == ChannelOf(proposal) && v.signature == SignatureOf(proposal)
              && OfBinding(v.binding) == p.native.metadata[1] && v.binding.version == version
              && v.execution == PrintedAction(p, proposal, version)
  {
    var header, payload, spec :=
      Canonical(proposal.header).header, Canonical(proposal.payload).proposalPayload, SpecOf(proposal);
    var name := ChaincodeName(spec);
    CheckedNative(p.native, proposal, version, ChannelOf(proposal).channelID, name, Route(name).value.1, spec,
                  p.response);
    OpenProjection(header, payload, name, version, p.native, p.metadata, p.response, p.endorsements, spec);
  }

  function PrintedAction(p: Print, proposal: Proposal, version: string): ChaincodeAction
    requires Decodes(proposal)
  {
    var name := ChaincodeName(SpecOf(proposal));
    ChaincodeAction(OfTx(p.native), EventBytes(p.metadata, name, ChannelOf(proposal).txID), Some(p.response),
                    ChaincodeID(name, version))
  }

  /** The request of a printed transaction that opens. */
  lemma RequestOfPrint(p: Print, proposal: Proposal, version: string, end: Endorsed)
    requires IsPrint(p, proposal, version, end) && Open(Printed(p, proposal, version)).Ok?
    ensures var r, args := RequestOf(Open(Printed(p, proposal, version)).value), Args(SpecOf(proposal));
      && (r.Ok? <==> args != [] && args[0] != EMPTY_BYTES)
      && (r.Ok? ==> && r.value.transient == map[] && r.value.txID == ChannelOf(proposal).txID
                    && r.value.creator == SignatureOf(proposal).creator && r.value.nonce == SignatureOf(proposal).nonce
                    && r.value.version == version && [r.value.function'] + r.value.args == args
                    && SpecOf(proposal).input == Some(Input(args, r.value.isInit))
                    && r.value.chaincode + ":" + r.value.namespace == ChaincodeName(SpecOf(proposal)))
  {
    OpenPrinted(p, proposal, version, end);
    RequestOfView(Open(Printed(p, proposal, version)).value);
  }

  lemma RequestOfView(v: View)
    requires v.spec.chaincodeID.Some? && v.spec.input.Some? && Route(v.spec.chaincodeID.value.name).Some?
    ensures var r, args := RequestOf(v), Args(v.spec);
      && (r.Ok? <==> args != [] && args[0] != EMPTY_BYTES)
      && (r.Ok? ==> [r.value.function'] + r.value.args == args && v.spec.input == Some(Input(args, r.value.isInit))
                    && r.value.chaincode + ":" + r.value.namespace == ChaincodeName(v.spec))
  {
  }

  /** Printing again from a print gives the same bytes only if no endorsement was dropped or re-encoded on the way. */
  lemma OnlyCanonicalRebuilds(p: Print, proposal: Proposal, version: string, end: Endorsed,
                              again: seq<Option<ProposalResponse>>)
    requires IsPrint(p, proposal, version, end)
    requires Rebuilt(p.survivors, p.response, OfTx(p.native)) == Some(again)
    requires CreateGateway(Some(PublicProposal(proposal)), version, Endorsed(Some(PublicProposal(proposal)), again))
      == Ok(Printed(p, proposal, version))
    ensures Canonically(p.endorsements)
  {
    var public := PublicProposal(proposal);
    var q := PrintOf(public, version, Endorsed(Some(public), again));
    assert q.endorsements == p.endorsements;
    NoneDropped(end.responses, p.endorsements, {});
  }

  /** Parsing what opens: the rebuild and the request decide. */
  lemma ParseOfView(env: Bytes, v: View, again: Option<seq<Option<ProposalResponse>>>)
    requires Open(env) == Ok(v) && |v.native.endorsements| == 1 && v.execution.response.Some?
    requires again == Rebuilt(v.native.endorsements[0], v.execution.response.value, v.execution.results)
    ensures var public := Proposal(OfHeader(v.header), v.publicPayload);
      && (Parse(env).Ok? <==>
            again.Some? && CreateGateway(Some(public), v.binding.version, Endorsed(Some(public), again.value))
                == Ok(env)
            && RequestOf(v).Ok?)
      && (Parse(env).Ok? ==>
            Parse(env).value == Prepared(RequestOf(v).value, Endorsed(Some(public), again.value), v.binding, v.native))
  {
  }

  /** Parsing a printed transaction that opens. */
  lemma ParseOpened(p: Print, proposal: Proposal, version: string, end: Endorsed)
    requires IsPrint(p, proposal, version, end) && Open(Printed(p, proposal, version)).Ok?
    ensures var env, again, public :=
      Printed(p, proposal, version), Rebuilt(p.survivors, p.response, OfTx(p.native)), PublicProposal(proposal);
      && (Parse(env).Ok? <==>
            again.Some? && CreateGateway(Some(public), version, Endorsed(Some(public), again.value)) == Ok(env)
            && RequestOf(Open(env).value).Ok?)
      && (Parse(env).Ok? ==>
            Parse(env).value == Prepared(RequestOf(Open(env).value).value, Endorsed(Some(public), again.value),
                                         Open(env).value.binding, p.native))
  {
    OpenPrinted(p, proposal, version, end);
    var env := Printed(p, proposal, version);
    ParseOfView(env, Open(env).value, Rebuilt(p.survivors, p.response, OfTx(p.native)));
  }

  /**
   * Main result. A transaction printed by Endorse is accepted by Submit exactly
   * when its header extension matches, its function is nonempty, and its
   * endorsers are distinct, canonical and carry signatures.
   */
  lemma ParsesBackExactly(proposal: Proposal, version: string, end: Endorsed, env: Bytes)
    requires CreateGateway(Some(proposal), version, end) == Ok(env)
    ensures Decodes(proposal)
    ensures Parse(env).Ok? <==> Parsable(proposal, end.responses)
  {
    var p := PrintOf(proposal, version, end);
    OpenPrinted(p, proposal, version, end);
    if Open(env).Ok? {
      ParseOpened(p, proposal, version, end);
      RequestOfPrint(p, proposal, version, end);
      if Canonically(p.endorsements) {
        RebuildIsFixpoint(p, proposal, version, end);
      } else if Parse(env).Ok? {
        OnlyCanonicalRebuilds(p, proposal, version, end, Rebuilt(p.survivors, p.response, OfTx(p.native)).value);
      }
    }
  }

  /** What parsing returns, in terms of what was printed. */
  lemma ParseOfPrint(p: Print, proposal: Proposal, version: string, end: Endorsed, env: Bytes)
    requires IsPrint(p, proposal, version, end) && env == Printed(p, proposal, version)
    requires CreateGateway(Some(proposal), version, end) == Ok(env) && Parse(env).Ok?
    ensures Canonically(p.endorsements) && p.survivors == NativeOf(p.endorsements) && Open(env).Ok?
    ensures Rebuilt(p.survivors, p.response, OfTx(p.native)).Some?
    ensures var r := Parse(env).value;
      && r.endorsement == Endorsed(Some(PublicProposal(proposal)),
                                   Rebuilt(p.survivors, p.response, OfTx(p.native)).value)
      && r.native == p.native && OfBinding(r.binding) == p.native.metadata[1] && r.binding.version == version
      && RequestOf(Open(env).value) == Ok(r.request)
  {
    ParsesBackExactly(proposal, version, end, env);
    OpenPrinted(p, proposal, version, end);
    RebuildIsFixpoint(p, proposal, version, end);
  }

  /** Parsing recovers the ordered endorsements, the response and the public, transient-free proposal. */
  lemma ParseRecoversEndorsements(proposal: Proposal, version: string, end: Endorsed, env: Bytes)
    requires CreateGateway(Some(proposal), version, end) == Ok(env) && Parse(env).Ok?
    ensures Decodes(proposal) && EndorsementsOf(end.responses).Ok? && Usable(end.responses[0])
    ensures var r := Parse(env).value.endorsement;
      && r.proposal == Some(PublicProposal(proposal))
      && EndorsementsOf(r.responses) == EndorsementsOf(end.responses)
      && (forall i :: 0 <= i < |r.responses| ==>
            && Usable(r.responses[i]) && r.responses[i].value.response == end.responses[0].value.response
            && r.responses[i].value.payload == OfTx(Parse(env).value.native))
  {
    var p := PrintOf(proposal, version, end);
    ParseOfPrint(p, proposal, version, end, env);
    RebuiltResponses(p.survivors, p.response, OfTx(p.native), p.endorsements);
  }

  /** Parsing recovers the native transaction, whose only change is the attached endorsements, and its binding. */
  lemma ParseRecoversNative(proposal: Proposal, version: string, end: Endorsed, env: Bytes)
    requires CreateGateway(Some(proposal), version, end) == Ok(env) && Parse(env).Ok?
    ensures EndorsementsOf(end.responses).Ok? && Canonically(EndorsementsOf(end.responses).value)
      && Usable(end.responses[0])
    ensures Canonical(end.responses[0].value.payload).OfTx?
    ensures var r := Parse(env).value;
      && r.native == Canonical(end.responses[0].value.payload).tx.(endorsements :=
                                                                   [NativeOf(EndorsementsOf(end.responses).value)])
      && |r.native.metadata| >= 2 && r.native.metadata[1] == OfBinding(r.binding) && r.binding.version == version
  {
    var p := PrintOf(proposal, version, end);
    ParseOfPrint(p, proposal, version, end, env);
  }

  /**
   * The parsed request is the client's: its identifiers, its input, its chaincode
   * route, and no transient data.
   */
  lemma ParseRecoversRequest(proposal: Proposal, version: string, end: Endorsed, env: Bytes)
    requires CreateGateway(Some(proposal), version, end) == Ok(env) && Parse(env).Ok?
    ensures Decodes(proposal)
    ensures var q := Parse(env).value.request;
      && q.transient == map[] && q.txID == ChannelOf(proposal).txID && q.creator == SignatureOf(proposal).creator
      && q.nonce == SignatureOf(proposal).nonce && q.version == version
         && SpecOf(proposal).input == Some(Input([q.function'] + q.args, q.isInit))
      && q.chaincode + ":" + q.namespace == ChaincodeName(SpecOf(proposal))
  {
    var p := PrintOf(proposal, version, end);
    ParseOfPrint(p, proposal, version, end, env);
    RequestOfPrint(p, proposal, version, end);
  }

  /** Any accepted envelope is the printed form of what it parses to, so two envelopes with one parse are the same. */
  lemma AcceptedIsPrinted(env: Bytes, other: Bytes)
    requires Parse(env).Ok?
    ensures var r := Parse(env).value;
      CreateGateway(r.endorsement.proposal, r.binding.version, r.endorsement) == Ok(env)
    ensures Parse(other) == Parse(env) ==> other == env
  {
    PrintsAgain(env);
    if Parse(other) == Parse(env) {
      PrintsAgain(other);
    }
  }

  lemma PrintsAgain(env: Bytes)
    requires Parse(env).Ok?
    ensures var r := Parse(env).value;
      CreateGateway(r.endorsement.proposal, r.binding.version, r.endorsement) == Ok(env)
  {
  }

  /**
   * The mirrored event, result and arguments are those of the native metadata;
   * the digest is that of the enclosed proposal.
   */
  ghost predicate Mirrors(v: View) {
    && v.execution.response.Some? && |v.native.metadata| >= 2 && Canonical(v.native.metadata[0]).OfMetadata?
    && var m := Canonical(v.native.metadata[0]).metadata;
    && v.execution.response.value.payload == m.payload && Args(v.spec) == m.inputArgs
    && v.execution.events == EventBytes(m, ChaincodeName(v.spec), v.channel.txID)
    && v.execution.response.value.status == v.binding.status && v.execution.response.value.message == v.binding.message
    && v.binding.proposalHash == Digest(v.header.channelHeader, v.header.signatureHeader, v.publicPayload)
    && v.publicPayload == Public(v.proposalPayload)
    && v.execution.chaincodeID == ChaincodeID(ChaincodeName(v.spec), v.binding.version)
  }

  lemma PrintMirrors(p: Print, proposal: Proposal, version: string, end: Endorsed)
    requires IsPrint(p, proposal, version, end) && Open(Printed(p, proposal, version)).Ok?
    ensures Mirrors(Open(Printed(p, proposal, version)).value)
  {
    OpenPrinted(p, proposal, version, end);
    var name := ChaincodeName(SpecOf(proposal));
    CheckedNative(p.native, proposal, version, ChannelOf(proposal).channelID, name, Route(name).value.1,
                  SpecOf(proposal), p.response);
  }

  /** Any accepted envelope mirrors its native transaction, whoever made it. */
  lemma MirrorsAgreeWithNative(env: Bytes)
    requires Parse(env).Ok?
    ensures Open(env).Ok? && Mirrors(Open(env).value)
  {
    AcceptedIsPrinted(env, env);
    var r := Parse(env).value;
    var proposal := r.endorsement.proposal.value;
    var p := PrintOf(proposal, r.binding.version, r.endorsement);
    PrintMirrors(p, proposal, r.binding.version, r.endorsement);
  }

  // ------------------------------------------------------------------------
  // Both outcomes occur
  // ------------------------------------------------------------------------

  const SAMPLE_ID: ChaincodeID := ChaincodeID("c:n", "")
  const SAMPLE_SPEC: Spec := Spec(Some(SAMPLE_ID), Some(Input([Raw([3])], false)))
  const SAMPLE_PAYLOAD: ProposalPayload := ProposalPayload(OfSpec(SAMPLE_SPEC), map[])
  const SAMPLE_SIGNATURE: SignatureHeader := SignatureHeader(Raw([1]), Raw([2]))
  const SAMPLE_CHANNEL: ChannelHeader :=
    ChannelHeader(EndorserTransaction, "channel", Computed(Raw([2]), Raw([1])), OfExtension(Some(SAMPLE_ID)),
                  EMPTY_BYTES)
  const SAMPLE_HEADER: Header := Header(OfChannelHeader(SAMPLE_CHANNEL), OfSignatureHeader(SAMPLE_SIGNATURE))
  const SAMPLE_PROPOSAL: Proposal := Proposal(OfHeader(SAMPLE_HEADER), OfProposalPayload(SAMPLE_PAYLOAD))
  const SAMPLE_RESPONSE: Response := Response(200, "", EMPTY_BYTES)
  const SAMPLE_METADATA: Metadata := Metadata(EMPTY_BYTES, [Raw([3])], "", EMPTY_BYTES)
  const SAMPLE_BINDING: Binding :=
    Binding(1, Digest(SAMPLE_HEADER.channelHeader, SAMPLE_HEADER.signatureHeader, Public(SAMPLE_PAYLOAD)), "1", 1, 200,
            "")
  const SAMPLE_NATIVE: Tx :=
    Tx([Namespace("n", 0, EMPTY_BYTES)], [], [OfMetadata(SAMPLE_METADATA), OfBinding(SAMPLE_BINDING)])
  const SAMPLE_IDENTITY: Identity := Identity("o", Raw([4]))

  function SampleAnswer(e: Endorsement): Option<ProposalResponse> {
    Some(ProposalResponse(Some(SAMPLE_RESPONSE), OfTx(SAMPLE_NATIVE), Some(e)))
  }

  /** The sample endorsement, given once or twice. */
  function Sample(e: Endorsement, twice: bool): Endorsed {
    Endorsed(Some(SAMPLE_PROPOSAL), if twice then [SampleAnswer(e), SampleAnswer(e)] else [SampleAnswer(e)])
  }

  lemma {:induction false} SampleDecodes()
    ensures Decodes(SAMPLE_PROPOSAL) && PublicProposal(SAMPLE_PROPOSAL) == SAMPLE_PROPOSAL
      && SpecOf(SAMPLE_PROPOSAL) == SAMPLE_SPEC
    ensures ChannelOf(SAMPLE_PROPOSAL) == SAMPLE_CHANNEL && SignatureOf(SAMPLE_PROPOSAL) == SAMPLE_SIGNATURE
    ensures ChaincodeName(SAMPLE_SPEC) == "c:n" && Route("c:n") == Some(("c", "n"))
  {
    assert "c:n"[..1] == "c" && "c:n"[2..] == "n";
    assert Route("c:n", 1) == Some(("c", "n"));
  }

  /** An endorser that occurs twice is endorsed once in the native transaction. */
  lemma {:induction false} SampleSurvivors(e: Endorsement, twice: bool)
    requires Canonical(e.endorser) == OfIdentity(SAMPLE_IDENTITY)
    ensures var rs := Sample(e, twice).responses;
      && NativeEndorsements(rs, {}) == Some([IdentityEndorsement(Some(SAMPLE_IDENTITY), e.signature)])
      && ResponseFault(rs, 0) == None && EndorsementsOf(rs) == Ok(if twice then [e, e] else [e])
  {
    var rs, survivors := Sample(e, twice).responses, [IdentityEndorsement(Some(SAMPLE_IDENTITY), e.signature)];
    SamePayload(rs, 0);
    if twice {
      assert rs[1..] == [rs[1]] && rs[1..][1..] == [] && [e] + [] == [e] && [e] + [e] == [e, e];
      assert NativeEndorsements(rs[1..], {e.endorser}) == Some([]) && EndorsementsOf(rs[1..]) == Ok([e]);
    } else {
      assert rs[1..] == [] && [e] + [] == [e];
      assert NativeEndorsements(rs[1..], {e.endorser}) == Some([]) && EndorsementsOf(rs[1..]) == Ok([]);
    }
    assert {} + {e.endorser} == {e.endorser} && survivors + [] == survivors;
  }

  lemma {:induction false} SampleNativeIsCreated(e: Endorsement, twice: bool)
    requires Canonical(e.endorser) == OfIdentity(SAMPLE_IDENTITY)
    ensures var native := CreateNative(Sample(e, twice));
      && native.Ok?
      && native.value.data
            == OfTx(SAMPLE_NATIVE.(endorsements := [[IdentityEndorsement(Some(SAMPLE_IDENTITY), e.signature)]]))
      && native.value.header.value.channelHeader.channelHeader.channelID == "channel"
  {
    var survivors := [IdentityEndorsement(Some(SAMPLE_IDENTITY), e.signature)];
    SampleSurvivors(e, twice);
    assert CreateNative(Sample(e, twice)) == FinishNative(SAMPLE_HEADER, OfTx(SAMPLE_NATIVE), survivors);
    assert seq(|SAMPLE_NATIVE.namespaces|, _ => survivors) == [survivors];
  }

  lemma {:induction false} SampleChecks(native: Tx)
    requires native.namespaces == SAMPLE_NATIVE.namespaces && native.metadata == SAMPLE_NATIVE.metadata
    ensures CheckNative(native, SAMPLE_PROPOSAL, "1", "channel", "c:n", "n", SAMPLE_SPEC, SAMPLE_RESPONSE)
      == Ok(SAMPLE_METADATA)
  {
    assert MarshalBinding(SAMPLE_PROPOSAL, "1", 1, SAMPLE_RESPONSE) == Some(OfBinding(SAMPLE_BINDING));
    assert native.metadata[1..] == [OfBinding(SAMPLE_BINDING)] && [OfBinding(SAMPLE_BINDING)][1..] == [];
    assert IdentityRecords(native.metadata[1..]) == [];
  }

  lemma {:induction false} SampleIsCreated(e: Endorsement, twice: bool)
    requires Canonical(e.endorser) == OfIdentity(SAMPLE_IDENTITY)
    ensures CreateGateway(Some(SAMPLE_PROPOSAL), "1", Sample(e, twice)).Ok?
  {
    SampleDecodes();
    SampleSurvivors(e, twice);
    SampleNativeIsCreated(e, twice);
    var native := CreateNative(Sample(e, twice)).value.data.tx;
    SampleChecks(native);
    var p := Print(native, OfTx(SAMPLE_NATIVE), [IdentityEndorsement(Some(SAMPLE_IDENTITY), e.signature)],
                   SAMPLE_RESPONSE,
                   if twice then [e, e] else [e], SAMPLE_METADATA);
    PrintsFrom(p, SAMPLE_PROPOSAL, "1", Sample(e, twice).responses);
  }

  /**
   * The sample is always created, and parsed back exactly if the endorser is
   * canonical and unique and the signature is there.
   */
  lemma {:induction false} SampleParses(e: Endorsement, twice: bool) returns (env: Bytes)
    requires Canonical(e.endorser) == OfIdentity(SAMPLE_IDENTITY)
    ensures CreateGateway(Some(SAMPLE_PROPOSAL), "1", Sample(e, twice)) == Ok(env)
    ensures Parse(env).Ok? <==> e.endorser == OfIdentity(SAMPLE_IDENTITY) && !twice && e.signature != EMPTY_BYTES
  {
    SampleIsCreated(e, twice);
    env := CreateGateway(Some(SAMPLE_PROPOSAL), "1", Sample(e, twice)).value;
    ParsesBackExactly(SAMPLE_PROPOSAL, "1", Sample(e, twice), env);
    SampleIsParsable(e, twice);
  }

  lemma {:induction false} SampleIsParsable(e: Endorsement, twice: bool)
    requires Canonical(e.endorser) == OfIdentity(SAMPLE_IDENTITY)
    ensures Decodes(SAMPLE_PROPOSAL)
    ensures Parsable(SAMPLE_PROPOSAL, Sample(e, twice).responses) <==>
      e.endorser == OfIdentity(SAMPLE_IDENTITY) && !twice && e.signature != EMPTY_BYTES
  {
    SampleDecodes();
    SampleSurvivors(e, twice);
    SampleIsCanonical(e, twice);
  }

  lemma {:induction false} SampleIsCanonical(e: Endorsement, twice: bool)
    requires Canonical(e.endorser) == OfIdentity(SAMPLE_IDENTITY)
    ensures Canonically(if twice then [e, e] else [e]) <==>
      e.endorser == OfIdentity(SAMPLE_IDENTITY) && !twice && e.signature != EMPTY_BYTES
  {
    var endorsements := if twice then [e, e] else [e];
    assert endorsements[0] == e && (twice ==> endorsements[1] == e);
  }

  /** An envelope that is created and parsed back. */
  lemma {:induction false} SomeEnvelopeParses() returns (proposal: Proposal, version: string, end: Endorsed, env: Bytes)
    ensures CreateGateway(Some(proposal), version, end) == Ok(env) && Parse(env).Ok?
  {
    var e := Endorsement(OfIdentity(SAMPLE_IDENTITY), Raw([5]));
    proposal, version, end := SAMPLE_PROPOSAL, "1", Sample(e, false);
    env := SampleParses(e, false);
  }

  /** An envelope that is created, but refused by the parser: its endorser identity is not canonically encoded. */
  lemma {:induction false} SomeEnvelopeIsRefused()
    returns (proposal: Proposal, version: string, end: Endorsed, env: Bytes)
    ensures CreateGateway(Some(proposal), version, end) == Ok(env) && Parse(env).Err?
    ensures EndorsementsOf(end.responses).Ok? && exists e | e in EndorsementsOf(end.responses).value ::
      e.endorser.Variant?
  {
    var e := Endorsement(Variant(OfIdentity(SAMPLE_IDENTITY), 0), Raw([5]));
    proposal, version, end := SAMPLE_PROPOSAL, "1", Sample(e, false);
    env := SampleParses(e, false);
    SampleSurvivors(e, false);
    assert e in EndorsementsOf(end.responses).value;
  }

  /** An envelope that is created, but refused by the parser: one endorser answered twice. */
  lemma {:induction false} RepeatedEndorserIsRefused()
    returns (proposal: Proposal, version: string, end: Endorsed, env: Bytes)
    ensures CreateGateway(Some(proposal), version, end) == Ok(env) && Parse(env).Err?
    ensures EndorsementsOf(end.responses).Ok? && |EndorsementsOf(end.responses).value| == 2
    ensures var es := EndorsementsOf(end.responses).value;
      es[0] == es[1] && es[0].signature != EMPTY_BYTES && es[0].endorser.OfIdentity?
  {
    var e := Endorsement(OfIdentity(SAMPLE_IDENTITY), Raw([5]));
    proposal, version, end := SAMPLE_PROPOSAL, "1", Sample(e, true);
    env := SampleParses(e, true);
    SampleSurvivors(e, true);
  }

  /** An envelope that is created, but refused by the parser: its only endorsement has an empty signature. */
  lemma {:induction false} EmptySignatureIsRefused()
    returns (proposal: Proposal, version: string, end: Endorsed, env: Bytes)
    ensures CreateGateway(Some(proposal), version, end) == Ok(env) && Parse(env).Err?
    ensures EndorsementsOf(end.responses).Ok? && |EndorsementsOf(end.responses).value| == 1
    ensures var e := EndorsementsOf(end.responses).value[0]; e.signature == EMPTY_BYTES && e.endorser.OfIdentity?
  {
    var e := Endorsement(OfIdentity(SAMPLE_IDENTITY), EMPTY_BYTES);
    proposal, version, end := SAMPLE_PROPOSAL, "1", Sample(e, false);
    env := SampleParses(e, false);
    SampleSurvivors(e, false);
  }
}
