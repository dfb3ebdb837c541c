/**
 * Exactly when a Gateway transaction can be prepared from an endorsed proposal,
 * and exactly what it then says, field by field and without the order of the
 * code's checks (compatibility_service/pkg/orchestrator/fabricx_packager.go).
 */
module EnvelopeCriteria {
  import opened Common
  import opened GatewayEnvelope

  // ------------------------------------------------------------------------
  // Names
  // ------------------------------------------------------------------------

  /** The name is this chaincode and namespace around its only colon. */
  ghost predicate Splits(name: string, chaincode: string, namespace: string) {
    && name == chaincode + ":" + namespace && chaincode != "" && namespace != ""
    && ':' !in chaincode && ':' !in namespace
    && !IsSpace(chaincode[0]) && !IsSpace(chaincode[|chaincode| - 1])
    && !IsSpace(namespace[0]) && !IsSpace(namespace[|namespace| - 1])
  }

  lemma {:induction false} SplitIsRoute(name: string, chaincode: string, namespace: string, i: nat)
    requires Splits(name, chaincode, namespace) && i <= |chaincode|
    ensures forall k | 0 <= k < i :: name[k] != ':'
    ensures Route(name, i) == Some((chaincode, namespace))
    decreases |name| - i
  {
    assert forall k | 0 <= k < |chaincode| :: name[k] == chaincode[k] && name[k] in chaincode;
    if i < |chaincode| {
      SplitIsRoute(name, chaincode, namespace, i + 1);
    } else {
      assert name[..i] == chaincode && name[i] == ':' && name[i + 1..] == namespace;
    }
  }

  /** A route is found exactly for the names that split. */
  lemma {:induction false} RouteSplits(name: string)
    ensures Route(name).Some? ==> Splits(name, Route(name).value.0, Route(name).value.1)
    ensures forall chaincode, namespace :: Splits(name, chaincode, namespace) ==>
      Route(name) == Some((chaincode, namespace))
  {
    forall chaincode, namespace | Splits(name, chaincode, namespace)
      ensures Route(name) == Some((chaincode, namespace)) {
      SplitIsRoute(name, chaincode, namespace, 0);
    }
  }

  // ------------------------------------------------------------------------
  // The chaincode identity among the metadata
  // ------------------------------------------------------------------------

  ghost predicate IsRecord(metadata: seq<Bytes>, i: nat, id: ChaincodeIdentity) {
    1 <= i < |metadata| && Canonical(metadata[i]) == OfChaincodeIdentity(id)
    && id.kind == "fabric-x-chaincode-identity"
  }

  /** The metadata holds this one, complete identity record, or none at all; the first entry never counts. */
  ghost predicate Identifies(metadata: seq<Bytes>, id: Option<ChaincodeIdentity>) {
    if id.None? then forall i, other :: !IsRecord(metadata, i, other)
    else
      && (exists i :: IsRecord(metadata, i, id.value) && forall j, other :: IsRecord(metadata, j, other) ==> j == i)
      && id.value.version == 1 && id.value.channelID != "" && id.value.name != "" && id.value.namespace != ""
  }

  /** These are the identity records among the first n entries, in order. */
  ghost predicate RecordsAt(metadata: seq<Bytes>, n: nat, found: seq<ChaincodeIdentity>, at: seq<nat>) {
    && |at| == |found| && (forall i, j :: 0 <= i < j < |at| ==> at[i] < at[j])
    && (forall k :: 0 <= k < |at| ==> at[k] < n && IsRecord(metadata, at[k], found[k]))
    && (forall i: nat, id :: i < n && IsRecord(metadata, i, id) ==> i in at)
  }

  lemma {:induction false} IdentityRecordsSnoc(records: seq<Bytes>, last: Bytes)
    ensures IdentityRecords(records + [last]) == IdentityRecords(records) + IdentityRecords([last])
  {
    if records == [] {
      assert records + [last] == [last] && [] + IdentityRecords([last]) == IdentityRecords([last]);
    } else {
      var all := records + [last];
      assert all[1..] == records[1..] + [last];
      IdentityRecordsSnoc(records[1..], last);
      var first := IdentityRecords([records[0]]);
      assert [records[0]][1..] == [] && IdentityRecords([]) == [];
      assert first + (IdentityRecords(records[1..]) + IdentityRecords([last]))
          == (first + IdentityRecords(records[1..])) + IdentityRecords([last]);
    }
  }

  lemma RecordsNext(metadata: seq<Bytes>, n: nat)
    requires 1 <= n < |metadata|
    ensures IdentityRecords(metadata[1..n + 1])
      == IdentityRecords(metadata[1..n]) + IdentityRecords([metadata[n]])
  {
    assert metadata[1..n + 1] == metadata[1..n] + [metadata[n]];
    IdentityRecordsSnoc(metadata[1..n], metadata[n]);
  }

  lemma OneRecord(metadata: seq<Bytes>, n: nat)
    requires 1 <= n < |metadata|
    ensures var found := IdentityRecords([metadata[n]]);
      && (found == [] <==> forall id :: !IsRecord(metadata, n, id))
      && (found != [] ==> |found| == 1 && IsRecord(metadata, n, found[0]))
  {
    var head, found := Canonical(metadata[n]), IdentityRecords([metadata[n]]);
    var only := if head.OfChaincodeIdentity? && head.chaincodeIdentity.kind == CHAINCODE_IDENTITY_TYPE
      then [head.chaincodeIdentity] else [];
    assert [metadata[n]][1..] == [] && IdentityRecords([]) == [] && only + [] == only;
    assert found == only;
    if found != [] {
      assert IsRecord(metadata, n, found[0]);
    }
  }

  lemma {:induction false} FindRecords(metadata: seq<Bytes>, n: nat) returns (at: seq<nat>)
    requires 1 <= n <= |metadata|
    ensures RecordsAt(metadata, n, IdentityRecords(metadata[1..n]), at)
    decreases n
  {
    at := [];
    if n > 1 {
      var earlier := FindRecords(metadata, n - 1);
      RecordsNext(metadata, n - 1);
      OneRecord(metadata, n - 1);
      var found, more := IdentityRecords(metadata[1..n - 1]), IdentityRecords([metadata[n - 1]]);
      if more == [] {
        at := earlier;
        RecordSkipped(metadata, n - 1, found, earlier);
        assert found + more == found;
      } else {
        at := earlier + [n - 1];
        RecordAdded(metadata, n - 1, found, earlier, more[0]);
        assert more == [more[0]];
      }
    }
  }

  lemma RecordSkipped(metadata: seq<Bytes>, n: nat, found: seq<ChaincodeIdentity>, at: seq<nat>)
    requires RecordsAt(metadata, n, found, at) && forall id :: !IsRecord(metadata, n, id)
    ensures RecordsAt(metadata, n + 1, found, at)
  {
  }

  lemma RecordAdded(metadata: seq<Bytes>, n: nat, found: seq<ChaincodeIdentity>, at: seq<nat>, id: ChaincodeIdentity)
    requires RecordsAt(metadata, n, found, at) && IsRecord(metadata, n, id)
    ensures RecordsAt(metadata, n + 1, found + [id], at + [n])
  {
    var all, ids := at + [n], found + [id];
    forall k | 0 <= k < |all| ensures all[k] < n + 1 && IsRecord(metadata, all[k], ids[k]) {
      assert k < |at| ==> all[k] == at[k] && ids[k] == found[k];
    }
    forall i: nat, other | i < n + 1 && IsRecord(metadata, i, other) ensures i in all {
      if i < n {
        assert i in at;
      } else {
        assert all[|at|] == n;
      }
    }
  }

  /** The identity that is read is the one the metadata holds; a second or incomplete record is refused. */
  lemma {:induction false} IdentityIsTheRecord(metadata: seq<Bytes>)
    ensures forall id :: IdentityFromMetadata(metadata) == Ok(id) <==> Identifies(metadata, id)
  {
    if |metadata| >= 2 {
      var at := FindRecords(metadata, |metadata|);
      assert metadata[1..|metadata|] == metadata[1..];
      forall id ensures IdentityFromMetadata(metadata) == Ok(id) <==> Identifies(metadata, id) {
        IdentityAmong(metadata, IdentityRecords(metadata[1..]), at, id);
      }
    }
  }

  lemma IdentityAmong(metadata: seq<Bytes>, found: seq<ChaincodeIdentity>, at: seq<nat>, id: Option<ChaincodeIdentity>)
    requires |metadata| >= 2 && found == IdentityRecords(metadata[1..])
    requires RecordsAt(metadata, |metadata|, found, at)
    ensures IdentityFromMetadata(metadata) == Ok(id) <==> Identifies(metadata, id)
  {
    if found != [] {
      assert IsRecord(metadata, at[0], found[0]);
      if |found| > 1 {
        assert IsRecord(metadata, at[1], found[1]) && at[0] < at[1];
      }
    }
  }

  // ------------------------------------------------------------------------
  // The native endorsements
  // ------------------------------------------------------------------------

  /** Response i carries the first endorsement of its endorser. */
  ghost predicate FirstBy(responses: seq<Option<ProposalResponse>>, i: nat) {
    && i < |responses| && responses[i].Some? && responses[i].value.endorsement.Some?
    && forall j :: 0 <= j < i && responses[j].Some? && responses[j].value.endorsement.Some? ==>
         responses[j].value.endorsement.value.endorser != responses[i].value.endorsement.value.endorser
  }

  ghost predicate NativeForm(response: Option<ProposalResponse>, native: IdentityEndorsement) {
    && response.Some? && response.value.endorsement.Some? && native.identity.Some?
    && Canonical(response.value.endorsement.value.endorser) == OfIdentity(native.identity.value)
    && native.signature == response.value.endorsement.value.signature
  }

  /** The native endorsements: the first endorsement of every endorser from index `from` on, in order. */
  ghost predicate Survive(responses: seq<Option<ProposalResponse>>, from: nat, survivors: seq<IdentityEndorsement>,
                          at: seq<nat>) {
    && |at| == |survivors| && (forall i, j :: 0 <= i < j < |at| ==> at[i] < at[j])
    && (forall k :: 0 <= k < |at| ==>
          from <= at[k] && FirstBy(responses, at[k]) && NativeForm(responses[at[k]], survivors[k]))
    && (forall i :: from <= i && FirstBy(responses, i) ==> i in at)
  }

  ghost predicate EndorserDecodes(response: Option<ProposalResponse>) {
    response.Some? && response.value.endorsement.Some? ==>
      Canonical(response.value.endorsement.value.endorser).OfIdentity?
  }

  /** The endorsers of the first n responses. */
  ghost predicate SeenSoFar(responses: seq<Option<ProposalResponse>>, n: nat, seen: set<Bytes>)
    requires n <= |responses|
  {
    && (forall j :: 0 <= j < n && responses[j].Some? && responses[j].value.endorsement.Some? ==>
          responses[j].value.endorsement.value.endorser in seen)
    && (forall e | e in seen :: exists j :: 0 <= j < n && EndorsedBy(responses[j], e))
  }

  ghost predicate EndorsedBy(response: Option<ProposalResponse>, endorser: Bytes) {
    response.Some? && response.value.endorsement.Some? && response.value.endorsement.value.endorser == endorser
  }

  lemma SeenNext(responses: seq<Option<ProposalResponse>>, n: nat, seen: set<Bytes>)
    requires n < |responses| && SeenSoFar(responses, n, seen)
    ensures var r := responses[n];
      var endorsed := r.Some? && r.value.endorsement.Some?;
      && SeenSoFar(responses, n + 1, if endorsed then seen + {r.value.endorsement.value.endorser} else seen)
      && (FirstBy(responses, n) <==> endorsed && r.value.endorsement.value.endorser !in seen)
  {
    var r := responses[n];
    if r.Some? && r.value.endorsement.Some? {
      var e := r.value.endorsement.value.endorser;
      assert EndorsedBy(responses[n], e);
      if e in seen {
        var j :| 0 <= j < n && EndorsedBy(responses[j], e);
      }
    }
  }

  /** The native endorsements exist if and only if every endorser decodes, and are the survivors. */
  lemma {:induction false} NativesAt(responses: seq<Option<ProposalResponse>>, from: nat, seen: set<Bytes>)
    returns (at: seq<nat>)
    requires from <= |responses| && SeenSoFar(responses, from, seen)
    requires forall i :: 0 <= i < from ==> EndorserDecodes(responses[i])
    ensures NativeEndorsements(responses[from..], seen).Some? <==>
      forall i :: 0 <= i < |responses| ==> EndorserDecodes(responses[i])
    ensures NativeEndorsements(responses[from..], seen).Some? ==>
      Survive(responses, from, NativeEndorsements(responses[from..], seen).value, at)
    decreases |responses| - from
  {
    at := [];
    if from < |responses| {
      var r := responses[from];
      assert responses[from..][1..] == responses[from + 1..];
      SeenNext(responses, from, seen);
      if FirstBy(responses, from) {
        var e := r.value.endorsement.value.endorser;
        if Canonical(e).OfIdentity? {
          var rest := NativesAt(responses, from + 1, seen + {e});
          at := [from] + rest;
          var natives := NativeEndorsements(responses[from + 1..], seen + {e});
          if natives.Some? {
            SurviveMore(responses, from, IdentityEndorsement(Some(Canonical(e).identity),
                                                             r.value.endorsement.value.signature), natives.value, rest);
          }
        } else {
          assert !EndorserDecodes(responses[from]);
        }
      } else {
        KnownDecodes(responses, from, seen);
        if r.Some? && r.value.endorsement.Some? {
          assert seen + {r.value.endorsement.value.endorser} == seen;
        }
        at := NativesAt(responses, from + 1, seen);
        if NativeEndorsements(responses[from + 1..], seen).Some? {
          SurviveSkip(responses, from, NativeEndorsements(responses[from + 1..], seen).value, at);
        }
      }
    }
  }

  lemma KnownDecodes(responses: seq<Option<ProposalResponse>>, n: nat, seen: set<Bytes>)
    requires n < |responses| && SeenSoFar(responses, n, seen) && !FirstBy(responses, n)
    requires forall i :: 0 <= i < n ==> EndorserDecodes(responses[i])
    ensures EndorserDecodes(responses[n])
  {
  }

  lemma SurviveSkip(responses: seq<Option<ProposalResponse>>, from: nat, rest: seq<IdentityEndorsement>, at: seq<nat>)
    requires !FirstBy(responses, from) && Survive(responses, from + 1, rest, at)
    ensures Survive(responses, from, rest, at)
  {
  }

  lemma SurviveMore(responses: seq<Option<ProposalResponse>>, from: nat, first: IdentityEndorsement,
                    rest: seq<IdentityEndorsement>, at: seq<nat>)
    requires FirstBy(responses, from) && NativeForm(responses[from], first)
    requires Survive(responses, from + 1, rest, at)
    ensures Survive(responses, from, [first] + rest, [from] + at)
  {
    MoreInOrder(from, at);
    MoreForms(responses, from, first, rest, at);
    MoreComplete(responses, from, at);
  }

  lemma MoreInOrder(from: nat, at: seq<nat>)
    requires (forall i, j :: 0 <= i < j < |at| ==> at[i] < at[j]) && forall k :: 0 <= k < |at| ==> from < at[k]
    ensures var all := [from] + at; forall i, j :: 0 <= i < j < |all| ==> all[i] < all[j]
  {
    var all := [from] + at;
    forall i, j | 0 <= i < j < |all| ensures all[i] < all[j] {
      assert all[j] == at[j - 1] && (i > 0 ==> all[i] == at[i - 1]);
    }
  }

  lemma MoreForms(responses: seq<Option<ProposalResponse>>, from: nat, first: IdentityEndorsement,
                  rest: seq<IdentityEndorsement>, at: seq<nat>)
    requires FirstBy(responses, from) && NativeForm(responses[from], first) && |at| == |rest|
    requires forall k :: 0 <= k < |at| ==>
      from < at[k] && FirstBy(responses, at[k]) && NativeForm(responses[at[k]], rest[k])
    ensures var all, natives := [from] + at, [first] + rest;
      forall k :: 0 <= k < |all| ==>
        from <= all[k] && FirstBy(responses, all[k]) && NativeForm(responses[all[k]], natives[k])
  {
    var all, natives := [from] + at, [first] + rest;
    forall k | 0 <= k < |all|
      ensures from <= all[k] && FirstBy(responses, all[k]) && NativeForm(responses[all[k]], natives[k])
    {
      if k > 0 {
        assert all[k] == at[k - 1] && natives[k] == rest[k - 1];
      }
    }
  }

  lemma MoreComplete(responses: seq<Option<ProposalResponse>>, from: nat, at: seq<nat>)
    requires forall i :: from < i && FirstBy(responses, i) ==> i in at
    ensures forall i :: from <= i && FirstBy(responses, i) ==> i in [from] + at
  {
  }

  // ------------------------------------------------------------------------
  // The native envelope
  // ------------------------------------------------------------------------

  /** A response with a success status. */
  ghost predicate Succeeds(response: Option<ProposalResponse>) {
    response.Some? && response.value.response.Some? && 200 <= response.value.response.value.status < 400
  }

  /** All responses are successes with one payload. */
  ghost predicate Agreeing(responses: seq<Option<ProposalResponse>>) {
    forall i :: 0 <= i < |responses| ==>
      Succeeds(responses[i]) && responses[0].Some? && responses[i].value.payload == responses[0].value.payload
  }

  lemma {:induction false} FaultlessAgrees(responses: seq<Option<ProposalResponse>>, i: nat)
    requires i <= |responses| && forall k :: 0 <= k < i ==>
      Usable(responses[k]) && Usable(responses[0]) && responses[k].value.payload == responses[0].value.payload
    ensures ResponseFault(responses, i).None? <==> Agreeing(responses)
    decreases |responses| - i
  {
    if i < |responses| && Usable(responses[i]) && responses[i].value.payload == responses[0].value.payload {
      FaultlessAgrees(responses, i + 1);
    }
  }

  /** An endorsed proposal that can be packaged natively. */
  ghost predicate Packable(end: Endorsed) {
    && end.proposal.Some? && end.responses != [] && Canonical(end.proposal.value.header).OfHeader?
    && var header := Canonical(end.proposal.value.header).header;
    && Canonical(header.channelHeader).OfChannelHeader? && Canonical(header.signatureHeader).OfSignatureHeader?
    && Agreeing(end.responses) && Canonical(end.responses[0].value.payload).OfTx?
    && (forall i :: 0 <= i < |end.responses| ==> EndorserDecodes(end.responses[i]))
    && exists i :: FirstBy(end.responses, i)
  }

  /**
   * The native envelope: the proposal's header as a message without its creator,
   * and the endorsed transaction with the surviving endorsements for every namespace.
   */
  ghost predicate PackagedAs(end: Endorsed, native: Payload)
    requires Packable(end)
  {
    && HeaderOf(Canonical(end.proposal.value.header).header, native.header)
    && native.data.OfTx? && Attaches(end.responses, Canonical(end.responses[0].value.payload).tx, native.data.tx)
  }

  ghost predicate HeaderOf(header: Header, native: Option<Header>)
    requires Canonical(header.signatureHeader).OfSignatureHeader? && Canonical(header.channelHeader).OfChannelHeader?
  {
    var c, s := Canonical(header.channelHeader).channelHeader, Canonical(header.signatureHeader).signatureHeader;
    && native.Some? && native.value.channelHeader.OfChannelHeader?
    && var c' := native.value.channelHeader.channelHeader;
    && c'.kind == Message && c'.channelID == c.channelID && c'.txID == c.txID && c'.extension == c.extension
    && c'.rest == c.rest
    && native.value.signatureHeader == OfSignatureHeader(SignatureHeader(Raw([]), s.nonce))
  }

  ghost predicate Attaches(responses: seq<Option<ProposalResponse>>, tx: Tx, tx': Tx) {
    && tx'.namespaces == tx.namespaces && tx'.metadata == tx.metadata && |tx'.endorsements| == |tx.namespaces|
    && forall i :: 0 <= i < |tx'.endorsements| ==> Survivors(responses, tx'.endorsements[i])
  }

  ghost predicate Survivors(responses: seq<Option<ProposalResponse>>, natives: seq<IdentityEndorsement>) {
    exists at :: Survive(responses, 0, natives, at)
  }

  lemma {:induction false} NativesAreSurvivors(responses: seq<Option<ProposalResponse>>)
    ensures var natives := NativeEndorsements(responses, {});
      && (natives.Some? <==> forall i :: 0 <= i < |responses| ==> EndorserDecodes(responses[i]))
      && (natives.Some? ==> Survivors(responses, natives.value))
      && (natives.Some? ==> (natives.value == [] <==> forall i :: !FirstBy(responses, i)))
  {
    assert responses[0..] == responses;
    var at := NativesAt(responses, 0, {});
    if NativeEndorsements(responses, {}).Some? && NativeEndorsements(responses, {}).value != [] {
      assert FirstBy(responses, at[0]);
    }
  }

  /** What is made of the header, the payload and the native endorsements. */
  lemma {:induction false} FinishedAs(header: Header, payload: Bytes, endorsements: seq<IdentityEndorsement>)
    requires Canonical(header.signatureHeader).OfSignatureHeader?
    ensures var r := FinishNative(header, payload, endorsements);
      && (r.Ok? <==>
            endorsements != [] && Canonical(payload).OfTx? && Canonical(header.channelHeader).OfChannelHeader?)
      && (r.Ok? ==>
            && HeaderOf(header, r.value.header) && r.value.data.OfTx?
            && var tx, tx' := Canonical(payload).tx, r.value.data.tx;
            && tx'.namespaces == tx.namespaces && tx'.metadata == tx.metadata && |tx'.endorsements| == |tx.namespaces|
            && forall i :: 0 <= i < |tx'.endorsements| ==> tx'.endorsements[i] == endorsements)
  {
  }

  /** The parts packaging is made of: no fault, native endorsements, and what is made of them. */
  ghost predicate Parts(end: Endorsed) {
    && end.proposal.Some? && end.responses != [] && Canonical(end.proposal.value.header).OfHeader?
    && var header := Canonical(end.proposal.value.header).header;
    && Canonical(header.channelHeader).OfChannelHeader? && Canonical(header.signatureHeader).OfSignatureHeader?
    && ResponseFault(end.responses, 0).None? && Canonical(end.responses[0].value.payload).OfTx?
    && NativeEndorsements(end.responses, {}).Some? && NativeEndorsements(end.responses, {}).value != []
  }

  lemma NativeFromParts(end: Endorsed)
    ensures CreateNative(end).Ok? <==> Parts(end)
    ensures Parts(end) ==>
      CreateNative(end) == FinishNative(Canonical(end.proposal.value.header).header, end.responses[0].value.payload,
                                        NativeEndorsements(end.responses, {}).value)
  {
  }

  lemma PartsArePackable(end: Endorsed)
    ensures Parts(end) <==> Packable(end)
  {
    FaultlessAgrees(end.responses, 0);
    NativesAreSurvivors(end.responses);
  }

  /** Packaging succeeds exactly for the packable, and yields that envelope. */
  lemma NativeIsPackaged(end: Endorsed)
    ensures CreateNative(end).Ok? <==> Packable(end)
    ensures CreateNative(end).Ok? ==> PackagedAs(end, CreateNative(end).value)
  {
    NativeFromParts(end);
    PartsArePackable(end);
    if Parts(end) {
      NativesAreSurvivors(end.responses);
      FinishedAs(Canonical(end.proposal.value.header).header, end.responses[0].value.payload,
                 NativeEndorsements(end.responses, {}).value);
    }
  }

  // ------------------------------------------------------------------------
  // The prepared Gateway transaction
  // ------------------------------------------------------------------------

  /** The native transaction is the one this proposal, version and response were endorsed for. */
  ghost predicate BoundTo(native: Tx, proposal: Proposal, version: string, namespace: string, response: Response)
    requires Decodes(proposal)
  {
    var header, payload := Canonical(proposal.header).header, Canonical(proposal.payload).proposalPayload;
    var spec := SpecOf(proposal);
    && |native.namespaces| == 1 && native.namespaces[0].nsID == namespace && |native.metadata| >= 2 && version != ""
    && native.metadata[1].OfBinding?
    && var b := native.metadata[1].binding;
    && b.format == 1 && b.version == version && b.sequence >= 1
    && b.status == response.status && b.message == response.message
    && b.proposalHash == Digest(header.channelHeader, header.signatureHeader,
                                OfProposalPayload(ProposalPayload(payload.input, map[])))
    && (exists id :: Identifies(native.metadata, id) && Names(id, proposal, namespace))
    && Canonical(native.metadata[0]).OfMetadata?
    && Canonical(native.metadata[0]).metadata.payload == response.payload
    && Canonical(native.metadata[0]).metadata.inputArgs == (if spec.input.Some? then spec.input.value.args else [])
  }

  /** An identity record, if there is one, is that of the proposal's channel and chaincode. */
  ghost predicate Names(id: Option<ChaincodeIdentity>, proposal: Proposal, namespace: string)
    requires Decodes(proposal)
  {
    id.Some? ==>
      && id.value.channelID == ChannelOf(proposal).channelID && id.value.namespace == namespace
      && SpecOf(proposal).chaincodeID.Some?
      && id.value.name + ":" + id.value.namespace == SpecOf(proposal).chaincodeID.value.name
  }

  lemma CheckIsBound(native: Tx, proposal: Proposal, version: string, namespace: string, response: Response)
    requires Decodes(proposal) && ChaincodeName(SpecOf(proposal)) != ""
    ensures var r := CheckNative(native, proposal, version, ChannelOf(proposal).channelID,
                                 ChaincodeName(SpecOf(proposal)), namespace, SpecOf(proposal), response);
      && (r.Ok? <==> BoundTo(native, proposal, version, namespace, response))
      && (r.Ok? ==> r.value == Canonical(native.metadata[0]).metadata)
  {
    IdentityIsTheRecord(native.metadata);
  }

  /** A proposal and endorsement from which the Gateway transaction can be prepared. */
  ghost predicate Preparable(proposal: Proposal, version: string, end: Endorsed) {
    && Decodes(proposal) && Packable(end) && Decodable(end.proposal.value)
    && var c, s := ChannelOf(proposal), SignatureOf(proposal);
    && c.kind == EndorserTransaction && s.creator != Raw([]) && s.nonce != Raw([])
    && c.txID == Computed(s.nonce, s.creator)
    && var c' := Canonical(Canonical(end.proposal.value.header).header.channelHeader).channelHeader;
    && c'.txID == c.txID && c'.channelID == c.channelID
    && (forall i :: 0 <= i < |end.responses| ==> end.responses[i].value.endorsement.Some?)
    && SpecOf(proposal).chaincodeID.Some?
    && exists chaincode, namespace ::
         && Splits(SpecOf(proposal).chaincodeID.value.name, chaincode, namespace)
         && BoundTo(Canonical(end.responses[0].value.payload).tx, proposal, version, namespace,
                    end.responses[0].value.response.value)
  }

  ghost predicate Decodable(proposal: Proposal) {
    Canonical(proposal.header).OfHeader? && Canonical(Canonical(proposal.header).header.channelHeader).OfChannelHeader?
  }

  /**
   * What the prepared transaction says: one action under the proposal's own
   * header, with its payload stripped of transient data, and the endorsed action
   * with the native transaction and all endorsements in order; its event and
   * response are those endorsed.
   */
  ghost predicate PreparedAs(proposal: Proposal, version: string, end: Endorsed, env: Bytes)
    requires Preparable(proposal, version, end)
  {
    var header, payload := Canonical(proposal.header).header, Canonical(proposal.payload).proposalPayload;
    var public := OfProposalPayload(ProposalPayload(payload.input, map[]));
    && env.OfPayload? && env.payload.header == Some(header) && env.payload.data.OfTransaction?
    && |env.payload.data.actions| == 1 && env.payload.data.actions[0].Some?
    && var action := env.payload.data.actions[0].value;
    && action.header == header.signatureHeader && action.payload.OfActionPayload?
    && action.payload.actionPayload.proposalPayload == public && action.payload.actionPayload.endorsed.Some?
    && var endorsed := action.payload.actionPayload.endorsed.value;
    && |endorsed.endorsements| == |end.responses|
    && (forall i :: 0 <= i < |end.responses| ==>
          endorsed.endorsements[i] == end.responses[i].value.endorsement.value)
    && endorsed.responsePayload.OfResponsePayload?
    && endorsed.responsePayload.proposalHash == Digest(header.channelHeader, header.signatureHeader, public)
    && endorsed.responsePayload.extension.OfAction?
    && Endorses(proposal, version, end, endorsed.responsePayload.extension.action)
  }

  ghost predicate Endorses(proposal: Proposal, version: string, end: Endorsed, action: ChaincodeAction)
    requires Preparable(proposal, version, end)
  {
    var tx, name := Canonical(end.responses[0].value.payload).tx, SpecOf(proposal).chaincodeID.value.name;
    var m := Canonical(tx.metadata[0]).metadata;
    && action.results.OfTx? && Attaches(end.responses, tx, action.results.tx)
    && action.response == end.responses[0].value.response && action.chaincodeID == ChaincodeID(name, version)
    && action.events == (if m.eventName == "" && m.event == Raw([]) then Raw([])
                         else OfEvent(name, ChannelOf(proposal).txID, m.eventName, m.event))
  }

  /** The checks do not see the endorsements. */
  lemma AttachedIsBound(tx: Tx, tx': Tx, proposal: Proposal, version: string, namespace: string, response: Response)
    requires Decodes(proposal) && tx.namespaces == tx'.namespaces && tx.metadata == tx'.metadata
    ensures BoundTo(tx', proposal, version, namespace, response) <==>
            BoundTo(tx, proposal, version, namespace, response)
  {
  }

  /** Behind the header checks: the route, the native envelope and what it is bound to. */
  lemma RoutedIsPrepared(proposal: Proposal, version: string, end: Endorsed, chaincode: string, namespace: string)
    requires Decodes(proposal) && Packable(end) && CreateNative(end).Ok? && PackagedAs(end, CreateNative(end).value)
    requires Route(ChaincodeName(SpecOf(proposal))) == Some((chaincode, namespace))
    ensures var header, payload := Canonical(proposal.header).header, Canonical(proposal.payload).proposalPayload;
      var c, native := ChannelOf(proposal), CreateNative(end).value;
      var r := CreateRouted(proposal, version, end, header, c, payload, SpecOf(proposal), namespace);
      && (r.Ok? <==>
            && native.header.value.channelHeader.channelHeader.channelID == c.channelID
            && BoundTo(Canonical(end.responses[0].value.payload).tx, proposal, version, namespace,
                       end.responses[0].value.response.value)
            && Signed(end.responses))
      && (r.Ok? ==> r.value == Project(header, payload, c.txID, ChaincodeName(SpecOf(proposal)), version, native.data,
                                       Canonical(native.data.tx.metadata[0]).metadata,
                                       end.responses[0].value.response.value, EndorsementsOf(end.responses).value))
  {
    var native, response := CreateNative(end).value, end.responses[0].value.response.value;
    CheckIsBound(native.data.tx, proposal, version, namespace, response);
    AttachedIsBound(Canonical(end.responses[0].value.payload).tx, native.data.tx, proposal, version, namespace,
                    response);
  }

  /** The checks on the headers and the name, and what follows them. */
  ghost predicate Routed(proposal: Proposal, end: Endorsed) {
    && Decodes(proposal) && ClientHeader(ChannelOf(proposal), SignatureOf(proposal)) && end.proposal.Some?
    && ProposalTxID(end.proposal.value) == Some(ChannelOf(proposal).txID)
    && Route(ChaincodeName(SpecOf(proposal))).Some?
  }

  lemma GatewayFromParts(proposal: Proposal, version: string, end: Endorsed)
    ensures CreateGateway(Some(proposal), version, end).Ok? ==> Routed(proposal, end)
    ensures Routed(proposal, end) ==>
      CreateGateway(Some(proposal), version, end)
      == CreateRouted(proposal, version, end, Canonical(proposal.header).header, ChannelOf(proposal),
                      Canonical(proposal.payload).proposalPayload, SpecOf(proposal),
                      Route(ChaincodeName(SpecOf(proposal))).value.1)
  {
  }

  /** The proposal's side of the criterion; the name splits at most one way. */
  lemma RoutedIsPreparable(proposal: Proposal, version: string, end: Endorsed)
    requires Packable(end) && Decodes(proposal)
    ensures Preparable(proposal, version, end) <==>
      && Routed(proposal, end)
      && var c := Canonical(Canonical(end.proposal.value.header).header.channelHeader).channelHeader;
      && c.channelID == ChannelOf(proposal).channelID && Signed(end.responses)
      && BoundTo(Canonical(end.responses[0].value.payload).tx, proposal, version,
                 Route(ChaincodeName(SpecOf(proposal))).value.1, end.responses[0].value.response.value)
  {
    RouteSplits(ChaincodeName(SpecOf(proposal)));
    assert forall i :: 0 <= i < |end.responses| ==> Succeeds(end.responses[i]);
  }

  lemma ProjectedAs(proposal: Proposal, version: string, end: Endorsed, native: Tx, endorsements: seq<Endorsement>)
    requires Preparable(proposal, version, end)
    requires Attaches(end.responses, Canonical(end.responses[0].value.payload).tx, native)
    requires |endorsements| == |end.responses| && forall i :: 0 <= i < |end.responses| ==>
      endorsements[i] == end.responses[i].value.endorsement.value
    ensures PreparedAs(proposal, version, end,
                       Project(Canonical(proposal.header).header, Canonical(proposal.payload).proposalPayload,
                               ChannelOf(proposal).txID, ChaincodeName(SpecOf(proposal)), version, OfTx(native),
                               Canonical(native.metadata[0]).metadata, end.responses[0].value.response.value,
                               endorsements))
  {
  }

  /**
   * Main result. Preparing succeeds exactly for the preparable, and yields exactly
   * that transaction.
   */
  lemma GatewayIsPrepared(proposal: Proposal, version: string, end: Endorsed)
    ensures CreateGateway(Some(proposal), version, end).Ok? <==> Preparable(proposal, version, end)
    ensures CreateGateway(Some(proposal), version, end).Ok? ==>
      PreparedAs(proposal, version, end, CreateGateway(Some(proposal), version, end).value)
  {
    NativeIsPackaged(end);
    GatewayFromParts(proposal, version, end);
    if Packable(end) && Decodes(proposal) {
      RoutedIsPreparable(proposal, version, end);
      if Routed(proposal, end) {
        var route := Route(ChaincodeName(SpecOf(proposal))).value;
        RoutedIsPrepared(proposal, version, end, route.0, route.1);
        if Preparable(proposal, version, end) {
          ProjectedAs(proposal, version, end, CreateNative(end).value.data.tx, EndorsementsOf(end.responses).value);
        }
      }
    }
  }
}
