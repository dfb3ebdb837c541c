/**
 * Collecting namespace endorsements: the local execution first, then one
 * organization and endpoint after the other until a selection of distinct,
 * agreeing signers suffices
 * (compatibility_service/pkg/orchestrator/execution.go:126-355,
 * compatibility_service/pkg/orchestrator/endorsement_policy.go:173-234).
 */
module EndorsementCollection {
  import opened Common
  import opened SignaturePolicy
  import opened EndorsementSelection
  import opened GatewayEnvelope
  import PolicyInspection

  /** The lifecycle revision a helper executed, and where its package runs. */
  datatype Revision = Revision(chaincode: string, version: string, sequence: int, packageID: string)

  datatype Execution = Execution(txID: TxID, binding: Option<Revision>, response: Option<Response>,
                                 endorsement: Endorsed)

  /** What tells signers apart: the raw endorser, or the certificate's identifier within its MSP. */
  datatype Key = RawEndorser(endorser: Bytes) | Certificate(mspID: string, id: string)

  datatype Verified = Verified(result: Execution, key: Key, mspID: string)

  /**
   * The compiled namespace policy. The three functions are the library calls:
   * does a signer satisfy a principal; is the execution signed by a valid
   * member of an MSP, and by whom; does the namespace verifier accept.
   */
  datatype Trust = Trust(
    policy: Option<Policy>, principals: nat, namespace: string, version: nat,
    satisfies: (nat, Key) -> bool, identify: (Execution, string) -> Option<Key>,
        verifies: seq<Option<ProposalResponse>> -> bool)

  /** authenticate: one successful, signed execution of this namespace version by a member of the expected MSP. */
  function Authenticate(t: Trust, result: Execution, expectedMSP: string, requireMSP: bool): Option<Verified> {
    var rs := result.endorsement.responses;
    if |rs| != 1 || rs[0].None? || rs[0].value.response.None? || rs[0].value.endorsement.None?
        || rs[0].value.endorsement.value.signature == EMPTY_BYTES then None
    else if !Usable(rs[0]) || !Canonical(rs[0].value.payload).OfTx? then None
    else
      var tx, endorser := Canonical(rs[0].value.payload).tx, rs[0].value.endorsement.value.endorser;
      if |tx.namespaces| != 1 || tx.namespaces[0].nsID != t.namespace || tx.namespaces[0].version != t.version then None
      else if t.policy.None? && !requireMSP then Some(Verified(result, RawEndorser(endorser), expectedMSP))
      else if t.policy.None? && !t.verifies(rs) then None
      else if !Canonical(endorser).OfIdentity? then None
      else
        match t.identify(result, expectedMSP)
        case None => None
        case Some(key) => Some(Verified(result, key, expectedMSP))
  }

  /** The match table of the candidates, by principal. */
  function MatrixOf(t: Trust, candidates: seq<Verified>): (m: Matrix)
    ensures |m| == t.principals && forall row | row in m :: |row| == |candidates|
    ensures forall q, i | 0 <= q < t.principals && 0 <= i < |candidates| :: m[q][i] == t.satisfies(q, candidates[i].key)
  {
    seq(t.principals, q requires 0 <= q => seq(|candidates|,
                                               i requires 0 <= i < |candidates| => t.satisfies(q, candidates[i].key)))
  }

  // ------------------------------------------------------------------------
  // Agreement
  // ------------------------------------------------------------------------

  /** Same lifecycle revision, wherever its package runs. */
  predicate SameRevision(a: Option<Revision>, b: Option<Revision>) {
    && a.Some? == b.Some?
    && (a.Some? ==>
        a.value.chaincode == b.value.chaincode && a.value.version == b.value.version
            && a.value.sequence == b.value.sequence)
  }

  /** Same revision, status, message, response payload and transaction bytes. */
  predicate Agrees(local: Execution, other: Execution) {
    && SameRevision(local.binding, other.binding)
    && local.response.Some? && other.response == local.response
    && |local.endorsement.responses| > 0 && |other.endorsement.responses| > 0
    && local.endorsement.responses[0].Some? && other.endorsement.responses[0].Some?
    && local.endorsement.responses[0].value.payload == other.endorsement.responses[0].value.payload
  }

  method CompareCanonicalResults(local: Execution, remote: seq<Execution>) returns (ok: bool)
    requires |local.endorsement.responses| > 0 ==> local.endorsement.responses[0].Some?
    requires forall r | r in remote :: |r.endorsement.responses| > 0 ==> r.endorsement.responses[0].Some?
    ensures ok <==> local.response.Some? && forall r | r in remote :: Agrees(local, r)
  {
    if local.response.None? { return false; }
    for i := 0 to |remote|
      invariant forall k | 0 <= k < i :: Agrees(local, remote[k])
    {
      var result := remote[i];
      assert result in remote;
      if local.binding.None? != result.binding.None? { return false; }
      if local.binding.Some? {
        var mine, theirs := local.binding.value, result.binding.value;
        if mine.chaincode != theirs.chaincode || mine.version != theirs.version
            || mine.sequence != theirs.sequence { return false; }
      }
      if result.response.None? { return false; }
      var mine, theirs := local.response.value, result.response.value;
      if mine.status != theirs.status || mine.message != theirs.message
          || mine.payload != theirs.payload { return false; }
      if |local.endorsement.responses| == 0 || |result.endorsement.responses| == 0 { return false; }
      if local.endorsement.responses[0].value.payload != result.endorsement.responses[0].value.payload { return false; }
    }
    return true;
  }

  // ------------------------------------------------------------------------
  // The pool of candidates
  // ------------------------------------------------------------------------

  ghost predicate DistinctKeys(candidates: seq<Verified>) {
    forall i, j :: 0 <= i < j < |candidates| ==> candidates[i].key != candidates[j].key
  }

  /**
   * Local first, distinct signers, each authenticated, each of the local
   * transaction and agreeing with the local result.
   */
  ghost predicate Pool(t: Trust, local: Execution, requireMSP: bool, candidates: seq<Verified>) {
    && candidates != [] && candidates[0].result == local && DistinctKeys(candidates)
    && (forall i :: 0 <= i < |candidates| ==>
        Authenticate(t, candidates[i].result, candidates[i].mspID, requireMSP) == Some(candidates[i]))
    && (forall i :: 1 <= i < |candidates| ==>
        candidates[i].result.txID == local.txID && Agrees(local, candidates[i].result))
  }

  function Keys(candidates: seq<Verified>): set<Key> {
    set c | c in candidates :: c.key
  }

  lemma PoolGrows(t: Trust, local: Execution, requireMSP: bool, candidates: seq<Verified>, c: Verified)
    requires Pool(t, local, requireMSP, candidates) && c.key !in Keys(candidates)
    requires Authenticate(t, c.result, c.mspID, requireMSP) == Some(c) && c.result.txID == local.txID
      && Agrees(local, c.result)
    ensures Pool(t, local, requireMSP, candidates + [c])
    ensures Keys(candidates + [c]) == Keys(candidates) + {c.key}
  {
    forall i | 0 <= i < |candidates| ensures candidates[i].key != c.key {
      assert candidates[i] in candidates;
    }
    assert forall d :: d in candidates + [c] <==> d in candidates || d == c;
  }

  // ------------------------------------------------------------------------
  // Assembling a selection
  // ------------------------------------------------------------------------

  /** `chosen` names, for each organization in turn, its first candidate. */
  ghost predicate FirstOfEach(candidates: seq<Verified>, orgs: seq<string>, chosen: seq<nat>) {
    && |chosen| == |orgs|
    && forall k :: 0 <= k < |orgs| ==> IsFirstOf(candidates, orgs[k], chosen[k])
  }

  ghost predicate IsFirstOf(candidates: seq<Verified>, org: string, i: nat) {
    i < |candidates| && candidates[i].mspID == org && forall j :: 0 <= j < i ==> candidates[j].mspID != org
  }

  /** What an assembled selection is: requested organizations, or a list the evaluator accepts. */
  ghost predicate Suffices(t: Trust, candidates: seq<Verified>, requested: seq<string>, chosen: seq<nat>) {
    if requested != [] then FirstOfEach(candidates, PolicyInspection.AddNew([], requested), chosen)
    else if t.policy.Some? then AcceptedSubmission(t.policy.value, MatrixOf(t, candidates), |candidates|, chosen)
    else chosen == [0] && candidates != []
  }

  /** No selection of these candidates would do. */
  ghost predicate Insufficient(t: Trust, candidates: seq<Verified>, requested: seq<string>) {
    if requested != [] then exists org | org in requested :: forall i :: 0 <= i < |candidates| ==>
      candidates[i].mspID != org
    else t.policy.Some? && !Satisfiable(t.policy.value, MatrixOf(t, candidates), |candidates|)
  }

  ghost predicate Indices(candidates: seq<Verified>, chosen: seq<nat>) {
    forall k :: 0 <= k < |chosen| ==> chosen[k] < |candidates|
  }

  /** The chosen executions other than the local one, in order. */
  function Remotes(candidates: seq<Verified>, chosen: seq<nat>): seq<Execution>
    requires Indices(candidates, chosen)
  {
    if chosen == [] then []
    else
      var i := chosen[|chosen| - 1];
      Remotes(candidates, chosen[..|chosen| - 1]) + (if i == 0 then [] else [candidates[i].result])
  }

  /** The merged endorsement: the local proposal and the chosen responses in order. */
  ghost predicate Merged(local: Execution, candidates: seq<Verified>, chosen: seq<nat>, end: Endorsed)
    requires Indices(candidates, chosen)
  {
    && end.proposal == local.endorsement.proposal && |end.responses| == |chosen|
    && forall i :: 0 <= i < |chosen| ==> candidates[chosen[i]].result.endorsement.responses == [end.responses[i]]
  }

  /** A chosen selection fails to merge (no proposal in its first execution) or the namespace verifier rejects it. */
  ghost predicate CannotBeUsed(t: Trust, local: Execution, candidates: seq<Verified>, requested: seq<string>,
                               chosen: seq<nat>)
    requires Indices(candidates, chosen)
  {
    && chosen != []
    && (candidates[chosen[0]].result.endorsement.proposal.None?
        || (requested == [] && exists end :: Merged(local, candidates, chosen, end) && !t.verifies(end.responses)))
  }

  datatype Assembly = Assembled(end: Endorsed, remote: seq<Execution>) | NotYet | AssemblyCanceled | AssemblyFailed

  function AllResponses(results: seq<Execution>): seq<Option<ProposalResponse>> {
    if results == [] then [] else AllResponses(results[..|results| - 1]) + results[|results| - 1].endorsement.responses
  }

  method MergeEndorsements(first: Execution, rest: seq<Execution>) returns (r: Option<Endorsed>)
    ensures r.Some? <==> first.endorsement.proposal.Some? && first.endorsement.responses + AllResponses(rest) != []
    ensures r.Some? ==>
      r.value == Endorsed(first.endorsement.proposal, first.endorsement.responses + AllResponses(rest))
  {
    if first.endorsement.proposal.None? { return None; }
    var responses := first.endorsement.responses;
    for i := 0 to |rest|
      invariant responses == first.endorsement.responses + AllResponses(rest[..i])
    {
      assert rest[..i + 1][..i] == rest[..i];
      responses := responses + rest[i].endorsement.responses;
    }
    assert rest[..|rest|] == rest;
    if |responses| == 0 { return None; }
    r := Some(Endorsed(first.endorsement.proposal, responses));
  }

  lemma {:induction false} ResponsesOfChosen(results: seq<Execution>)
    requires forall i :: 0 <= i < |results| ==> |results[i].endorsement.responses| == 1
    ensures |AllResponses(results)| == |results|
    ensures forall i :: 0 <= i < |results| ==> results[i].endorsement.responses == [AllResponses(results)[i]]
  {
    if results != [] {
      ResponsesOfChosen(results[..|results| - 1]);
    }
  }

  /** The first candidate of every requested organization, as assembleSelection looks them up. */
  method PickOrganizations(candidates: seq<Verified>, requested: seq<string>) returns (indices: seq<nat>, missing: bool)
    ensures missing ==> exists org | org in requested :: forall i :: 0 <= i < |candidates| ==>
      candidates[i].mspID != org
    ensures !missing ==> FirstOfEach(candidates, PolicyInspection.AddNew([], requested), indices)
  {
    indices := [];
    var seen: set<string> := {};
    ghost var orgs: seq<string> := [];
    for i := 0 to |requested|
      invariant orgs == PolicyInspection.AddNew([], requested[..i]) && seen == Elems(orgs)
      invariant FirstOfEach(candidates, orgs, indices)
    {
      assert requested[..i + 1] == requested[..i] + [requested[i]];
      PolicyInspection.AddNewConcat([], requested[..i], [requested[i]]);
      assert [requested[i]][1..] == [];
      if requested[i] in seen { continue; }
      seen := seen + {requested[i]};
      ghost var before := orgs;
      orgs := orgs + [requested[i]];
      assert Elems(orgs) == Elems(before) + {requested[i]};
      var found := false;
      for index := 0 to |candidates|
        invariant !found && forall j :: 0 <= j < index ==> candidates[j].mspID != requested[i]
        invariant FirstOfEach(candidates, before, indices)
      {
        if candidates[index].mspID == requested[i] {
          indices := indices + [index];
          found := true;
          assert FirstOfEach(candidates, orgs, indices);
          break;
        }
      }
      if !found {
        assert requested[i] in requested;
        return [], true;
      }
    }
    assert requested[..|requested|] == requested;
    missing := false;
  }

  /** From chosen indices to the merged endorsement; None if it cannot be merged or verified. */
  method MergeChosen(t: Trust, local: Execution, candidates: seq<Verified>, indices: seq<nat>, requested: seq<string>)
    returns (r: Option<(Endorsed, seq<Execution>)>)
    requires Indices(candidates, indices) && indices != []
    requires forall i :: 0 <= i < |candidates| ==> |candidates[i].result.endorsement.responses| == 1
    ensures r.Some? ==> Merged(local, candidates, indices, r.value.0) && r.value.1 == Remotes(candidates, indices)
    ensures r.Some? && requested == [] ==> t.verifies(r.value.0.responses)
    ensures r.Some? ==> candidates[indices[0]].result.endorsement.proposal.Some?
    ensures r.None? ==> CannotBeUsed(t, local, candidates, requested, indices)
  {
    var results: seq<Execution>, remote: seq<Execution> := [], [];
    for i := 0 to |indices|
      invariant |results| == i && forall k :: 0 <= k < i ==> results[k] == candidates[indices[k]].result
      invariant remote == Remotes(candidates, indices[..i])
    {
      assert indices[..i + 1][..i] == indices[..i];
      results := results + [candidates[indices[i]].result];
      if indices[i] != 0 { remote := remote + [results[i]]; }
    }
    assert indices[..|indices|] == indices;
    var merged := MergeEndorsements(results[0], results[1..]);
    if merged.None? { return None; }
    var end := merged.value.(proposal := local.endorsement.proposal);
    ResponsesOfChosen(results[1..]);
    assert Merged(local, candidates, indices, end);
    if requested == [] && !t.verifies(end.responses) { return None; }
    r := Some((end, remote));
  }

  method AssembleSelection(t: Trust, local: Execution, requireMSP: bool, candidates: seq<Verified>,
                           requested: seq<string>, ctx: Context)
    returns (r: Assembly, ghost chosen: seq<nat>)
    requires Pool(t, local, requireMSP, candidates)
    requires t.policy.Some? ==> WellFormed(t.policy.value, t.principals)
    modifies ctx
    ensures r.Assembled? ==> Indices(candidates, chosen) && Suffices(t, candidates, requested, chosen) && chosen != []
    ensures r.Assembled? ==> Merged(local, candidates, chosen, r.end) && r.remote == Remotes(candidates, chosen)
    ensures r.Assembled? && requested == [] ==> t.verifies(r.end.responses)
    ensures r.AssemblyFailed? ==>
              Indices(candidates, chosen) && Suffices(t, candidates, requested, chosen)
                  && CannotBeUsed(t, local, candidates, requested, chosen)
    ensures r.NotYet? ==> Insufficient(t, candidates, requested)
    ensures r.AssemblyCanceled? ==> ctx.Expired()
  {
    var indices: seq<nat>, canceled := [], false;
    if requested == [] {
      indices, canceled := SelectEndorsements(t.policy, MatrixOf(t, candidates), |candidates|, ctx);
    } else {
      var missing;
      indices, missing := PickOrganizations(candidates, requested);
      if missing { return NotYet, []; }
      canceled := ctx.Err();
      RequestedNonempty(requested);
    }
    if canceled { return AssemblyCanceled, []; }
    if |indices| == 0 { return NotYet, []; }
    chosen := indices;
    forall k | 0 <= k < |indices| ensures indices[k] < |candidates| {
      assert indices[k] in indices;
    }
    PoolSingles(t, local, requireMSP, candidates);
    var merged := MergeChosen(t, local, candidates, indices, requested);
    if merged.None? { return AssemblyFailed, indices; }
    r := Assembled(merged.value.0, merged.value.1);
  }

  lemma PoolSingles(t: Trust, local: Execution, requireMSP: bool, candidates: seq<Verified>)
    requires Pool(t, local, requireMSP, candidates)
    ensures forall i :: 0 <= i < |candidates| ==> |candidates[i].result.endorsement.responses| == 1
  {
  }

  lemma {:induction false} RequestedNonempty(requested: seq<string>)
    requires requested != []
    ensures PolicyInspection.AddNew([], requested) != []
  {
    PolicyInspection.AddNewIsUnion([], requested);
    assert requested[0] in Elems(requested);
  }

  // ------------------------------------------------------------------------
  // Visiting organizations and endpoints
  // ------------------------------------------------------------------------

  /** A remote orchestrator and how it answers; no reply is a failed call. */
  datatype Endpoint = Endpoint(address: string, reply: Option<Execution>)

  /** What can be asked: the organizations known, in sorted order, and how each resolves. */
  datatype Directory = Directory(available: seq<string>, resolve: string -> Option<seq<Option<Endpoint>>>)

  datatype Outcome =
    | Collected(end: Endorsed, remote: seq<Execution>)
    | Exhausted
    | Diverged(reply: Execution)
    | Canceled
    | Unusable
    | ForeignTransaction
    | LocalRejected
    | NoSignedProposal

  /** The organizations asked, in order. */
  function Asked(targets: seq<string>, unscoped: bool, directory: Directory, requested: seq<string>): seq<string> {
    if requested != [] then requested else if unscoped then targets + directory.available else targets
  }

  /** The endpoint is asked: present, and the first with its address. */
  ghost predicate Visited(endpoints: seq<Option<Endpoint>>, k: nat)
    requires k < |endpoints|
  {
    endpoints[k].Some? && forall j :: 0 <= j < k && endpoints[j].Some? ==>
      endpoints[j].value.address != endpoints[k].value.address
  }

  /** The execution that endpoint k answers with, if it is asked and answers. */
  ghost predicate Answers(endpoints: seq<Option<Endpoint>>, k: nat, reply: Execution) {
    k < |endpoints| && Visited(endpoints, k) && endpoints[k].value.reply == Some(reply)
  }

  /** Every authenticated answer among the first n endpoints is by a signer in the pool. */
  ghost predicate Heard(t: Trust, requireMSP: bool, msp: string, endpoints: seq<Option<Endpoint>>, n: nat,
                        keys: set<Key>) {
    forall k, reply {:trigger Answers(endpoints, k, reply)} ::
      0 <= k < n && Answers(endpoints, k, reply) && Authenticate(t, reply, msp, requireMSP).Some? ==>
      Authenticate(t, reply, msp, requireMSP).value.key in keys
  }

  /** Everything the organization has to offer is in the pool. */
  ghost predicate HeardAll(t: Trust, requireMSP: bool, directory: Directory, msp: string, keys: set<Key>) {
    msp in directory.available && directory.resolve(msp).Some? ==>
      Heard(t, requireMSP, msp, directory.resolve(msp).value, |directory.resolve(msp).value|, keys)
  }

  /** Some asked organization has an endpoint that answers with this execution. */
  ghost predicate Came(directory: Directory, asked: seq<string>, msp: string, reply: Execution) {
    msp in asked && msp in directory.available && directory.resolve(msp).Some? && exists k ::
      Answers(directory.resolve(msp).value, k, reply)
  }

  /** Every candidate but the local one is an answer of its organization. */
  ghost predicate AllCame(directory: Directory, asked: seq<string>, candidates: seq<Verified>) {
    forall i :: 1 <= i < |candidates| ==> Came(directory, asked, candidates[i].mspID, candidates[i].result)
  }

  /** What a finished collection means. */
  ghost predicate Justified(t: Trust, directory: Directory, asked: seq<string>, requested: seq<string>,
                            local: Execution, requireMSP: bool,
                            r: Outcome, pool: seq<Verified>, chosen: seq<nat>, ctx: Context)
    reads ctx
  {
    match r
    case Collected(end, remote) =>
      && Pool(t, local, requireMSP, pool) && AllCame(directory, asked, pool)
      && Indices(pool, chosen) && chosen != [] && Suffices(t, pool, requested, chosen)
      && Merged(local, pool, chosen, end) && remote == Remotes(pool, chosen)
      && (requested == [] ==> t.verifies(end.responses))
    case Exhausted =>
      && Pool(t, local, requireMSP, pool) && Insufficient(t, pool, requested)
      && forall msp | msp in asked :: HeardAll(t, requireMSP, directory, msp, Keys(pool))
    case Diverged(reply) =>
      && (reply.txID != local.txID || !Agrees(local, reply))
      && exists msp :: Came(directory, asked, msp, reply)
    case Canceled => ctx.Expired()
    case Unusable =>
      && Pool(t, local, requireMSP, pool) && AllCame(directory, asked, pool)
      && Indices(pool, chosen) && Suffices(t, pool, requested, chosen)
         && CannotBeUsed(t, local, pool, requested, chosen)
    case ForeignTransaction => true
    case LocalRejected => true
    case NoSignedProposal => Pool(t, local, requireMSP, pool) && |pool| == 1 && Insufficient(t, pool, requested)
  }

  predicate EndsSearch(r: Outcome) {
    r.Collected? || r.Diverged? || r.Canceled? || r.Unusable?
  }

  /** What still holds while nothing sufficient was found. */
  ghost predicate Searching(t: Trust, directory: Directory, asked: seq<string>, requested: seq<string>,
                            local: Execution, requireMSP: bool,
                            candidates: seq<Verified>) {
    Pool(t, local, requireMSP, candidates) && AllCame(directory, asked, candidates)
        && Insufficient(t, candidates, requested)
  }

  /** What assembling means for the collection; r is None when the search goes on. */
  method TryAssembling(t: Trust, directory: Directory, asked: seq<string>, requested: seq<string>, local: Execution,
                       requireMSP: bool, candidates: seq<Verified>, ctx: Context)
    returns (r: Option<Outcome>, ghost chosen: seq<nat>)
    requires Pool(t, local, requireMSP, candidates) && AllCame(directory, asked, candidates)
    requires t.policy.Some? ==> WellFormed(t.policy.value, t.principals)
    modifies ctx
    ensures r.Some? ==>
      Justified(t, directory, asked, requested, local, requireMSP, r.value, candidates, chosen, ctx)
          && EndsSearch(r.value)
    ensures r.Some? ==> !r.value.Diverged?
    ensures r.None? ==> Searching(t, directory, asked, requested, local, requireMSP, candidates)
  {
    var assembly;
    assembly, chosen := AssembleSelection(t, local, requireMSP, candidates, requested, ctx);
    match assembly
    case Assembled(end, remote) => r := Some(Collected(end, remote));
    case AssemblyCanceled => r := Some(Canceled);
    case AssemblyFailed => r := Some(Unusable);
    case NotYet => r := None;
  }

  /** A new agreeing signer joins the pool; then assembling is tried again. */
  method ConsiderCandidate(t: Trust, directory: Directory, asked: seq<string>, requested: seq<string>, local: Execution,
                           requireMSP: bool, known: seq<Verified>, c: Verified, ctx: Context)
    returns (r: Option<Outcome>, candidates: seq<Verified>, ghost chosen: seq<nat>)
    requires Searching(t, directory, asked, requested, local, requireMSP, known) && c.key !in Keys(known)
    requires t.policy.Some? ==> WellFormed(t.policy.value, t.principals)
    requires Came(directory, asked, c.mspID, c.result) && Authenticate(t, c.result, c.mspID, requireMSP) == Some(c)
    requires c.result.txID == local.txID && Agrees(local, c.result)
    modifies ctx
    ensures r.Some? ==>
      Justified(t, directory, asked, requested, local, requireMSP, r.value, candidates, chosen, ctx)
          && EndsSearch(r.value)
    ensures r.None? ==>
      Searching(t, directory, asked, requested, local, requireMSP, candidates)
          && Keys(candidates) == Keys(known) + {c.key}
  {
    PoolGrows(t, local, requireMSP, known, c);
    candidates := known + [c];
    assert AllCame(directory, asked, candidates);
    r, chosen := TryAssembling(t, directory, asked, requested, local, requireMSP, candidates, ctx);
  }

  /** One answer: reject, ignore, or add its signer and try to assemble. r is None when the search goes on. */
  method ConsiderReply(t: Trust, directory: Directory, asked: seq<string>, requested: seq<string>, local: Execution,
                       requireMSP: bool,
                       msp: string, result: Execution, known: seq<Verified>, seenSigners: set<Key>, ctx: Context)
    returns (r: Option<Outcome>, candidates: seq<Verified>, seen: set<Key>, ghost chosen: seq<nat>)
    requires Searching(t, directory, asked, requested, local, requireMSP, known) && seenSigners == Keys(known)
    requires t.policy.Some? ==> WellFormed(t.policy.value, t.principals)
    requires Came(directory, asked, msp, result)
    modifies ctx
    ensures r.Some? ==>
      Justified(t, directory, asked, requested, local, requireMSP, r.value, candidates, chosen, ctx)
          && EndsSearch(r.value)
    ensures r.None? ==>
      Searching(t, directory, asked, requested, local, requireMSP, candidates) && seen == Keys(candidates)
    ensures r.None? ==> seenSigners <= seen
    ensures r.None? && Authenticate(t, result, msp, requireMSP).Some? ==>
      Authenticate(t, result, msp, requireMSP).value.key in seen
  {
    candidates, seen, chosen := known, seenSigners, [];
    if result.txID != local.txID { return Some(Diverged(result)), candidates, seen, []; }
    var verified := Authenticate(t, result, msp, requireMSP);
    if verified.None? { return None, candidates, seen, []; }
    var agrees := CompareCanonicalResults(local, [result]);
    assert agrees ==> result in [result];
    if !agrees { return Some(Diverged(result)), candidates, seen, []; }
    if verified.value.key in seen { return None, candidates, seen, []; }
    r, candidates, chosen :=
      ConsiderCandidate(t, directory, asked, requested, local, requireMSP, known, verified.value, ctx);
    seen := seen + {verified.value.key};
  }

  lemma {:induction false} HeardNext(t: Trust, requireMSP: bool, msp: string, endpoints: seq<Option<Endpoint>>, n: nat,
                                     keys: set<Key>, more: set<Key>)
    requires Heard(t, requireMSP, msp, endpoints, n, keys) && keys <= more && n < |endpoints|
    requires forall reply | Answers(endpoints, n, reply) && Authenticate(t, reply, msp, requireMSP).Some? ::
               Authenticate(t, reply, msp, requireMSP).value.key in more
    ensures Heard(t, requireMSP, msp, endpoints, n + 1, more)
  {
  }

  /** The inner loop: the endpoints of one organization. r is None when all were asked in vain. */
  method VisitEndpoints(t: Trust, directory: Directory, asked: seq<string>, requested: seq<string>, local: Execution,
                        requireMSP: bool,
                        msp: string, endpoints: seq<Option<Endpoint>>, known: seq<Verified>, seenSigners: set<Key>,
                            ctx: Context)
    returns (r: Option<Outcome>, candidates: seq<Verified>, seen: set<Key>, ghost chosen: seq<nat>)
    requires Searching(t, directory, asked, requested, local, requireMSP, known) && seenSigners == Keys(known)
    requires t.policy.Some? ==> WellFormed(t.policy.value, t.principals)
    requires msp in asked && msp in directory.available && directory.resolve(msp) == Some(endpoints)
    modifies ctx
    ensures r.Some? ==>
      Justified(t, directory, asked, requested, local, requireMSP, r.value, candidates, chosen, ctx)
          && EndsSearch(r.value)
    ensures r.None? ==>
      Searching(t, directory, asked, requested, local, requireMSP, candidates) && seen == Keys(candidates)
    ensures r.None? ==> HeardAll(t, requireMSP, directory, msp, seen) && seenSigners <= seen
  {
    candidates, seen, chosen := known, seenSigners, [];
    var visited: set<string> := {};
    for i := 0 to |endpoints|
      invariant Searching(t, directory, asked, requested, local, requireMSP, candidates)
      invariant seen == Keys(candidates) && seenSigners <= seen
      invariant visited == Addresses(endpoints[..i])
      invariant Heard(t, requireMSP, msp, endpoints, i, seen)
    {
      var canceled := ctx.Err();
      if canceled { return Some(Canceled), candidates, seen, []; }
      AddressesNext(endpoints, i);
      if endpoints[i].None? || endpoints[i].value.address in visited {
        HeardNext(t, requireMSP, msp, endpoints, i, seen, seen);
        continue;
      }
      visited := visited + {endpoints[i].value.address};
      if endpoints[i].value.reply.None? {
        HeardNext(t, requireMSP, msp, endpoints, i, seen, seen);
        continue;
      }
      var result := endpoints[i].value.reply.value;
      assert Answers(endpoints, i, result);
      ghost var before := seen;
      r, candidates, seen, chosen :=
        ConsiderReply(t, directory, asked, requested, local, requireMSP, msp, result, candidates, seen, ctx);
      if r.Some? { return; }
      HeardNext(t, requireMSP, msp, endpoints, i, before, seen);
    }
    assert endpoints[..|endpoints|] == endpoints;
    r := None;
  }

  ghost function Addresses(endpoints: seq<Option<Endpoint>>): set<string> {
    set e | e in endpoints && e.Some? :: e.value.address
  }

  /** An endpoint is visited exactly when its address is new. */
  lemma {:induction false} AddressesNext(endpoints: seq<Option<Endpoint>>, i: nat)
    requires i < |endpoints|
    ensures Addresses(endpoints[..i + 1]) == Addresses(endpoints[..i]) + if endpoints[i].Some? then
      {endpoints[i].value.address} else {}
    ensures Visited(endpoints, i) <==> endpoints[i].Some? && endpoints[i].value.address !in Addresses(endpoints[..i])
  {
    assert endpoints[..i + 1] == endpoints[..i] + [endpoints[i]];
    forall j | 0 <= j < i && endpoints[j].Some? ensures endpoints[j].value.address in Addresses(endpoints[..i]) {
      assert endpoints[..i][j] in endpoints[..i];
    }
  }

  /** The outer loop: the organizations asked, each once. */
  method VisitOrganizations(t: Trust, directory: Directory, asked: seq<string>, requested: seq<string>,
                            local: Execution, requireMSP: bool,
                            known: seq<Verified>, signers: set<Key>, ctx: Context)
    returns (r: Outcome, candidates: seq<Verified>, ghost chosen: seq<nat>)
    requires Searching(t, directory, asked, requested, local, requireMSP, known) && signers == Keys(known)
    requires t.policy.Some? ==> WellFormed(t.policy.value, t.principals)
    modifies ctx
    ensures Justified(t, directory, asked, requested, local, requireMSP, r, candidates, chosen, ctx)
    ensures EndsSearch(r) || r.Exhausted?
  {
    candidates, chosen := known, [];
    var seenSigners := signers;
    var visitedMSPs: set<string> := {};
    for i := 0 to |asked|
      invariant Searching(t, directory, asked, requested, local, requireMSP, candidates)
        && seenSigners == Keys(candidates)
      invariant forall k :: 0 <= k < i ==> asked[k] in visitedMSPs
      invariant forall msp | msp in visitedMSPs :: HeardAll(t, requireMSP, directory, msp, seenSigners)
    {
      var msp := asked[i];
      var canceled := ctx.Err();
      if canceled { return Canceled, candidates, []; }
      if msp in visitedMSPs { continue; }
      visitedMSPs := visitedMSPs + {msp};
      if msp !in directory.available { continue; }
      var remotes := directory.resolve(msp);
      if remotes.None? || |remotes.value| == 0 { continue; }
      ghost var before := seenSigners;
      var done;
      done, candidates, seenSigners, chosen :=
        VisitEndpoints(t, directory, asked, requested, local, requireMSP, msp, remotes.value, candidates, seenSigners,
                       ctx);
      if done.Some? { return done.value, candidates, chosen; }
      forall other | other in visitedMSPs ensures HeardAll(t, requireMSP, directory, other, seenSigners) {
        if other != msp { HeardMore(t, requireMSP, directory, other, before, seenSigners); }
      }
    }
    r := Exhausted;
  }

  lemma {:induction false} LocalAlone(t: Trust, directory: Directory, asked: seq<string>, local: Execution,
                                      requireMSP: bool, c: Verified)
    requires Authenticate(t, local, c.mspID, requireMSP) == Some(c)
    ensures Pool(t, local, requireMSP, [c]) && AllCame(directory, asked, [c]) && Keys([c]) == {c.key}
  {
    assert c in [c];
  }

  /** collectNamespaceEndorsements, from the compiled policy on. */
  method CollectNamespaceEndorsements(t: Trust, targets: seq<string>, unscoped: bool, directory: Directory,
                                      requested: seq<string>,
                                      local: Execution, localMSP: string, clientTxID: Option<TxID>,
                                          signedProposal: bool, ctx: Context)
    returns (r: Outcome, candidates: seq<Verified>, ghost chosen: seq<nat>)
    requires t.policy.Some? ==> WellFormed(t.policy.value, t.principals)
    modifies ctx
    ensures Justified(t, directory, Asked(targets, unscoped, directory, requested), requested, local, requested != [],
                      r, candidates, chosen, ctx)
    ensures r.ForeignTransaction? <==> clientTxID.Some? && clientTxID.value != local.txID
    ensures r.LocalRejected? <==> !r.ForeignTransaction? && Authenticate(t, local, localMSP, requested != []).None?
    ensures r.NoSignedProposal? ==> !signedProposal
    ensures r.Exhausted? || r.Diverged? ==> signedProposal
  {
    candidates, chosen := [], [];
    if clientTxID.Some? && clientTxID.value != local.txID { return ForeignTransaction, [], []; }
    var requireMSP := requested != [];
    var verified := Authenticate(t, local, localMSP, requireMSP);
    if verified.None? { return LocalRejected, [], []; }
    r, candidates, chosen :=
      CollectFromLocal(t, directory, Asked(targets, unscoped, directory, requested), requested, local, verified.value,
                       signedProposal, ctx);
  }

  /** The local execution may suffice; otherwise the organizations are asked. */
  method CollectFromLocal(t: Trust, directory: Directory, asked: seq<string>, requested: seq<string>, local: Execution,
                          verified: Verified, signedProposal: bool, ctx: Context)
    returns (r: Outcome, candidates: seq<Verified>, ghost chosen: seq<nat>)
    requires t.policy.Some? ==> WellFormed(t.policy.value, t.principals)
    requires Authenticate(t, local, verified.mspID, requested != []) == Some(verified)
    modifies ctx
    ensures Justified(t, directory, asked, requested, local, requested != [], r, candidates, chosen, ctx)
    ensures EndsSearch(r) || r.Exhausted? || r.NoSignedProposal?
    ensures r.NoSignedProposal? ==> !signedProposal
    ensures r.Exhausted? || r.Diverged? ==> signedProposal
  {
    candidates := [verified];
    LocalAlone(t, directory, asked, local, requested != [], verified);
    var done;
    done, chosen := TryAssembling(t, directory, asked, requested, local, requested != [], candidates, ctx);
    if done.Some? { return done.value, candidates, chosen; }
    if !signedProposal { return NoSignedProposal, candidates, []; }
    r, candidates, chosen :=
      VisitOrganizations(t, directory, asked, requested, local, requested != [], candidates, {verified.key}, ctx);
  }

  lemma {:induction false} HeardMore(t: Trust, requireMSP: bool, directory: Directory, msp: string, keys: set<Key>,
                                     more: set<Key>)
    requires HeardAll(t, requireMSP, directory, msp, keys) && keys <= more
    ensures HeardAll(t, requireMSP, directory, msp, more)
  {
  }

  // ------------------------------------------------------------------------
  // What a collected endorsement and an exhausted search mean
  // ------------------------------------------------------------------------

  /** The chosen executions are by pairwise distinct signers. */
  lemma {:induction false} ChosenAreDistinct(t: Trust, candidates: seq<Verified>, requested: seq<string>,
                                             chosen: seq<nat>)
    requires Suffices(t, candidates, requested, chosen) && Indices(candidates, chosen) && DistinctKeys(candidates)
    ensures NoDup(chosen)
    ensures forall i, j :: 0 <= i < j < |chosen| ==> candidates[chosen[i]].key != candidates[chosen[j]].key
  {
    if requested != [] {
      PolicyInspection.AddNewIsUnion([], requested);
      var orgs := PolicyInspection.AddNew([], requested);
      forall i, j | 0 <= i < j < |chosen| ensures chosen[i] != chosen[j] {
        assert IsFirstOf(candidates, orgs[i], chosen[i]) && IsFirstOf(candidates, orgs[j], chosen[j]);
      }
    }
    forall i, j | 0 <= i < j < |chosen| ensures candidates[chosen[i]].key != candidates[chosen[j]].key {
      assert chosen[i] != chosen[j];
    }
  }

  /** The execution is signed for this namespace version by a valid member of the organization, with this key. */
  ghost predicate Authentic(t: Trust, result: Execution, msp: string, requireMSP: bool, c: Verified) {
    var rs := result.endorsement.responses;
    && c.result == result && c.mspID == msp && |rs| == 1 && rs[0].Some?
    && rs[0].value.response.Some? && 200 <= rs[0].value.response.value.status < 400
    && rs[0].value.endorsement.Some? && rs[0].value.endorsement.value.signature != Raw([])
    && Canonical(rs[0].value.payload).OfTx?
    && var tx, endorser := Canonical(rs[0].value.payload).tx, rs[0].value.endorsement.value.endorser;
    && |tx.namespaces| == 1 && tx.namespaces[0].nsID == t.namespace && tx.namespaces[0].version == t.version
    && if t.policy.None? && !requireMSP then c.key == RawEndorser(endorser)
       else
         && (t.policy.None? ==> t.verifies(rs)) && Canonical(endorser).OfIdentity?
         && t.identify(result, msp) == Some(c.key)
  }

  /** Exactly the authentic executions are authenticated, as what they are. */
  lemma AuthenticatedIsAuthentic(t: Trust, result: Execution, msp: string, requireMSP: bool)
    ensures forall c :: Authenticate(t, result, msp, requireMSP) == Some(c) <==>
      Authentic(t, result, msp, requireMSP, c)
  {
  }

  /** Two executions with one outcome: lifecycle revision, status, message, payload and transaction bytes. */
  ghost predicate OneOutcome(a: Execution, b: Execution) {
    && a.response.Some? && b.response.Some? && a.response.value.status == b.response.value.status
    && a.response.value.message == b.response.value.message && a.response.value.payload == b.response.value.payload
    && (a.binding.None? <==> b.binding.None?)
    && (a.binding.Some? ==>
          && a.binding.value.chaincode == b.binding.value.chaincode
          && a.binding.value.version == b.binding.value.version
          && a.binding.value.sequence == b.binding.value.sequence)
    && a.endorsement.responses != [] && a.endorsement.responses[0].Some?
    && b.endorsement.responses != [] && b.endorsement.responses[0].Some?
    && a.endorsement.responses[0].value.payload == b.endorsement.responses[0].value.payload
  }

  lemma AgreementIsOneOutcome(local: Execution, other: Execution)
    ensures Agrees(local, other) <==> OneOutcome(local, other)
  {
  }

  /**
   * What is collected: responses of pairwise distinct signers, each an authentic
   * execution of the local transaction with the local outcome; the remote
   * executions reported are the chosen ones other than the local.
   */
  lemma CollectedIsOneOutcome(t: Trust, directory: Directory, asked: seq<string>, requested: seq<string>,
                              local: Execution, requireMSP: bool, end: Endorsed, remote: seq<Execution>,
                              pool: seq<Verified>, chosen: seq<nat>, ctx: Context)
    requires Justified(t, directory, asked, requested, local, requireMSP, Collected(end, remote), pool, chosen, ctx)
    ensures |end.responses| == |chosen| > 0 && end.proposal == local.endorsement.proposal
    ensures forall i :: 0 <= i < |chosen| ==> ChosenAt(t, local, requireMSP, end, pool, chosen, i)
    ensures forall i, j :: 0 <= i < j < |chosen| ==> pool[chosen[i]].key != pool[chosen[j]].key
    ensures exists at :: OthersAt(pool, chosen, remote, at)
  {
    ChosenAreDistinct(t, pool, requested, chosen);
    var at := RemotesAreOthers(pool, chosen);
    forall i | 0 <= i < |chosen| ensures ChosenAt(t, local, requireMSP, end, pool, chosen, i) {
      ChosenIsAuthentic(t, local, requireMSP, pool, chosen[i]);
    }
  }

  ghost predicate ChosenAt(t: Trust, local: Execution, requireMSP: bool, end: Endorsed, pool: seq<Verified>,
                           chosen: seq<nat>, i: nat) {
    && i < |chosen| == |end.responses| && chosen[i] < |pool|
    && var c := pool[chosen[i]];
    && Authentic(t, c.result, c.mspID, requireMSP, c) && c.result.endorsement.responses == [end.responses[i]]
    && (chosen[i] == 0 ==> c.result == local)
    && (chosen[i] != 0 ==> c.result.txID == local.txID && OneOutcome(local, c.result))
  }

  lemma ChosenIsAuthentic(t: Trust, local: Execution, requireMSP: bool, pool: seq<Verified>, k: nat)
    requires Pool(t, local, requireMSP, pool) && k < |pool|
    ensures var c := pool[k];
      && Authentic(t, c.result, c.mspID, requireMSP, c)
      && (k == 0 ==> c.result == local) && (k != 0 ==> c.result.txID == local.txID && OneOutcome(local, c.result))
  {
    AuthenticatedIsAuthentic(t, pool[k].result, pool[k].mspID, requireMSP);
    AgreementIsOneOutcome(local, pool[k].result);
  }

  /** The chosen executions other than the local one, in chosen order. */
  ghost predicate OthersAt(candidates: seq<Verified>, chosen: seq<nat>, remote: seq<Execution>, at: seq<nat>)
    requires Indices(candidates, chosen)
  {
    && |at| == |remote| && (forall i, j :: 0 <= i < j < |at| ==> at[i] < at[j])
    && (forall k :: 0 <= k < |at| ==>
          at[k] < |chosen| && chosen[at[k]] != 0 && candidates[chosen[at[k]]].result == remote[k])
    && (forall i: nat :: i < |chosen| && chosen[i] != 0 ==> i in at)
  }

  lemma {:induction false} RemotesAreOthers(candidates: seq<Verified>, chosen: seq<nat>) returns (at: seq<nat>)
    requires Indices(candidates, chosen)
    ensures OthersAt(candidates, chosen, Remotes(candidates, chosen), at)
    decreases |chosen|
  {
    at := [];
    if chosen != [] {
      var n := |chosen| - 1;
      var earlier := RemotesAreOthers(candidates, chosen[..n]);
      at := if chosen[n] == 0 then earlier else earlier + [n];
      OneMoreOther(candidates, chosen, Remotes(candidates, chosen[..n]), earlier);
    }
  }

  lemma OneMoreOther(candidates: seq<Verified>, chosen: seq<nat>, remote: seq<Execution>, at: seq<nat>)
    requires chosen != [] && Indices(candidates, chosen)
      && OthersAt(candidates, chosen[..|chosen| - 1], remote, at)
    ensures var n := |chosen| - 1;
      OthersAt(candidates, chosen, if chosen[n] == 0 then remote else remote + [candidates[chosen[n]].result],
               if chosen[n] == 0 then at else at + [n])
  {
    var n := |chosen| - 1;
    var all := if chosen[n] == 0 then at else at + [n];
    var others := if chosen[n] == 0 then remote else remote + [candidates[chosen[n]].result];
    assert chosen[n] != 0 ==> all[|at|] == n;
    forall k | 0 <= k < |all|
      ensures all[k] < |chosen| && chosen[all[k]] != 0 && candidates[chosen[all[k]]].result == others[k]
    {
      if k < |at| { assert chosen[..n][at[k]] == chosen[all[k]]; }
    }
    forall i: nat | i < |chosen| && chosen[i] != 0 ensures i in all {
      if i < n {
        assert chosen[..n][i] == chosen[i];
        var k :| 0 <= k < |at| && at[k] == i;
        assert all[k] == i;
      }
    }
  }

  /**
   * When organizations were requested and their search is exhausted, one of them
   * has no candidate, and whatever it has to offer is by signers already in the
   * pool for others.
   */
  lemma ExhaustedForRequested(t: Trust, directory: Directory, targets: seq<string>, unscoped: bool,
                              requested: seq<string>, local: Execution, pool: seq<Verified>, chosen: seq<nat>,
                              ctx: Context) returns (org: string)
    requires requested != []
    requires Justified(t, directory, Asked(targets, unscoped, directory, requested), requested, local, true, Exhausted,
                       pool, chosen, ctx)
    ensures org in requested && forall c | c in pool :: c.mspID != org
    ensures forall reply, c :: Came(directory, requested, org, reply) && Authentic(t, reply, org, true, c) ==>
      c.key in Keys(pool)
  {
    org :| org in requested && forall i :: 0 <= i < |pool| ==> pool[i].mspID != org;
    assert HeardAll(t, true, directory, org, Keys(pool));
    forall reply, c | Came(directory, requested, org, reply) && Authentic(t, reply, org, true, c)
      ensures c.key in Keys(pool)
    {
      AuthenticatedIsAuthentic(t, reply, org, true);
      var k: nat :| Answers(directory.resolve(org).value, k, reply);
    }
  }

  /** An authenticated candidate carries one usable, signed response for this namespace version. */
  lemma {:induction false} AuthenticatedResponse(t: Trust, c: Verified, requireMSP: bool)
    requires Authenticate(t, c.result, c.mspID, requireMSP) == Some(c)
    ensures var rs := c.result.endorsement.responses;
      && |rs| == 1 && Usable(rs[0]) && rs[0].value.endorsement.Some? && Canonical(rs[0].value.payload).OfTx?
      && (t.policy.Some? ==> Canonical(rs[0].value.endorsement.value.endorser).OfIdentity?)
  {
  }

  /**
   * Every collected endorsement packages: its responses are successes with the
   * local transaction bytes, so createCompatFabricXTx can refuse it only for
   * the headers of the local proposal.
   */
  lemma {:induction false} CollectedPackages(t: Trust, local: Execution, requireMSP: bool, pool: seq<Verified>,
                                             chosen: seq<nat>, end: Endorsed)
    requires Pool(t, local, requireMSP, pool) && Indices(pool, chosen) && chosen != []
      && Merged(local, pool, chosen, end)
    requires t.policy.Some?
    ensures AllUsable(end.responses) && local.endorsement.responses != [] && local.endorsement.responses[0].Some?
    ensures forall i :: 0 <= i < |end.responses| ==>
      end.responses[i].value.payload == local.endorsement.responses[0].value.payload
    ensures CreateNative(end).Ok? <==>
      && end.proposal.Some? && Canonical(end.proposal.value.header).OfHeader?
      && var h := Canonical(end.proposal.value.header).header;
      && Canonical(h.signatureHeader).OfSignatureHeader? && Canonical(h.channelHeader).OfChannelHeader?
  {
    AuthenticatedResponse(t, pool[0], requireMSP);
    forall i | 0 <= i < |end.responses|
      ensures Usable(end.responses[i]) && end.responses[i].value.payload == local.endorsement.responses[0].value.payload
      ensures end.responses[i].value.endorsement.Some?
        && Canonical(end.responses[i].value.endorsement.value.endorser).OfIdentity?
      ensures Canonical(end.responses[i].value.payload).OfTx?
    {
      assert pool[chosen[i]].result.endorsement.responses == [end.responses[i]];
      AuthenticatedResponse(t, pool[chosen[i]], requireMSP);
    }
    SamePayload(end.responses, 0);
    SignersDecode(end.responses, {});
  }

  lemma {:induction false} SignersDecode(responses: seq<Option<ProposalResponse>>, seen: set<Bytes>)
    requires forall i :: 0 <= i < |responses| ==>
      responses[i].Some? && responses[i].value.endorsement.Some?
          && Canonical(responses[i].value.endorsement.value.endorser).OfIdentity?
    ensures NativeEndorsements(responses, seen).Some?
    ensures responses != [] && responses[0].value.endorsement.value.endorser !in seen ==>
      NativeEndorsements(responses, seen).value != []
  {
    if responses != [] {
      var e := responses[0].value.endorsement.value.endorser;
      SignersDecode(responses[1..], if e in seen then seen else seen + {e});
    }
  }

  /** The signers within reach: the local one, and every authenticated answer of an asked organization. */
  ghost predicate Reachable(t: Trust, directory: Directory, asked: seq<string>, requireMSP: bool, pool: seq<Verified>,
                            key: Key) {
    (pool != [] && key == pool[0].key)
    || exists msp, reply :: Came(directory, asked, msp, reply) && Authenticate(t, reply, msp, requireMSP).Some?
                            && Authenticate(t, reply, msp, requireMSP).value.key == key
  }

  lemma {:induction false} ReachableInPool(t: Trust, directory: Directory, asked: seq<string>, requireMSP: bool,
                                           pool: seq<Verified>, key: Key) returns (i: nat)
    requires pool != [] && Reachable(t, directory, asked, requireMSP, pool, key)
    requires forall msp | msp in asked :: HeardAll(t, requireMSP, directory, msp, Keys(pool))
    ensures i < |pool| && pool[i].key == key
  {
    if key == pool[0].key { return 0; }
    var msp, reply :| Came(directory, asked, msp, reply) && Authenticate(t, reply, msp, requireMSP).Some?
                      && Authenticate(t, reply, msp, requireMSP).value.key == key;
    assert HeardAll(t, requireMSP, directory, msp, Keys(pool));
    var endpoints := directory.resolve(msp).value;
    var k: nat :| Answers(endpoints, k, reply);
    assert key in Keys(pool);
    var c :| c in pool && c.key == key;
    i :| 0 <= i < |pool| && pool[i] == c;
  }

  lemma {:induction false} TranslateKeys(t: Trust, directory: Directory, asked: seq<string>, pool: seq<Verified>,
                                         others: seq<Verified>, order: seq<nat>)
    returns (translated: seq<nat>)
    requires pool != [] && forall msp | msp in asked :: HeardAll(t, false, directory, msp, Keys(pool))
    requires forall k :: 0 <= k < |order| ==>
      order[k] < |others| && Reachable(t, directory, asked, false, pool, others[order[k]].key)
    ensures |translated| == |order|
    ensures forall k :: 0 <= k < |order| ==> translated[k] < |pool| && pool[translated[k]].key == others[order[k]].key
  {
    translated := [];
    if order != [] {
      var last := |order| - 1;
      translated := TranslateKeys(t, directory, asked, pool, others, order[..last]);
      var i := ReachableInPool(t, directory, asked, false, pool, others[order[last]].key);
      translated := translated + [i];
    }
  }

  /** An accepted list of reachable signers, among any others, is an accepted list of pool members. */
  lemma {:induction false} AcceptedInPool(t: Trust, directory: Directory, asked: seq<string>, pool: seq<Verified>,
                                          others: seq<Verified>, order: seq<nat>)
    requires pool != [] && forall msp | msp in asked :: HeardAll(t, false, directory, msp, Keys(pool))
    requires DistinctKeys(others) && t.policy.Some?
      && AcceptedSubmission(t.policy.value, MatrixOf(t, others), |others|, order)
    requires forall i | i in order :: i < |others| && Reachable(t, directory, asked, false, pool, others[i].key)
    ensures Satisfiable(t.policy.value, MatrixOf(t, pool), |pool|)
  {
    forall k | 0 <= k < |order|
      ensures order[k] < |others| && Reachable(t, directory, asked, false, pool, others[order[k]].key) {
      assert order[k] in order;
    }
    var translated := TranslateKeys(t, directory, asked, pool, others, order);
    AcceptanceByKey(t, others, order, pool, translated);
  }

  /**
   * Main result about failure: when automatic collection is exhausted, no
   * nonempty list of distinct signers within reach would be accepted, in any
   * order, whichever of their executions are taken.
   */
  lemma {:induction false} ExhaustedMeansUnsatisfiable(t: Trust, directory: Directory, asked: seq<string>,
                                                       local: Execution, pool: seq<Verified>,
                                                       chosen: seq<nat>, ctx: Context, others: seq<Verified>)
    requires Justified(t, directory, asked, [], local, false, Exhausted, pool, chosen, ctx)
    requires DistinctKeys(others) && forall i :: 0 <= i < |others| ==>
      Reachable(t, directory, asked, false, pool, others[i].key)
    ensures t.policy.Some? && !Satisfiable(t.policy.value, MatrixOf(t, others), |others|)
  {
    if Satisfiable(t.policy.value, MatrixOf(t, others), |others|) {
      var order :| AcceptedSubmission(t.policy.value, MatrixOf(t, others), |others|, order);
      AcceptedInPool(t, directory, asked, pool, others, order);
    }
  }

  /** Acceptance depends on the signers alone. */
  lemma {:induction false} AcceptanceByKey(t: Trust, a: seq<Verified>, order: seq<nat>, b: seq<Verified>,
                                           translated: seq<nat>)
    requires t.policy.Some? && AcceptedSubmission(t.policy.value, MatrixOf(t, a), |a|, order)
    requires DistinctKeys(a) && |translated| == |order|
    requires forall k :: 0 <= k < |order| ==>
      order[k] < |a| && translated[k] < |b| && b[translated[k]].key == a[order[k]].key
    ensures AcceptedSubmission(t.policy.value, MatrixOf(t, b), |b|, translated)
  {
    var m, n := MatrixOf(t, a), MatrixOf(t, b);
    forall k | 0 <= k < |order| ensures SameProfile(m, order[k], n, translated[k]) {
      forall q ensures Satisfies(m, q, order[k]) == Satisfies(n, q, translated[k]) {
        if 0 <= q < t.principals {
          assert m[q] in m && n[q] in n;
        }
      }
    }
    ConsumeByProfile(t.policy.value, m, order, n, translated);
    AcceptsIsConsume(t.policy.value, m, order);
    AcceptsIsConsume(t.policy.value, n, translated);
  }

  // ------------------------------------------------------------------------
  // With the targets that inspection computed
  // ------------------------------------------------------------------------

  /** The organizations an admitted policy routes to, or none for a policy without signature rule. */
  function Targets(rule: Option<Policy>, identities: seq<PolicyInspection.Principal>): seq<string> {
    if rule.Some? then PolicyInspection.AddNew([], PolicyInspection.RuleMSPs(rule.value, identities)) else []
  }

  predicate Unscoped(rule: Option<Policy>, identities: seq<PolicyInspection.Principal>) {
    rule.Some? && PolicyInspection.RuleUnscoped(rule.value, identities)
  }

  /** collectNamespaceEndorsements: inspects the policy, then collects. r is None for a policy that is not admitted. */
  method CollectForPolicy(rule: Option<Policy>, identities: seq<PolicyInspection.Principal>, library: Trust,
                          directory: Directory,
                          requested: seq<string>, local: Execution, localMSP: string, clientTxID: Option<TxID>,
                              signedProposal: bool, ctx: Context)
    returns (r: Option<Outcome>, candidates: seq<Verified>, ghost chosen: seq<nat>)
    modifies ctx
    ensures r.None? <==> rule.Some? && !PolicyInspection.Admissible(rule.value, identities)
    ensures r.Some? ==>
      Justified(library.(policy := rule, principals := |identities|), directory,
                Asked(Targets(rule, identities), Unscoped(rule, identities), directory, requested), requested, local,
                    requested != [],
                r.value, candidates, chosen, ctx)
  {
    candidates, chosen := [], [];
    var inspector := new PolicyInspection.Inspector(identities);
    if rule.Some? {
      var ok := inspector.InspectPolicy(rule.value);
      if !ok { return None, [], []; }
      PolicyInspection.AdmissibleIsWellFormed(rule.value, identities);
    }
    var outcome;
    outcome, candidates, chosen :=
      CollectNamespaceEndorsements(library.(policy := rule, principals := |identities|), inspector.targetMSPs,
                                   inspector.unscoped, directory,
                                   requested, local, localMSP, clientTxID, signedProposal, ctx);
    r := Some(outcome);
  }

  /**
   * The signer is the local one, or some endpoint of its organization in the
   * directory answers with its authenticated execution.
   */
  ghost predicate Available(t: Trust, directory: Directory, pool: seq<Verified>, c: Verified) {
    (pool != [] && c.key == pool[0].key)
    || exists reply ::
         Came(directory, directory.available, c.mspID, reply) && Authenticate(t, reply, c.mspID, false).Some?
                       && Authenticate(t, reply, c.mspID, false).value.key == c.key
  }

  function MSPsOf(candidates: seq<Verified>): (r: seq<string>)
    ensures |r| == |candidates| && forall i :: 0 <= i < |r| ==> r[i] == candidates[i].mspID
  {
    seq(|candidates|, i requires 0 <= i < |candidates| => candidates[i].mspID)
  }

  lemma AvailableIsReachable(t: Trust, directory: Directory, asked: seq<string>, pool: seq<Verified>, c: Verified)
    requires Available(t, directory, pool, c) && (c.mspID in directory.available ==> c.mspID in asked)
    ensures Reachable(t, directory, asked, false, pool, c.key)
  {
    if pool == [] || c.key != pool[0].key {
      var reply :| Came(directory, directory.available, c.mspID, reply) && Authenticate(t, reply, c.mspID, false).Some?
                   && Authenticate(t, reply, c.mspID, false).value.key == c.key;
      assert Came(directory, asked, c.mspID, reply);
    }
  }

  /** A policy that accepts every list accepts the pool. */
  lemma AcceptsAnyPool(t: Trust, pool: seq<Verified>, others: seq<Verified>)
    requires t.policy.Some? && pool != [] && Accepts(t.policy.value, MatrixOf(t, others), [])
    ensures Satisfiable(t.policy.value, MatrixOf(t, pool), |pool|)
  {
    var m, n := MatrixOf(t, others), MatrixOf(t, pool);
    ConsumeByProfile(t.policy.value, m, [], n, []);
    AcceptsIsConsume(t.policy.value, m, []);
    EmptyAcceptsAll(t.policy.value, n, [0]);
    AcceptsIsConsume(t.policy.value, n, [0]);
    assert AcceptedSubmission(t.policy.value, n, |pool|, [0]);
  }

  /**
   * Main result about failure, over all organizations: when automatic collection
   * with the targets of an admitted policy is exhausted, no list of distinct
   * signers of any organizations in the directory would be accepted, although
   * only the target organizations were asked.
   */
  lemma {:induction false} ExhaustedForAllOrganizations(
      t: Trust, identities: seq<PolicyInspection.Principal>, directory: Directory, local: Execution,
          pool: seq<Verified>, chosen: seq<nat>, ctx: Context,
      others: seq<Verified>)
    requires t.policy.Some? && t.principals == |identities| && PolicyInspection.Admissible(t.policy.value, identities)
    requires Justified(t, directory,
                       Asked(Targets(t.policy, identities), Unscoped(t.policy, identities), directory, []), [], local,
                           false,
                       Exhausted, pool, chosen, ctx)
    requires DistinctKeys(others) && forall c | c in others :: Available(t, directory, pool, c)
    requires PolicyInspection.RespectsMSPs(identities, MatrixOf(t, others), MSPsOf(others))
    ensures !Satisfiable(t.policy.value, MatrixOf(t, others), |others|)
  {
    var asked := Asked(Targets(t.policy, identities), Unscoped(t.policy, identities), directory, []);
    if Satisfiable(t.policy.value, MatrixOf(t, others), |others|) {
      var order: seq<nat> :| AcceptedSubmission(t.policy.value, MatrixOf(t, others), |others|, order);
      var within: seq<nat> := order;
      if !Unscoped(t.policy, identities) {
        within := PolicyInspection.TargetsSuffice(t.policy.value, identities, MatrixOf(t, others), MSPsOf(others),
                                                  order);
      }
      if within == [] {
        AcceptsAnyPool(t, pool, others);
      } else {
        assert AcceptedSubmission(t.policy.value, MatrixOf(t, others), |others|, within);
        forall i | i in within ensures i < |others| && Reachable(t, directory, asked, false, pool, others[i].key) {
          assert others[i] in others;
          AvailableIsReachable(t, directory, asked, pool, others[i]);
        }
        AcceptedInPool(t, directory, asked, pool, others, within);
      }
    }
  }
}
