/**
 * Mirroring a committed definition to every organization, across failing and
 * retried passes that share one progress value
 * (compatibility_service/pkg/lifecycle/rpc.go:432-492).
 */
module LifecyclePropagation {
  import opened Common

  /** What one pass meets outside this process. */
  datatype Pass = Pass(
    applied: bool,                    // the local mirror was verified against the ledger and updated
    peers: Option<seq<string>>,       // organizations of the resolved peers; None when resolution fails
    signed: bool,                     // the internal request could be signed
    reachable: set<string>)           // organizations whose update succeeds in this pass

  datatype Contact = Contact(mspID: string, ok: bool)

  /** The progress kept between passes. */
  datatype Remaining = Remaining(resolved: bool, organizations: seq<string>)

  function Distinct(peers: seq<string>, seen: set<string>): seq<string> {
    if peers == [] then []
    else if peers[0] in seen then Distinct(peers[1..], seen)
    else [peers[0]] + Distinct(peers[1..], seen + {peers[0]})
  }

  datatype Updated = Updated(organizations: seq<string>, contacts: seq<Contact>, ok: bool)

  /** Update the organizations in order until one is missing or fails. */
  function UpdateAll(organizations: seq<string>, peers: seq<string>, reachable: set<string>): Updated {
    if organizations == [] then Updated([], [], true)
    else if organizations[0] !in peers then Updated(organizations, [], false)
    else if organizations[0] !in reachable then Updated(organizations, [Contact(organizations[0], false)], false)
    else
      var rest := UpdateAll(organizations[1..], peers, reachable);
      Updated(rest.organizations, [Contact(organizations[0], true)] + rest.contacts, rest.ok)
  }

  /** This organization has a resolved peer, and its update succeeds. */
  predicate Updates(pass: Pass, mspID: string) {
    pass.peers.Some? && mspID in pass.peers.value && mspID in pass.reachable
  }

  /**
   * A pass over these organizations: the first k of them are updated, in order;
   * the next one, if there is one, cannot be, and is contacted only if it has a
   * peer; it and those behind it remain. The pass is a success when none does.
   */
  ghost predicate StopsAt(organizations: seq<string>, pass: Pass, k: nat, r: Reconciled) {
    && k <= |organizations| && (forall i :: 0 <= i < k ==> Updates(pass, organizations[i]))
    && (k < |organizations| ==> !Updates(pass, organizations[k]))
    && r.progress == Remaining(true, organizations[k..]) && (r.ok <==> k == |organizations|)
    && (forall i :: 0 <= i < k ==> i < |r.contacts| && r.contacts[i] == Contact(organizations[i], true))
    && (if k < |organizations| && pass.peers.Some? && organizations[k] in pass.peers.value then
          |r.contacts| == k + 1 && r.contacts[k] == Contact(organizations[k], false)
        else |r.contacts| == k)
  }

  lemma {:induction false} UpdateAllStops(organizations: seq<string>, pass: Pass) returns (k: nat)
    requires pass.peers.Some?
    ensures var u := UpdateAll(organizations, pass.peers.value, pass.reachable);
      StopsAt(organizations, pass, k, Reconciled(Remaining(true, u.organizations), u.contacts, u.ok))
  {
    k := 0;
    if organizations != [] && Updates(pass, organizations[0]) {
      var v := UpdateAll(organizations[1..], pass.peers.value, pass.reachable);
      k := UpdateAllStops(organizations[1..], pass);
      OneMoreStop(organizations, pass, k, Reconciled(Remaining(true, v.organizations), v.contacts, v.ok));
      k := k + 1;
    }
  }

  lemma OneMoreStop(organizations: seq<string>, pass: Pass, k: nat, r: Reconciled)
    requires organizations != [] && Updates(pass, organizations[0]) && StopsAt(organizations[1..], pass, k, r)
    ensures StopsAt(organizations, pass, k + 1, r.(contacts := [Contact(organizations[0], true)] + r.contacts))
  {
    var rest := organizations[1..];
    assert organizations == [organizations[0]] + rest;
    assert organizations[k + 1..] == rest[k..];
  }

  /**
   * What one pass does. Nothing without the local mirror; nothing but success when
   * all organizations are finished; otherwise the peers are resolved, the first
   * resolution fixes the organizations, in order of first mention, and they are
   * updated if the request can be signed. In particular a pass with every
   * organization resolved and reachable is a success.
   */
  ghost predicate Reconciles(before: Remaining, pass: Pass, r: Reconciled) {
    if !pass.applied || (pass.peers.None? && !(before.resolved && before.organizations == [])) then
      r == Reconciled(before, [], false)
    else if before.resolved && before.organizations == [] then r == Reconciled(before, [], true)
    else
      exists organizations :: Resolved(before, pass.peers.value, organizations)
        && if organizations == [] || pass.signed then exists k :: StopsAt(organizations, pass, k, r)
           else r == Reconciled(Remaining(true, organizations), [], false)
  }

  /** The organizations left to update, once the peers are resolved. */
  ghost predicate Resolved(before: Remaining, peers: seq<string>, organizations: seq<string>) {
    if before.resolved then organizations == before.organizations
    else before.organizations <= organizations && Mentions(peers, organizations[|before.organizations|..])
  }

  /** The organizations in order of their first mention, each once. */
  ghost predicate Mentions(peers: seq<string>, organizations: seq<string>) {
    exists at: seq<nat> ::
      && |at| == |organizations| && (forall i, j :: 0 <= i < j < |at| ==> at[i] < at[j])
      && (forall i :: 0 <= i < |at| ==> FirstMention(peers, at[i], organizations[i]))
      && (forall m | m in peers :: m in organizations)
  }

  ghost predicate FirstMention(peers: seq<string>, i: nat, mspID: string) {
    i < |peers| && peers[i] == mspID && forall k :: 0 <= k < i ==> peers[k] != mspID
  }

  datatype Reconciled = Reconciled(progress: Remaining, contacts: seq<Contact>, ok: bool)

  function Reconcile(before: Remaining, pass: Pass): Reconciled {
    if !pass.applied then Reconciled(before, [], false)
    else if before.resolved && before.organizations == [] then Reconciled(before, [], true)
    else
      match pass.peers
      case None => Reconciled(before, [], false)
      case Some(peers) =>
        var organizations := if before.resolved then before.organizations
          else before.organizations + Distinct(peers, {});
        if organizations == [] then Reconciled(Remaining(true, []), [], true)
        else if !pass.signed then Reconciled(Remaining(true, organizations), [], false)
        else
          var u := UpdateAll(organizations, peers, pass.reachable);
          Reconciled(Remaining(true, u.organizations), u.contacts, u.ok)
  }

  /** DefinitionPropagation. */
  class Progress {
    var resolved: bool
    var organizations: seq<string>

    constructor ()
      ensures State() == Remaining(false, [])
    {
      resolved, organizations := false, [];
    }

    function State(): Remaining
      reads this
    {
      Remaining(resolved, organizations)
    }

    method ReconcileDefinition(pass: Pass) returns (contacts: seq<Contact>, ok: bool)
      modifies this
      ensures Reconciled(State(), contacts, ok) == Reconcile(old(State()), pass)
      ensures Reconciles(old(State()), pass, Reconciled(State(), contacts, ok))
    {
      PassReconciles(State(), pass);
      contacts := [];
      if !pass.applied { return contacts, false; }
      if resolved && |organizations| == 0 { return contacts, true; }
      if pass.peers.None? { return contacts, false; }
      var peers := pass.peers.value;
      var byMSP := CollectPeers(peers);
      resolved := true;
      if |organizations| == 0 { return contacts, true; }
      if !pass.signed { return contacts, false; }
      contacts, ok := UpdateOrganizations(peers, byMSP, pass.reachable);
    }

    /** The peers by organization; the first pass that gets this far also fixes the list of organizations. */
    method CollectPeers(peers: seq<string>) returns (byMSP: set<string>)
      modifies this`organizations
      ensures forall m :: m in byMSP <==> m in peers
      ensures organizations == if resolved then old(organizations) else old(organizations) + Distinct(peers, {})
    {
      byMSP := {};
      ghost var before := organizations;
      for i := 0 to |peers|
        invariant resolved ==> organizations == before
        invariant !resolved ==> organizations + Distinct(peers[i..], byMSP) == before + Distinct(peers, {})
        invariant forall m :: m in byMSP <==> m in peers[..i]
      {
        assert peers[i..][1..] == peers[i + 1..];
        ghost var rest := Distinct(peers[i + 1..], byMSP + {peers[i]});
        assert organizations + ([peers[i]] + rest) == organizations + [peers[i]] + rest;
        assert peers[i] in byMSP ==> byMSP + {peers[i]} == byMSP;
        if peers[i] !in byMSP && !resolved {
          organizations := organizations + [peers[i]];
        }
        byMSP := byMSP + {peers[i]};
        assert peers[..i + 1] == peers[..i] + [peers[i]];
      }
      assert peers[..|peers|] == peers && peers[|peers|..] == [] && organizations + [] == organizations;
    }

    /** The remote updates, one organization after the other; a failure keeps the rest for a later pass. */
    method UpdateOrganizations(peers: seq<string>, byMSP: set<string>, reachable: set<string>)
      returns (contacts: seq<Contact>, ok: bool)
      requires forall m :: m in byMSP <==> m in peers
      modifies this`organizations
      ensures Updated(organizations, contacts, ok) == UpdateAll(old(organizations), peers, reachable)
    {
      contacts := [];
      ghost var all := UpdateAll(organizations, peers, reachable);
      while |organizations| > 0
        invariant var rest := UpdateAll(organizations, peers, reachable);
          all == Updated(rest.organizations, contacts + rest.contacts, rest.ok)
        decreases |organizations|
      {
        var mspID := organizations[0];
        if mspID !in byMSP {
          assert contacts + [] == contacts;
          return contacts, false;
        }
        ghost var rest := UpdateAll(organizations[1..], peers, reachable);
        assert contacts + ([Contact(mspID, true)] + rest.contacts) == contacts + [Contact(mspID, true)] + rest.contacts;
        contacts := contacts + [Contact(mspID, mspID in reachable)];
        if mspID !in reachable { return contacts, false; }
        organizations := organizations[1..];
      }
      return contacts, true;
    }
  }

  // ------------------------------------------------------------------------
  // Any number of passes over one progress value
  // ------------------------------------------------------------------------

  function After(start: Remaining, passes: seq<Pass>): Remaining
    decreases |passes|
  {
    if passes == [] then start
    else Reconcile(After(start, passes[..|passes| - 1]), passes[|passes| - 1]).progress
  }

  function Contacts(start: Remaining, passes: seq<Pass>): seq<Contact>
    decreases |passes|
  {
    if passes == [] then []
    else
      var n := |passes| - 1;
      Contacts(start, passes[..n]) + Reconcile(After(start, passes[..n]), passes[n]).contacts
  }

  function Successes(contacts: seq<Contact>): seq<string> {
    if contacts == [] then []
    else (if contacts[0].ok then [contacts[0].mspID] else []) + Successes(contacts[1..])
  }

  /** The organizations of the first successful resolution, each once. */
  function FirstResolved(passes: seq<Pass>): seq<string> {
    if passes == [] then []
    else if passes[0].applied && passes[0].peers.Some? then Distinct(passes[0].peers.value, {})
    else FirstResolved(passes[1..])
  }

  predicate Resolves(passes: seq<Pass>) {
    passes != [] && ((passes[0].applied && passes[0].peers.Some?) || Resolves(passes[1..]))
  }

  lemma {:induction false} SuccessesConcat(a: seq<Contact>, b: seq<Contact>)
    ensures Successes(a + b) == Successes(a) + Successes(b)
  {
    if a == [] {
      assert a + b == b;
    } else {
      assert (a + b)[0] == a[0] && (a + b)[1..] == a[1..] + b;
      SuccessesConcat(a[1..], b);
      var first := if a[0].ok then [a[0].mspID] else [];
      assert first + (Successes(a[1..]) + Successes(b)) == (first + Successes(a[1..])) + Successes(b);
    }
  }

  lemma {:induction false} DistinctIsDistinct(peers: seq<string>, seen: set<string>)
    ensures NoDup(Distinct(peers, seen))
    ensures forall m :: m in Distinct(peers, seen) <==> m in peers && m !in seen
  {
    if peers != [] {
      DistinctIsDistinct(peers[1..], seen);
      DistinctIsDistinct(peers[1..], seen + {peers[0]});
      assert peers == [peers[0]] + peers[1..];
    }
  }

  /** The resolved organizations are those mentioned, in order of first mention. */
  lemma {:induction false} DistinctMentions(peers: seq<string>)
    ensures Mentions(peers, Distinct(peers, {}))
  {
    var at := DistinctAt(peers, peers, 0, {});
    DistinctIsDistinct(peers, {});
    assert peers[0..] == peers;
  }

  lemma {:induction false} DistinctAt(all: seq<string>, peers: seq<string>, from: nat, seen: set<string>)
    returns (at: seq<nat>)
    requires from <= |all| && peers == all[from..] && forall m :: m in seen <==> m in all[..from]
    ensures var d := Distinct(peers, seen);
      && |at| == |d| && (forall i, j :: 0 <= i < j < |at| ==> at[i] < at[j])
      && (forall i :: 0 <= i < |at| ==> from <= at[i] && FirstMention(all, at[i], d[i]))
    decreases |peers|
  {
    at := [];
    if peers != [] {
      assert all[from] == peers[0] && all[..from + 1] == all[..from] + [peers[0]];
      if peers[0] in seen {
        at := DistinctAt(all, peers[1..], from + 1, seen);
      } else {
        var rest := DistinctAt(all, peers[1..], from + 1, seen + {peers[0]});
        at := [from] + rest;
        assert FirstMention(all, from, peers[0]) by {
          assert forall k :: 0 <= k < from ==> all[k] in all[..from];
        }
      }
    }
  }

  lemma PassReconciles(before: Remaining, pass: Pass)
    ensures Reconciles(before, pass, Reconcile(before, pass))
  {
    if pass.applied && pass.peers.Some? && !(before.resolved && before.organizations == []) {
      var organizations := ResolvedAt(before, pass.peers.value);
      var k := UpdateAllStops(organizations, pass);
      if organizations == [] {
        assert StopsAt(organizations, pass, 0, Reconciled(Remaining(true, []), [], true));
      }
    }
  }

  lemma ResolvedAt(before: Remaining, peers: seq<string>) returns (organizations: seq<string>)
    ensures organizations == if before.resolved then before.organizations
      else before.organizations + Distinct(peers, {})
    ensures Resolved(before, peers, organizations)
  {
    organizations := if before.resolved then before.organizations else before.organizations + Distinct(peers, {});
    DistinctMentions(peers);
    assert before.resolved || organizations[|before.organizations|..] == Distinct(peers, {});
  }

  /** One pass moves a prefix of the remaining organizations to the successes, and contacts only remaining ones. */
  lemma {:induction false} UpdateAllSplits(organizations: seq<string>, peers: seq<string>, reachable: set<string>)
    ensures var u := UpdateAll(organizations, peers, reachable);
            && organizations == Successes(u.contacts) + u.organizations
            && (u.ok <==> u.organizations == [])
            && forall c | c in u.contacts :: c.mspID in organizations
  {
    if organizations == [] {
    } else if organizations[0] !in peers {
    } else if organizations[0] !in reachable {
      assert [Contact(organizations[0], false)][1..] == [];
    } else {
      UpdateAllSplits(organizations[1..], peers, reachable);
      var u, rest := UpdateAll(organizations, peers, reachable), UpdateAll(organizations[1..], peers, reachable);
      assert u.contacts[0] == Contact(organizations[0], true) && u.contacts[1..] == rest.contacts;
      assert organizations == [organizations[0]] + organizations[1..];
      assert [organizations[0]] + (Successes(rest.contacts) + rest.organizations)
          == ([organizations[0]] + Successes(rest.contacts)) + rest.organizations;
      forall c | c in u.contacts ensures c.mspID in organizations {
        assert c == u.contacts[0] || c in rest.contacts;
      }
    }
  }

  /** Successes so far, then what remains, are the resolved organizations in order. */
  ghost predicate Accounted(done: seq<string>, progress: Remaining, resolved: bool, first: seq<string>) {
    && first == done + progress.organizations
    && progress.resolved == resolved
    && (!resolved ==> first == [])
  }

  lemma Recount(done: seq<string>, before: Remaining, resolved: bool, first: seq<string>,
                updated: seq<string>, after: Remaining, resolves: bool, now: seq<string>)
    requires Accounted(done, before, resolved, first)
    requires after.resolved == (before.resolved || resolves) && (!after.resolved ==> after.organizations == [])
    requires updated + after.organizations == if before.resolved then before.organizations else if resolves then now
      else []
    ensures Accounted(done + updated, after, resolved || resolves, if resolved then first else if resolves then now
                      else [])
  {
    if resolved {
      assert done + (updated + after.organizations) == done + updated + after.organizations;
    } else {
      assert |done| == 0 && done + updated == updated;
    }
  }

  lemma AccountedStep(done: seq<string>, before: Remaining, resolved: bool, first: seq<string>, pass: Pass)
    requires Accounted(done, before, resolved, first)
    ensures var r := Reconcile(before, pass);
            Accounted(done + Successes(r.contacts), r.progress,
                      resolved || (pass.applied && pass.peers.Some?),
                      if resolved then first
                        else if pass.applied && pass.peers.Some? then Distinct(pass.peers.value, {}) else [])
  {
    assert !resolved ==> |before.organizations| == 0;
    OnePass(before, pass);
    var r := Reconcile(before, pass);
    Recount(done, before, resolved, first, Successes(r.contacts), r.progress, pass.applied && pass.peers.Some?,
            if pass.peers.Some? then Distinct(pass.peers.value, {}) else []);
  }

  /**
   * Over any sequence of passes: the successful updates so far, followed by what
   * remains, are exactly the organizations of the first successful resolution,
   * in order and each once.
   */
  lemma {:induction false} EachOrganizationOnce(passes: seq<Pass>)
    ensures NoDup(FirstResolved(passes))
    ensures Accounted(Successes(Contacts(Remaining(false, []), passes)), After(Remaining(false, []), passes),
                      Resolves(passes), FirstResolved(passes))
    decreases |passes|
  {
    if passes != [] {
      var start, n := Remaining(false, []), |passes| - 1;
      var before := After(start, passes[..n]);
      EachOrganizationOnce(passes[..n]);
      AccountedStep(Successes(Contacts(start, passes[..n])), before, Resolves(passes[..n]), FirstResolved(passes[..n]),
                    passes[n]);
      SuccessesConcat(Contacts(start, passes[..n]), Reconcile(before, passes[n]).contacts);
      ResolvedSoFar(passes);
      if passes[n].peers.Some? { DistinctIsDistinct(passes[n].peers.value, {}); }
    }
  }

  /** Finished organizations are never contacted again. */
  lemma {:induction false} NeverContactedAgain(passes: seq<Pass>, pass: Pass)
    requires After(Remaining(false, []), passes).resolved
    ensures var before := After(Remaining(false, []), passes);
            forall c | c in Reconcile(before, pass).contacts ::
              c.mspID in before.organizations && c.mspID !in Successes(Contacts(Remaining(false, []), passes))
  {
    EachOrganizationOnce(passes);
    OnePass(After(Remaining(false, []), passes), pass);
    DisjointParts(Successes(Contacts(Remaining(false, []), passes)), After(Remaining(false, []), passes).organizations);
  }

  lemma DisjointParts(done: seq<string>, left: seq<string>)
    requires NoDup(done + left)
    ensures forall m | m in left :: m !in done
  {
    var all := done + left;
    forall i, j | 0 <= i < |done| && 0 <= j < |left| ensures done[i] != left[j] {
      assert all[i] != all[|done| + j];
    }
  }

  /** A pass that reports success has left every organization updated, exactly once. */
  lemma {:induction false} SuccessMeansAllUpdated(passes: seq<Pass>, pass: Pass)
    requires Reconcile(After(Remaining(false, []), passes), pass).ok
    ensures Successes(Contacts(Remaining(false, []), passes + [pass])) == FirstResolved(passes + [pass])
  {
    var all := passes + [pass];
    assert all[..|all| - 1] == passes;
    EachOrganizationOnce(passes);
    EachOrganizationOnce(all);
    OnePass(After(Remaining(false, []), passes), pass);
    var done := Successes(Contacts(Remaining(false, []), all));
    assert done + [] == done;
  }

  lemma {:induction false} ResolvedSoFar(passes: seq<Pass>)
    requires passes != []
    ensures var n := |passes| - 1;
            && (Resolves(passes) <==> Resolves(passes[..n]) || (passes[n].applied && passes[n].peers.Some?))
            && FirstResolved(passes) ==
               if Resolves(passes[..n]) then FirstResolved(passes[..n])
               else if passes[n].applied && passes[n].peers.Some? then Distinct(passes[n].peers.value, {}) else []
    decreases |passes|
  {
    var n := |passes| - 1;
    if n == 0 {
      assert passes[1..] == [];
    } else {
      ResolvedSoFar(passes[1..]);
      assert passes[1..][..n - 1] == passes[..n][1..];
    }
  }

  /** One pass: what it succeeds with, then what it leaves, is what it started from. */
  lemma OnePass(before: Remaining, pass: Pass)
    requires !before.resolved ==> before.organizations == []
    ensures var r := Reconcile(before, pass);
            && (r.progress.resolved <==> before.resolved || (pass.applied && pass.peers.Some?))
            && (!r.progress.resolved ==> r.progress.organizations == [])
            && Successes(r.contacts) + r.progress.organizations ==
               (if before.resolved then before.organizations
                else if pass.applied && pass.peers.Some? then Distinct(pass.peers.value, {}) else [])
            && (before.resolved ==> forall c | c in r.contacts :: c.mspID in before.organizations)
            && (r.ok ==> r.progress.organizations == [] && r.progress.resolved)
            && NoDup(if pass.peers.Some? then Distinct(pass.peers.value, {}) else [])
  {
    if pass.peers.Some? {
      var distinct := Distinct(pass.peers.value, {});
      DistinctIsDistinct(pass.peers.value, {});
      UpdateAllSplits(before.organizations, pass.peers.value, pass.reachable);
      UpdateAllSplits(distinct, pass.peers.value, pass.reachable);
      EmptyPrefix(distinct);
    }
    EmptyPrefix(before.organizations);
  }

  lemma EmptyPrefix<T>(s: seq<T>)
    ensures [] + s == s
  {
  }
}
