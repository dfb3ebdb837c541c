/**
 * selectEndorsements: an ordered list of distinct signers that the evaluator
 * accepts, found whenever one exists
 * (compatibility_service/pkg/orchestrator/endorsement_policy.go:236-333).
 */
module EndorsementSelection {
  import opened Common
  import opened SignaturePolicy
  import opened WitnessSearching
  import opened OrderSearching

  /** Some nonempty list of distinct candidates would be accepted. */
  ghost predicate Satisfiable(p: Policy, m: Matrix, count: nat) {
    exists order :: AcceptedSubmission(p, m, count, order)
  }

  /** The early exit is safe: an accepted submission implies that the witness search reaches its callback. */
  lemma {:induction false} SatisfiableHasWitness(p: Policy, m: Matrix, count: nat)
    requires WellFormed(p, |m|) && Satisfiable(p, m, count)
    ensures Witnesses(p, m, count, []) != []
  {
    var order :| AcceptedSubmission(p, m, count, order);
    AcceptsIsConsume(p, m, order);
    var o := GreedyHasWitness(p, m, count, order, []);
  }

  lemma {:induction false} UnconditionalAcceptsFirst(p: Policy, m: Matrix, finals: seq<seq<nat>>)
    requires Consume(p, m, []).Some? && finals != []
    ensures FirstAccepted(p, m, finals).Some?
  {
    EmptyAcceptsAll(p, m, Submitted(finals[0]));
    AcceptsIsConsume(p, m, Submitted(finals[0]));
  }

  /**
   * When the witness search and the pruned search over orders both fail, no
   * submission is accepted: dropping signers that match nothing and trying one
   * representative per profile loses nothing.
   */
  lemma {:induction false} BothSearchesFail(p: Policy, m: Matrix, count: nat)
    requires WellFormed(p, |m|) && forall row | row in m :: |row| == count
    requires FirstAccepted(p, m, Witnesses(p, m, count, [])).None?
    requires Witnesses(p, m, count, []) != [] ==> DeadEnd(p, m, count, [])
    ensures !Satisfiable(p, m, count)
  {
    if Satisfiable(p, m, count) {
      SatisfiableHasWitness(p, m, count);
      var order :| AcceptedSubmission(p, m, count, order);
      var useful := set i | 0 <= i < count && MatchesSome(m, i);
      assert Covers(p, m, useful) by { UsefulCovers(p, m, count, useful); }
      KeptIsAccepted(p, m, count, useful, order);
      if Kept(useful, order) == [] {
        UnconditionalAcceptsFirst(p, m, Witnesses(p, m, count, []));
      } else {
        assert [] + Kept(useful, order) == Kept(useful, order);
        assert Extends(m, count, [], Kept(useful, order));
      }
    }
  }

  lemma {:induction false} UsefulCovers(p: Policy, m: Matrix, count: nat, useful: set<nat>)
    requires forall row | row in m :: |row| == count
    requires WellFormed(p, |m|) && forall i: nat | i < count && MatchesSome(m, i) :: i in useful
    ensures Covers(p, m, useful)
    decreases p
  {
    match p
    case SignedBy(q) =>
      forall i: nat | Satisfies(m, q, i) ensures i in useful {
        assert m[q] in m && MatchesSome(m, i);
      }
    case NOutOf(n, rules) =>
      forall r | r in rules ensures Covers(r, m, useful) { UsefulCovers(r, m, count, useful); }
  }

  /**
   * `root` is None for a policy that is not an MSP policy. `matches` holds, for
   * every principal of the policy, which of the candidates satisfy it.
   */
  method SelectEndorsements(root: Option<Policy>, matches: Matrix, count: nat, ctx: Context)
    returns (selected: seq<nat>, canceled: bool)
    requires root.Some? ==> WellFormed(root.value, |matches|)
    requires forall row | row in matches :: |row| == count
    modifies ctx
    ensures selected != [] && root.Some? ==> AcceptedSubmission(root.value, matches, count, selected)
    ensures !canceled && root.Some? ==> (selected != [] <==> Satisfiable(root.value, matches, count))
    ensures !canceled && root.None? ==> selected == if count == 0 then [] else [0]
    ensures canceled ==> ctx.Expired()
  {
    canceled := ctx.Err();
    if canceled { return [], true; }
    if count == 0 {
      if root.Some? {
        forall order | Submission(count, order) ensures order == [] { SubmissionFits(count, order); }
      }
      return [], false;
    }
    if root.None? { return [0], false; }
    var policy := root.value;
    var all := AllCandidates(count);
    if count == 1 && Accepts(policy, matches, all) {
      assert AcceptedSubmission(policy, matches, count, all);
      return all, false;
    }
    var found, hasWitness;
    found, selected, hasWitness := FirstAcceptedWitness(policy, matches, count, ctx);
    if |selected| == 0 {
      var expired := ctx.Err();
      if !expired && Accepts(policy, matches, all) {
        assert AcceptedSubmission(policy, matches, count, all);
        return all, false;
      }
    }
    var done := |selected| != 0;
    if !done { done := ctx.Err(); }
    if done || !hasWitness {
      canceled := ctx.Err();
      if !canceled {
        if found {
          assert AcceptedSubmission(policy, matches, count, selected);
        } else {
          BothSearchesFail(policy, matches, count);
        }
      }
      return;
    }
    selected, canceled := SearchSignatureOrders(policy, matches, count, ctx);
    if !canceled {
      if selected == [] {
        BothSearchesFail(policy, matches, count);
      }
    }
  }

  /** The witness search from the start, and what it says unless canceled. */
  method FirstAcceptedWitness(policy: Policy, matches: Matrix, count: nat, ctx: Context)
    returns (found: bool, selected: seq<nat>, hasWitness: bool)
    requires WellFormed(policy, |matches|) && count > 0 && forall row | row in matches :: |row| == count
    modifies ctx
    ensures old(ctx.polls) <= ctx.polls
    ensures if found then AcceptedSubmission(policy, matches, count, selected) else selected == []
    ensures var witnesses := Witnesses(policy, matches, count, []);
      !ctx.Expired() ==>
        && found == FirstAccepted(policy, matches, witnesses).Some?
        && (!found ==> hasWitness == (witnesses != []))
  {
    var run := new WitnessSearch(policy, matches, count, ctx);
    found := run.Search(policy, [], Report);
    selected, hasWitness := run.selected, run.hasWitness;
    RanIs(policy, matches, count, Report, Witnesses(policy, matches, count, []), Progress([], false), run.State(),
          found);
  }

  method AllCandidates(count: nat) returns (all: seq<nat>)
    ensures |all| == count && forall i | 0 <= i < count :: all[i] == i
  {
    all := [];
    while |all| < count
      invariant |all| <= count && forall i | 0 <= i < |all| :: all[i] == i
    {
      all := all + [|all|];
    }
  }
}
