/**
 * The fallback search over all orders of distinct matching signers, with one
 * representative tried per match profile at each depth
 * (compatibility_service/pkg/orchestrator/endorsement_policy.go:335-384).
 */
module OrderSearching {
  import opened Common
  import opened SignaturePolicy

  /** The profile string of a candidate; empty when it satisfies no principal. */
  function Profile(m: Matrix, i: int): (bits: seq<bool>)
    ensures bits != [] <==> MatchesSome(m, i)
  {
    if MatchesSome(m, i) then seq(|m|, q => Satisfies(m, q, i)) else []
  }

  lemma ProfileDecides(m: Matrix, i: int, j: int)
    requires Profile(m, i) == Profile(m, j) != []
    ensures SameProfile(m, i, m, j)
  {
    forall q ensures Satisfies(m, q, i) == Satisfies(m, q, j) {
      if 0 <= q < |m| {
        assert Profile(m, i)[q] == Satisfies(m, q, i) && Profile(m, j)[q] == Satisfies(m, q, j);
      }
    }
  }

  /** ext continues order to a nonempty submission, adding matching signers only. */
  ghost predicate Extends(m: Matrix, count: nat, order: seq<nat>, ext: seq<nat>) {
    order + ext != [] && Submission(count, order + ext) && forall i | i in ext :: MatchesSome(m, i)
  }

  lemma SubmissionFits(count: nat, order: seq<nat>)
    requires Submission(count, order)
    ensures |order| <= count
    decreases count
  {
    if order == [] {
    } else if count - 1 in order {
      var k :| 0 <= k < |order| && order[k] == count - 1;
      var rest := order[..k] + order[k + 1..];
      forall i, j | 0 <= i < j < |rest| ensures rest[i] != rest[j] {
        assert order[if i < k then i else i + 1] != order[if j < k then j else j + 1];
      }
      forall x | x in rest ensures x < count - 1 {
        var j :| 0 <= j < |rest| && rest[j] == x;
        var at := if j < k then j else j + 1;
        assert order[at] in order && order[at] != order[k];
      }
      SubmissionFits(count - 1, rest);
    } else {
      assert count > 0 by { assert order[0] in order; }
      SubmissionFits(count - 1, order);
    }
  }

  function Transpose(order: seq<nat>, a: nat, b: nat): seq<nat> {
    seq(|order|, k requires 0 <= k < |order| => if order[k] == a then b else if order[k] == b then a else order[k])
  }

  /** A continuation may as well start with any unused signer of the same profile. */
  lemma StartWithRepresentative(p: Policy, m: Matrix, count: nat, order: seq<nat>, ext: seq<nat>, r: nat)
    returns (other: seq<nat>)
    requires Extends(m, count, order, ext) && ext != []
    requires r < count && r !in order && Profile(m, r) == Profile(m, ext[0])
    ensures other != [] && other[0] == r && Extends(m, count, order + [r], other[1..])
    ensures Accepts(p, m, order + ext) == Accepts(p, m, order + [r] + other[1..])
  {
    var e := ext[0];
    other := Transpose(ext, e, r);
    var old', new' := order + ext, order + [r] + other[1..];
    assert e in ext && MatchesSome(m, e);
    ProfileDecides(m, r, e);
    assert order + other == new';
    forall k | 0 <= k < |old'| ensures SameProfile(m, old'[k], m, new'[k]) {
      assert k >= |order| ==> old'[k] == ext[k - |order|] && new'[k] == other[k - |order|];
    }
    forall i, j | 0 <= i < j < |new'| ensures new'[i] != new'[j] {
      assert old'[i] != old'[j];
      assert |order| <= j ==> e !in order by {
        forall k | 0 <= k < |order| ensures order[k] != e { assert old'[k] != old'[|order|]; }
      }
    }
    forall x | x in new' ensures x < count && (x in other ==> MatchesSome(m, x)) {
      if x in other {
        var k :| 0 <= k < |other| && other[k] == x;
        assert ext[k] in ext && ext[k] in old';
        assert e in old';
      } else {
        assert x in old';
      }
    }
    assert forall x | x in other[1..] :: x in other;
    AcceptsIsConsume(p, m, old');
    AcceptsIsConsume(p, m, new');
    ConsumeByProfile(p, m, old', m, new');
  }

  /** No continuation of the branch is accepted. */
  ghost predicate DeadEnd(p: Policy, m: Matrix, count: nat, order: seq<nat>) {
    forall ext | Extends(m, count, order, ext) :: !Accepts(p, m, order + ext)
  }

  /** No continuation of the branch whose first signer has a profile in `seen` is accepted. */
  ghost predicate Exhausted(p: Policy, m: Matrix, count: nat, order: seq<nat>, seen: set<seq<bool>>) {
    forall ext | Extends(m, count, order, ext) && ext != [] && Profile(m, ext[0]) in seen :: !Accepts(p, m, order + ext)
  }

  lemma RepresentativeExhausts(p: Policy, m: Matrix, count: nat, order: seq<nat>, seen: set<seq<bool>>, r: nat)
    requires Exhausted(p, m, count, order, seen) && r < count && r !in order
    requires DeadEnd(p, m, count, order + [r])
    ensures Exhausted(p, m, count, order, seen + {Profile(m, r)})
  {
    forall ext | Extends(m, count, order, ext) && ext != [] && Profile(m, ext[0]) == Profile(m, r)
      ensures !Accepts(p, m, order + ext)
    {
      var other := StartWithRepresentative(p, m, count, order, ext, r);
    }
  }

  lemma AllProfilesExhausted(p: Policy, m: Matrix, count: nat, order: seq<nat>, seen: set<seq<bool>>)
    requires Exhausted(p, m, count, order, seen)
    requires forall i: nat | i < count && i !in order && MatchesSome(m, i) :: Profile(m, i) in seen
    requires order != [] ==> !Accepts(p, m, order)
    ensures DeadEnd(p, m, count, order)
  {
    forall ext | Extends(m, count, order, ext) ensures !Accepts(p, m, order + ext) {
      if ext == [] {
        assert order + ext == order;
      } else {
        var all := order + ext;
        assert all[|order|] == ext[0] && ext[0] in ext && ext[0] in all;
        forall k | 0 <= k < |order| ensures order[k] != ext[0] { assert all[k] != all[|order|]; }
      }
    }
  }

  /** The variables captured by the closure of searchSignatureOrders. */
  class OrderSearch {
    const root: Policy
    const matches: Matrix
    const count: nat
    const ctx: Context
    const profiles: seq<seq<bool>>
    const used: array<bool>
    var order: seq<nat>
    var selected: seq<nat>

    constructor (root: Policy, matches: Matrix, count: nat, profiles: seq<seq<bool>>, ctx: Context)
      requires |profiles| == count && forall i | 0 <= i < count :: profiles[i] == Profile(matches, i)
      ensures this.root == root && this.matches == matches && this.count == count && this.ctx == ctx
      ensures fresh(used) && Valid() && order == [] && selected == []
    {
      this.root, this.matches, this.count, this.profiles, this.ctx := root, matches, count, profiles, ctx;
      used := new bool[count](_ => false);
      order, selected := [], [];
    }

    ghost predicate Valid()
      reads this, used
    {
      && used.Length == count == |profiles|
      && (forall i | 0 <= i < count :: profiles[i] == Profile(matches, i))
      && Submission(count, order)
      && forall i | 0 <= i < count :: used[i] <==> i in order
    }

    method Search() returns (found: bool)
      requires Valid()
      modifies this, used, ctx
      ensures old(ctx.polls) <= ctx.polls
      ensures found ==> AcceptedSubmission(root, matches, count, selected)
      ensures !found ==> Valid() && order == old(order) && selected == old(selected)
      ensures !found && !ctx.Expired() ==> DeadEnd(root, matches, count, order)
      decreases count - |order|, 1
    {
      SubmissionFits(count, order);
      var canceled := ctx.Err();
      if canceled { return false; }
      if order != [] && Accepts(root, matches, order) {
        selected := order;
        return true;
      }
      var seenProfiles: set<seq<bool>> := {};
      var i := 0;
      while i < |profiles|
        invariant 0 <= i <= count
        invariant old(ctx.polls) <= ctx.polls
        invariant Valid() && order == old(order) && selected == old(selected)
        invariant forall j | 0 <= j < i && j !in order && profiles[j] != [] :: profiles[j] in seenProfiles
        invariant !ctx.Expired() ==> Exhausted(root, matches, count, order, seenProfiles)
      {
        if !used[i] && profiles[i] != [] && profiles[i] !in seenProfiles {
          found := Branch(i);
          if found { return true; }
          if !ctx.Expired() {
            RepresentativeExhausts(root, matches, count, order, seenProfiles, i);
          }
          seenProfiles := seenProfiles + {profiles[i]};
        }
        i := i + 1;
      }
      if !ctx.Expired() {
        AllProfilesExhausted(root, matches, count, order, seenProfiles);
      }
      return false;
    }

    /** Try one representative, and undo it unless the search succeeded. */
    method Branch(i: nat) returns (found: bool)
      requires Valid() && i < count && !used[i]
      modifies this, used, ctx
      ensures old(ctx.polls) <= ctx.polls
      ensures found ==> AcceptedSubmission(root, matches, count, selected)
      ensures !found ==> Valid() && order == old(order) && selected == old(selected)
      ensures !found && !ctx.Expired() ==> DeadEnd(root, matches, count, order + [i])
      decreases count - |order|, 0
    {
      used[i] := true;
      order := order + [i];
      SubmissionFits(count, order);
      found := Search();
      if found { return; }
      order := order[..|order| - 1];
      used[i] := false;
    }
  }

  /** searchSignatureOrders: compute the profiles, then search from the empty order. */
  method SearchSignatureOrders(root: Policy, matches: Matrix, count: nat, ctx: Context)
    returns (selected: seq<nat>, canceled: bool)
    requires forall row | row in matches :: |row| == count
    modifies ctx
    ensures selected != [] ==> AcceptedSubmission(root, matches, count, selected)
    ensures canceled ==> ctx.Expired()
    ensures selected == [] && !canceled ==> DeadEnd(root, matches, count, [])
  {
    var profiles := Profiles(matches, count);
    var search := new OrderSearch(root, matches, count, profiles, ctx);
    var found := search.Search();
    selected := search.selected;
    canceled := ctx.Err();
  }

  /** One column of the match table: the bits per principal, none if nothing matches. */
  method ProfileOf(matches: Matrix, i: nat) returns (profile: seq<bool>)
    requires forall row | row in matches :: i < |row|
    ensures profile == Profile(matches, i)
  {
    var bits: seq<bool> := [];
    var matched := false;
    for principal := 0 to |matches|
      invariant |bits| == principal
      invariant forall q | 0 <= q < principal :: bits[q] == Satisfies(matches, q, i)
      invariant matched <==> exists q | 0 <= q < principal :: Satisfies(matches, q, i)
    {
      assert matches[principal] in matches;
      if matches[principal][i] {
        assert Satisfies(matches, principal, i);
        matched := true;
      }
      bits := bits + [matches[principal][i]];
    }
    assert matched ==> bits == Profile(matches, i);
    profile := if matched then bits else [];
  }

  method Profiles(matches: Matrix, count: nat) returns (profiles: seq<seq<bool>>)
    requires forall row | row in matches :: |row| == count
    ensures |profiles| == count && forall i | 0 <= i < count :: profiles[i] == Profile(matches, i)
  {
    profiles := [];
    for i := 0 to count
      invariant |profiles| == i && forall k | 0 <= k < i :: profiles[k] == Profile(matches, k)
    {
      ghost var before := profiles;
      var profile := ProfileOf(matches, i);
      profiles := profiles + [profile];
      forall k | 0 <= k <= i ensures profiles[k] == Profile(matches, k) {
        assert k < i ==> profiles[k] == before[k];
      }
    }
  }
}
