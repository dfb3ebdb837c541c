/**
 * N-out-of signature policies, the order-sensitive evaluator that validates a
 * submitted list of signers, and the list of witnesses a backtracking search
 * enumerates (compatibility_service/pkg/orchestrator/endorsement_policy.go).
 */
module SignaturePolicy {
  import opened Common

  datatype Policy =
    | SignedBy(principal: int)
    | NOutOf(n: int, rules: seq<Policy>)

  /** matches[q][i]: candidate i satisfies principal q. */
  type Matrix = seq<seq<bool>>

  predicate Satisfies(m: Matrix, q: int, i: int) {
    0 <= q < |m| && 0 <= i < |m[q]| && m[q][i]
  }

  /** What rule inspection admits: indices in range and thresholds between 0 and the child count. */
  predicate WellFormed(p: Policy, principals: nat)
    decreases p
  {
    match p
    case SignedBy(q) => 0 <= q < principals
    case NOutOf(n, rules) => 0 <= n <= |rules| && forall r | r in rules :: WellFormed(r, principals)
  }

  // ------------------------------------------------------------------------
  // The evaluator: left to right, a successful child keeps what it consumed
  // (also beyond the threshold), a failed child consumes nothing.
  // ------------------------------------------------------------------------

  /** A leaf takes the first unused matching signer in submission order. */
  function MarkFirst(q: int, m: Matrix, ids: seq<nat>, used: seq<bool>): (r: Option<seq<bool>>)
    requires |used| == |ids|
    ensures r.Some? ==> |r.value| == |ids|
  {
    if ids == [] then None
    else if !used[0] && Satisfies(m, q, ids[0]) then Some([true] + used[1..])
    else
      match MarkFirst(q, m, ids[1..], used[1..])
      case None => None
      case Some(rest) => Some([used[0]] + rest)
  }

  function Evaluate(p: Policy, m: Matrix, ids: seq<nat>, used: seq<bool>): (r: (bool, seq<bool>))
    requires |used| == |ids|
    ensures |r.1| == |ids|
    decreases p, 1
  {
    match p
    case SignedBy(q) =>
      (match MarkFirst(q, m, ids, used)
       case None => (false, used)
       case Some(marked) => (true, marked))
    case NOutOf(n, rules) =>
      var (verified, marked) := EvaluateChildren(rules, m, ids, used);
      (verified >= n, marked)
  }

  function EvaluateChildren(rules: seq<Policy>, m: Matrix, ids: seq<nat>, used: seq<bool>): (r: (nat, seq<bool>))
    requires |used| == |ids|
    ensures |r.1| == |ids|
    decreases rules, 0
  {
    if rules == [] then (0, used)
    else
      var (ok, marked) := Evaluate(rules[0], m, ids, used);
      var (verified, final) := EvaluateChildren(rules[1..], m, ids, if ok then marked else used);
      (if ok then verified + 1 else verified, final)
  }

  /** EvaluateIdentities on a submitted list. */
  predicate Accepts(p: Policy, m: Matrix, ids: seq<nat>) {
    Evaluate(p, m, ids, seq(|ids|, _ => false)).0
  }

  /** A submission the client could send: distinct known candidates. */
  ghost predicate Submission(count: nat, order: seq<nat>) {
    NoDup(order) && forall i | i in order :: i < count
  }

  ghost predicate AcceptedSubmission(p: Policy, m: Matrix, count: nat, order: seq<nat>) {
    order != [] && Submission(count, order) && Accepts(p, m, order)
  }

  // ------------------------------------------------------------------------
  // The same evaluation by deletion: what is left of the submitted list.
  // ------------------------------------------------------------------------

  function TakeFirst(q: int, m: Matrix, avail: seq<nat>): Option<seq<nat>> {
    if avail == [] then None
    else if Satisfies(m, q, avail[0]) then Some(avail[1..])
    else
      match TakeFirst(q, m, avail[1..])
      case None => None
      case Some(rest) => Some([avail[0]] + rest)
  }

  function Consume(p: Policy, m: Matrix, avail: seq<nat>): Option<seq<nat>>
    decreases p, 1
  {
    match p
    case SignedBy(q) => TakeFirst(q, m, avail)
    case NOutOf(n, rules) =>
      var (verified, rest) := ConsumeChildren(rules, m, avail);
      if verified >= n then Some(rest) else None
  }

  function ConsumeChildren(rules: seq<Policy>, m: Matrix, avail: seq<nat>): (nat, seq<nat>)
    decreases rules, 0
  {
    if rules == [] then (0, avail)
    else
      match Consume(rules[0], m, avail)
      case None => ConsumeChildren(rules[1..], m, avail)
      case Some(left) =>
        var (verified, rest) := ConsumeChildren(rules[1..], m, left);
        (verified + 1, rest)
  }

  function Free(ids: seq<nat>, used: seq<bool>): seq<nat>
    requires |used| == |ids|
  {
    if ids == [] then [] else (if used[0] then [] else [ids[0]]) + Free(ids[1..], used[1..])
  }

  lemma {:induction false} MarkFirstIsTakeFirst(q: int, m: Matrix, ids: seq<nat>, used: seq<bool>)
    requires |used| == |ids|
    ensures MarkFirst(q, m, ids, used).Some? == TakeFirst(q, m, Free(ids, used)).Some?
    ensures MarkFirst(q, m, ids, used).Some? ==>
              Free(ids, MarkFirst(q, m, ids, used).value) == TakeFirst(q, m, Free(ids, used)).value
  {
    if ids != [] {
      MarkFirstIsTakeFirst(q, m, ids[1..], used[1..]);
      var free := Free(ids[1..], used[1..]);
      assert [] + free == free && ([ids[0]] + free)[1..] == free;
      match MarkFirst(q, m, ids[1..], used[1..])
      case None =>
      case Some(rest) => assert ([used[0]] + rest)[1..] == rest && ([true] + used[1..])[1..] == used[1..];
    }
  }

  /** Evaluating with used-flags and evaluating by deletion are the same computation. */
  lemma {:induction false} EvaluateIsConsume(p: Policy, m: Matrix, ids: seq<nat>, used: seq<bool>)
    requires |used| == |ids|
    ensures Evaluate(p, m, ids, used).0 == Consume(p, m, Free(ids, used)).Some?
    ensures Evaluate(p, m, ids, used).0 ==>
              Free(ids, Evaluate(p, m, ids, used).1) == Consume(p, m, Free(ids, used)).value
    decreases p, 1
  {
    match p
    case SignedBy(q) => MarkFirstIsTakeFirst(q, m, ids, used);
    case NOutOf(n, rules) => EvaluateChildrenIsConsume(rules, m, ids, used);
  }

  lemma {:induction false} EvaluateChildrenIsConsume(rules: seq<Policy>, m: Matrix, ids: seq<nat>, used: seq<bool>)
    requires |used| == |ids|
    ensures EvaluateChildren(rules, m, ids, used).0 == ConsumeChildren(rules, m, Free(ids, used)).0
    ensures Free(ids, EvaluateChildren(rules, m, ids, used).1) == ConsumeChildren(rules, m, Free(ids, used)).1
    decreases rules, 0
  {
    if rules != [] {
      EvaluateIsConsume(rules[0], m, ids, used);
      var (ok, marked) := Evaluate(rules[0], m, ids, used);
      EvaluateChildrenIsConsume(rules[1..], m, ids, if ok then marked else used);
    }
  }

  lemma {:induction false} FreeOfUnused(ids: seq<nat>)
    ensures Free(ids, seq(|ids|, _ => false)) == ids
  {
    if ids != [] {
      assert seq(|ids|, _ => false)[1..] == seq(|ids[1..]|, _ => false);
      FreeOfUnused(ids[1..]);
    }
  }

  lemma {:induction false} AcceptsIsConsume(p: Policy, m: Matrix, ids: seq<nat>)
    ensures Accepts(p, m, ids) <==> Consume(p, m, ids).Some?
  {
    EvaluateIsConsume(p, m, ids, seq(|ids|, _ => false));
    FreeOfUnused(ids);
  }

  // ------------------------------------------------------------------------
  // Interchangeable signers, useless signers, unconditional policies
  // ------------------------------------------------------------------------

  /** Candidate i of one table and candidate j of another satisfy the same principals. */
  ghost predicate SameProfile(m: Matrix, i: int, n: Matrix, j: int) {
    forall q :: Satisfies(m, q, i) == Satisfies(n, q, j)
  }

  ghost predicate SameProfiles(m: Matrix, a: seq<nat>, n: Matrix, b: seq<nat>) {
    |a| == |b| && forall k | 0 <= k < |a| :: SameProfile(m, a[k], n, b[k])
  }

  lemma {:induction false} TakeFirstByProfile(q: int, m: Matrix, a: seq<nat>, n: Matrix, b: seq<nat>)
    requires SameProfiles(m, a, n, b)
    ensures TakeFirst(q, m, a).Some? == TakeFirst(q, n, b).Some?
    ensures TakeFirst(q, m, a).Some? ==> SameProfiles(m, TakeFirst(q, m, a).value, n, TakeFirst(q, n, b).value)
  {
    if a != [] {
      assert SameProfile(m, a[0], n, b[0]);
      TakeFirstByProfile(q, m, a[1..], n, b[1..]);
    }
  }

  /** The evaluator sees only which principals each submitted signer satisfies. */
  lemma {:induction false} ConsumeByProfile(p: Policy, m: Matrix, a: seq<nat>, n: Matrix, b: seq<nat>)
    requires SameProfiles(m, a, n, b)
    ensures Consume(p, m, a).Some? == Consume(p, n, b).Some?
    ensures Consume(p, m, a).Some? ==> SameProfiles(m, Consume(p, m, a).value, n, Consume(p, n, b).value)
    decreases p, 1
  {
    match p
    case SignedBy(q) => TakeFirstByProfile(q, m, a, n, b);
    case NOutOf(_, rules) => ConsumeChildrenByProfile(rules, m, a, n, b);
  }

  lemma {:induction false} ConsumeChildrenByProfile(rules: seq<Policy>, m: Matrix, a: seq<nat>, n: Matrix, b: seq<nat>)
    requires SameProfiles(m, a, n, b)
    ensures ConsumeChildren(rules, m, a).0 == ConsumeChildren(rules, n, b).0
    ensures SameProfiles(m, ConsumeChildren(rules, m, a).1, n, ConsumeChildren(rules, n, b).1)
    decreases rules, 0
  {
    if rules != [] {
      ConsumeByProfile(rules[0], m, a, n, b);
      match Consume(rules[0], m, a)
      case None => ConsumeChildrenByProfile(rules[1..], m, a, n, b);
      case Some(left) => ConsumeChildrenByProfile(rules[1..], m, left, n, Consume(rules[0], n, b).value);
    }
  }

  predicate MatchesSome(m: Matrix, i: int) {
    exists q | 0 <= q < |m| :: Satisfies(m, q, i)
  }

  function Kept(keep: set<nat>, order: seq<nat>): (r: seq<nat>)
    ensures forall i :: i in r <==> i in order && i in keep
  {
    if order == [] then []
    else (if order[0] in keep then [order[0]] else []) + Kept(keep, order[1..])
  }

  lemma {:induction false} KeptNoDup(keep: set<nat>, order: seq<nat>)
    requires NoDup(order)
    ensures NoDup(Kept(keep, order))
  {
    if order != [] {
      assert NoDup(order[1..]);
      KeptNoDup(keep, order[1..]);
      assert order[0] !in order[1..];
    }
  }

  /** Every signer that could be consumed by a leaf of the policy is in `keep`. */
  ghost predicate Covers(p: Policy, m: Matrix, keep: set<nat>)
    decreases p
  {
    match p
    case SignedBy(q) => forall i: nat | Satisfies(m, q, i) :: i in keep
    case NOutOf(n, rules) => forall r | r in rules :: Covers(r, m, keep)
  }

  lemma {:induction false} TakeFirstOfKept(q: int, m: Matrix, keep: set<nat>, avail: seq<nat>)
    requires forall i: nat | Satisfies(m, q, i) :: i in keep
    ensures TakeFirst(q, m, Kept(keep, avail)).Some? == TakeFirst(q, m, avail).Some?
    ensures TakeFirst(q, m, avail).Some? ==>
              TakeFirst(q, m, Kept(keep, avail)).value == Kept(keep, TakeFirst(q, m, avail).value)
  {
    if avail != [] {
      TakeFirstOfKept(q, m, keep, avail[1..]);
      KeptOf(keep, avail[0], avail[1..]);
      assert [avail[0]] + avail[1..] == avail;
      if !Satisfies(m, q, avail[0]) && TakeFirst(q, m, avail[1..]).Some? {
        KeptOf(keep, avail[0], TakeFirst(q, m, avail[1..]).value);
      }
    }
  }

  lemma {:induction false} KeptOf(keep: set<nat>, i: nat, rest: seq<nat>)
    ensures Kept(keep, [i] + rest) == if i in keep then [i] + Kept(keep, rest) else Kept(keep, rest)
    ensures i in keep ==> ([i] + Kept(keep, rest))[0] == i && ([i] + Kept(keep, rest))[1..] == Kept(keep, rest)
  {
    assert ([i] + rest)[0] == i && ([i] + rest)[1..] == rest && [] + Kept(keep, rest) == Kept(keep, rest);
  }

  /** Signers that no leaf could consume make no difference to the evaluator. */
  lemma {:induction false} ConsumeOfKept(p: Policy, m: Matrix, keep: set<nat>, avail: seq<nat>)
    requires Covers(p, m, keep)
    ensures Consume(p, m, Kept(keep, avail)).Some? == Consume(p, m, avail).Some?
    ensures Consume(p, m, avail).Some? ==>
              Consume(p, m, Kept(keep, avail)).value == Kept(keep, Consume(p, m, avail).value)
    decreases p, 1
  {
    match p
    case SignedBy(q) => TakeFirstOfKept(q, m, keep, avail);
    case NOutOf(n, rules) => ConsumeChildrenOfKept(rules, m, keep, avail);
  }

  lemma {:induction false} ConsumeChildrenOfKept(rules: seq<Policy>, m: Matrix, keep: set<nat>, avail: seq<nat>)
    requires forall r | r in rules :: Covers(r, m, keep)
    ensures ConsumeChildren(rules, m, Kept(keep, avail)).0 == ConsumeChildren(rules, m, avail).0
    ensures ConsumeChildren(rules, m, Kept(keep, avail)).1 == Kept(keep, ConsumeChildren(rules, m, avail).1)
    decreases rules, 0
  {
    if rules != [] {
      ConsumeOfKept(rules[0], m, keep, avail);
      match Consume(rules[0], m, avail)
      case None => ConsumeChildrenOfKept(rules[1..], m, keep, avail);
      case Some(left) => ConsumeChildrenOfKept(rules[1..], m, keep, left);
    }
  }

  /** Submitting only the kept signers is as good, unless nothing is left to submit. */
  lemma {:induction false} KeptIsAccepted(p: Policy, m: Matrix, count: nat, keep: set<nat>, order: seq<nat>)
    requires Covers(p, m, keep) && AcceptedSubmission(p, m, count, order)
    ensures if Kept(keep, order) == [] then Consume(p, m, []).Some?
            else AcceptedSubmission(p, m, count, Kept(keep, order))
  {
    AcceptsIsConsume(p, m, order);
    ConsumeOfKept(p, m, keep, order);
    KeptNoDup(keep, order);
    AcceptsIsConsume(p, m, Kept(keep, order));
  }

  /** A policy that accepts the empty list accepts every list. */
  lemma {:induction false} EmptyAcceptsAll(p: Policy, m: Matrix, avail: seq<nat>)
    requires Consume(p, m, []).Some?
    ensures Consume(p, m, []).value == []
    ensures Consume(p, m, avail).Some?
    decreases p, 1
  {
    match p
    case SignedBy(q) =>
    case NOutOf(n, rules) => EmptyAcceptsFewer(rules, m, avail);
  }

  lemma {:induction false} EmptyAcceptsFewer(rules: seq<Policy>, m: Matrix, avail: seq<nat>)
    ensures ConsumeChildren(rules, m, []).0 <= ConsumeChildren(rules, m, avail).0
    ensures ConsumeChildren(rules, m, []).1 == []
    decreases rules, 0
  {
    if rules != [] {
      if Consume(rules[0], m, []).Some? {
        EmptyAcceptsAll(rules[0], m, avail);
      }
      match Consume(rules[0], m, avail)
      case None => EmptyAcceptsFewer(rules[1..], m, avail);
      case Some(left) => EmptyAcceptsFewer(rules[1..], m, left);
    }
  }

  // ------------------------------------------------------------------------
  // Witnesses, in the order the backtracking search visits them
  // ------------------------------------------------------------------------

  /** The orders that add one unused matching signer below `bound`, in index order. */
  function LeafOrders(q: int, m: Matrix, order: seq<nat>, bound: nat): seq<seq<nat>> {
    if bound == 0 then []
    else
      LeafOrders(q, m, order, bound - 1)
      + LeafOrder(q, m, order, bound - 1)
  }

  function LeafOrder(q: int, m: Matrix, order: seq<nat>, i: nat): seq<seq<nat>> {
    if i !in order && Satisfies(m, q, i) then [order + [i]] else []
  }

  /** Every order reached from `order` once the rule has its signers. */
  function Witnesses(p: Policy, m: Matrix, count: nat, order: seq<nat>): seq<seq<nat>>
    decreases p, 2, 0
  {
    match p
    case SignedBy(q) => LeafOrders(q, m, order, count)
    case NOutOf(n, rules) => ChooseWitnesses(rules, m, count, n, order)
  }

  /** Take exactly `remaining` of the rules, preferring to take the first. */
  function ChooseWitnesses(rules: seq<Policy>, m: Matrix, count: nat, remaining: int, order: seq<nat>): seq<seq<nat>>
    decreases rules, 1, 0
  {
    if remaining == 0 then [order]
    else if |rules| < remaining || rules == [] then []
    else
      ChooseFromEach(Witnesses(rules[0], m, count, order), rules[1..], m, count, remaining - 1)
      + ChooseWitnesses(rules[1..], m, count, remaining, order)
  }

  function ChooseFromEach(orders: seq<seq<nat>>, rules: seq<Policy>, m: Matrix, count: nat,
                          remaining: int): seq<seq<nat>>
    decreases rules, 2, |orders|
  {
    if orders == [] then []
    else ChooseWitnesses(rules, m, count, remaining, orders[0]) + ChooseFromEach(orders[1..], rules, m, count,
        remaining)
  }

  /**
   * The order, extended by what fulfils the rule: a fresh matching signer, or n
   * of its children one after the other.
   */
  ghost predicate Fulfils(p: Policy, m: Matrix, count: nat, order: seq<nat>, w: seq<nat>)
    decreases p, 2
  {
    match p
    case SignedBy(q) => exists i :: 0 <= i < count && i !in order && Satisfies(m, q, i) && w == order + [i]
    case NOutOf(n, rules) => FulfilsSome(rules, m, count, n, order, w)
  }

  ghost predicate FulfilsSome(rules: seq<Policy>, m: Matrix, count: nat, n: int, order: seq<nat>, w: seq<nat>)
    decreases rules, 1
  {
    || (n == 0 && w == order)
    || (n != 0 && rules != []
        && ((exists mid :: Fulfils(rules[0], m, count, order, mid)
                           && FulfilsSome(rules[1..], m, count, n - 1, mid, w))
            || FulfilsSome(rules[1..], m, count, n, order, w)))
  }

  /** The witnesses of a rule are exactly the orders that fulfil it. */
  lemma {:induction false} WitnessesFulfil(p: Policy, m: Matrix, count: nat, order: seq<nat>, w: seq<nat>)
    ensures w in Witnesses(p, m, count, order) <==> Fulfils(p, m, count, order, w)
    decreases p, 2
  {
    match p
    case SignedBy(q) => LeafOrdersAre(q, m, order, count, w);
    case NOutOf(n, rules) => ChosenFulfil(rules, m, count, n, order, w);
  }

  lemma {:induction false} LeafOrdersAre(q: int, m: Matrix, order: seq<nat>, bound: nat, w: seq<nat>)
    ensures w in LeafOrders(q, m, order, bound) <==>
      exists i :: 0 <= i < bound && i !in order && Satisfies(m, q, i) && w == order + [i]
  {
    if bound > 0 {
      LeafOrdersAre(q, m, order, bound - 1, w);
    }
  }

  lemma {:induction false} ChosenFulfil(rules: seq<Policy>, m: Matrix, count: nat, n: int, order: seq<nat>,
                                        w: seq<nat>)
    ensures w in ChooseWitnesses(rules, m, count, n, order) <==> FulfilsSome(rules, m, count, n, order, w)
    decreases rules, 1
  {
    if n != 0 && rules != [] {
      var mids, tail, k := Witnesses(rules[0], m, count, order), rules[1..], n - 1;
      ChosenFulfil(tail, m, count, n, order, w);
      FromEachAre(mids, tail, m, count, k, w);
      forall mid ensures mid in mids <==> Fulfils(rules[0], m, count, order, mid) {
        WitnessesFulfil(rules[0], m, count, order, mid);
      }
      forall mid
        ensures w in ChooseWitnesses(tail, m, count, k, mid) <==> FulfilsSome(tail, m, count, k, mid, w)
      {
        ChosenFulfil(tail, m, count, k, mid, w);
      }
      if |rules| < n { TooFew(rules, m, count, n, order, w); }
    }
  }

  lemma {:induction false} FromEachAre(orders: seq<seq<nat>>, rules: seq<Policy>, m: Matrix, count: nat, n: int,
                                       w: seq<nat>)
    ensures w in ChooseFromEach(orders, rules, m, count, n) <==>
      exists mid :: mid in orders && w in ChooseWitnesses(rules, m, count, n, mid)
    decreases |orders|
  {
    if orders != [] {
      FromEachAre(orders[1..], rules, m, count, n, w);
      var first, rest := ChooseWitnesses(rules, m, count, n, orders[0]),
          ChooseFromEach(orders[1..], rules, m, count, n);
      assert w in first + rest <==> w in first || w in rest;
      if mid :| mid in orders[1..] && w in ChooseWitnesses(rules, m, count, n, mid) {
        assert mid in orders;
      }
      if w in first { assert orders[0] in orders; }
    }
  }

  lemma {:induction false} TooFew(rules: seq<Policy>, m: Matrix, count: nat, n: int, order: seq<nat>, w: seq<nat>)
    requires |rules| < n
    ensures !FulfilsSome(rules, m, count, n, order, w)
    decreases |rules|
  {
    if rules != [] {
      var tail, k := rules[1..], n - 1;
      TooFew(tail, m, count, n, order, w);
      forall mid ensures !FulfilsSome(tail, m, count, k, mid, w) {
        TooFew(tail, m, count, k, mid, w);
      }
    }
  }

  lemma {:induction false} LeafOrdersHas(q: int, m: Matrix, order: seq<nat>, bound: nat, i: nat)
    requires i < bound && i !in order && Satisfies(m, q, i)
    ensures order + [i] in LeafOrders(q, m, order, bound)
  {
    if i < bound - 1 {
      LeafOrdersHas(q, m, order, bound - 1, i);
    }
  }

  lemma {:induction false} LeafOrdersPrefix(q: int, m: Matrix, order: seq<nat>, bound: nat, i: nat)
    requires i <= bound
    ensures LeafOrders(q, m, order, i) <= LeafOrders(q, m, order, bound)
  {
    if i < bound {
      LeafOrdersPrefix(q, m, order, bound - 1, i);
    }
  }

  lemma {:induction false} ChooseFromEachHas(orders: seq<seq<nat>>, rules: seq<Policy>, m: Matrix, count: nat,
                                             remaining: int, via: seq<nat>, o: seq<nat>)
    requires via in orders && o in ChooseWitnesses(rules, m, count, remaining, via)
    ensures o in ChooseFromEach(orders, rules, m, count, remaining)
    decreases |orders|
  {
    if via != orders[0] {
      ChooseFromEachHas(orders[1..], rules, m, count, remaining, via, o);
    }
  }

  lemma {:induction false} TakeFirstTakes(q: int, m: Matrix, avail: seq<nat>) returns (i: nat)
    requires TakeFirst(q, m, avail).Some? && NoDup(avail)
    ensures i in avail && Satisfies(m, q, i)
    ensures NoDup(TakeFirst(q, m, avail).value)
    ensures Elems(TakeFirst(q, m, avail).value) == Elems(avail) - {i}
  {
    assert NoDup(avail[1..]);
    assert avail == [avail[0]] + avail[1..];
    assert avail[0] !in avail[1..];
    assert Elems(avail) == {avail[0]} + Elems(avail[1..]);
    if Satisfies(m, q, avail[0]) {
      i := avail[0];
    } else {
      i := TakeFirstTakes(q, m, avail[1..]);
      var left := TakeFirst(q, m, avail[1..]).value;
      assert avail[0] !in Elems(left) && i != avail[0];
      assert Elems([avail[0]] + left) == {avail[0]} + Elems(left);
    }
  }

  /** Evaluation only removes signers from what was available. */
  lemma {:induction false} ConsumeShrinks(p: Policy, m: Matrix, count: nat, avail: seq<nat>)
    requires Submission(count, avail) && Consume(p, m, avail).Some?
    ensures Submission(count, Consume(p, m, avail).value) && Elems(Consume(p, m, avail).value) <= Elems(avail)
    decreases p, 1
  {
    match p
    case SignedBy(q) =>
      var i := TakeFirstTakes(q, m, avail);
      var left := TakeFirst(q, m, avail).value;
      assert forall j :: j in left ==> j in Elems(left);
    case NOutOf(n, rules) => ConsumeChildrenShrinks(rules, m, count, avail);
  }

  lemma {:induction false} ConsumeChildrenShrinks(rules: seq<Policy>, m: Matrix, count: nat, avail: seq<nat>)
    requires Submission(count, avail)
    ensures Submission(count, ConsumeChildren(rules, m, avail).1)
      && Elems(ConsumeChildren(rules, m, avail).1) <= Elems(avail)
    decreases rules, 0
  {
    if rules != [] {
      match Consume(rules[0], m, avail)
      case None => ConsumeChildrenShrinks(rules[1..], m, count, avail);
      case Some(left) =>
        ConsumeShrinks(rules[0], m, count, avail);
        ConsumeChildrenShrinks(rules[1..], m, count, left);
    }
  }

  /**
   * Whatever the evaluator consumed for a rule can be rearranged by the search
   * into a witness that uses only those signers.
   */
  lemma {:induction false} GreedyHasWitness(p: Policy, m: Matrix, count: nat, avail: seq<nat>, order: seq<nat>)
    returns (o: seq<nat>)
    requires WellFormed(p, |m|) && Submission(count, avail) && Consume(p, m, avail).Some?
    requires Elems(order) !! (Elems(avail) - Elems(Consume(p, m, avail).value))
    ensures o in Witnesses(p, m, count, order)
    ensures Elems(o) <= Elems(order) + (Elems(avail) - Elems(Consume(p, m, avail).value))
    decreases p, 1
  {
    match p
    case SignedBy(q) =>
      var i := TakeFirstTakes(q, m, avail);
      assert i in Elems(avail) - Elems(Consume(p, m, avail).value);
      assert i !in Elems(order);
      LeafOrdersHas(q, m, order, count, i);
      o := order + [i];
    case NOutOf(n, rules) =>
      o := GreedyHasChoice(rules, m, count, avail, order, n);
  }

  /** What the first rule and the others consumed are disjoint parts of what all consumed. */
  lemma {:induction false} DisjointShares(all: set<nat>, left: set<nat>, rest: set<nat>, order: set<nat>)
    requires rest <= left <= all && order !! (all - rest)
    ensures order !! (all - left)
    ensures forall first | first <= order + (all - left) ::
      first !! (left - rest) && first + (left - rest) <= order + (all - rest)
  {
  }

  lemma {:induction false} GreedyHasChoice(rules: seq<Policy>, m: Matrix, count: nat, avail: seq<nat>, order: seq<nat>,
                                           remaining: nat)
    returns (o: seq<nat>)
    requires (forall r | r in rules :: WellFormed(r, |m|))
    requires Submission(count, avail) && remaining <= ConsumeChildren(rules, m, avail).0
    requires Elems(order) !! (Elems(avail) - Elems(ConsumeChildren(rules, m, avail).1))
    ensures o in ChooseWitnesses(rules, m, count, remaining, order)
    ensures Elems(o) <= Elems(order) + (Elems(avail) - Elems(ConsumeChildren(rules, m, avail).1))
    decreases rules, 0
  {
    o := order;
    if rules != [] {
      var tail := rules[1..];
      var rest := ConsumeChildren(rules, m, avail).1;
      ChildrenCount(rules, m, avail);
      match Consume(rules[0], m, avail)
      case None =>
        var o' := GreedyHasChoice(tail, m, count, avail, order, remaining);
        if remaining != 0 { o := o'; }
      case Some(left) =>
        ConsumeShrinks(rules[0], m, count, avail);
        ConsumeChildrenShrinks(tail, m, count, left);
        if remaining != 0 {
          DisjointShares(Elems(avail), Elems(left), Elems(rest), Elems(order));
          var first := GreedyHasWitness(rules[0], m, count, avail, order);
          assert Elems(first) !! (Elems(left) - Elems(rest));
          o := GreedyHasChoice(tail, m, count, left, first, remaining - 1);
          ChooseFromEachHas(Witnesses(rules[0], m, count, order), tail, m, count, remaining - 1, first, o);
        }
    }
  }

  lemma {:induction false} ChildrenCount(rules: seq<Policy>, m: Matrix, avail: seq<nat>)
    ensures ConsumeChildren(rules, m, avail).0 <= |rules|
    decreases rules
  {
    if rules != [] {
      match Consume(rules[0], m, avail)
      case None => ChildrenCount(rules[1..], m, avail);
      case Some(left) => ChildrenCount(rules[1..], m, left);
    }
  }
}
