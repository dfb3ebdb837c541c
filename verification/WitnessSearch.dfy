/**
 * The continuation-passing witness search of selectEndorsements: it refines the
 * plain enumeration of SignaturePolicy.Witnesses and stops at the first witness
 * the evaluator accepts
 * (compatibility_service/pkg/orchestrator/endorsement_policy.go:268-325).
 */
module WitnessSearching {
  import opened Common
  import opened SignaturePolicy

  /** The continuation closures of the witness search, as data. */
  datatype Next =
    | Report
    | Choose(rules: seq<Policy>, index: nat, remaining: int, next: Next)

  /** An unconditional policy still needs one endorsement. */
  function Submitted(order: seq<nat>): seq<nat> {
    if order == [] then [0] else order
  }

  /** The first witness, in search order, whose submission the evaluator accepts. */
  function FirstAccepted(root: Policy, m: Matrix, finals: seq<seq<nat>>): Option<seq<nat>> {
    if finals == [] then None
    else if Accepts(root, m, Submitted(finals[0])) then Some(Submitted(finals[0]))
    else FirstAccepted(root, m, finals[1..])
  }

  /** It is the submission of the first order that is accepted; an empty order is submitted as candidate 0. */
  lemma {:induction false} FirstAcceptedIs(root: Policy, m: Matrix, finals: seq<seq<nat>>)
    ensures FirstAccepted(root, m, finals).None? <==>
      forall i :: 0 <= i < |finals| ==> !Accepts(root, m, if finals[i] == [] then [0] else finals[i])
    ensures FirstAccepted(root, m, finals).Some? ==> exists i ::
      && 0 <= i < |finals| && FirstAccepted(root, m, finals).value == (if finals[i] == [] then [0] else finals[i])
      && Accepts(root, m, if finals[i] == [] then [0] else finals[i])
      && forall k :: 0 <= k < i ==> !Accepts(root, m, if finals[k] == [] then [0] else finals[k])
    decreases |finals|
  {
    if finals != [] && !Accepts(root, m, Submitted(finals[0])) {
      var rest := finals[1..];
      FirstAcceptedIs(root, m, rest);
      if FirstAccepted(root, m, rest).Some? {
        var i :| && 0 <= i < |rest| && FirstAccepted(root, m, rest).value == (if rest[i] == [] then [0] else rest[i])
                 && Accepts(root, m, if rest[i] == [] then [0] else rest[i])
                 && forall k :: 0 <= k < i ==> !Accepts(root, m, if rest[k] == [] then [0] else rest[k]);
        assert finals[i + 1] == rest[i];
        forall k | 0 <= k < i + 1 ensures !Accepts(root, m, if finals[k] == [] then [0] else finals[k]) {
          assert k > 0 ==> finals[k] == rest[k - 1];
        }
      } else {
        forall k | 0 <= k < |finals| ensures !Accepts(root, m, if finals[k] == [] then [0] else finals[k]) {
          assert k > 0 ==> finals[k] == rest[k - 1];
        }
      }
    }
  }

  /** The complete orders a continuation reaches from each of the given orders. */
  function Finals(next: Next, m: Matrix, count: nat, orders: seq<seq<nat>>): seq<seq<nat>>
    decreases next
  {
    match next
    case Report => orders
    case Choose(rules, index, remaining, rest) =>
      Finals(rest, m, count,
             ChooseFromEach(orders, if index <= |rules| then rules[index..] else [], m, count, remaining))
  }

  lemma {:induction false} FirstAcceptedConcat(root: Policy, m: Matrix, a: seq<seq<nat>>, b: seq<seq<nat>>)
    ensures FirstAccepted(root, m, a + b) ==
            if FirstAccepted(root, m, a).Some? then FirstAccepted(root, m, a) else FirstAccepted(root, m, b)
  {
    if a == [] {
      assert a + b == b;
    } else {
      FirstAcceptedConcat(root, m, a[1..], b);
      assert (a + b)[1..] == a[1..] + b;
    }
  }

  lemma {:induction false} ChooseFromEachConcat(a: seq<seq<nat>>, b: seq<seq<nat>>, rules: seq<Policy>, m: Matrix,
                                                count: nat, remaining: int)
    ensures ChooseFromEach(a + b, rules, m, count, remaining)
         == ChooseFromEach(a, rules, m, count, remaining) + ChooseFromEach(b, rules, m, count, remaining)
  {
    if a == [] {
      assert a + b == b;
    } else {
      assert (a + b)[0] == a[0] && (a + b)[1..] == a[1..] + b;
      ChooseFromEachConcat(a[1..], b, rules, m, count, remaining);
      var first := ChooseWitnesses(rules, m, count, remaining, a[0]);
      var x, y := ChooseFromEach(a[1..], rules, m, count, remaining), ChooseFromEach(b, rules, m, count, remaining);
      assert first + (x + y) == (first + x) + y;
    }
  }

  lemma {:induction false} ChooseFromOne(rules: seq<Policy>, m: Matrix, count: nat, remaining: int, order: seq<nat>)
    ensures ChooseFromEach([order], rules, m, count, remaining) == ChooseWitnesses(rules, m, count, remaining, order)
  {
    assert [order][1..] == [];
    var all := ChooseWitnesses(rules, m, count, remaining, order);
    assert all + [] == all;
  }

  lemma {:induction false} FinalsConcat(next: Next, m: Matrix, count: nat, a: seq<seq<nat>>, b: seq<seq<nat>>)
    ensures Finals(next, m, count, a + b) == Finals(next, m, count, a) + Finals(next, m, count, b)
    decreases next
  {
    match next
    case Report =>
    case Choose(rules, index, remaining, rest) =>
      var tail := if index <= |rules| then rules[index..] else [];
      ChooseFromEachConcat(a, b, tail, m, count, remaining);
      FinalsConcat(rest, m, count, ChooseFromEach(a, tail, m, count, remaining),
                   ChooseFromEach(b, tail, m, count, remaining));
  }

  /** What the search reports so far: the selection, and whether any witness was seen. */
  datatype Progress = Progress(selected: seq<nat>, hasWitness: bool)

  /**
   * A search over these final orders stopped at the first accepted one, or tried
   * them all and remembers whether there was one.
   */
  ghost predicate RanOver(root: Policy, m: Matrix, finals: seq<seq<nat>>, before: Progress, after: Progress,
                          found: bool) {
    && found == FirstAccepted(root, m, finals).Some?
    && after == if found then Progress(FirstAccepted(root, m, finals).value, true)
                else Progress(before.selected, before.hasWitness || finals != [])
  }

  ghost predicate AreFinals(next: Next, m: Matrix, count: nat, orders: seq<seq<nat>>, finals: seq<seq<nat>>) {
    finals == Finals(next, m, count, orders)
  }

  /** An uncanceled search that continued with `next` from each of `orders` ran over their final orders. */
  ghost predicate Ran(root: Policy, m: Matrix, count: nat, next: Next, orders: seq<seq<nat>>, before: Progress,
                      after: Progress, found: bool) {
    forall finals | AreFinals(next, m, count, orders, finals) :: RanOver(root, m, finals, before, after, found)
  }

  lemma {:induction false} RanIs(root: Policy, m: Matrix, count: nat, next: Next, orders: seq<seq<nat>>,
                                 before: Progress, after: Progress, found: bool)
    ensures Ran(root, m, count, next, orders, before, after, found)
       <==> RanOver(root, m, Finals(next, m, count, orders), before, after, found)
  {
    assert AreFinals(next, m, count, orders, Finals(next, m, count, orders));
  }

  lemma RanNothing(root: Policy, m: Matrix, count: nat, next: Next, before: Progress)
    ensures Ran(root, m, count, next, [], before, before, false)
  {
    RanIs(root, m, count, next, [], before, before, false);
    FinalsConcat(next, m, count, [], []);
    var none: seq<seq<nat>> := [];
    assert none + none == none;
    assert |Finals(next, m, count, [])| == |Finals(next, m, count, [])| + |Finals(next, m, count, [])|;
  }

  lemma RanReport(root: Policy, m: Matrix, count: nat, order: seq<nat>, before: Progress)
    ensures Ran(root, m, count, Report, [order], before,
                Progress(if Accepts(root, m, Submitted(order)) then Submitted(order) else before.selected, true),
                Accepts(root, m, Submitted(order)))
  {
    assert [order][1..] == [];
    assert FirstAccepted(root, m, [order]) == if Accepts(root, m, Submitted(order)) then Some(Submitted(order))
      else None;
  }

  /** Continuing with a choice from each order is continuing after it from each order the choice yields. */
  lemma {:induction false} RanChoose(root: Policy, m: Matrix, count: nat, rules: seq<Policy>, index: nat,
                                     remaining: int, next: Next, orders: seq<seq<nat>>,
                  before: Progress, after: Progress, found: bool)
    requires index <= |rules|
    ensures Ran(root, m, count, Choose(rules, index, remaining, next), orders, before, after, found)
       <==> Ran(root, m, count, next, ChooseFromEach(orders, rules[index..], m, count, remaining), before, after, found)
  {
    RanIs(root, m, count, Choose(rules, index, remaining, next), orders, before, after, found);
    RanIs(root, m, count, next, ChooseFromEach(orders, rules[index..], m, count, remaining), before, after, found);
  }

  lemma RanThen(root: Policy, m: Matrix, count: nat, next: Next, a: seq<seq<nat>>, b: seq<seq<nat>>,
                before: Progress, mid: Progress, after: Progress, found: bool)
    requires Ran(root, m, count, next, a, before, mid, false) && Ran(root, m, count, next, b, mid, after, found)
    ensures Ran(root, m, count, next, a + b, before, after, found)
  {
    RanIs(root, m, count, next, a, before, mid, false);
    RanIs(root, m, count, next, b, mid, after, found);
    FinalsConcat(next, m, count, a, b);
    FirstAcceptedConcat(root, m, Finals(next, m, count, a), Finals(next, m, count, b));
  }

  lemma RanEnough(root: Policy, m: Matrix, count: nat, next: Next, a: seq<seq<nat>>, all: seq<seq<nat>>,
                  before: Progress, after: Progress)
    requires Ran(root, m, count, next, a, before, after, true) && a <= all
    ensures Ran(root, m, count, next, all, before, after, true)
  {
    RanIs(root, m, count, next, a, before, after, true);
    var b := all[|a|..];
    assert all == a + b;
    FinalsConcat(next, m, count, a, b);
    FirstAcceptedConcat(root, m, Finals(next, m, count, a), Finals(next, m, count, b));
  }

  /** Searching with the choice of the other rules as continuation runs over the choices that take the rule at index. */
  lemma {:induction false} RanTake(root: Policy, m: Matrix, count: nat, rules: seq<Policy>, index: nat, remaining: int,
                                   order: seq<nat>, next: Next, before: Progress, after: Progress, found: bool)
    requires index < |rules| && 0 < remaining <= |rules| - index
    requires Ran(root, m, count, Choose(rules, index + 1, remaining - 1, next),
                 Witnesses(rules[index], m, count, order),
                 before, after, found)
    ensures Ran(root, m, count, next,
                if found then ChooseWitnesses(rules[index..], m, count, remaining, order)
                else ChooseFromEach(Witnesses(rules[index], m, count, order), rules[index + 1..], m, count,
                                    remaining - 1),
                before, after, found)
  {
    var here := Witnesses(rules[index], m, count, order);
    var taken := ChooseFromEach(here, rules[index + 1..], m, count, remaining - 1);
    assert rules[index..][0] == rules[index] && rules[index..][1..] == rules[index + 1..];
    RanChoose(root, m, count, rules, index + 1, remaining - 1, next, here, before, after, found);
    if found {
      RanEnough(root, m, count, next, taken, ChooseWitnesses(rules[index..], m, count, remaining, order), before,
                after);
    }
  }

  lemma {:induction false} RanCandidate(root: Policy, m: Matrix, count: nat, next: Next, q: int, order: seq<nat>,
                                        i: nat,
                     before: Progress, mid: Progress, after: Progress, found: bool)
    requires i < count
    requires Ran(root, m, count, next, LeafOrders(q, m, order, i), before, mid, false)
    requires Ran(root, m, count, next, LeafOrder(q, m, order, i), mid, after, found)
    ensures Ran(root, m, count, next, LeafOrders(q, m, order, if found then count else i + 1), before, after, found)
  {
    RanThen(root, m, count, next, LeafOrders(q, m, order, i), LeafOrder(q, m, order, i), before, mid, after, found);
    if found {
      LeafOrdersPrefix(q, m, order, count, i + 1);
      RanEnough(root, m, count, next, LeafOrders(q, m, order, i + 1), LeafOrders(q, m, order, count), before, after);
    }
  }

  // Sizes that bound the depth of the mutually recursive search.

  function RuleSize(p: Policy): nat
    decreases p
  {
    match p
    case SignedBy(_) => 1
    case NOutOf(_, rules) => 2 + RulesSize(rules)
  }

  function RulesSize(rules: seq<Policy>): nat
    decreases rules
  {
    if rules == [] then 0 else RuleSize(rules[0]) + 1 + RulesSize(rules[1..])
  }

  function NextSize(next: Next): nat
    decreases next
  {
    match next
    case Report => 0
    case Choose(rules, index, _, rest) => 1 + RulesSize(if index <= |rules| then rules[index..]
                                                        else []) + NextSize(rest)
  }

  ghost predicate NextWellFormed(next: Next, principals: nat)
    decreases next
  {
    next.Choose? ==>
      && next.index <= |next.rules| && 0 <= next.remaining
      && (forall r | r in next.rules :: WellFormed(r, principals))
      && NextWellFormed(next.next, principals)
  }

  /** The variables captured by the search closures of selectEndorsements. */
  class WitnessSearch {
    const root: Policy
    const matches: Matrix
    const count: nat
    const used: array<bool>
    const ctx: Context
    var selected: seq<nat>
    var hasWitness: bool

    constructor (root: Policy, matches: Matrix, count: nat, ctx: Context)
      requires count > 0 && forall row | row in matches :: |row| == count
      ensures this.root == root && this.matches == matches && this.count == count && this.ctx == ctx
      ensures fresh(used) && Valid([]) && selected == [] && !hasWitness
    {
      this.root, this.matches, this.count, this.ctx := root, matches, count, ctx;
      used := new bool[count](_ => false);
      selected, hasWitness := [], false;
    }

    /** Exactly the signers on the current branch are marked used. */
    ghost predicate Valid(order: seq<nat>)
      reads used
    {
      && count > 0
      && used.Length == count
      && (forall row | row in matches :: |row| == count)
      && Submission(count, order)
      && forall i | 0 <= i < count :: used[i] <==> i in order
    }

    ghost function State(): Progress
      reads this
    {
      Progress(selected, hasWitness)
    }

    /** Canceled or not, only an accepted submission is ever selected. */
    ghost predicate Sound(before: Progress, found: bool)
      reads this
    {
      if found then hasWitness && AcceptedSubmission(root, matches, count, selected)
      else selected == before.selected
    }

    ghost predicate Tried(next: Next, orders: seq<seq<nat>>, before: Progress, found: bool)
      reads this, ctx
    {
      !ctx.Expired() ==> Ran(root, matches, count, next, orders, before, State(), found)
    }

    method Search(rule: Policy, order: seq<nat>, next: Next) returns (found: bool)
      requires Valid(order) && WellFormed(rule, |matches|) && NextWellFormed(next, |matches|)
      modifies this, used, ctx
      ensures used[..] == old(used[..]) && old(ctx.polls) <= ctx.polls
      ensures Sound(old(State()), found)
      ensures Tried(next, Witnesses(rule, matches, count, order), old(State()), found)
      decreases RuleSize(rule) + NextSize(next), 1
    {
      var canceled := ctx.Err();
      if canceled { return false; }
      match rule
      case SignedBy(principal) =>
        found := TryLeaf(principal, order, next);
      case NOutOf(n, rules) =>
        assert rules[0..] == rules;
        found := ChooseFrom(rules, 0, n, order, next);
    }

    method TryLeaf(principal: nat, order: seq<nat>, next: Next) returns (found: bool)
      requires Valid(order) && principal < |matches| && NextWellFormed(next, |matches|)
      modifies this, used, ctx
      ensures used[..] == old(used[..]) && old(ctx.polls) <= ctx.polls
      ensures Sound(old(State()), found)
      ensures Tried(next, LeafOrders(principal, matches, order, count), old(State()), found)
      decreases 1 + NextSize(next), 0
    {
      ghost var before, marks := State(), used[..];
      var row := matches[principal];
      assert row in matches;
      RanNothing(root, matches, count, next, before);
      for i := 0 to |row|
        invariant used[..] == marks && old(ctx.polls) <= ctx.polls
        invariant Sound(before, false) && Tried(next, LeafOrders(principal, matches, order, i), before, false)
      {
        found := TryNext(principal, i, order, next, before);
        if found { return true; }
      }
      return false;
    }

    /** One iteration over the candidates of a leaf, after those before it were tried in vain. */
    method TryNext(principal: nat, i: nat, order: seq<nat>, next: Next, ghost before: Progress) returns (found: bool)
      requires Valid(order) && principal < |matches| && i < count && NextWellFormed(next, |matches|)
      requires Sound(before, false) && Tried(next, LeafOrders(principal, matches, order, i), before, false)
      modifies this, used, ctx
      ensures used[..] == old(used[..]) && old(ctx.polls) <= ctx.polls
      ensures Sound(before, found)
      ensures Tried(next, LeafOrders(principal, matches, order, if found then count else i + 1), before, found)
      decreases NextSize(next), 4
    {
      ghost var mid := State();
      found := TryCandidate(principal, i, order, next);
      if !ctx.Expired() {
        RanCandidate(root, matches, count, next, principal, order, i, before, mid, State(), found);
      }
    }

    method TryCandidate(principal: nat, i: nat, order: seq<nat>, next: Next) returns (found: bool)
      requires Valid(order) && principal < |matches| && i < count && NextWellFormed(next, |matches|)
      modifies this, used, ctx
      ensures used[..] == old(used[..]) && old(ctx.polls) <= ctx.polls
      ensures Sound(old(State()), found)
      ensures Tried(next, LeafOrder(principal, matches, order, i), old(State()), found)
      decreases NextSize(next), 3
    {
      assert matches[principal] in matches;
      if used[i] || !matches[principal][i] {
        RanNothing(root, matches, count, next, State());
        return false;
      }
      used[i] := true;
      found := Continue(next, order + [i]);
      used[i] := false;
    }

    method ChooseFrom(rules: seq<Policy>, index: nat, remaining: int, order: seq<nat>, next: Next) returns (found: bool)
      requires Valid(order) && index <= |rules| && NextWellFormed(next, |matches|)
      requires 0 <= remaining && forall r | r in rules :: WellFormed(r, |matches|)
      modifies this, used, ctx
      ensures used[..] == old(used[..]) && old(ctx.polls) <= ctx.polls
      ensures Sound(old(State()), found)
      ensures Tried(next, ChooseWitnesses(rules[index..], matches, count, remaining, order), old(State()), found)
      decreases RulesSize(rules[index..]) + 1 + NextSize(next), 1
    {
      ghost var before := State();
      var canceled := ctx.Err();
      if canceled { return false; }
      if remaining == 0 {
        found := Continue(next, order);
        return;
      }
      RanNothing(root, matches, count, next, before);
      if |rules| - index < remaining { return false; }
      assert rules[index..][1..] == rules[index + 1..];
      found := TakeRule(rules, index, remaining, order, next);
      if found { return; }
      ghost var mid := State();
      found := ChooseFrom(rules, index + 1, remaining, order, next);
      if !ctx.Expired() {
        RanThen(root, matches, count, next, Taken(rules, index, remaining, order),
                ChooseWitnesses(rules[index + 1..], matches, count, remaining, order), before, mid, State(), found);
      }
    }

    /** The witnesses that take the rule at index. */
    ghost function Taken(rules: seq<Policy>, index: nat, remaining: int, order: seq<nat>): seq<seq<nat>>
      requires index < |rules|
    {
      ChooseFromEach(Witnesses(rules[index], matches, count, order), rules[index + 1..], matches, count, remaining - 1)
    }

    /** Satisfy the rule at index and go on with the rest; when that succeeds, the rule need not be skipped. */
    method TakeRule(rules: seq<Policy>, index: nat, remaining: int, order: seq<nat>, next: Next) returns (found: bool)
      requires Valid(order) && index < |rules| && NextWellFormed(next, |matches|)
      requires 0 < remaining <= |rules| - index && forall r | r in rules :: WellFormed(r, |matches|)
      modifies this, used, ctx
      ensures used[..] == old(used[..]) && old(ctx.polls) <= ctx.polls
      ensures Sound(old(State()), found)
      ensures Tried(next, if found then ChooseWitnesses(rules[index..], matches, count, remaining, order)
                    else Taken(rules, index, remaining, order),
                    old(State()), found)
      decreases RulesSize(rules[index..]) + 1 + NextSize(next), 0
    {
      ghost var before := State();
      assert rules[index..][0] == rules[index] && rules[index..][1..] == rules[index + 1..];
      found := Search(rules[index], order, Choose(rules, index + 1, remaining - 1, next));
      if !ctx.Expired() {
        RanTake(root, matches, count, rules, index, remaining, order, next, before, State(), found);
      }
    }

    method Continue(next: Next, order: seq<nat>) returns (found: bool)
      requires Valid(order) && NextWellFormed(next, |matches|)
      modifies this, used, ctx
      ensures used[..] == old(used[..]) && old(ctx.polls) <= ctx.polls
      ensures Sound(old(State()), found)
      ensures Tried(next, [order], old(State()), found)
      decreases NextSize(next), 2
    {
      ghost var before := State();
      match next
      case Report =>
        RanReport(root, matches, count, order, State());
        hasWitness := true;
        var submission := if order == [] then [0] else order;
        if !Accepts(root, matches, submission) { return false; }
        selected := submission;
        found := true;
      case Choose(rules, index, remaining, rest) =>
        found := ChooseFrom(rules, index, remaining, order, rest);
        ChooseFromOne(rules[index..], matches, count, remaining, order);
        RanChoose(root, matches, count, rules, index, remaining, rest, [order], before, State(), found);
    }
  }
}
