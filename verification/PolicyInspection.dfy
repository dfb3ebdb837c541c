/**
 * Rule inspection: which policies are admitted, and which organizations are
 * asked for endorsements (compatibility_service/pkg/orchestrator/endorsement_policy.go:89-171).
 */
module PolicyInspection {
  import opened Common
  import opened SignaturePolicy

  /** An MSP principal as decoded; the last two stand for any that inspection rejects. */
  datatype Principal =
    | Role(mspID: string)
    | OrganizationUnit(mspID: string)
    | Identity(mspID: string)
    | Combined(principals: seq<Principal>)
    | Anonymity
    | Missing
    | Undecodable

  /** A leaf of the principal: itself unless it combines others, else a leaf of one of those. */
  ghost predicate Leaf(p: Principal, leaf: Principal)
    decreases p
  {
    if p.Combined? && p.principals != [] then exists c | c in p.principals :: Leaf(c, leaf) else leaf == p
  }

  /** The leaf names this organization. */
  ghost predicate Names(leaf: Principal, id: string) {
    leaf == Role(id) || leaf == OrganizationUnit(id) || leaf == Identity(id)
  }

  ghost predicate NamedBy(p: Principal, id: string) {
    exists leaf :: Leaf(p, leaf) && Names(leaf, id)
  }

  /** The leaf can be inspected: it is anonymous or names some organization. */
  ghost predicate Sound(leaf: Principal) {
    leaf == Anonymity || exists id :: id != "" && Names(leaf, id)
  }

  /** A rule and all its descendants. */
  ghost predicate Within(rule: Policy, sub: Policy)
    decreases rule
  {
    sub == rule || (rule.NOutOf? && exists r | r in rule.rules :: Within(r, sub))
  }

  /** One rule on its own: a known principal with sound leaves, or a threshold between 0 and the child count. */
  ghost predicate Fits(sub: Policy, identities: seq<Principal>) {
    match sub
    case SignedBy(q) => 0 <= q < |identities| && forall leaf | Leaf(identities[q], leaf) :: Sound(leaf)
    case NOutOf(n, rules) => 0 <= n <= |rules|
  }

  /** Some principal the rule refers to has this leaf. */
  ghost predicate RefersTo(rule: Policy, identities: seq<Principal>, leaf: Principal) {
    exists q :: 0 <= q < |identities| && Within(rule, SignedBy(q)) && Leaf(identities[q], leaf)
  }

  ghost predicate TargetedBy(rule: Policy, identities: seq<Principal>, id: string) {
    exists leaf :: RefersTo(rule, identities, leaf) && Names(leaf, id)
  }

  /** Inspection accepts the principal. */
  predicate Inspectable(p: Principal)
    decreases p
  {
    match p
    case Role(id) => id != ""
    case OrganizationUnit(id) => id != ""
    case Identity(id) => id != ""
    case Combined(children) => children != [] && forall c | c in children :: Inspectable(c)
    case Anonymity => true
    case Missing => false
    case Undecodable => false
  }

  function MentionedMSPs(p: Principal): seq<string>
    decreases p, 1
  {
    match p
    case Combined(children) => MentionedByAll(children)
    case Anonymity => []
    case Missing => []
    case Undecodable => []
    case _ => [p.mspID]
  }

  function MentionedByAll(children: seq<Principal>): seq<string>
    decreases children, 0
  {
    if children == [] then [] else MentionedMSPs(children[0]) + MentionedByAll(children[1..])
  }

  predicate MentionsAnonymity(p: Principal)
    decreases p
  {
    match p
    case Combined(children) => exists c | c in children :: MentionsAnonymity(c)
    case Anonymity => true
    case _ => false
  }

  /** The policy is well formed and every principal it references is inspectable. */
  predicate Admissible(rule: Policy, identities: seq<Principal>)
    decreases rule
  {
    match rule
    case SignedBy(q) => 0 <= q < |identities| && Inspectable(identities[q])
    case NOutOf(n, rules) => 0 <= n <= |rules| && forall r | r in rules :: Admissible(r, identities)
  }

  function RuleMSPs(rule: Policy, identities: seq<Principal>): seq<string>
    decreases rule, 1
  {
    match rule
    case SignedBy(q) => if 0 <= q < |identities| then MentionedMSPs(identities[q]) else []
    case NOutOf(_, rules) => RulesMSPs(rules, identities)
  }

  function RulesMSPs(rules: seq<Policy>, identities: seq<Principal>): seq<string>
    decreases rules, 0
  {
    if rules == [] then [] else RuleMSPs(rules[0], identities) + RulesMSPs(rules[1..], identities)
  }

  predicate RuleUnscoped(rule: Policy, identities: seq<Principal>)
    decreases rule
  {
    match rule
    case SignedBy(q) => 0 <= q < |identities| && MentionsAnonymity(identities[q])
    case NOutOf(_, rules) => exists r | r in rules :: RuleUnscoped(r, identities)
  }

  function AddNew(targets: seq<string>, ids: seq<string>): seq<string>
    decreases ids
  {
    if ids == [] then targets
    else AddNew(if ids[0] in targets then targets else targets + [ids[0]], ids[1..])
  }

  lemma {:induction false} AddNewConcat(targets: seq<string>, a: seq<string>, b: seq<string>)
    ensures AddNew(targets, a + b) == AddNew(AddNew(targets, a), b)
    decreases a
  {
    if a == [] {
      assert a + b == b;
    } else {
      assert (a + b)[1..] == a[1..] + b;
      AddNewConcat(if a[0] in targets then targets else targets + [a[0]], a[1..], b);
    }
  }

  /** Targets stay distinct, and are the old ones and the added ones. */
  lemma {:induction false} AddNewIsUnion(targets: seq<string>, ids: seq<string>)
    requires NoDup(targets)
    ensures NoDup(AddNew(targets, ids))
    ensures Elems(AddNew(targets, ids)) == Elems(targets) + Elems(ids)
    decreases ids
  {
    if ids == [] {
    } else {
      var next := if ids[0] in targets then targets else targets + [ids[0]];
      AddNewIsUnion(next, ids[1..]);
      assert Elems(next) == Elems(targets) + {ids[0]};
      assert ids == [ids[0]] + ids[1..];
    }
  }

  lemma {:induction false} AddNewHas(targets: seq<string>, ids: seq<string>)
    ensures forall id :: id in AddNew(targets, ids) <==> id in targets || id in ids
    decreases ids
  {
    if ids != [] {
      AddNewHas(if ids[0] in targets then targets else targets + [ids[0]], ids[1..]);
      assert ids == [ids[0]] + ids[1..];
    }
  }

  /** A principal is accepted exactly if all its leaves are sound; it mentions exactly what its leaves name. */
  lemma {:induction false} InspectedByLeaf(p: Principal)
    ensures Inspectable(p) <==> forall leaf | Leaf(p, leaf) :: Sound(leaf)
    ensures MentionsAnonymity(p) <==> Leaf(p, Anonymity)
    ensures forall id :: id in MentionedMSPs(p) <==> NamedBy(p, id)
    decreases p, 1
  {
    match p
    case Combined(children) =>
      if children == [] {
        assert Leaf(p, p) && !Sound(p);
      } else {
        forall c | c in children
          ensures Inspectable(c) <==> forall leaf | Leaf(c, leaf) :: Sound(leaf)
          ensures MentionsAnonymity(c) <==> Leaf(c, Anonymity)
        {
          InspectedByLeaf(c);
        }
        forall id ensures id in MentionedMSPs(p) <==> NamedBy(p, id) {
          MentionedByLeaf(children, id);
          NamedByChild(p, id);
        }
        LeavesOfCombined(p);
      }
    case Role(id) => assert Leaf(p, p) && Names(p, id);
    case OrganizationUnit(id) => assert Leaf(p, p) && Names(p, id);
    case Identity(id) => assert Leaf(p, p) && Names(p, id);
    case _ => assert Leaf(p, p);
  }

  lemma NamedByChild(p: Principal, id: string)
    requires p.Combined? && p.principals != []
    ensures NamedBy(p, id) <==> exists c :: c in p.principals && NamedBy(c, id)
  {
    if leaf :| Leaf(p, leaf) && Names(leaf, id) {
      var c :| c in p.principals && Leaf(c, leaf);
      assert NamedBy(c, id);
    }
    if c :| c in p.principals && NamedBy(c, id) {
      var leaf :| Leaf(c, leaf) && Names(leaf, id);
      assert Leaf(p, leaf);
    }
  }

  lemma {:induction false} LeavesOfCombined(p: Principal)
    requires p.Combined? && p.principals != []
    requires forall c | c in p.principals :: Inspectable(c) <==> forall leaf | Leaf(c, leaf) :: Sound(leaf)
    ensures Inspectable(p) <==> forall leaf | Leaf(p, leaf) :: Sound(leaf)
  {
    forall c, leaf | c in p.principals && Leaf(c, leaf) ensures Leaf(p, leaf) {
    }
  }

  lemma {:induction false} MentionedByLeaf(children: seq<Principal>, id: string)
    ensures id in MentionedByAll(children) <==> exists c :: c in children && NamedBy(c, id)
    decreases children, 0
  {
    if children != [] {
      InspectedByLeaf(children[0]);
      MentionedByLeaf(children[1..], id);
      if NamedBy(children[0], id) {
        assert children[0] in children;
      }
      if c :| c in children[1..] && NamedBy(c, id) {
        assert c in children;
      }
    }
  }

  /** A policy is admitted exactly if it and all its descendants fit; it mentions exactly what its leaves name. */
  lemma {:induction false} InspectedByRule(rule: Policy, identities: seq<Principal>)
    ensures Admissible(rule, identities) <==> forall sub | Within(rule, sub) :: Fits(sub, identities)
    ensures RuleUnscoped(rule, identities) <==> RefersTo(rule, identities, Anonymity)
    ensures forall id :: id in RuleMSPs(rule, identities) <==> TargetedBy(rule, identities, id)
    decreases rule, 1
  {
    assert Within(rule, rule);
    match rule
    case SignedBy(q) =>
      if 0 <= q < |identities| { InspectedByLeaf(identities[q]); }
    case NOutOf(n, rules) =>
      forall r | r in rules
        ensures Admissible(r, identities) <==> forall sub | Within(r, sub) :: Fits(sub, identities)
        ensures RuleUnscoped(r, identities) <==> RefersTo(r, identities, Anonymity)
      {
        InspectedByRule(r, identities);
      }
      RefersToChild(rule, identities);
      forall id ensures id in RuleMSPs(rule, identities) <==> TargetedBy(rule, identities, id) {
        RulesInspected(rules, identities, id);
        TargetedByChild(rule, identities, id);
      }
  }

  lemma {:induction false} RefersToChild(rule: Policy, identities: seq<Principal>)
    requires rule.NOutOf?
    ensures forall leaf :: RefersTo(rule, identities, leaf) <==> exists r | r in rule.rules ::
      RefersTo(r, identities, leaf)
    ensures forall sub :: Within(rule, sub) <==> sub == rule || exists r | r in rule.rules :: Within(r, sub)
  {
  }

  lemma TargetedByChild(rule: Policy, identities: seq<Principal>, id: string)
    requires rule.NOutOf?
    ensures TargetedBy(rule, identities, id) <==> exists r :: r in rule.rules && TargetedBy(r, identities, id)
  {
    RefersToChild(rule, identities);
    if leaf :| RefersTo(rule, identities, leaf) && Names(leaf, id) {
      var r :| r in rule.rules && RefersTo(r, identities, leaf);
      assert TargetedBy(r, identities, id);
    }
    if r :| r in rule.rules && TargetedBy(r, identities, id) {
      var leaf :| RefersTo(r, identities, leaf) && Names(leaf, id);
      assert RefersTo(rule, identities, leaf);
    }
  }

  lemma {:induction false} RulesInspected(rules: seq<Policy>, identities: seq<Principal>, id: string)
    ensures id in RulesMSPs(rules, identities) <==> exists r :: r in rules && TargetedBy(r, identities, id)
    decreases rules, 0
  {
    if rules != [] {
      InspectedByRule(rules[0], identities);
      RulesInspected(rules[1..], identities, id);
      if TargetedBy(rules[0], identities, id) {
        assert rules[0] in rules;
      }
      if r :| r in rules[1..] && TargetedBy(r, identities, id) {
        assert r in rules;
      }
    }
  }

  /** The fields inspection fills in. */
  class Inspector {
    const identities: seq<Principal>
    var targetMSPs: seq<string>
    var unscoped: bool

    constructor (identities: seq<Principal>)
      ensures this.identities == identities && targetMSPs == [] && !unscoped
    {
      this.identities := identities;
      targetMSPs, unscoped := [], false;
    }

    /** The inspection of a whole policy: what it admits, and which organizations it will ask. */
    method InspectPolicy(root: Policy) returns (ok: bool)
      requires targetMSPs == [] && !unscoped
      modifies this
      ensures ok == Admissible(root, identities)
      ensures ok <==> forall sub | Within(root, sub) :: Fits(sub, identities)
      ensures ok ==> targetMSPs == AddNew([], RuleMSPs(root, identities)) && NoDup(targetMSPs)
      ensures ok ==> forall id :: id in targetMSPs <==> TargetedBy(root, identities, id)
      ensures ok ==> unscoped == RuleUnscoped(root, identities)
      ensures ok ==> (unscoped <==> RefersTo(root, identities, Anonymity))
    {
      ok := InspectRule(root);
      InspectedByRule(root, identities);
      AddNewHas([], RuleMSPs(root, identities));
      AddNewIsUnion([], RuleMSPs(root, identities));
    }

    method InspectRule(rule: Policy) returns (ok: bool)
      modifies this
      ensures ok == Admissible(rule, identities)
      ensures ok ==> targetMSPs == AddNew(old(targetMSPs), RuleMSPs(rule, identities))
      ensures ok ==> unscoped == (old(unscoped) || RuleUnscoped(rule, identities))
      decreases rule
    {
      match rule
      case SignedBy(q) =>
        if q < 0 || q >= |identities| { return false; }
        ok := InspectPrincipal(identities[q]);
      case NOutOf(n, rules) =>
        if n < 0 || n > |rules| { return false; }
        assert rules[..0] == [] && rules[..|rules|] == rules;
        for i := 0 to |rules|
          invariant forall r | r in rules[..i] :: Admissible(r, identities)
          invariant targetMSPs == AddNew(old(targetMSPs), RulesMSPs(rules[..i], identities))
          invariant unscoped == (old(unscoped) || exists r | r in rules[..i] :: RuleUnscoped(r, identities))
        {
          ok := InspectRule(rules[i]);
          if !ok { return; }
          assert rules[..i + 1] == rules[..i] + [rules[i]];
          RulesMSPsSnoc(rules[..i], rules[i], identities);
          AddNewConcat(old(targetMSPs), RulesMSPs(rules[..i], identities), RuleMSPs(rules[i], identities));
        }
        ok := true;
    }

    method InspectPrincipal(principal: Principal) returns (ok: bool)
      modifies this
      ensures ok == Inspectable(principal)
      ensures ok ==> targetMSPs == AddNew(old(targetMSPs), MentionedMSPs(principal))
      ensures ok ==> unscoped == (old(unscoped) || MentionsAnonymity(principal))
      decreases principal
    {
      match principal
      case Combined(children) =>
        if children == [] { return false; }
        assert children[..0] == [] && children[..|children|] == children;
        for i := 0 to |children|
          invariant forall c | c in children[..i] :: Inspectable(c)
          invariant targetMSPs == AddNew(old(targetMSPs), MentionedByAll(children[..i]))
          invariant unscoped == (old(unscoped) || exists c | c in children[..i] :: MentionsAnonymity(c))
        {
          ok := InspectPrincipal(children[i]);
          if !ok { return; }
          assert children[..i + 1] == children[..i] + [children[i]];
          MentionedSnoc(children[..i], children[i]);
          AddNewConcat(old(targetMSPs), MentionedByAll(children[..i]), MentionedMSPs(children[i]));
        }
        ok := true;
      case Anonymity =>
        unscoped := true;
        ok := true;
      case Missing => ok := false;
      case Undecodable => ok := false;
      case _ =>
        if principal.mspID == "" { return false; }
        if principal.mspID !in targetMSPs {
          targetMSPs := targetMSPs + [principal.mspID];
        }
        assert [principal.mspID][1..] == [];
        ok := true;
    }
  }

  lemma {:induction false} RulesMSPsSnoc(rules: seq<Policy>, last: Policy, identities: seq<Principal>)
    ensures RulesMSPs(rules + [last], identities) == RulesMSPs(rules, identities) + RuleMSPs(last, identities)
    decreases |rules|
  {
    if rules == [] {
      assert (rules + [last])[1..] == [];
      var only := RuleMSPs(last, identities);
      assert only + [] == [] + only;
    } else {
      RulesMSPsSnoc(rules[1..], last, identities);
      assert (rules + [last])[1..] == rules[1..] + [last] && (rules + [last])[0] == rules[0];
      var head, tail, only :=
        RuleMSPs(rules[0], identities), RulesMSPs(rules[1..], identities), RuleMSPs(last, identities);
      assert head + (tail + only) == (head + tail) + only;
    }
  }

  lemma {:induction false} MentionedSnoc(children: seq<Principal>, last: Principal)
    ensures MentionedByAll(children + [last]) == MentionedByAll(children) + MentionedMSPs(last)
    decreases |children|
  {
    if children == [] {
      assert (children + [last])[1..] == [];
      var only := MentionedMSPs(last);
      assert only + [] == [] + only;
    } else {
      MentionedSnoc(children[1..], last);
      assert (children + [last])[1..] == children[1..] + [last] && (children + [last])[0] == children[0];
      var head, tail, only := MentionedMSPs(children[0]), MentionedByAll(children[1..]), MentionedMSPs(last);
      assert head + (tail + only) == (head + tail) + only;
    }
  }

  /** Admitted policies have the indices and thresholds the searches rely on. */
  lemma {:induction false} AdmissibleIsWellFormed(rule: Policy, identities: seq<Principal>)
    requires Admissible(rule, identities)
    ensures WellFormed(rule, |identities|)
    decreases rule
  {
    match rule
    case SignedBy(_) =>
    case NOutOf(_, rules) =>
      forall r | r in rules ensures WellFormed(r, |identities|) { AdmissibleIsWellFormed(r, identities); }
  }

  /** A member of this organization may satisfy the principal: every leaf that names one names this one. */
  ghost predicate Admits(p: Principal, mspID: string) {
    forall leaf, id | Leaf(p, leaf) && Names(leaf, id) :: id == mspID
  }

  /** Principal evaluation respects organizations: only their members satisfy a principal that names organizations. */
  ghost predicate RespectsMSPs(identities: seq<Principal>, m: Matrix, mspOf: seq<string>) {
    forall q, i | Satisfies(m, q, i) :: q < |identities| && i < |mspOf| && Admits(identities[q], mspOf[i])
  }

  lemma {:induction false} SomeLeaf(p: Principal) returns (leaf: Principal)
    ensures Leaf(p, leaf)
    decreases p
  {
    leaf := p;
    if p.Combined? && p.principals != [] {
      leaf := SomeLeaf(p.principals[0]);
      assert p.principals[0] in p.principals;
    }
  }

  /** Whoever an inspected principal admits is of an organization it mentions, unless it mentions anonymity. */
  lemma {:induction false} AdmittedIsMentioned(p: Principal, mspID: string)
    requires Inspectable(p) && Admits(p, mspID)
    ensures MentionsAnonymity(p) || mspID in MentionedMSPs(p)
  {
    InspectedByLeaf(p);
    var leaf := SomeLeaf(p);
    assert Sound(leaf);
  }

  lemma {:induction false} TargetsCover(rule: Policy, identities: seq<Principal>, m: Matrix, mspOf: seq<string>,
                                        keep: set<nat>)
    requires Admissible(rule, identities) && !RuleUnscoped(rule, identities) && RespectsMSPs(identities, m, mspOf)
    requires forall i: nat | i < |mspOf| && mspOf[i] in RuleMSPs(rule, identities) :: i in keep
    ensures Covers(rule, m, keep)
    decreases rule, 1
  {
    match rule
    case SignedBy(q) =>
      forall i | Satisfies(m, q, i) ensures mspOf[i] in MentionedMSPs(identities[q]) {
        AdmittedIsMentioned(identities[q], mspOf[i]);
      }
    case NOutOf(_, rules) => TargetsCoverAll(rules, identities, m, mspOf, keep);
  }

  lemma {:induction false} TargetsCoverAll(rules: seq<Policy>, identities: seq<Principal>, m: Matrix,
                                           mspOf: seq<string>, keep: set<nat>)
    requires forall r | r in rules :: Admissible(r, identities) && !RuleUnscoped(r, identities)
    requires RespectsMSPs(identities, m, mspOf)
    requires forall i: nat | i < |mspOf| && mspOf[i] in RulesMSPs(rules, identities) :: i in keep
    ensures forall r | r in rules :: Covers(r, m, keep)
    decreases rules, 0
  {
    if rules != [] {
      TargetsCover(rules[0], identities, m, mspOf, keep);
      TargetsCoverAll(rules[1..], identities, m, mspOf, keep);
      assert rules == [rules[0]] + rules[1..];
    }
  }

  /**
   * Asking only the target organizations loses nothing: for a scoped policy, any
   * accepted submission stays accepted when signers of other organizations are
   * left out (or the policy needs no signer at all).
   */
  lemma TargetsSuffice(rule: Policy, identities: seq<Principal>, m: Matrix, mspOf: seq<string>, order: seq<nat>)
    returns (within: seq<nat>)
    requires Admissible(rule, identities) && !RuleUnscoped(rule, identities) && RespectsMSPs(identities, m, mspOf)
    requires AcceptedSubmission(rule, m, |mspOf|, order)
    ensures forall i | i in within :: i in order && mspOf[i] in AddNew([], RuleMSPs(rule, identities))
    ensures if within == [] then forall any :: Accepts(rule, m, any) else AcceptedSubmission(rule, m, |mspOf|, within)
  {
    var targets := AddNew([], RuleMSPs(rule, identities));
    AddNewIsUnion([], RuleMSPs(rule, identities));
    assert forall id :: id in RuleMSPs(rule, identities) <==> id in Elems(RuleMSPs(rule, identities));
    assert forall id :: id in targets <==> id in Elems(targets);
    var keep := set i: nat | i < |mspOf| && mspOf[i] in targets;
    TargetsCover(rule, identities, m, mspOf, keep);
    KeptIsAccepted(rule, m, |mspOf|, keep, order);
    within := Kept(keep, order);
    if within == [] {
      forall any ensures Accepts(rule, m, any) {
        EmptyAcceptsAll(rule, m, any);
        AcceptsIsConsume(rule, m, any);
      }
    }
  }
}
