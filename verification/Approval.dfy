/** When a plan may run on the policy's own signature: src/approval_policy.rs. */
module Approval {
  import opened Wrappers
  import opened Delivery

  datatype Level = Low | Medium | High | Critical

  function Rank(level: Level): (r: nat) {
    match level
    case Low => 0
    case Medium => 1
    case High => 2
    case Critical => 3
  }

  datatype Purpose = ExecutePlan | RollbackPurpose | SkipGates | DowngradePurpose

  datatype Rule = Rule(purpose: Purpose, n: nat, groups: seq<string>, excludeRequester: bool,
      minCriticality: Option<Level>)

  datatype Mode = Auto | Manual

  datatype Policy = Policy(mode: Mode, ttl: int, signerKey: Option<string>, requireHuman: seq<string>,
      quorum: seq<Rule>, digest: string)

  datatype PlanState = Computed | Blocked | Elsewhere

  datatype Plan = Plan(id: string, environment: string, state: PlanState, steps: seq<Step>, inputs: seq<string>,
      digest: string)

  datatype Reason =
    | ManualMode | HostSteps | MultiParty | GatesSkipped | Reversal
    | Migration | IdentityConfig | ReversedMigration | Product(name: string)

  datatype Decision = Automatic | RequireHuman(reason: Reason)

  predicate AnyHost(steps: seq<Step>) {
    exists i :: 0 <= i < |steps| && steps[i].host
  }

  predicate AnyRollback(steps: seq<Step>) {
    exists i :: 0 <= i < |steps| && steps[i].action.RollBack?
  }

  predicate AnyDowngrade(steps: seq<Step>) {
    exists i :: 0 <= i < |steps| && steps[i].action.Downgrade?
  }

  // ----- The quorum -----

  function QuorumPurpose(steps: seq<Step>, skipGates: bool): (p: Purpose) {
    if skipGates then SkipGates
    else if AnyRollback(steps) then RollbackPurpose
    else if AnyDowngrade(steps) then DowngradePurpose
    else ExecutePlan
  }

  predicate Applies(rule: Rule, purpose: Purpose, criticality: Option<Level>) {
    && rule.purpose == purpose
    && (rule.minCriticality.Some? ==> criticality.Some? && Rank(criticality.value) >= Rank(rule.minCriticality.value))
  }

  function Floor(rule: Rule): (r: nat) {
    if rule.minCriticality.None? then 0 else 1 + Rank(rule.minCriticality.value)
  }

  /** The sort key of a rule: how specific it is, then how many signers it asks for. */
  predicate KeyAtMost(a: Rule, b: Rule) {
    Floor(a) < Floor(b) || (Floor(a) == Floor(b) && a.n <= b.n)
  }

  function DefaultQuorum(purpose: Purpose): (rule: Rule) {
    Rule(purpose, 1, [], false, None)
  }

  /** `quorum_rule`: the last of the applicable rules once they are sorted by key. */
  function QuorumRule(quorum: seq<Rule>, purpose: Purpose, criticality: Option<Level>): (rule: Rule)
    ensures (exists r :: r in quorum && Applies(r, purpose, criticality)) ==>
              rule in quorum && Applies(rule, purpose, criticality)
    ensures forall r :: r in quorum && Applies(r, purpose, criticality) ==> KeyAtMost(r, rule)
    ensures !(exists r :: r in quorum && Applies(r, purpose, criticality)) ==> rule == DefaultQuorum(purpose)
  {
    if quorum == [] then DefaultQuorum(purpose) else
      var rest, last := quorum[..|quorum| - 1], quorum[|quorum| - 1];
      assert quorum == rest + [last];
      var best := QuorumRule(rest, purpose, criticality);
      if && Applies(last, purpose, criticality)
         && (KeyAtMost(best, last) || !(exists i :: 0 <= i < |rest| && Applies(rest[i], purpose, criticality)))
      then last else best
  }

  // ----- The decision -----

  predicate Mentions(plan: Plan, product: string) {
    (exists i :: 0 <= i < |plan.steps| && plan.steps[i].product == product) || product in plan.inputs
  }

  function FirstMentioned(plan: Plan, products: seq<string>): (first: Option<string>)
    ensures first.None? <==> forall product :: product in products ==> !Mentions(plan, product)
  {
    if products == [] then None
    else if Mentions(plan, products[0]) then Some(products[0])
    else FirstMentioned(plan, products[1..])
  }

  /** `evaluate`: what the policy says of a plan with these signals. */
  function Evaluate(
    policy: Policy, plan: Plan, skipGates: bool, signals: Signals, criticality: Option<Level>): (d: Decision)
  {
    if policy.mode != Auto then RequireHuman(ManualMode)
    else if AnyHost(plan.steps) then RequireHuman(HostSteps)
    else if QuorumRule(policy.quorum, QuorumPurpose(plan.steps, skipGates), criticality).n > 1
    then RequireHuman(MultiParty)
    else if skipGates then RequireHuman(GatesSkipped)
    else if AnyRollback(plan.steps) || AnyDowngrade(plan.steps) then RequireHuman(Reversal)
    else if signals.hasMigration then RequireHuman(Migration)
    else if signals.changesIdentity then RequireHuman(IdentityConfig)
    else if signals.reversesMigration then RequireHuman(ReversedMigration)
    else
      var product := FirstMentioned(plan, policy.requireHuman);
      if product.Some? then RequireHuman(Product(product.value)) else Automatic
  }

  /** The step goes forward on the servers' own side, over releases that declare nothing. */
  ghost predicate Unremarkable(catalog: Catalog, step: Step) {
    !Reverse(step) && !step.host && forall r :: MovesTo(catalog, step, r) ==> !r.hasMigration && !r.changesIdentity
  }

  /** The plans a policy approves by itself, told from the plan and the releases it crosses. */
  lemma AutomaticExactlyWhen(policy: Policy, plan: Plan, skipGates: bool, catalog: Catalog, criticality: Option<Level>)
    ensures Evaluate(policy, plan, skipGates, PlanSignals(catalog, plan.steps), criticality).Automatic? <==>
            && policy.mode == Auto && !skipGates
            && QuorumRule(policy.quorum, ExecutePlan, criticality).n <= 1
            && (forall step :: step in plan.steps ==> Unremarkable(catalog, step))
            && (forall product :: product in policy.requireHuman ==> !Mentions(plan, product))
  {
    PlanMeans(catalog, plan.steps);
    assert forall i :: 0 <= i < |plan.steps| ==> plan.steps[i] in plan.steps;
    assert (forall step :: step in plan.steps ==> !Reverse(step)) <==> !AnyRollback(plan.steps) && !AnyDowngrade(plan.steps);
    assert (forall step :: step in plan.steps ==> !step.host) <==> !AnyHost(plan.steps);
  }

  /** A rule that asks for several signers stops automatic approval unless a more specific one lifts it. */
  lemma StricterRuleStops(
    policy: Policy, plan: Plan, skipGates: bool, signals: Signals, criticality: Option<Level>, rule: Rule)
    requires Evaluate(policy, plan, skipGates, signals, criticality).Automatic?
    requires rule in policy.quorum && Applies(rule, ExecutePlan, criticality) && rule.n > 1
    ensures exists r :: r in policy.quorum && Applies(r, ExecutePlan, criticality) && r.n <= 1 && Floor(r) > Floor(rule)
  {
    var chosen := QuorumRule(policy.quorum, ExecutePlan, criticality);
    assert KeyAtMost(rule, chosen);
  }

  /** Upgrading straight to a version needs a human exactly when going through a listed version between does. */
  lemma SkippingHidesNothing(
    policy: Policy, straight: Plan, through: Plan, skipGates: bool, catalog: Catalog, criticality: Option<Level>,
    a: seq<Step>, one: Step, first: Step, second: Step, b: seq<Step>)
    requires straight.steps == a + [one] + b && through.steps == a + [first, second] + b
    requires straight.inputs == through.inputs
    requires Splits(one, first, second) && one.action.Upgrade? && ListedTarget(catalog, first)
    ensures Evaluate(policy, straight, skipGates, PlanSignals(catalog, straight.steps), criticality)
         == Evaluate(policy, through, skipGates, PlanSignals(catalog, through.steps), criticality)
  {
    PlanAddsUp(catalog, a, one, first, second, b);
    SplitCovers(a, one, first, second, b);
    AlikeEvaluateSame(policy, straight, through, skipGates, PlanSignals(catalog, straight.steps), criticality);
  }

  lemma AlikeEvaluateSame(
    policy: Policy, p: Plan, q: Plan, skipGates: bool, signals: Signals, criticality: Option<Level>)
    requires Covered(p.steps, q.steps) && Covered(q.steps, p.steps) && p.inputs == q.inputs
    ensures Evaluate(policy, p, skipGates, signals, criticality) == Evaluate(policy, q, skipGates, signals, criticality)
  {
    CoveredAlike(p, q);
    CoveredAlike(q, p);
    SameMentions(p, q, policy.requireHuman);
  }

  predicate Alike(s: Step, t: Step) {
    s.host == t.host && s.action == t.action && s.product == t.product
  }

  /** Every step of `s` has one of the same kind in `t`. */
  ghost predicate Covered(s: seq<Step>, t: seq<Step>) {
    forall step :: step in s ==> HasAlike(step, t)
  }

  ghost predicate HasAlike(step: Step, t: seq<Step>) {
    exists j :: 0 <= j < |t| && Alike(step, t[j])
  }

  lemma SplitCovers(a: seq<Step>, one: Step, first: Step, second: Step, b: seq<Step>)
    requires Splits(one, first, second)
    ensures Covered(a + [one] + b, a + [first, second] + b) && Covered(a + [first, second] + b, a + [one] + b)
  {
    var s, t := a + [one] + b, a + [first, second] + b;
    forall step | step in s
      ensures HasAlike(step, t)
    {
      var i :| 0 <= i < |s| && s[i] == step;
      var j := if i <= |a| then i else i + 1;
      assert Alike(step, t[j]);
    }
    forall step | step in t
      ensures HasAlike(step, s)
    {
      var i :| 0 <= i < |t| && t[i] == step;
      var j := if i <= |a| then i else i - 1;
      assert Alike(step, s[j]);
    }
  }

  lemma CoveredAlike(p: Plan, q: Plan)
    requires Covered(p.steps, q.steps) && p.inputs == q.inputs
    ensures AnyHost(p.steps) ==> AnyHost(q.steps)
    ensures AnyRollback(p.steps) ==> AnyRollback(q.steps)
    ensures AnyDowngrade(p.steps) ==> AnyDowngrade(q.steps)
    ensures forall product :: Mentions(p, product) ==> Mentions(q, product)
  {
    assert forall i :: 0 <= i < |p.steps| ==> p.steps[i] in p.steps && HasAlike(p.steps[i], q.steps);
    forall product | Mentions(p, product)
      ensures Mentions(q, product)
    {
      if product !in p.inputs {
        var i :| 0 <= i < |p.steps| && p.steps[i].product == product;
        var j :| 0 <= j < |q.steps| && Alike(p.steps[i], q.steps[j]);
      }
    }
  }

  lemma {:induction false} SameMentions(p: Plan, q: Plan, products: seq<string>)
    requires forall product :: Mentions(p, product) <==> Mentions(q, product)
    ensures FirstMentioned(p, products) == FirstMentioned(q, products)
  {
    if products != [] {
      SameMentions(p, q, products[1..]);
    }
  }
}
