/** When each answer about a plan's approval is given, told from policy, host and files: src/approval_policy.rs. */
module ApprovalViews {
  import opened Wrappers
  import opened Delivery
  import opened Approval
  import opened ApprovalTexts
  import opened ApprovalEnvelopes

  // ----- The decision -----

  function AtLeast(min: Level): (levels: set<Level>) {
    match min
    case Low => {Low, Medium, High, Critical}
    case Medium => {Medium, High, Critical}
    case High => {High, Critical}
    case Critical => {Critical}
  }

  /** A rule applies to its own purpose, and from its own level of criticality on. */
  lemma AppliesExactlyWhen(rule: Rule, purpose: Purpose, criticality: Option<Level>)
    ensures Applies(rule, purpose, criticality) <==>
            && rule.purpose == purpose
            && (rule.minCriticality.None? || (criticality.Some? && criticality.value in AtLeast(rule.minCriticality.value)))
  {
  }

  /**
    The rule chosen sits at the highest level any applicable rule names, and of those asks for the most
    signers; with no applicable rule one signer is enough.
   */
  lemma QuorumIsMostSpecific(quorum: seq<Rule>, purpose: Purpose, criticality: Option<Level>, r: Rule)
    ensures var rule := QuorumRule(quorum, purpose, criticality);
            && (r in quorum && Applies(r, purpose, criticality) ==>
                  && rule in quorum && Applies(rule, purpose, criticality)
                  && (r.minCriticality.Some? ==>
                        rule.minCriticality.Some? && rule.minCriticality.value in AtLeast(r.minCriticality.value))
                  && (r.minCriticality == rule.minCriticality ==> r.n <= rule.n))
            && (rule in quorum || rule == Rule(purpose, 1, [], false, None))
  {
    var rule := QuorumRule(quorum, purpose, criticality);
    if r in quorum && Applies(r, purpose, criticality) {
      assert KeyAtMost(r, rule);
    }
  }

  /** The reason a plan needs a human, told from the plan and the releases it crosses. */
  ghost predicate Holds(
    reason: Reason, policy: Policy, plan: Plan, skipGates: bool, catalog: Catalog, criticality: Option<Level>)
  {
    match reason
    case ManualMode => policy.mode == Manual
    case HostSteps => exists step :: step in plan.steps && step.host
    case MultiParty => exists rule :: rule in policy.quorum && rule.n > 1 && Governs(rule, plan, skipGates, criticality)
    case GatesSkipped => skipGates
    case Reversal => exists step :: step in plan.steps && Reverse(step)
    case Migration => exists step, r :: step in plan.steps && MovesTo(catalog, step, r) && r.hasMigration
    case IdentityConfig => exists step, r :: step in plan.steps && MovesTo(catalog, step, r) && r.changesIdentity
    case ReversedMigration => false
    case Product(name) =>
      && name in policy.requireHuman
      && (name in plan.inputs || exists step :: step in plan.steps && step.product == name)
  }

  /** The rule's purpose is the plan's: skipping gates before rolling back before downgrading before plain execution. */
  ghost predicate Governs(rule: Rule, plan: Plan, skipGates: bool, criticality: Option<Level>) {
    && Applies(rule, rule.purpose, criticality)
    && match rule.purpose
       case SkipGates => skipGates
       case RollbackPurpose => !skipGates && Does(plan, RollBack)
       case DowngradePurpose => !skipGates && !Does(plan, RollBack) && Does(plan, Downgrade)
       case ExecutePlan => !skipGates && !Does(plan, RollBack) && !Does(plan, Downgrade)
  }

  ghost predicate Does(plan: Plan, action: Action) {
    exists step :: step in plan.steps && step.action == action
  }

  lemma DoesMeans(plan: Plan)
    ensures AnyRollback(plan.steps) <==> Does(plan, RollBack)
    ensures AnyDowngrade(plan.steps) <==> Does(plan, Downgrade)
    ensures AnyHost(plan.steps) <==> exists step :: step in plan.steps && step.host
  {
    assert forall i :: 0 <= i < |plan.steps| ==> plan.steps[i] in plan.steps;
  }

  lemma {:induction false} FirstMentionedIsListed(plan: Plan, products: seq<string>)
    ensures FirstMentioned(plan, products).Some? ==>
              FirstMentioned(plan, products).value in products && Mentions(plan, FirstMentioned(plan, products).value)
  {
    if products != [] {
      FirstMentionedIsListed(plan, products[1..]);
    }
  }

  /** The reason given is true of the plan; a reversed migration is always met as a reversal first. */
  lemma ReasonIsTrue(policy: Policy, plan: Plan, skipGates: bool, catalog: Catalog, criticality: Option<Level>)
    ensures var d := Evaluate(policy, plan, skipGates, PlanSignals(catalog, plan.steps), criticality);
            d.RequireHuman? ==> Holds(d.reason, policy, plan, skipGates, catalog, criticality)
  {
    DoesMeans(plan);
    PlanMeans(catalog, plan.steps);
    FirstMentionedIsListed(plan, policy.requireHuman);
    var d := Evaluate(policy, plan, skipGates, PlanSignals(catalog, plan.steps), criticality);
    if d == RequireHuman(MultiParty) {
      var rule := QuorumRule(policy.quorum, QuorumPurpose(plan.steps, skipGates), criticality);
      assert rule in policy.quorum && Governs(rule, plan, skipGates, criticality);
    }
  }

  // ----- The answer -----

  /** The policy, read now, approves the plan by itself. */
  predicate Approves(policy: Option<Policy>, plan: Plan, skipGates: bool, signals: Signals, criticality: Option<Level>) {
    policy.Some? && Evaluate(policy.value, plan, skipGates, signals, criticality).Automatic?
  }

  /** A fresh envelope is due: there is none, or an automatic one that expired or is of another policy or key. */
  predicate Due(file: File, policy: Policy, keyId: string, now: int) {
    || file.NoFile?
    || (&& file.Holds? && file.envelope.provider == PolicyProvider
        && (|| now >= file.envelope.expiresAt || file.envelope.policyDigest != policy.digest
            || file.envelope.keyId != keyId))
  }

  /** The error of a key that does not load is taken for a missing one. */
  predicate TakenForMissing(host: Host, policy: Policy)
    requires host.seed.NoSeed? && policy.signerKey.Some?
  {
    var path := policy.signerKey.value;
    host.seed.fault.Missing? || Contains(path, "missing") || Contains(path, "not found")
  }

  /**
    A human is asked for exactly when nobody else signed and the policy does not approve, or its key
    does not load (for want of an envelope, only a key taken for missing), or a due envelope cannot be
    written and its path reads like a missing key.
   */
  lemma NeedsHumanExactlyWhen(
    path: string, file: File, policy: Option<Policy>, plan: Plan, skipGates: bool, signals: Signals,
    now: int, criticality: Option<Level>, host: Host)
    requires policy.Some? ==> ValidPolicy(policy.value)
    ensures Resolution(path, file, Ok(policy), plan, skipGates, signals, now, criticality, host).0 == NeedsHuman <==>
            && (file.NoFile? || (file.Holds? && file.envelope.provider == PolicyProvider))
            && (|| !Approves(policy, plan, skipGates, signals, criticality)
                || (host.seed.NoSeed? && (file.Holds? || TakenForMissing(host, policy.value)))
                || (&& host.seed.Seed? && Due(file, policy.value, host.seed.keyId, now)
                    && now + policy.value.ttl <= MAX_TIME && host.write != Written && SignerUnavailable(path)))
  {
    OverflowIsNoKey();
    if host.write != Written {
      WriteTextSays(host.write, path);
    }
    if Approves(policy, plan, skipGates, signals, criticality) && host.seed.NoSeed? {
      SeedTextSays(host.seed.fault, policy.value.signerKey.value);
    }
  }

  /** A plan may run exactly when someone else signed it, or the policy approves it and its envelope is good or written. */
  lemma SignedExactlyWhen(
    path: string, file: File, policy: Option<Policy>, plan: Plan, skipGates: bool, signals: Signals,
    now: int, criticality: Option<Level>, host: Host)
    requires policy.Some? ==> ValidPolicy(policy.value)
    ensures Resolution(path, file, Ok(policy), plan, skipGates, signals, now, criticality, host).0 == Signed <==>
            || (file.Holds? && file.envelope.provider != PolicyProvider)
            || (&& !file.Garbage? && Approves(policy, plan, skipGates, signals, criticality) && host.seed.Seed?
                && (Due(file, policy.value, host.seed.keyId, now) ==>
                      now + policy.value.ttl <= MAX_TIME && host.write == Written))
  {
  }

  /** A new envelope is bound to the plan, the gates, the policy and the key, and expires after the policy's time. */
  lemma FreshEnvelope(
    path: string, file: File, policy: Option<Policy>, plan: Plan, skipGates: bool, signals: Signals,
    now: int, criticality: Option<Level>, host: Host)
    requires policy.Some? ==> ValidPolicy(policy.value)
    ensures var (answer, after) := Resolution(path, file, Ok(policy), plan, skipGates, signals, now, criticality, host);
            answer == Signed && after != file ==>
              && policy.Some? && host.seed.Seed? && after.Holds? && Due(file, policy.value, host.seed.keyId, now)
              && after.envelope.provider == PolicyProvider && after.envelope.keyId == host.seed.keyId
              && after.envelope.planDigest == plan.digest && after.envelope.environment == plan.environment
              && !after.envelope.skipGates && !skipGates && after.envelope.policyDigest == policy.value.digest
              && after.envelope.issuedAt == now && after.envelope.expiresAt == now + policy.value.ttl > now
  {
  }

  // ----- The explanation -----

  predicate Pending(plan: Plan) {
    plan.state == Computed || plan.state == Blocked
  }

  /** Explained by local development: the bypass of this host, or one the plan has already run under. */
  predicate Bypassed(plan: Plan, recorded: Option<Recorded>, execution: Execution) {
    if Pending(plan) then execution.developmentReason && plan.environment == "local"
    else recorded.Some? && recorded.value.provider == LocalDevelopment
  }

  predicate HumanRecorded(recorded: Option<Recorded>) {
    recorded.Some? && recorded.value.provider.Human?
  }

  /** The host would sign for the policy now, with a key its trust roots give to policies alone. */
  predicate WouldSign(policy: Option<Policy>, plan: Plan, signals: Signals, execution: Execution,
                      criticality: Option<Level>, host: Host)
  {
    && Approves(policy, plan, execution.skipGates, signals, criticality)
    && policy.value.signerKey.Some? && host.seed.Seed? && execution.autoSigning
    && (execution.trustRoots.Some? ==>
          var roots := execution.trustRoots.value;
          && roots.Roots? && host.seed.keyId in roots.signers
          && plan.environment in roots.signers[host.seed.keyId].environments
          && roots.signers[host.seed.keyId].providers == [PolicyProvider])
  }

  lemma ByDevelopmentExactlyWhen(
    policy: Option<Policy>, plan: Plan, signals: Signals, recorded: Option<Recorded>, now: int,
    execution: Execution, criticality: Option<Level>, host: Host)
    ensures Explain(policy, plan, signals, recorded, now, execution, criticality, host) == ByDevelopment <==>
            Bypassed(plan, recorded, execution)
  {
  }

  /** A recorded human is named unless the plan still waits and the approval expired or is for other gates. */
  lemma ByHumanExactlyWhen(
    policy: Option<Policy>, plan: Plan, signals: Signals, recorded: Option<Recorded>, now: int,
    execution: Execution, criticality: Option<Level>, host: Host, provider: Provider)
    ensures Explain(policy, plan, signals, recorded, now, execution, criticality, host) == ByHuman(provider) <==>
            && !Bypassed(plan, recorded, execution) && HumanRecorded(recorded) && recorded.value.provider == provider
            && (Pending(plan) ==> now <= recorded.value.expiresAt && recorded.value.skipGates == execution.skipGates)
  {
  }

  /** By policy: a plan that ran under it, or one the host would sign for now with no human on record. */
  lemma ByPolicyExactlyWhen(
    policy: Option<Policy>, plan: Plan, signals: Signals, recorded: Option<Recorded>, now: int,
    execution: Execution, criticality: Option<Level>, host: Host)
    ensures Explain(policy, plan, signals, recorded, now, execution, criticality, host).ByPolicy? <==>
            && !Bypassed(plan, recorded, execution) && !HumanRecorded(recorded)
            && (|| (!Pending(plan) && recorded.Some? && recorded.value.provider == PolicyProvider)
                || WouldSign(policy, plan, signals, execution, criticality, host))
  {
  }

  /** Nothing covers the plan: the human approval no longer does, or there is none and the host would not sign. */
  lemma RequiredExactlyWhen(
    policy: Option<Policy>, plan: Plan, signals: Signals, recorded: Option<Recorded>, now: int,
    execution: Execution, criticality: Option<Level>, host: Host)
    ensures Explain(policy, plan, signals, recorded, now, execution, criticality, host) == Required <==>
            && !Bypassed(plan, recorded, execution)
            && if HumanRecorded(recorded)
               then Pending(plan) && (now > recorded.value.expiresAt || recorded.value.skipGates != execution.skipGates)
               else && (Pending(plan) || recorded.None? || recorded.value.provider != PolicyProvider)
                    && !WouldSign(policy, plan, signals, execution, criticality, host)
  {
  }

  /**
    The explanation against the answer, for a waiting plan with no human on record or file, on a host
    that signs and lists no trust roots: `required` is explained exactly when resolving signs nothing,
    as long as the clock and the disk let it write.
   */
  lemma RequiredIsUnsigned(
    path: string, file: File, policy: Option<Policy>, plan: Plan, signals: Signals, recorded: Option<Recorded>, now: int,
    execution: Execution, criticality: Option<Level>, host: Host)
    requires policy.Some? ==> ValidPolicy(policy.value) && now + policy.value.ttl <= MAX_TIME
    requires Pending(plan) && !Bypassed(plan, recorded, execution) && !HumanRecorded(recorded)
    requires file.NoFile? || IsAutomatic(file)
    requires host.write == Written && execution.autoSigning && execution.trustRoots.None?
    ensures Explain(policy, plan, signals, recorded, now, execution, criticality, host) == Required <==>
            Resolution(path, file, Ok(policy), plan, execution.skipGates, signals, now, criticality, host).0 != Signed
  {
    RequiredExactlyWhen(policy, plan, signals, recorded, now, execution, criticality, host);
    SignedExactlyWhen(path, file, policy, plan, execution.skipGates, signals, now, criticality, host);
  }
}
