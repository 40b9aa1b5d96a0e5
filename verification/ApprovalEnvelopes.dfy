/** Signing, reusing and explaining automatic approvals: src/approval_policy.rs. */
module ApprovalEnvelopes {
  import opened Wrappers
  import opened Delivery
  import opened Approval
  import opened ApprovalTexts

  const MAX_TIME: int := 0x7FFF_FFFF_FFFF_FFFF

  datatype Provider = PolicyProvider | LocalDevelopment | Human(name: string)

  datatype Envelope = Envelope(provider: Provider, keyId: string, planDigest: string, environment: string,
                               skipGates: bool, issuedAt: int, expiresAt: int, policyDigest: string)

  /** The file at a plan's envelope path; `Garbage` does not parse. */
  datatype File = NoFile | Garbage | Holds(envelope: Envelope)

  /** The file a policy's signer key names. */
  datatype SeedFile = Seed(keyId: string) | NoSeed(fault: SeedFault)

  /** The host as one call finds it: the signer key, and how a write of the envelope will go. */
  datatype Host = Host(seed: SeedFile, write: Write)

  datatype Resolved = Signed | NeedsHuman | Error

  /** What `ApprovalPolicy::load` lets through. */
  predicate ValidPolicy(policy: Policy) {
    policy.ttl > 0 && (policy.mode == Auto ==> policy.signerKey.Some?)
  }

  predicate SignerPresent(policy: Policy, host: Host) {
    policy.signerKey.Some? && host.seed.Seed?
  }

  predicate IsAutomatic(file: File) {
    file.Holds? && file.envelope.provider == PolicyProvider
  }

  /** `auto_envelope_current`, once the signer is known to be present. */
  predicate Current(envelope: Envelope, policy: Policy, seed: SeedFile, now: int)
    requires seed.Seed?
  {
    now < envelope.expiresAt && envelope.policyDigest == policy.digest && envelope.keyId == seed.keyId
  }

  function SignedFor(policy: Policy, plan: Plan, skipGates: bool, now: int, keyId: string): (envelope: Envelope) {
    Envelope(PolicyProvider, keyId, plan.digest, plan.environment, skipGates, now, now + policy.ttl, policy.digest)
  }

  /** What the caller of `sign_auto_approval` makes of an error. */
  function Failed(text: string): (answer: Resolved) {
    if SignerUnavailable(text) then NeedsHuman else Error
  }

  /** `$DIR/<plan-id>.json` */
  function EnvelopePath(directory: string, plan: Plan): (path: string) {
    directory + "/" + plan.id + ".json"
  }

  /** `sign_auto_approval` at `path`: the answer its caller gives, and the file afterwards. */
  function SignAuto(path: string, file: File, policy: Policy, plan: Plan, skipGates: bool, now: int, host: Host)
    : (r: (Resolved, File))
  {
    if policy.signerKey.None? then (Failed(NO_SIGNER_KEY), file)
    else if host.seed.NoSeed? then (Failed(SeedText(host.seed.fault, policy.signerKey.value)), file)
    else if now + policy.ttl > MAX_TIME then (Failed(OVERFLOWED), file)
    else if host.write == Written then (Signed, Holds(SignedFor(policy, plan, skipGates, now, host.seed.keyId)))
    else (Failed(WriteText(host.write, path)), if host.write == Unwritable(true) then Garbage else file)
  }

  /** `resolve_auto_envelope`: the answer, and the envelope file afterwards. `policy` is `Err` when it does not load. */
  function Resolution(
    path: string, file: File, policy: Result<Option<Policy>>, plan: Plan, skipGates: bool, signals: Signals,
    now: int, criticality: Option<Level>, host: Host): (r: (Resolved, File))
  {
    if policy.Err? then (Error, file)
    else
      var automatic := policy.value.Some?
                       && Evaluate(policy.value.value, plan, skipGates, signals, criticality).Automatic?;
      match file
      case Garbage => (Error, file)
      case Holds(envelope) =>
        if envelope.provider != PolicyProvider then (Signed, file)
        else if !automatic || !SignerPresent(policy.value.value, host) then (NeedsHuman, file)
        else if Current(envelope, policy.value.value, host.seed, now) then (Signed, file)
        else SignAuto(path, file, policy.value.value, plan, skipGates, now, host)
      case NoFile =>
        if !automatic then (NeedsHuman, file)
        else SignAuto(path, file, policy.value.value, plan, skipGates, now, host)
  }

  // ----- Automatic approval is live -----

  /** An automatic answer rests on the live policy: it decides so now, and the envelope is its own, unexpired. */
  lemma SignedIsLive(
    path: string, file: File, policy: Result<Option<Policy>>, plan: Plan, skipGates: bool, signals: Signals,
    now: int, criticality: Option<Level>, host: Host)
    requires policy.Ok? && policy.value.Some? ==> ValidPolicy(policy.value.value)
    ensures var (answer, after) := Resolution(path, file, policy, plan, skipGates, signals, now, criticality, host);
            answer == Signed && IsAutomatic(after) ==>
              && policy.Ok? && policy.value.Some?
              && Evaluate(policy.value.value, plan, skipGates, signals, criticality).Automatic?
              && SignerPresent(policy.value.value, host)
              && Current(after.envelope, policy.value.value, host.seed, now)
  {
  }

  /**
    From the releases to the envelope: an automatic answer on a plan's own signals never lets it
    cross a declared migration.
   */
  lemma SignedCrossesNoMigration(
    path: string, file: File, policy: Result<Option<Policy>>, plan: Plan, skipGates: bool, catalog: Catalog,
    now: int, criticality: Option<Level>, host: Host)
    requires policy.Ok? && policy.value.Some? ==> ValidPolicy(policy.value.value)
    ensures var (answer, after) :=
              Resolution(path, file, policy, plan, skipGates, PlanSignals(catalog, plan.steps), now, criticality, host);
            answer == Signed && IsAutomatic(after) ==>
              !skipGates && forall step :: step in plan.steps ==> Unremarkable(catalog, step)
  {
    var (answer, after) :=
      Resolution(path, file, policy, plan, skipGates, PlanSignals(catalog, plan.steps), now, criticality, host);
    SignedIsLive(path, file, policy, plan, skipGates, PlanSignals(catalog, plan.steps), now, criticality, host);
    if answer == Signed && IsAutomatic(after) {
      AutomaticExactlyWhen(policy.value.value, plan, skipGates, catalog, criticality);
    }
  }

  /**
    A human's envelope is honoured and never overwritten; anything but a written signature changes
    no readable envelope to another.
   */
  lemma FilesAreKept(
    path: string, file: File, policy: Result<Option<Policy>>, plan: Plan, skipGates: bool, signals: Signals,
    now: int, criticality: Option<Level>, host: Host)
    ensures var (answer, after) := Resolution(path, file, policy, plan, skipGates, signals, now, criticality, host);
            && (file.Holds? && !IsAutomatic(file) && policy.Ok? ==> answer == Signed)
            && (file.Holds? && !IsAutomatic(file) ==> after == file)
            && (answer != Signed ==> after == file || after == Garbage)
            && (answer == Signed ==> after.Holds?)
  {
  }

  // ----- The explanation -----

  datatype Recorded = Recorded(provider: Provider, expiresAt: int, skipGates: bool, policyDigest: string, keyId: string)

  datatype Signer = Signer(environments: seq<string>, providers: seq<Provider>)

  /** The trust roots file of a host. */
  datatype Roots = UnreadableRoots | Roots(signers: map<string, Signer>)

  datatype Execution = Execution(skipGates: bool, autoSigning: bool, trustRoots: Option<Roots>, developmentReason: bool)

  datatype View = ByPolicy(stale: bool) | ByHuman(provider: Provider) | ByDevelopment | Required

  predicate Waiting(plan: Plan) {
    plan.state.Computed? || plan.state.Blocked?
  }

  predicate Trusted(policy: Policy, plan: Plan, roots: Roots, host: Host) {
    && SignerPresent(policy, host)
    && roots.Roots? && host.seed.keyId in roots.signers
    && plan.environment in roots.signers[host.seed.keyId].environments
    && roots.signers[host.seed.keyId].providers == [PolicyProvider]
  }

  /** `explain_plan_approval`, without its texts. */
  function Explain(
    policy: Option<Policy>, plan: Plan, signals: Signals, recorded: Option<Recorded>, now: int,
    execution: Execution, criticality: Option<Level>, host: Host): (view: View)
  {
    if Waiting(plan) && execution.developmentReason && plan.environment == "local" then ByDevelopment
    else if recorded.Some? && recorded.value.provider.LocalDevelopment? && !Waiting(plan) then ByDevelopment
    else if recorded.Some? && recorded.value.provider.Human? then
      if Waiting(plan) && (now > recorded.value.expiresAt || recorded.value.skipGates != execution.skipGates) then Required
      else ByHuman(recorded.value.provider)
    else if recorded.Some? && recorded.value.provider.PolicyProvider? && !Waiting(plan) then ByPolicy(false)
    else if policy.None? then Required
    else if !Evaluate(policy.value, plan, execution.skipGates, signals, criticality).Automatic? then Required
    else if !SignerPresent(policy.value, host) || !execution.autoSigning then Required
    else if execution.trustRoots.Some? && !Trusted(policy.value, plan, execution.trustRoots.value, host) then Required
    else ByPolicy(&& recorded.Some? && recorded.value.provider.PolicyProvider?
                  && (|| now > recorded.value.expiresAt
                      || policy.value.digest != recorded.value.policyDigest || host.seed.keyId != recorded.value.keyId))
  }

  /**
    When a waiting plan is explained as approved by policy, resolving it asks for a human only if a
    fresh envelope has to be written, that fails, and the envelope's path reads like a missing key.
   */
  lemma ExplainedByPolicy(
    path: string, file: File, policy: Policy, plan: Plan, signals: Signals, recorded: Option<Recorded>,
    now: int, execution: Execution, criticality: Option<Level>, host: Host)
    requires ValidPolicy(policy) && Waiting(plan)
    requires Explain(Some(policy), plan, signals, recorded, now, execution, criticality, host).ByPolicy?
    ensures var (answer, _) :=
              Resolution(path, file, Ok(Some(policy)), plan, execution.skipGates, signals, now, criticality, host);
            answer == NeedsHuman <==>
            && SignerUnavailable(path) && host.write != Written && now + policy.ttl <= MAX_TIME
            && (file.NoFile? || (IsAutomatic(file) && !Current(file.envelope, policy, host.seed, now)))
  {
    OverflowIsNoKey();
    if host.write != Written {
      WriteTextSays(host.write, path);
    }
  }

  /** So a path without those words makes explanation and resolution agree. */
  lemma ExplanationAgrees(
    path: string, file: File, policy: Policy, plan: Plan, signals: Signals, recorded: Option<Recorded>,
    now: int, execution: Execution, criticality: Option<Level>, host: Host)
    requires ValidPolicy(policy) && Waiting(plan) && !SignerUnavailable(path)
    requires Explain(Some(policy), plan, signals, recorded, now, execution, criticality, host).ByPolicy?
    ensures var (answer, _) :=
              Resolution(path, file, Ok(Some(policy)), plan, execution.skipGates, signals, now, criticality, host);
            && answer != NeedsHuman
            && (host.write == Written && now + policy.ttl <= MAX_TIME && !file.Garbage? ==> answer == Signed)
  {
    ExplainedByPolicy(path, file, policy, plan, signals, recorded, now, execution, criticality, host);
  }

  /** Such a path: an approval directory named after a signer key that went missing, on a disk that takes no more. */
  lemma PathCanMislead() returns (path: string, policy: Policy, plan: Plan, host: Host)
    ensures path == EnvelopePath("signer key missing", plan)
    ensures ValidPolicy(policy) && Waiting(plan)
    ensures Explain(Some(policy), plan, NONE, None, 0, Execution(false, true, None, false), None, host).ByPolicy?
    ensures Resolution(path, NoFile, Ok(Some(policy)), plan, false, NONE, 0, None, host).0 == NeedsHuman
  {
    policy := Policy(Auto, 1, Some("k"), [], [], "d");
    plan := Plan("p", "e", Computed, [], [], "d");
    host := Host(Seed("k"), Unwritable(false));
    path := EnvelopePath("signer key missing", plan);
    assert path == "signer key missing" + ("/" + plan.id + ".json");
    assert HasAt(path, SIGNER_KEY, 0);
    assert HasAt("signer key missing", MISSING, 11);
    assert HasAt(path, MISSING, 11);
    ExplainedByPolicy(path, NoFile, policy, plan, NONE, None, 0, Execution(false, true, None, false), None, host);
  }

  ghost predicate Mirrors(recorded: Recorded, envelope: Envelope) {
    && recorded.provider == envelope.provider && recorded.expiresAt == envelope.expiresAt
    && recorded.policyDigest == envelope.policyDigest && recorded.keyId == envelope.keyId
  }

  /**
    What is called stale is what resolving replaces, except in the millisecond of expiry: that
    envelope is replaced too.
   */
  lemma StaleIsReplaced(
    path: string, policy: Policy, plan: Plan, signals: Signals, recorded: Recorded, now: int,
    execution: Execution, criticality: Option<Level>, host: Host, envelope: Envelope)
    requires ValidPolicy(policy) && Waiting(plan) && Mirrors(recorded, envelope) && envelope.provider == PolicyProvider
    requires host.write == Written && now + policy.ttl <= MAX_TIME
    requires Explain(Some(policy), plan, signals, Some(recorded), now, execution, criticality, host).ByPolicy?
    ensures var stale := Explain(Some(policy), plan, signals, Some(recorded), now, execution, criticality, host).stale;
            var (answer, after) := Resolution(
              path, Holds(envelope), Ok(Some(policy)), plan, execution.skipGates, signals, now, criticality, host);
            && answer == Signed && IsAutomatic(after)
            && (stale || now == envelope.expiresAt <==> !Current(envelope, policy, host.seed, now))
            && (if stale || now == envelope.expiresAt
                then after.envelope == SignedFor(policy, plan, execution.skipGates, now, host.seed.keyId)
                else after.envelope == envelope)
  {
  }

  // ----- The directory -----

  class Approvals {
    const directory: string
    var files: map<string, File>

    /** No automatic envelope lets gates be skipped. */
    ghost predicate Valid()
      reads this
    {
      forall id :: id in files && IsAutomatic(files[id]) ==> !files[id].envelope.skipGates
    }

    function At(id: string): (file: File)
      reads this
    {
      if id in files then files[id] else NoFile
    }

    constructor (directory: string)
      ensures Valid() && this.directory == directory && files == map[]
    {
      this.directory, files := directory, map[];
    }

    /** `resolve_auto_envelope` on the approval directory. */
    method ResolveAutoEnvelope(policy: Result<Option<Policy>>, plan: Plan, skipGates: bool, signals: Signals, now: int,
                               criticality: Option<Level>, host: Host)
      returns (answer: Resolved)
      requires Valid()
      modifies this
      ensures Valid()
      ensures (answer, At(plan.id)) ==
                Resolution(EnvelopePath(directory, plan), old(At(plan.id)), policy, plan, skipGates, signals,
                           now, criticality, host)
      ensures forall id :: id != plan.id ==> At(id) == old(At(id))
    {
      if policy.Err? { return Error; }
      var automatic := policy.value.Some?
                       && Evaluate(policy.value.value, plan, skipGates, signals, criticality).Automatic?;
      var file := At(plan.id);
      if file.Garbage? { return Error; }
      if file.Holds? {
        if !IsAutomatic(file) { return Signed; }
        if !automatic || !SignerPresent(policy.value.value, host) { return NeedsHuman; }
        if Current(file.envelope, policy.value.value, host.seed, now) { return Signed; }
      }
      if !automatic { return NeedsHuman; }
      answer := SignAutoApproval(policy.value.value, plan, skipGates, now, host);
    }

    method SignAutoApproval(
      policy: Policy, plan: Plan, skipGates: bool, now: int, host: Host)
      returns (answer: Resolved)
      requires Valid() && !skipGates
      modifies this
      ensures Valid()
      ensures (answer, At(plan.id)) ==
                SignAuto(EnvelopePath(directory, plan), old(At(plan.id)), policy, plan, skipGates, now, host)
      ensures forall id :: id != plan.id ==> At(id) == old(At(id))
    {
      if policy.signerKey.None? { return Failed(NO_SIGNER_KEY); }
      if host.seed.NoSeed? { return Failed(SeedText(host.seed.fault, policy.signerKey.value)); }
      if now + policy.ttl > MAX_TIME { return Failed(OVERFLOWED); }
      var path := EnvelopePath(directory, plan);
      if host.write == Written {
        files := files[plan.id := Holds(SignedFor(policy, plan, skipGates, now, host.seed.keyId))];
        return Signed;
      }
      if host.write == Unwritable(true) {
        files := files[plan.id := Garbage];
      }
      answer := Failed(WriteText(host.write, path));
    }
  }
}
