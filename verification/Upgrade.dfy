/**
  The upgrade record of src/connectivity.rs and what each operation does to it.

  `Run` is the specification of one operation on the record it loaded. The `Locked` methods of
  UpgradeOperations assign the record step by step as the source does and are proved against it.
 */
module Upgrade {
  import opened Wrappers

  datatype ConnectivityClass = Connected | Intermittent | Isolated

  datatype UpgradeStatus =
    | Admitted | Running | Interrupted | Succeeded | Failed | Conflicted | RolledBack | RecoveryRequired

  datatype EnvironmentStatus =
    | Pending | Interrupted | Applied | Conflicted | RolledBack | RecoveryRequired

  /** The detail line of an entry, one constructor for each text the source writes. */
  datatype Detail =
    | AwaitingAdapter | TransferInterrupted | StaleGenerationOnResume | TransferVerified
    | ConnectedApplied | TransferNeedsResume | TransferUnverified | StaleGenerationOnAdvance | IntermittentApplied
    | BundleRequired | ReceiptRequired | IsolatedApplied | BundleBound
    | ReceiptAccepted | DuplicateReceipt | ConflictingReceipt(accepted: string)
    | RolledBackByPlan | RollbackFailed(error: string) | RollbackPlanUnavailable(error: string)

  datatype TransferCheckpoint = TransferCheckpoint(
    planId: string,
    planDigest: string,
    releaseDigest: string,
    artifactDigest: string,
    generation: nat,
    verified: bool)

  datatype IsolatedEvidence = IsolatedEvidence(
    bundleDigest: string,
    receiptDigest: Option<string>,
    planDigest: Option<string>,
    approvalDigest: Option<string>,
    scan: Option<string>,
    receipt: Option<string>)

  datatype EnvironmentRecord = EnvironmentRecord(
    name: string,
    class_: ConnectivityClass,
    status: EnvironmentStatus,
    planId: Option<string>,
    detail: Detail,
    transfer: Option<TransferCheckpoint>,
    isolated: Option<IsolatedEvidence>)

  /** The fields of a record no operation changes. */
  datatype Header = Header(
    id: string,
    name: string,
    identityDigest: string,
    product: string,
    version: string,
    channel: string,
    releaseId: string,
    releaseDigest: string,
    artifactDigest: string,
    createdAt: int)

  datatype UpgradeRecord = UpgradeRecord(
    header: Header,
    status: UpgradeStatus,
    environments: seq<EnvironmentRecord>,
    updatedAt: int)

  /** What rolling back one environment met: `Lost` covers every early return that stores nothing. */
  datatype StepOutcome = Reverted | PlanUnavailable(error: string) | ApplyFailed(error: string) | Lost

  /**
    One operation with everything it learns from outside the record: plan ids, lease generations,
    verified bundles and receipts, and the outcome of applying plans.
   */
  datatype Operation =
    | InterruptTransfer(environment: string, createdPlan: string, generation: nat)
    | ResumeTransfer(environment: string, generation: nat)
    | Advance(environment: string, createdPlan: string, generation: nat, applied: bool)
    | BindBundle(environment: string, bundle: Bundle)
    | ImportReceipt(environment: string, bundleDigest: string, receiptDigest: string, receipt: string)
    | Rollback(locked: seq<string>, outcomes: map<string, StepOutcome>)

  datatype Bundle = Bundle(
    digest: string,
    planId: string,
    planDigest: string,
    approvalDigest: string,
    scan: Option<string>)

  /** What an operation hands to `persist`; `Refused` returns without storing anything. */
  datatype Attempt = Refused | Persist(modified: UpgradeRecord)

  /** The environments an operation leases before it reads the record. */
  function Footprint(op: Operation): (names: set<string>) {
    match op
    case Rollback(locked, _) => set name | name in locked
    case Advance("", _, _, _) => {}
    case _ => {op.environment}
  }

  // ----- Aggregate status -----

  ghost predicate AnyIn(environments: seq<EnvironmentRecord>, status: EnvironmentStatus) {
    exists i :: 0 <= i < |environments| && environments[i].status == status
  }

  ghost predicate AllIn(environments: seq<EnvironmentRecord>, status: EnvironmentStatus) {
    forall i :: 0 <= i < |environments| ==> environments[i].status == status
  }

  function Summarize(environments: seq<EnvironmentRecord>): (status: UpgradeStatus)
    ensures status == UpgradeStatus.RecoveryRequired <==> AnyIn(environments, EnvironmentStatus.RecoveryRequired)
    ensures status == UpgradeStatus.Succeeded <==> AllIn(environments, EnvironmentStatus.Applied)
    ensures status in {UpgradeStatus.Conflicted, UpgradeStatus.Interrupted} ==>
              AnyIn(environments, EnvironmentStatus.Conflicted) || AnyIn(environments, EnvironmentStatus.Interrupted)
  {
    if exists e <- environments :: e.status == EnvironmentStatus.RecoveryRequired then
      UpgradeStatus.RecoveryRequired
    else if exists e <- environments :: e.status == EnvironmentStatus.Conflicted then
      UpgradeStatus.Conflicted
    else if exists e <- environments :: e.status == EnvironmentStatus.Interrupted then
      UpgradeStatus.Interrupted
    else if forall e <- environments :: e.status == EnvironmentStatus.Applied then
      UpgradeStatus.Succeeded
    else if forall e <- environments :: e.status == EnvironmentStatus.RolledBack then
      UpgradeStatus.RolledBack
    else
      UpgradeStatus.Running
  }

  // ----- What each operation does to the entry it changes -----

  /** How an operation on one environment moves the aggregate status. */
  datatype StatusChange = KeepStatus | SetStatus(status: UpgradeStatus) | Aggregate

  datatype Change = Refuse | Put(entry: EnvironmentRecord, status: StatusChange)

  predicate NeedsWork(entry: EnvironmentRecord) {
    entry.status in {EnvironmentStatus.Pending, EnvironmentStatus.Interrupted}
  }

  function EnsurePlan(entry: EnvironmentRecord, created: string): (planId: string) {
    if entry.planId.Some? then entry.planId.value else created
  }

  function Checkpoint(header: Header, planId: string, generation: nat): (checkpoint: TransferCheckpoint) {
    TransferCheckpoint(planId, header.releaseDigest, header.releaseDigest, header.artifactDigest, generation, false)
  }

  /** `Put` of an entry that now waits, with `detail`, and marks the whole upgrade interrupted. */
  function Waits(entry: EnvironmentRecord, detail: Detail): (change: Change) {
    Put(entry.(status := EnvironmentStatus.Interrupted, detail := detail), SetStatus(UpgradeStatus.Interrupted))
  }

  function Conflicts(entry: EnvironmentRecord, detail: Detail): (change: Change) {
    Put(entry.(status := EnvironmentStatus.Conflicted, detail := detail), SetStatus(UpgradeStatus.Conflicted))
  }

  function Applies(entry: EnvironmentRecord, applied: bool, detail: Detail): (change: Change) {
    if applied then Put(entry.(status := EnvironmentStatus.Applied, detail := detail), Aggregate) else Refuse
  }

  function InterruptEntry(
    header: Header, entry: EnvironmentRecord, created: string, generation: nat): (change: Change)
  {
    if entry.class_ != Intermittent || entry.status == EnvironmentStatus.Applied then Refuse
    else
      var planId := EnsurePlan(entry, created);
      Waits(entry.(planId := Some(planId), transfer := Some(Checkpoint(header, planId, generation))),
            TransferInterrupted)
  }

  function ResumeEntry(header: Header, entry: EnvironmentRecord, generation: nat): (change: Change)
  {
    if entry.class_ != Intermittent || entry.transfer.None? then Refuse
    else
      var checkpoint := entry.transfer.value;
      if checkpoint.generation != generation then
        Conflicts(entry, StaleGenerationOnResume)
      else if checkpoint.releaseDigest != header.releaseDigest || checkpoint.artifactDigest != header.artifactDigest then
        Refuse
      else
        Put(entry.(transfer := Some(checkpoint.(verified := true)), detail := TransferVerified),
            KeepStatus)
  }

  function AdvanceEntry(
    header: Header, entry: EnvironmentRecord, created: string, generation: nat, applied: bool): (change: Change)
  {
    var planId := EnsurePlan(entry, created);
    var planned := entry.(planId := Some(planId));
    match entry.class_
    case Connected => Applies(planned, applied, ConnectedApplied)
    case Intermittent =>
      if planned.transfer.None? then
        Waits(planned.(transfer := Some(Checkpoint(header, planId, generation))),
              TransferNeedsResume)
      else if !planned.transfer.value.verified then
        Waits(planned, TransferUnverified)
      else if planned.transfer.value.generation != generation then
        Conflicts(planned, StaleGenerationOnAdvance)
      else
        Applies(planned, applied, IntermittentApplied)
    case Isolated =>
      if planned.isolated.None? then
        Waits(planned, BundleRequired)
      else if planned.isolated.value.receiptDigest.None? then
        Waits(planned, ReceiptRequired)
      else
        Applies(planned, applied, IsolatedApplied)
  }

  function BindEntry(entry: EnvironmentRecord, bundle: Bundle): (change: Change) {
    if entry.class_ != Isolated || entry.planId != Some(bundle.planId) then Refuse
    else if entry.isolated.Some? && entry.isolated.value.bundleDigest != bundle.digest then Refuse
    else
      var (receiptDigest, receipt) :=
        if entry.isolated.Some? then (entry.isolated.value.receiptDigest, entry.isolated.value.receipt)
        else (None, None);
      Put(entry.(isolated := Some(IsolatedEvidence(bundle.digest, receiptDigest, Some(bundle.planDigest),
                                                   Some(bundle.approvalDigest), bundle.scan, receipt)),
                 detail := BundleBound),
          KeepStatus)
  }

  function ReceiptEntry(
    entry: EnvironmentRecord, bundleDigest: string, receiptDigest: string, receipt: string): (change: Change)
  {
    if entry.class_ != Isolated || entry.isolated.None? || entry.isolated.value.bundleDigest != bundleDigest then Refuse
    else
      var evidence := entry.isolated.value;
      if evidence.receiptDigest.None? then
        Put(entry.(isolated := Some(evidence.(receiptDigest := Some(receiptDigest), receipt := Some(receipt))),
                   detail := ReceiptAccepted),
            KeepStatus)
      else if evidence.receiptDigest.value == receiptDigest then
        var kept := if evidence.receipt.Some? then evidence.receipt else Some(receipt);
        Put(entry.(isolated := Some(evidence.(receipt := kept)),
                   detail := DuplicateReceipt),
            KeepStatus)
      else
        Conflicts(entry, ConflictingReceipt(evidence.receiptDigest.value))
  }

  /** The change of an operation on one environment. */
  function ChangeOf(op: Operation, header: Header, entry: EnvironmentRecord): (change: Change)
    requires !op.Rollback?
  {
    match op
    case InterruptTransfer(_, created, generation) => InterruptEntry(header, entry, created, generation)
    case ResumeTransfer(_, generation) => ResumeEntry(header, entry, generation)
    case Advance(_, created, generation, applied) => AdvanceEntry(header, entry, created, generation, applied)
    case BindBundle(_, bundle) => BindEntry(entry, bundle)
    case ImportReceipt(_, bundleDigest, receiptDigest, receipt) =>
      ReceiptEntry(entry, bundleDigest, receiptDigest, receipt)
  }

  // ----- Whole operations -----

  /** The position of the first environment named `name`. */
  function EnvIndex(environments: seq<EnvironmentRecord>, name: string): (index: Option<nat>)
    ensures index.Some? ==> index.value < |environments| && environments[index.value].name == name
    ensures index.Some? ==> forall j :: 0 <= j < index.value ==> environments[j].name != name
    ensures index.None? ==> forall j :: 0 <= j < |environments| ==> environments[j].name != name
  {
    if environments == [] then None
    else if environments[0].name == name then Some(0)
    else
      var rest := EnvIndex(environments[1..], name);
      assert rest.Some? ==> forall j :: 0 < j < rest.value + 1 ==> environments[j].name == environments[1..][j - 1].name;
      assert rest.None? ==> forall j :: 0 < j < |environments| ==> environments[j].name == environments[1..][j - 1].name;
      if rest.Some? then Some(rest.value + 1) else None
  }

  function WithStatus(record: UpgradeRecord, change: StatusChange): (status: UpgradeStatus) {
    match change
    case KeepStatus => record.status
    case SetStatus(status) => status
    case Aggregate => Summarize(record.environments)
  }

  /** Store `change` at `index`. */
  function PutChange(record: UpgradeRecord, index: nat, change: Change): (attempt: Attempt)
    requires index < |record.environments|
  {
    if change.Refuse? then Refused
    else
      var changed := record.(environments := record.environments[index := change.entry]);
      Persist(changed.(status := WithStatus(changed, change.status)))
  }

  function RunEntry(op: Operation, record: UpgradeRecord): (attempt: Attempt)
    requires !op.Rollback?
  {
    var index := EnvIndex(record.environments, op.environment);
    if op.Advance? && (index.None? || !NeedsWork(record.environments[index.value])) then
      Persist(record.(status := Summarize(record.environments)))
    else if index.None? then Refused
    else PutChange(record, index.value, ChangeOf(op, record.header, record.environments[index.value]))
  }

  datatype RollbackResult =
    | Abandoned
    | Halted(environments: seq<EnvironmentRecord>)
    | Completed(environments: seq<EnvironmentRecord>)

  function OutcomeFor(outcomes: map<string, StepOutcome>, name: string): (outcome: StepOutcome) {
    if name in outcomes then outcomes[name] else Lost
  }

  predicate RollsBack(entry: EnvironmentRecord, locked: seq<string>) {
    entry.status == EnvironmentStatus.Applied && entry.name in locked
  }

  function RolledBackEntry(entry: EnvironmentRecord): (rolled: EnvironmentRecord) {
    entry.(status := EnvironmentStatus.RolledBack, detail := RolledBackByPlan)
  }

  function RecoveryEntry(entry: EnvironmentRecord, outcome: StepOutcome): (broken: EnvironmentRecord)
    requires outcome.PlanUnavailable? || outcome.ApplyFailed?
  {
    entry.(status := EnvironmentStatus.RecoveryRequired,
           detail := if outcome.PlanUnavailable? then RollbackPlanUnavailable(outcome.error) else RollbackFailed(outcome.error))
  }

  /** Roll back the first `n` entries, last first. */
  function RollbackFrom(
    environments: seq<EnvironmentRecord>, n: nat, locked: seq<string>, outcomes: map<string, StepOutcome>)
    : (result: RollbackResult)
    requires n <= |environments|
    ensures !result.Abandoned? ==> |result.environments| == |environments|
    decreases n
  {
    if n == 0 then Completed(environments)
    else if !RollsBack(environments[n - 1], locked) then RollbackFrom(environments, n - 1, locked, outcomes)
    else
      var entry := environments[n - 1];
      match OutcomeFor(outcomes, entry.name)
      case Lost => Abandoned
      case Reverted => RollbackFrom(environments[n - 1 := RolledBackEntry(entry)], n - 1, locked, outcomes)
      case outcome => Halted(environments[n - 1 := RecoveryEntry(entry, outcome)])
  }

  function RunRollback(
    record: UpgradeRecord, locked: seq<string>, outcomes: map<string, StepOutcome>): (attempt: Attempt)
  {
    match RollbackFrom(record.environments, |record.environments|, locked, outcomes)
    case Abandoned => Refused
    case Halted(environments) =>
      Persist(record.(environments := environments, status := UpgradeStatus.RecoveryRequired))
    case Completed(environments) =>
      Persist(record.(environments := environments, status := UpgradeStatus.RolledBack))
  }

  /** One operation on the record it loaded: what it hands to `persist`. */
  function Run(op: Operation, record: UpgradeRecord): (attempt: Attempt)
    ensures attempt.Persist? ==> attempt.modified.header == record.header
    ensures attempt.Persist? ==> |attempt.modified.environments| == |record.environments|
    ensures attempt.Persist? ==> attempt.modified.updatedAt == record.updatedAt
  {
    if op.Rollback? then RunRollback(record, op.locked, op.outcomes) else RunEntry(op, record)
  }
}
