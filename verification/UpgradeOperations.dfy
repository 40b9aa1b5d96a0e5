/**
  The operations of src/connectivity.rs in the form the source gives them: each assigns its local
  copy of the record field by field and hands it to `persist`. Every method is proved equal to
  `Upgrade.Run`, the function the protocol model reasons about.
 */
module UpgradeOperations {
  import opened Wrappers
  import opened Upgrade

  method FindEnvironment(record: UpgradeRecord, environment: string) returns (index: Option<nat>)
    ensures index == EnvIndex(record.environments, environment)
  {
    var i := 0;
    while i < |record.environments|
      invariant 0 <= i <= |record.environments|
      invariant forall j :: 0 <= j < i ==> record.environments[j].name != environment
    {
      if record.environments[i].name == environment {
        return Some(i);
      }
      i := i + 1;
    }
    return None;
  }

  method InterruptTransferLocked(loaded: UpgradeRecord, environment: string, created: string, generation: nat)
    returns (attempt: Attempt)
    ensures attempt == Run(InterruptTransfer(environment, created, generation), loaded)
  {
    var record := loaded;
    var found := FindEnvironment(record, environment);
    if found.None? { return Refused; }
    var entry := record.environments[found.value];
    if entry.class_ != Intermittent { return Refused; }
    if entry.status == EnvironmentStatus.Applied { return Refused; }
    var planId := EnsurePlan(entry, created);
    entry := entry.(planId := Some(planId));
    entry := entry.(transfer := Some(TransferCheckpoint(
      planId, record.header.releaseDigest, record.header.releaseDigest, record.header.artifactDigest, generation, false)));
    entry := entry.(status := EnvironmentStatus.Interrupted);
    entry := entry.(detail := TransferInterrupted);
    record := record.(environments := record.environments[found.value := entry]);
    record := record.(status := UpgradeStatus.Interrupted);
    attempt := Persist(record);
  }

  method ResumeTransferLocked(loaded: UpgradeRecord, environment: string, generation: nat) returns (attempt: Attempt)
    ensures attempt == Run(ResumeTransfer(environment, generation), loaded)
  {
    var record := loaded;
    var found := FindEnvironment(record, environment);
    if found.None? { return Refused; }
    var entry := record.environments[found.value];
    if entry.class_ != Intermittent { return Refused; }
    if entry.transfer.None? { return Refused; }
    var checkpoint := entry.transfer.value;
    if checkpoint.generation != generation {
      entry := entry.(status := EnvironmentStatus.Conflicted);
      entry := entry.(detail := StaleGenerationOnResume);
      record := record.(environments := record.environments[found.value := entry]);
      record := record.(status := UpgradeStatus.Conflicted);
      return Persist(record);
    }
    if checkpoint.releaseDigest != record.header.releaseDigest || checkpoint.artifactDigest != record.header.artifactDigest {
      return Refused;
    }
    checkpoint := checkpoint.(verified := true);
    entry := entry.(transfer := Some(checkpoint));
    entry := entry.(detail := TransferVerified);
    record := record.(environments := record.environments[found.value := entry]);
    attempt := Persist(record);
  }

  /** How the class adapter of `AdvanceLocked` leaves its environment. */
  datatype AdapterExit = Proceed | PersistNow | Bail

  /** The match over the connectivity class, on the entry and the status it assigns. */
  method RunClassAdapter(header: Header, planned: EnvironmentRecord, generation: nat, applied: bool)
    returns (entry: EnvironmentRecord, status: UpgradeStatus, exit: AdapterExit)
    requires planned.planId.Some?
    ensures var change := AdvanceEntry(header, planned, planned.planId.value, generation, applied);
            && (exit == Bail <==> change.Refuse?)
            && (exit != Bail ==> entry == change.entry)
            && (exit == PersistNow ==> change.status == SetStatus(status))
            && (exit == Proceed ==>
                  if entry.status == EnvironmentStatus.Applied
                  then change.status == Aggregate && status == UpgradeStatus.Running
                  else change.status == SetStatus(status) && status == UpgradeStatus.Interrupted)
  {
    entry, status, exit := planned, UpgradeStatus.Running, Proceed;
    match entry.class_ {
      case Connected =>
        if !applied { exit := Bail; return; }
        entry := entry.(status := EnvironmentStatus.Applied, detail := ConnectedApplied);
      case Intermittent =>
        if entry.transfer.None? {
          entry := entry.(transfer := Some(TransferCheckpoint(
            entry.planId.value, header.releaseDigest, header.releaseDigest, header.artifactDigest, generation, false)));
          entry := entry.(status := EnvironmentStatus.Interrupted,
                          detail := TransferNeedsResume);
          status := UpgradeStatus.Interrupted;
        } else if !entry.transfer.value.verified {
          entry := entry.(status := EnvironmentStatus.Interrupted, detail := TransferUnverified);
          status := UpgradeStatus.Interrupted;
        } else if entry.transfer.value.generation != generation {
          entry := entry.(status := EnvironmentStatus.Conflicted,
                          detail := StaleGenerationOnAdvance);
          status, exit := UpgradeStatus.Conflicted, PersistNow;
        } else {
          if !applied { exit := Bail; return; }
          entry := entry.(status := EnvironmentStatus.Applied,
                          detail := IntermittentApplied);
        }
      case Isolated =>
        if entry.isolated.None? {
          entry := entry.(status := EnvironmentStatus.Interrupted,
                          detail := BundleRequired);
          status := UpgradeStatus.Interrupted;
        } else if entry.isolated.value.receiptDigest.None? {
          entry := entry.(status := EnvironmentStatus.Interrupted,
                          detail := ReceiptRequired);
          status := UpgradeStatus.Interrupted;
        } else {
          if !applied { exit := Bail; return; }
          entry := entry.(status := EnvironmentStatus.Applied, detail := IsolatedApplied);
        }
    }
  }

  method AdvanceLocked(loaded: UpgradeRecord, target: string, created: string, generation: nat, applied: bool)
    returns (attempt: Attempt)
    ensures attempt == Run(Advance(target, created, generation, applied), loaded)
  {
    var record := loaded;
    var found := FindEnvironment(record, target);
    if found.None? || !NeedsWork(record.environments[found.value]) {
      record := record.(status := Summarize(record.environments));
      return Persist(record);
    }
    record := record.(status := UpgradeStatus.Running);
    var index := found.value;
    var planned := record.environments[index];
    planned := planned.(planId := Some(EnsurePlan(planned, created)));
    var entry, status, exit := RunClassAdapter(record.header, planned, generation, applied);
    if exit == Bail { return Refused; }
    record := record.(environments := record.environments[index := entry], status := status);
    if exit == PersistNow { return Persist(record); }
    assert record.environments[index] == entry;
    if forall e <- record.environments :: e.status == EnvironmentStatus.Applied {
      record := record.(status := UpgradeStatus.Succeeded);
    } else if record.status !in {UpgradeStatus.Interrupted, UpgradeStatus.Conflicted, UpgradeStatus.Failed} {
      record := record.(status := Summarize(record.environments));
    }
    attempt := Persist(record);
  }

  method BindIsolatedBundleLocked(loaded: UpgradeRecord, environment: string, bundle: Bundle) returns (attempt: Attempt)
    ensures attempt == Run(BindBundle(environment, bundle), loaded)
  {
    var record := loaded;
    var found := FindEnvironment(record, environment);
    if found.None? { return Refused; }
    var entry := record.environments[found.value];
    if entry.class_ != Isolated { return Refused; }
    if entry.planId.None? { return Refused; }
    if bundle.planId != entry.planId.value { return Refused; }
    if entry.isolated.Some? && entry.isolated.value.bundleDigest != bundle.digest { return Refused; }
    entry := entry.(isolated := Some(IsolatedEvidence(
      bundle.digest,
      if entry.isolated.Some? then entry.isolated.value.receiptDigest else None,
      Some(bundle.planDigest),
      Some(bundle.approvalDigest),
      bundle.scan,
      if entry.isolated.Some? then entry.isolated.value.receipt else None)));
    entry := entry.(detail := BundleBound);
    record := record.(environments := record.environments[found.value := entry]);
    attempt := Persist(record);
  }

  method ImportIsolatedReceiptLocked(
    loaded: UpgradeRecord, environment: string, bundleDigest: string, receiptDigest: string, receipt: string)
    returns (attempt: Attempt)
    ensures attempt == Run(ImportReceipt(environment, bundleDigest, receiptDigest, receipt), loaded)
  {
    var record := loaded;
    var found := FindEnvironment(record, environment);
    if found.None? { return Refused; }
    var entry := record.environments[found.value];
    if entry.class_ != Isolated { return Refused; }
    if entry.isolated.None? { return Refused; }
    var evidence := entry.isolated.value;
    if evidence.bundleDigest != bundleDigest { return Refused; }
    if evidence.receiptDigest.Some? && evidence.receiptDigest.value == receiptDigest {
      if evidence.receipt.None? { evidence := evidence.(receipt := Some(receipt)); }
      entry := entry.(isolated := Some(evidence));
      entry := entry.(detail := DuplicateReceipt);
    } else if evidence.receiptDigest.Some? {
      entry := entry.(status := EnvironmentStatus.Conflicted);
      entry := entry.(detail := ConflictingReceipt(evidence.receiptDigest.value));
      record := record.(environments := record.environments[found.value := entry]);
      record := record.(status := UpgradeStatus.Conflicted);
      return Persist(record);
    } else {
      entry := entry.(isolated := Some(IsolatedEvidence(
        bundleDigest, Some(receiptDigest), evidence.planDigest, evidence.approvalDigest, evidence.scan, Some(receipt))));
      entry := entry.(detail := ReceiptAccepted);
    }
    record := record.(environments := record.environments[found.value := entry]);
    attempt := Persist(record);
  }

  method RollbackUpgradeLocked(loaded: UpgradeRecord, locked: seq<string>, outcomes: map<string, StepOutcome>)
    returns (attempt: Attempt)
    ensures attempt == Run(Rollback(locked, outcomes), loaded)
  {
    var record := loaded;
    var index := |record.environments|;
    while index > 0
      invariant 0 <= index <= |record.environments| == |loaded.environments|
      invariant record == loaded.(environments := record.environments)
      invariant RollbackFrom(record.environments, index, locked, outcomes)
             == RollbackFrom(loaded.environments, |loaded.environments|, locked, outcomes)
    {
      index := index - 1;
      if record.environments[index].status != EnvironmentStatus.Applied || record.environments[index].name !in locked {
        continue;
      }
      var entry := record.environments[index];
      match OutcomeFor(outcomes, entry.name) {
        case Lost => return Refused;
        case Reverted =>
          entry := entry.(status := EnvironmentStatus.RolledBack);
          entry := entry.(detail := RolledBackByPlan);
          record := record.(environments := record.environments[index := entry]);
        case ApplyFailed(error) =>
          entry := entry.(status := EnvironmentStatus.RecoveryRequired);
          entry := entry.(detail := RollbackFailed(error));
          record := record.(environments := record.environments[index := entry],
              status := UpgradeStatus.RecoveryRequired);
          return Persist(record);
        case PlanUnavailable(error) =>
          entry := entry.(status := EnvironmentStatus.RecoveryRequired);
          entry := entry.(detail := RollbackPlanUnavailable(error));
          record := record.(environments := record.environments[index := entry],
              status := UpgradeStatus.RecoveryRequired);
          return Persist(record);
      }
    }
    record := record.(status := UpgradeStatus.RolledBack);
    attempt := Persist(record);
  }
}
