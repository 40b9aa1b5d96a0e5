/** What every operation keeps about the record, whatever it learns from outside. */
module UpgradeProperties {
  import opened Wrappers
  import opened Upgrade

  // ----- One entry at a time -----

  /** `after` is what `op` may leave of an entry it loaded as `before`. */
  ghost predicate EntryStep(op: Operation, header: Header, before: EnvironmentRecord, after: EnvironmentRecord) {
    || after == before
    || (!op.Rollback? && (op.Advance? ==> NeedsWork(before))
        && ChangeOf(op, header, before).Put? && after == ChangeOf(op, header, before).entry)
    || (op.Rollback? && RollsBack(before, op.locked)
        && RolledBackTo(OutcomeFor(op.outcomes, before.name), before, after))
  }

  ghost predicate RolledBackTo(outcome: StepOutcome, before: EnvironmentRecord, after: EnvironmentRecord) {
    match outcome
    case Lost => false
    case Reverted => after == RolledBackEntry(before)
    case _ => after == RecoveryEntry(before, outcome)
  }

  /** Once a bundle digest, an accepted receipt digest or its receipt is there, it stays as it is. */
  ghost predicate EvidenceKept(before: EnvironmentRecord, after: EnvironmentRecord) {
    before.isolated.Some? ==>
      && after.isolated.Some?
      && after.isolated.value.bundleDigest == before.isolated.value.bundleDigest
      && (before.isolated.value.receiptDigest.Some? ==>
            && after.isolated.value.receiptDigest == before.isolated.value.receiptDigest
            && (before.isolated.value.receipt.Some? ==> after.isolated.value.receipt == before.isolated.value.receipt))
  }

  /** Applied needs evidence, and a transfer only ever names the pinned release. */
  ghost predicate Evidenced(header: Header, entry: EnvironmentRecord) {
    && (entry.transfer.Some? ==>
          && entry.transfer.value.releaseDigest == header.releaseDigest
          && entry.transfer.value.planDigest == header.releaseDigest
          && entry.transfer.value.artifactDigest == header.artifactDigest)
    && (entry.status == EnvironmentStatus.Applied && entry.class_ == Intermittent ==>
          entry.transfer.Some? && entry.transfer.value.verified)
    && (entry.status == EnvironmentStatus.Applied && entry.class_ == Isolated ==>
          entry.isolated.Some? && entry.isolated.value.receiptDigest.Some?)
  }

  /** What a changed entry keeps of the one the operation loaded. */
  ghost predicate Keeps(header: Header, before: EnvironmentRecord, after: EnvironmentRecord) {
    && after.name == before.name && after.class_ == before.class_
    && EvidenceKept(before, after)
    && (Evidenced(header, before) ==> Evidenced(header, after))
  }

  lemma AdvanceKeeps(header: Header, before: EnvironmentRecord, created: string, generation: nat, applied: bool)
    requires AdvanceEntry(header, before, created, generation, applied).Put?
    ensures Keeps(header, before, AdvanceEntry(header, before, created, generation, applied).entry)
  {
    var planned := before.(planId := Some(EnsurePlan(before, created)));
    assert Keeps(header, before, planned);
    match before.class_
    case Connected =>
    case Intermittent =>
    case Isolated =>
  }

  lemma ReceiptKeeps(
    header: Header, before: EnvironmentRecord, bundleDigest: string, receiptDigest: string, receipt: string)
    requires ReceiptEntry(before, bundleDigest, receiptDigest, receipt).Put?
    ensures Keeps(header, before, ReceiptEntry(before, bundleDigest, receiptDigest, receipt).entry)
  {
  }

  lemma ResumeKeeps(header: Header, before: EnvironmentRecord, generation: nat)
    requires ResumeEntry(header, before, generation).Put?
    ensures Keeps(header, before, ResumeEntry(header, before, generation).entry)
  {
  }

  lemma BindKeeps(header: Header, before: EnvironmentRecord, bundle: Bundle)
    requires BindEntry(before, bundle).Put?
    ensures Keeps(header, before, BindEntry(before, bundle).entry)
  {
  }

  /** No step of any operation loses evidence or applies an environment without it. */
  lemma EntryStepKeeps(op: Operation, header: Header, before: EnvironmentRecord, after: EnvironmentRecord)
    requires EntryStep(op, header, before, after)
    ensures Keeps(header, before, after)
  {
    if !op.Rollback? && after != before {
      match op
      case InterruptTransfer(_, _, _) =>
      case ResumeTransfer(_, generation) => ResumeKeeps(header, before, generation);
      case Advance(_, created, generation, applied) => AdvanceKeeps(header, before, created, generation, applied);
      case BindBundle(_, bundle) => BindKeeps(header, before, bundle);
      case ImportReceipt(_, bundleDigest, receiptDigest, receipt) =>
        ReceiptKeeps(header, before, bundleDigest, receiptDigest, receipt);
    }
  }

  // ----- The rollback loop -----

  /**
    The shape of every record the reverse loop returns. With `k == -1` every applied environment was
    rolled back; otherwise `k` is the one that needs recovery, and nothing below it was touched.
   */
  ghost predicate RollbackShape(
    before: seq<EnvironmentRecord>, after: seq<EnvironmentRecord>, n: nat, k: int,
    locked: seq<string>, outcomes: map<string, StepOutcome>)
    requires n <= |before|
  {
    && |after| == |before|
    && -1 <= k < n
    && (forall i :: k < i < n ==> after[i] == if RollsBack(before[i], locked) then RolledBackEntry(before[i]) else before[i])
    && (forall i :: 0 <= i < k || n <= i < |before| ==> after[i] == before[i])
    && (forall i :: k < i < n && RollsBack(before[i], locked) ==> OutcomeFor(outcomes, before[i].name) == Reverted)
    && (k >= 0 ==>
          var outcome := OutcomeFor(outcomes, before[k].name);
          && RollsBack(before[k], locked)
          && (outcome.PlanUnavailable? || outcome.ApplyFailed?)
          && after[k] == RecoveryEntry(before[k], outcome))
  }

  /** Extend the shape by one entry the loop passed: rolled back, or skipped. */
  lemma ShapeExtends(
    environments: seq<EnvironmentRecord>, stepped: seq<EnvironmentRecord>, after: seq<EnvironmentRecord>, n: nat, k: int,
    locked: seq<string>, outcomes: map<string, StepOutcome>)
    requires 0 < n <= |environments|
    requires RollsBack(environments[n - 1], locked) ==> OutcomeFor(outcomes, environments[n - 1].name).Reverted?
    requires stepped == if RollsBack(environments[n - 1], locked)
                        then environments[n - 1 := RolledBackEntry(environments[n - 1])] else environments
    requires RollbackShape(stepped, after, n - 1, k, locked, outcomes)
    ensures RollbackShape(environments, after, n, k, locked, outcomes)
  {
  }

  lemma {:induction false} RollbackFromShape(
    environments: seq<EnvironmentRecord>, n: nat, locked: seq<string>, outcomes: map<string, StepOutcome>)
    returns (k: int)
    requires n <= |environments|
    ensures var result := RollbackFrom(environments, n, locked, outcomes);
            !result.Abandoned? ==>
              && (k == -1 <==> result.Completed?)
              && RollbackShape(environments, result.environments, n, k, locked, outcomes)
    decreases n
  {
    k := -1;
    if n > 0 {
      var entry := environments[n - 1];
      var rolls := RollsBack(entry, locked);
      if !rolls || OutcomeFor(outcomes, entry.name).Reverted? {
        var stepped := if rolls then environments[n - 1 := RolledBackEntry(entry)] else environments;
        k := RollbackFromShape(stepped, n - 1, locked, outcomes);
        var result := RollbackFrom(stepped, n - 1, locked, outcomes);
        if !result.Abandoned? {
          ShapeExtends(environments, stepped, result.environments, n, k, locked, outcomes);
        }
      } else {
        k := n - 1;
      }
    }
  }

  /**
    The rollback either stores a record in which every applied and leased environment is rolled
    back, or one that stops at a single environment in recovery; its status says which.
   */
  lemma RollbackStoresOneShape(record: UpgradeRecord, locked: seq<string>, outcomes: map<string, StepOutcome>)
    ensures var attempt := Run(Rollback(locked, outcomes), record);
            var n := |record.environments|;
            attempt.Persist? ==>
              var after := attempt.modified;
              || (after.status == UpgradeStatus.RolledBack
                  && RollbackShape(record.environments, after.environments, n, -1, locked, outcomes))
              || (after.status == UpgradeStatus.RecoveryRequired
                  && exists k :: 0 <= k < n && RollbackShape(record.environments, after.environments, n, k, locked, outcomes))
  {
    var k := RollbackFromShape(record.environments, |record.environments|, locked, outcomes);
  }

  // ----- Whole records -----

  ghost predicate NoBlankNames(environments: seq<EnvironmentRecord>) {
    forall i :: 0 <= i < |environments| ==> environments[i].name != ""
  }

  ghost predicate StepsEntries(op: Operation, record: UpgradeRecord, after: seq<EnvironmentRecord>) {
    && |after| == |record.environments|
    && forall i :: 0 <= i < |after| ==>
         && EntryStep(op, record.header, record.environments[i], after[i])
         && (record.environments[i].name !in Footprint(op) ==> after[i] == record.environments[i])
  }

  lemma RollbackStepsEntries(op: Operation, record: UpgradeRecord)
    requires op.Rollback? && Run(op, record).Persist?
    ensures StepsEntries(op, record, Run(op, record).modified.environments)
  {
    RollbackStoresOneShape(record, op.locked, op.outcomes);
  }

  lemma EntryOperationStepsEntries(op: Operation, record: UpgradeRecord)
    requires !op.Rollback? && Run(op, record).Persist?
    requires NoBlankNames(record.environments)
    ensures StepsEntries(op, record, Run(op, record).modified.environments)
  {
    var index := EnvIndex(record.environments, op.environment);
    var after := Run(op, record).modified.environments;
    if after != record.environments {
      assert index.Some? && op.environment in Footprint(op);
      assert EntryStep(op, record.header, record.environments[index.value], after[index.value]);
    }
  }

  /** Every entry of the result comes from its own entry by a step of `op`, and only inside the footprint. */
  lemma RunStepsEntries(op: Operation, record: UpgradeRecord)
    requires NoBlankNames(record.environments)
    requires Run(op, record).Persist?
    ensures StepsEntries(op, record, Run(op, record).modified.environments)
  {
    if op.Rollback? {
      RollbackStepsEntries(op, record);
    } else {
      EntryOperationStepsEntries(op, record);
    }
  }

  /** `a` and `b` are the same record outside the entries named apart from `names`. */
  ghost predicate AgreeOn(a: seq<EnvironmentRecord>, b: seq<EnvironmentRecord>, names: set<string>) {
    && |a| == |b|
    && forall i :: 0 <= i < |a| ==> a[i].name == b[i].name && (a[i].name in names ==> a[i] == b[i])
  }

  lemma {:induction false} EnvIndexByName(a: seq<EnvironmentRecord>, b: seq<EnvironmentRecord>, name: string)
    requires |a| == |b| && forall i :: 0 <= i < |a| ==> a[i].name == b[i].name
    ensures EnvIndex(a, name) == EnvIndex(b, name)
  {
    if a != [] {
      EnvIndexByName(a[1..], b[1..], name);
    }
  }

  lemma {:induction false} RollbackFromLocal(
    a: seq<EnvironmentRecord>, b: seq<EnvironmentRecord>, n: nat, locked: seq<string>, outcomes: map<string, StepOutcome>)
    requires AgreeOn(a, b, set name | name in locked)
    requires n <= |a|
    ensures var x, y := RollbackFrom(a, n, locked, outcomes), RollbackFrom(b, n, locked, outcomes);
            && (x.Abandoned? <==> y.Abandoned?)
            && (!x.Abandoned? ==> AgreeOn(x.environments, y.environments, set name | name in locked))
    decreases n
  {
    if n > 0 {
      assert RollsBack(a[n - 1], locked) == RollsBack(b[n - 1], locked);
      if !RollsBack(a[n - 1], locked) {
        RollbackFromLocal(a, b, n - 1, locked, outcomes);
      } else if OutcomeFor(outcomes, a[n - 1].name).Reverted? {
        RollbackFromLocal(a[n - 1 := RolledBackEntry(a[n - 1])], b[n - 1 := RolledBackEntry(b[n - 1])], n - 1, locked,
            outcomes);
      }
    }
  }

  /**
    An operation only reads and writes the entries it leased: on two records that agree there it
    stores the same entries there. Nothing it does depends on what other writers may change.
   */
  lemma RunIsLocal(op: Operation, a: UpgradeRecord, b: UpgradeRecord)
    requires a.header == b.header && AgreeOn(a.environments, b.environments, Footprint(op))
    requires NoBlankNames(a.environments)
    ensures Run(op, a).Persist? <==> Run(op, b).Persist?
    ensures Run(op, a).Persist? ==>
              AgreeOn(Run(op, a).modified.environments, Run(op, b).modified.environments, Footprint(op))
  {
    if op.Rollback? {
      RollbackFromLocal(a.environments, b.environments, |a.environments|, op.locked, op.outcomes);
    } else {
      EntryRunIsLocal(op, a, b);
    }
  }

  lemma EntryRunIsLocal(op: Operation, a: UpgradeRecord, b: UpgradeRecord)
    requires !op.Rollback? && a.header == b.header && AgreeOn(a.environments, b.environments, Footprint(op))
    requires NoBlankNames(a.environments)
    ensures RunEntry(op, a).Persist? <==> RunEntry(op, b).Persist?
    ensures RunEntry(op, a).Persist? ==>
              AgreeOn(RunEntry(op, a).modified.environments, RunEntry(op, b).modified.environments, Footprint(op))
  {
    EnvIndexByName(a.environments, b.environments, op.environment);
    var index := EnvIndex(a.environments, op.environment);
    if index.Some? {
      assert op.environment in Footprint(op);
      assert a.environments[index.value] == b.environments[index.value];
      PutChangeIsLocal(op, a, b, index.value);
    }
  }

  lemma PutChangeIsLocal(op: Operation, a: UpgradeRecord, b: UpgradeRecord, i: nat)
    requires !op.Rollback? && a.header == b.header && AgreeOn(a.environments, b.environments, Footprint(op))
    requires i < |a.environments| && a.environments[i] == b.environments[i]
    ensures var change := ChangeOf(op, a.header, a.environments[i]);
            var x, y := PutChange(a, i, change), PutChange(b, i, change);
            && x.Persist? == y.Persist?
            && (x.Persist? ==> AgreeOn(x.modified.environments, y.modified.environments, Footprint(op)))
  {
    var change := ChangeOf(op, a.header, a.environments[i]);
    if change.Put? {
      assert AgreeOn(a.environments[i := change.entry], b.environments[i := change.entry], Footprint(op));
    }
  }
}
