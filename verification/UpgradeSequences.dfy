/** What operations of src/connectivity.rs mean to whoever calls one after another on the same environment. */
module UpgradeSequences {
  import opened Wrappers
  import opened Upgrade
  import opened UpgradeProperties

  /** The environment named `name`, the first of that name. */
  function At(record: UpgradeRecord, name: string): (entry: Option<EnvironmentRecord>)
    ensures entry.Some? ==> entry.value.name == name
  {
    var index := EnvIndex(record.environments, name);
    if index.Some? then Some(record.environments[index.value]) else None
  }

  /** Nothing but the environment `name`, the status aside, differs. */
  ghost predicate OnlyAt(before: UpgradeRecord, after: UpgradeRecord, name: string) {
    && after.header == before.header && after.updatedAt == before.updatedAt
    && |after.environments| == |before.environments|
    && forall i :: 0 <= i < |before.environments| ==>
         after.environments[i].name == before.environments[i].name
         && (Some(i) != EnvIndex(before.environments, name) ==> after.environments[i] == before.environments[i])
  }

  /** An operation on `name` stores the change of that environment, and refuses with it. */
  lemma RunAt(op: Operation, record: UpgradeRecord)
    requires !op.Rollback? && At(record, op.environment).Some?
    requires op.Advance? ==> NeedsWork(At(record, op.environment).value)
    ensures var change := ChangeOf(op, record.header, At(record, op.environment).value);
            && (Run(op, record).Persist? <==> change.Put?)
            && (change.Put? ==>
                  var after := Run(op, record).modified;
                  && OnlyAt(record, after, op.environment)
                  && At(after, op.environment) == Some(change.entry)
                  && (change.status == KeepStatus ==> after.status == record.status)
                  && (change.status.SetStatus? ==> after.status == change.status.status))
  {
    var i := EnvIndex(record.environments, op.environment).value;
    var change := ChangeOf(op, record.header, record.environments[i]);
    if change.Put? {
      EntryStepKeeps(op, record.header, record.environments[i], change.entry);
      EnvIndexByName(record.environments, Run(op, record).modified.environments, op.environment);
    }
  }

  // ----- Intermittent environments -----

  /** An unverified transfer of the pinned release, begun under `generation`. */
  ghost predicate Begun(header: Header, entry: EnvironmentRecord, generation: nat) {
    && entry.class_ == Intermittent && entry.status == EnvironmentStatus.Interrupted && entry.planId.Some?
    && entry.transfer == Some(Checkpoint(header, entry.planId.value, generation))
  }

  /**
    Interrupting stores an unverified transfer exactly for an intermittent environment that is not
    applied, and keeps its plan.
   */
  lemma InterruptBegins(record: UpgradeRecord, name: string, created: string, generation: nat)
    ensures var op := InterruptTransfer(name, created, generation);
            var entry := At(record, name);
            && (Run(op, record).Persist? <==>
                  entry.Some? && entry.value.class_ == Intermittent && entry.value.status != EnvironmentStatus.Applied)
            && (Run(op, record).Persist? ==>
                  var after := Run(op, record).modified;
                  && OnlyAt(record, after, name) && after.status == UpgradeStatus.Interrupted && At(after, name).Some?
                  && Begun(record.header, At(after, name).value, generation)
                  && At(after, name).value.planId == Some(if entry.value.planId.Some? then entry.value.planId.value else created))
  {
    if At(record, name).Some? {
      RunAt(InterruptTransfer(name, created, generation), record);
    }
  }

  /**
    Fencing. A transfer begun under one generation is applied only by a resume and an advance under
    that generation. Without the resume the environment waits; under another one it conflicts.
   */
  lemma TransferNeedsItsGeneration(
    record: UpgradeRecord, name: string, begun: nat, resumed: nat, created: string, advanced: nat)
    requires At(record, name).Some? && Begun(record.header, At(record, name).value, begun)
    ensures var hasty := Run(Advance(name, created, advanced, true), record);
            hasty.Persist? && At(hasty.modified, name).Some?
            && At(hasty.modified, name).value.status == EnvironmentStatus.Interrupted
    ensures var resume := Run(ResumeTransfer(name, resumed), record);
            && resume.Persist? && OnlyAt(record, resume.modified, name) && At(resume.modified, name).Some?
            && (resumed != begun ==>
                  && At(resume.modified, name).value.status == EnvironmentStatus.Conflicted
                  && At(resume.modified, name).value.transfer == At(record, name).value.transfer
                  && resume.modified.status == UpgradeStatus.Conflicted)
            && (resumed == begun ==>
                  && resume.modified.status == record.status
                  && var advance := Run(Advance(name, created, advanced, true), resume.modified);
                     && advance.Persist? && OnlyAt(resume.modified, advance.modified, name) && At(advance.modified, name).Some?
                     && At(advance.modified, name).value.status ==
                          if advanced == begun then EnvironmentStatus.Applied else EnvironmentStatus.Conflicted)
  {
    var advance, resume := Advance(name, created, advanced, true), ResumeTransfer(name, resumed);
    RunAt(advance, record);
    RunAt(resume, record);
    if resumed == begun {
      RunAt(advance, Run(resume, record).modified);
    }
  }

  // ----- Isolated environments -----

  /** Binding a bundle stores its digests, keeps an accepted receipt, and is refused where another bundle is bound. */
  lemma BindStores(record: UpgradeRecord, name: string, bundle: Bundle)
    ensures var op := BindBundle(name, bundle);
            var entry := At(record, name);
            && (Run(op, record).Persist? <==>
                  && entry.Some? && entry.value.class_ == Isolated && entry.value.planId == Some(bundle.planId)
                  && (entry.value.isolated.Some? ==> entry.value.isolated.value.bundleDigest == bundle.digest))
            && (Run(op, record).Persist? ==>
                  var after := Run(op, record).modified;
                  && OnlyAt(record, after, name) && after.status == record.status && At(after, name).Some?
                  && Bound(entry.value, At(after, name).value, bundle))
  {
    if At(record, name).Some? {
      RunAt(BindBundle(name, bundle), record);
    }
  }

  ghost predicate Bound(before: EnvironmentRecord, after: EnvironmentRecord, bundle: Bundle) {
    && after.status == before.status && after.class_ == before.class_ && after.planId == before.planId
    && after.isolated.Some?
    && var e := after.isolated.value;
       && e.bundleDigest == bundle.digest && e.planDigest == Some(bundle.planDigest)
       && e.approvalDigest == Some(bundle.approvalDigest) && e.scan == bundle.scan
       && (before.isolated.Some? ==>
             e.receiptDigest == before.isolated.value.receiptDigest && e.receipt == before.isolated.value.receipt)
       && (before.isolated.None? ==> e.receiptDigest.None? && e.receipt.None?)
  }

  /** Once bound, the same bundle binds again without a change, and no other does. */
  lemma BindOnce(record: UpgradeRecord, name: string, bundle: Bundle, other: Bundle)
    requires Run(BindBundle(name, bundle), record).Persist?
    ensures var bound := Run(BindBundle(name, bundle), record).modified;
            && Run(BindBundle(name, bundle), bound) == Persist(bound)
            && (Run(BindBundle(name, other), bound).Persist? <==> other.digest == bundle.digest && other.planId == bundle.planId)
  {
    BindStores(record, name, bundle);
    var bound := Run(BindBundle(name, bundle), record).modified;
    BindStores(bound, name, other);
    RunAt(BindBundle(name, bundle), record);
    RunAt(BindBundle(name, bundle), bound);
    SameRecord(bound, Run(BindBundle(name, bundle), bound).modified, name);
  }

  lemma SameRecord(a: UpgradeRecord, b: UpgradeRecord, name: string)
    requires OnlyAt(a, b, name) && At(a, name).Some? && At(b, name) == At(a, name) && a.status == b.status
    ensures a == b
  {
    EnvIndexByName(a.environments, b.environments, name);
    assert a.environments == b.environments;
  }

  /** The evidence of a bound bundle with an accepted receipt. */
  ghost predicate Accepted(entry: EnvironmentRecord, bundleDigest: string, receiptDigest: string, receipt: string) {
    && entry.class_ == Isolated && entry.isolated.Some?
    && entry.isolated.value.bundleDigest == bundleDigest
    && entry.isolated.value.receiptDigest == Some(receiptDigest) && entry.isolated.value.receipt == Some(receipt)
  }

  /**
    A receipt is stored exactly for the bundle that is bound; the first one is accepted and only
    adds itself to the evidence.
   */
  lemma ReceiptStores(record: UpgradeRecord, name: string, bundleDigest: string, receiptDigest: string, receipt: string)
    ensures var op := ImportReceipt(name, bundleDigest, receiptDigest, receipt);
            var entry := At(record, name);
            && (Run(op, record).Persist? <==>
                  entry.Some? && entry.value.class_ == Isolated && entry.value.isolated.Some?
                  && entry.value.isolated.value.bundleDigest == bundleDigest)
            && (Run(op, record).Persist? && entry.value.isolated.value.receiptDigest.None? ==>
                  var after := Run(op, record).modified;
                  && OnlyAt(record, after, name) && after.status == record.status && At(after, name).Some?
                  && Accepted(At(after, name).value, bundleDigest, receiptDigest, receipt)
                  && At(after, name).value.status == entry.value.status
                  && At(after, name).value.isolated.value.planDigest == entry.value.isolated.value.planDigest
                  && At(after, name).value.isolated.value.approvalDigest == entry.value.isolated.value.approvalDigest
                  && At(after, name).value.isolated.value.scan == entry.value.isolated.value.scan)
  {
    if At(record, name).Some? {
      RunAt(ImportReceipt(name, bundleDigest, receiptDigest, receipt), record);
    }
  }

  /** After the first, no receipt changes the evidence: a duplicate keeps the statuses, another one marks a conflict. */
  lemma ReceiptOnce(
    record: UpgradeRecord, name: string, bundleDigest: string, first: string, receipt: string, again: string, other: string)
    requires At(record, name).Some? && Accepted(At(record, name).value, bundleDigest, first, receipt)
    ensures var attempt := Run(ImportReceipt(name, bundleDigest, again, other), record);
            && attempt.Persist? && OnlyAt(record, attempt.modified, name) && At(attempt.modified, name).Some?
            && At(attempt.modified, name).value.isolated == At(record, name).value.isolated
            && (if again == first
                then attempt.modified.status == record.status
                     && At(attempt.modified, name).value.status == At(record, name).value.status
                else attempt.modified.status == UpgradeStatus.Conflicted
                     && At(attempt.modified, name).value.status == EnvironmentStatus.Conflicted)
  {
    RunAt(ImportReceipt(name, bundleDigest, again, other), record);
  }

  /**
    An isolated environment is applied only once a bundle is bound and its receipt imported; until
    then an advance waits.
   */
  lemma IsolatedNeedsBoth(record: UpgradeRecord, name: string, created: string, generation: nat)
    requires At(record, name).Some? && At(record, name).value.class_ == Isolated && NeedsWork(At(record, name).value)
    ensures var attempt := Run(Advance(name, created, generation, true), record);
            var evidence := At(record, name).value.isolated;
            && attempt.Persist? && OnlyAt(record, attempt.modified, name) && At(attempt.modified, name).Some?
            && At(attempt.modified, name).value.isolated == evidence
            && At(attempt.modified, name).value.status ==
                 if evidence.Some? && evidence.value.receiptDigest.Some? then EnvironmentStatus.Applied
                 else EnvironmentStatus.Interrupted
  {
    RunAt(Advance(name, created, generation, true), record);
  }
}
