/** When the operations of src/connectivity.rs apply, refuse or roll back an environment, told from the entries alone. */
module UpgradeOutcomes {
  import opened Wrappers
  import opened Upgrade
  import opened UpgradeProperties
  import opened UpgradeSequences

  // ----- Advancing -----

  /** What the class of an environment asks for before its plan is applied. */
  ghost predicate Ready(entry: EnvironmentRecord, generation: nat) {
    match entry.class_
    case Connected => true
    case Intermittent =>
      entry.transfer.Some? && entry.transfer.value.verified && entry.transfer.value.generation == generation
    case Isolated => entry.isolated.Some? && entry.isolated.value.receiptDigest.Some?
  }

  /** A verified transfer of an older generation: a runtime that reconnected. */
  ghost predicate Reconnected(entry: EnvironmentRecord, generation: nat) {
    && entry.class_ == Intermittent && entry.transfer.Some? && entry.transfer.value.verified
    && entry.transfer.value.generation != generation
  }

  /** The environment `i` is the one an operation on `name` works on. */
  ghost predicate IsTarget(record: UpgradeRecord, name: string, i: nat) {
    && i < |record.environments| && record.environments[i].name == name
    && forall j :: 0 <= j < i ==> record.environments[j].name != name
  }

  ghost predicate Waiting(entry: EnvironmentRecord) {
    entry.status == EnvironmentStatus.Pending || entry.status == EnvironmentStatus.Interrupted
  }

  lemma TargetIs(record: UpgradeRecord, name: string, i: nat)
    ensures IsTarget(record, name, i) <==> EnvIndex(record.environments, name) == Some(i)
  {
  }

  /**
    An advance on a target that still needs work. It is refused exactly when everything was ready but
    the plan could not be applied. Otherwise the target is applied if it was ready, conflicts if it
    reconnected, and waits if something is missing; its plan is kept, and nothing else changes.
   */
  lemma AdvanceStores(record: UpgradeRecord, name: string, created: string, generation: nat, applied: bool, i: nat)
    requires IsTarget(record, name, i) && Waiting(record.environments[i])
    ensures var before := record.environments[i];
            var attempt := Run(Advance(name, created, generation, applied), record);
            && (attempt.Refused? <==> Ready(before, generation) && !applied)
            && (attempt.Persist? ==>
                  && OnlyAt(record, attempt.modified, name)
                  && Advanced(before, attempt.modified.environments[i], created, generation)
                  && attempt.modified.status ==
                       (if Ready(before, generation) then Summarize(attempt.modified.environments)
                        else if Reconnected(before, generation) then UpgradeStatus.Conflicted
                        else UpgradeStatus.Interrupted))
  {
    TargetIs(record, name, i);
    RunAt(Advance(name, created, generation, applied), record);
    AdvanceChanges(record.header, record.environments[i], created, generation, applied);
  }

  /** How an advance leaves its target: planned, with its evidence, and applied, in conflict or interrupted. */
  ghost predicate Advanced(before: EnvironmentRecord, after: EnvironmentRecord, created: string, generation: nat) {
    && after.planId == Some(if before.planId.Some? then before.planId.value else created)
    && after.isolated == before.isolated
    && after.status == (if Ready(before, generation) then EnvironmentStatus.Applied
                        else if Reconnected(before, generation) then EnvironmentStatus.Conflicted
                        else EnvironmentStatus.Interrupted)
  }

  lemma AdvanceChanges(header: Header, before: EnvironmentRecord, created: string, generation: nat, applied: bool)
    ensures var change := AdvanceEntry(header, before, created, generation, applied);
            && (change.Refuse? <==> Ready(before, generation) && !applied)
            && (change.Put? ==>
                  && Advanced(before, change.entry, created, generation)
                  && change.status == (if Ready(before, generation) then Aggregate
                                       else if Reconnected(before, generation) then SetStatus(UpgradeStatus.Conflicted)
                                       else SetStatus(UpgradeStatus.Interrupted)))
  {
  }

  /** It begins a transfer of the pinned release where an intermittent target had none, and changes no other transfer. */
  lemma AdvanceTransfers(record: UpgradeRecord, name: string, created: string, generation: nat, applied: bool, i: nat)
    requires IsTarget(record, name, i) && Waiting(record.environments[i])
    requires Run(Advance(name, created, generation, applied), record).Persist?
    ensures var before := record.environments[i];
            var after := Run(Advance(name, created, generation, applied), record).modified.environments[i];
            var planId := if before.planId.Some? then before.planId.value else created;
            after.transfer ==
              if before.class_ != Intermittent || before.transfer.Some? then before.transfer
              else Some(TransferCheckpoint(planId, record.header.releaseDigest, record.header.releaseDigest,
                                           record.header.artifactDigest, generation, false))
  {
    TargetIs(record, name, i);
  }

  /** An advance on nothing that needs work only refreshes the status. */
  lemma IdleAdvanceStores(record: UpgradeRecord, name: string, created: string, generation: nat, applied: bool)
    requires forall i: nat :: IsTarget(record, name, i) ==> !Waiting(record.environments[i])
    ensures Run(Advance(name, created, generation, applied), record) ==
              Persist(record.(status := Summarize(record.environments)))
  {
    var index := EnvIndex(record.environments, name);
    if index.Some? {
      TargetIs(record, name, index.value);
    }
  }

  /**
    An advance turns an environment that was not applied into an applied one exactly when it is the
    target, needed work, its plan was applied, and its class had what it asks for.
   */
  lemma AdvanceAppliesExactlyWhen(
    record: UpgradeRecord, name: string, created: string, generation: nat, applied: bool, i: nat)
    requires i < |record.environments|
    ensures var attempt := Run(Advance(name, created, generation, applied), record);
            (&& attempt.Persist? && record.environments[i].status != EnvironmentStatus.Applied
             && attempt.modified.environments[i].status == EnvironmentStatus.Applied) <==>
            && IsTarget(record, name, i) && Waiting(record.environments[i]) && applied
            && Ready(record.environments[i], generation)
  {
    var index := EnvIndex(record.environments, name);
    TargetIs(record, name, i);
    if index.Some? && Waiting(record.environments[index.value]) {
      TargetIs(record, name, index.value);
      AdvanceStores(record, name, created, generation, applied, index.value);
    } else {
      forall j: nat | IsTarget(record, name, j)
        ensures !Waiting(record.environments[j])
      {
        TargetIs(record, name, j);
      }
      IdleAdvanceStores(record, name, created, generation, applied);
    }
  }

  /** No other operation applies an environment. */
  lemma OnlyAdvanceApplies(op: Operation, record: UpgradeRecord, i: nat)
    requires !op.Advance? && Run(op, record).Persist? && i < |record.environments|
    requires Run(op, record).modified.environments[i].status == EnvironmentStatus.Applied
    ensures record.environments[i].status == EnvironmentStatus.Applied
  {
    if op.Rollback? {
      RollbackStoresOneShape(record, op.locked, op.outcomes);
    } else if At(record, op.environment).Some? {
      RunAt(op, record);
      TargetIs(record, op.environment, i);
    }
  }

  // ----- Resuming -----

  /**
    Resuming is refused exactly where there is no transfer to resume, or one of the right generation
    no longer matches the pinned release. Under another generation the environment conflicts and keeps
    its checkpoint; otherwise only the checkpoint becomes verified.
   */
  lemma ResumeStores(record: UpgradeRecord, name: string, generation: nat)
    ensures var entry := At(record, name);
            var attempt := Run(ResumeTransfer(name, generation), record);
            var stale := entry.Some? && entry.value.transfer.Some? && entry.value.transfer.value.generation != generation;
            && (attempt.Persist? <==>
                  && entry.Some? && entry.value.class_ == Intermittent && entry.value.transfer.Some?
                  && (stale || (entry.value.transfer.value.releaseDigest == record.header.releaseDigest
                                && entry.value.transfer.value.artifactDigest == record.header.artifactDigest)))
            && (attempt.Persist? ==>
                  var after := At(attempt.modified, name);
                  && OnlyAt(record, attempt.modified, name) && after.Some?
                  && after.value.planId == entry.value.planId && after.value.isolated == entry.value.isolated
                  && (if stale
                      then after.value.status == EnvironmentStatus.Conflicted
                           && after.value.transfer == entry.value.transfer
                           && attempt.modified.status == UpgradeStatus.Conflicted
                      else after.value.status == entry.value.status
                           && after.value.transfer == Some(entry.value.transfer.value.(verified := true))
                           && attempt.modified.status == record.status))
  {
    if At(record, name).Some? {
      RunAt(ResumeTransfer(name, generation), record);
    }
  }

  // ----- Rolling back -----

  /** Applied and leased: the environments a rollback works on. */
  ghost predicate Concerned(entry: EnvironmentRecord, locked: seq<string>) {
    entry.status == EnvironmentStatus.Applied && entry.name in locked
  }

  ghost predicate Reverts(outcomes: map<string, StepOutcome>, name: string) {
    name in outcomes && outcomes[name].Reverted?
  }

  /** `k` is the last concerned environment that is not reverted: the one the reverse loop stops at. */
  ghost predicate StopsAt(
    e: seq<EnvironmentRecord>, n: nat, locked: seq<string>, outcomes: map<string, StepOutcome>, k: nat)
    requires n <= |e|
  {
    && k < n && Concerned(e[k], locked) && !Reverts(outcomes, e[k].name)
    && forall j :: k < j < n && Concerned(e[j], locked) ==> Reverts(outcomes, e[j].name)
  }

  /** A rollback that met an early return for `name`. */
  ghost predicate LostAt(outcomes: map<string, StepOutcome>, name: string) {
    name !in outcomes || outcomes[name].Lost?
  }

  lemma StopsBelow(
    e: seq<EnvironmentRecord>, f: seq<EnvironmentRecord>, n: nat, locked: seq<string>,
    outcomes: map<string, StepOutcome>, k: nat)
    requires 0 < n <= |e| == |f| && forall j :: 0 <= j < n - 1 ==> f[j] == e[j]
    requires Concerned(e[n - 1], locked) ==> Reverts(outcomes, e[n - 1].name)
    ensures StopsAt(e, n, locked, outcomes, k) <==> StopsAt(f, n - 1, locked, outcomes, k)
  {
    if StopsAt(f, n - 1, locked, outcomes, k) {
      forall j | k < j < n && Concerned(e[j], locked)
        ensures Reverts(outcomes, e[j].name)
      {
        assert j < n - 1 ==> Concerned(f[j], locked);
      }
    }
  }

  lemma {:induction false} AbandonedExactlyWhen(
    e: seq<EnvironmentRecord>, n: nat, locked: seq<string>, outcomes: map<string, StepOutcome>)
    requires n <= |e|
    ensures RollbackFrom(e, n, locked, outcomes).Abandoned? <==>
              exists k: nat :: StopsAt(e, n, locked, outcomes, k) && LostAt(outcomes, e[k].name)
    decreases n
  {
    if n > 0 {
      var entry := e[n - 1];
      if !Concerned(entry, locked) || Reverts(outcomes, entry.name) {
        var stepped := if Concerned(entry, locked) then e[n - 1 := RolledBackEntry(entry)] else e;
        AbandonedExactlyWhen(stepped, n - 1, locked, outcomes);
        var m := n - 1;
        forall k: nat
          ensures StopsAt(e, n, locked, outcomes, k) <==> StopsAt(stepped, m, locked, outcomes, k)
          ensures StopsAt(e, n, locked, outcomes, k) ==> stepped[k].name == e[k].name
        {
          StopsBelow(e, stepped, n, locked, outcomes, k);
        }
      } else {
        assert StopsAt(e, n, locked, outcomes, n - 1);
      }
    }
  }

  /** A rollback is refused exactly when the environment it stops at met an early return; then nothing is stored. */
  lemma RollbackRefusedExactlyWhen(record: UpgradeRecord, locked: seq<string>, outcomes: map<string, StepOutcome>)
    ensures Run(Rollback(locked, outcomes), record).Refused? <==>
              exists k: nat :: StopsAt(record.environments, |record.environments|, locked, outcomes, k)
                               && LostAt(outcomes, record.environments[k].name)
  {
    AbandonedExactlyWhen(record.environments, |record.environments|, locked, outcomes);
  }

  /** What a rollback leaves of an entry, whatever its texts: only the status, and the detail, differ. */
  ghost predicate Marked(before: EnvironmentRecord, after: EnvironmentRecord, status: EnvironmentStatus) {
    after == before.(status := status, detail := after.detail)
  }

  /**
    A rollback that is stored marks every concerned environment above the one it stops at, or all of
    them, rolled back, the one it stops at as needing recovery, and leaves everything else.
   */
  lemma RollbackMarks(record: UpgradeRecord, locked: seq<string>, outcomes: map<string, StepOutcome>, i: nat)
    requires Run(Rollback(locked, outcomes), record).Persist? && i < |record.environments|
    ensures var e := record.environments;
            var after := Run(Rollback(locked, outcomes), record).modified;
            var past := forall k: nat :: StopsAt(e, |e|, locked, outcomes, k) ==> i > k;
            && |after.environments| == |e|
            && (if StopsAt(e, |e|, locked, outcomes, i)
                then Marked(e[i], after.environments[i], EnvironmentStatus.RecoveryRequired)
                else if Concerned(e[i], locked) && past
                then Marked(e[i], after.environments[i], EnvironmentStatus.RolledBack)
                else after.environments[i] == e[i])
            && after.status == (if exists k: nat :: StopsAt(e, |e|, locked, outcomes, k)
                                then UpgradeStatus.RecoveryRequired else UpgradeStatus.RolledBack)
  {
    var e := record.environments;
    RollbackStoresOneShape(record, locked, outcomes);
    var k := RollbackFromShape(e, |e|, locked, outcomes);
    if k >= 0 {
      assert StopsAt(e, |e|, locked, outcomes, k);
    }
  }
}
