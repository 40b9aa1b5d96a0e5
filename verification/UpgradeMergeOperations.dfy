/**
  Exactly when the order of concurrent operations shows in the stored status: src/connectivity.rs.
  The operations load one base, hold disjoint leases, and reach `merge_upgrade` in any order.
 */
module UpgradeMergeOperations {
  import opened Wrappers
  import opened Upgrade
  import opened UpgradeProperties
  import opened UpgradeMerge
  import opened UpgradeMergeOrder

  // ----- What one operation writes -----

  /** The operation leaves every environment as it is: it may still set the status. */
  ghost predicate Idle(base: UpgradeRecord, w: UpgradeRecord) {
    w.environments == base.environments
  }

  /**
    The status a status-only writer other than a rollback sets: one the environments of the base
    bear out, or the old one.
   */
  ghost predicate Refreshes(base: UpgradeRecord, w: UpgradeRecord) {
    && Idle(base, w)
    && (|| w.status in {base.status, Summarize(base.environments)}
        || (w.status == UpgradeStatus.Interrupted && AnyIn(base.environments, EnvironmentStatus.Interrupted))
        || (w.status == UpgradeStatus.Conflicted && AnyIn(base.environments, EnvironmentStatus.Conflicted)))
  }

  /** `w` changes exactly environment `i`, the way an operation on one environment does. */
  ghost predicate ChangesOne(base: UpgradeRecord, w: UpgradeRecord, i: nat) {
    && SameShape(base, w) && i < |base.environments|
    && w.environments == base.environments[i := w.environments[i]]
    && Changes(base, w, i)
    && var was, now := base.environments[i].status, w.environments[i].status;
       || (now == was && w.status == base.status)
       || (now == EnvironmentStatus.Interrupted && w.status == UpgradeStatus.Interrupted)
       || (now == EnvironmentStatus.Conflicted && w.status == UpgradeStatus.Conflicted)
       || (NeedsWork(base.environments[i]) && now == EnvironmentStatus.Applied && w.status == Summarize(w.environments))
  }

  ghost predicate ChangesAlone(base: UpgradeRecord, w: UpgradeRecord) {
    exists i: nat :: ChangesOne(base, w, i)
  }

  lemma EntryOperationWrites(base: UpgradeRecord, op: Operation, w: UpgradeRecord)
    requires !op.Rollback? && Run(op, base) == Persist(w)
    ensures Refreshes(base, w) || ChangesAlone(base, w)
  {
    var index := EnvIndex(base.environments, op.environment);
    if !(op.Advance? && (index.None? || !NeedsWork(base.environments[index.value]))) {
      var i := index.value;
      EntryWrites(op, base.header, base.environments[i]);
      assert w.environments == base.environments[i := w.environments[i]];
      if !Idle(base, w) {
        assert ChangesOne(base, w, i);
      }
    }
  }

  /** How the change of one entry moves its status and the aggregate one. */
  lemma EntryWrites(op: Operation, header: Header, entry: EnvironmentRecord)
    requires !op.Rollback? && ChangeOf(op, header, entry).Put? && (op.Advance? ==> NeedsWork(entry))
    ensures var change := ChangeOf(op, header, entry);
            var now := change.entry.status;
            || (now == entry.status && change.status == KeepStatus)
            || (now == EnvironmentStatus.Interrupted && change.status == SetStatus(UpgradeStatus.Interrupted))
            || (now == EnvironmentStatus.Conflicted && change.status == SetStatus(UpgradeStatus.Conflicted))
            || (NeedsWork(entry) && now == EnvironmentStatus.Applied && change.status == Aggregate)
  {
  }

  // ----- A quiet operation does not undo what the environments call for -----

  /** Writers as operations on one environment make them. */
  ghost predicate EntryFamily(base: UpgradeRecord, writers: seq<UpgradeRecord>) {
    Family(base, writers) && forall w <- writers :: Refreshes(base, w) || ChangesAlone(base, w)
  }

  /** What a summary says of the entries. */
  lemma SummaryMeans(e: seq<EnvironmentRecord>)
    ensures Summarize(e) == UpgradeStatus.Conflicted <==>
              !AnyIn(e, EnvironmentStatus.RecoveryRequired) && AnyIn(e, EnvironmentStatus.Conflicted)
    ensures Summarize(e) == UpgradeStatus.Interrupted <==>
              && !AnyIn(e, EnvironmentStatus.RecoveryRequired) && !AnyIn(e, EnvironmentStatus.Conflicted)
              && AnyIn(e, EnvironmentStatus.Interrupted)
    ensures Summarize(e) == UpgradeStatus.RolledBack <==> e != [] && AllIn(e, EnvironmentStatus.RolledBack)
    ensures Summarize(e) == UpgradeStatus.RecoveryRequired <==> AnyIn(e, EnvironmentStatus.RecoveryRequired)
    ensures Summarize(e) == UpgradeStatus.Succeeded <==> AllIn(e, EnvironmentStatus.Applied)
    ensures Summarize(e) == UpgradeStatus.Running <==>
              && !AnyIn(e, EnvironmentStatus.RecoveryRequired) && !AnyIn(e, EnvironmentStatus.Conflicted)
              && !AnyIn(e, EnvironmentStatus.Interrupted)
              && !AllIn(e, EnvironmentStatus.Applied) && !AllIn(e, EnvironmentStatus.RolledBack)
    ensures Summarize(e) !in {UpgradeStatus.Admitted, UpgradeStatus.Failed}
  {
    assert e != [] ==> e[0] in e;
  }

  lemma SameStatuses(e: seq<EnvironmentRecord>, f: seq<EnvironmentRecord>)
    requires |e| == |f| && forall i :: 0 <= i < |e| ==> e[i].status == f[i].status
    ensures Summarize(e) == Summarize(f)
  {
    assert forall status :: AnyIn(e, status) == AnyIn(f, status) && AllIn(e, status) == AllIn(f, status);
    SummaryMeans(e);
    SummaryMeans(f);
  }

  /**
    Next to an environment that needs work, in a base without worse trouble, any other operation
    leaves the aggregate status as it is, unless it interrupts or conflicts an environment.
   */
  lemma OtherIsQuiet(base: UpgradeRecord, u: UpgradeRecord, i: nat)
    requires i < |base.environments| && NeedsWork(base.environments[i]) && !Changes(base, u, i)
    requires !AnyIn(base.environments, EnvironmentStatus.RecoveryRequired)
    requires !AnyIn(base.environments, EnvironmentStatus.Conflicted)
    requires base.environments[i].status == EnvironmentStatus.Interrupted
          || !AnyIn(base.environments, EnvironmentStatus.Interrupted)
    requires base.status == if base.environments[i].status == EnvironmentStatus.Interrupted
                            then UpgradeStatus.Interrupted else UpgradeStatus.Running
    requires Refreshes(base, u) || ChangesAlone(base, u)
    requires forall g: nat :: Changes(base, u, g) ==>
               && u.environments[g].status != EnvironmentStatus.Conflicted
               && (base.status == UpgradeStatus.Running ==> u.environments[g].status != EnvironmentStatus.Interrupted)
    ensures u.status == base.status
  {
    SummaryMeans(base.environments);
    if !Refreshes(base, u) {
      var g: nat :| ChangesOne(base, u, g);
      assert u.environments[i] == base.environments[i] && u.environments[g] != base.environments[g];
      SummaryMeans(u.environments);
    }
  }

  /** Someone among the first `n` moved the status, so the base is not as `OtherIsQuiet` has it. */
  lemma MoverIsSeen(base: UpgradeRecord, writers: seq<UpgradeRecord>, n: nat, i: nat)
    requires EntryFamily(base, writers) && n <= |writers| && !Quiet(base, writers, n)
    requires i < |base.environments| && NeedsWork(base.environments[i])
    requires forall k :: 0 <= k < n ==> !Changes(base, writers[k], i)
    requires base.status in {UpgradeStatus.Interrupted, UpgradeStatus.Running} && Due(base, writers, n) == base.status
    requires !AnyIn(base.environments, EnvironmentStatus.RecoveryRequired)
    requires !AnyIn(base.environments, EnvironmentStatus.Conflicted)
    ensures if base.status == UpgradeStatus.Interrupted then base.environments[i].status == EnvironmentStatus.Pending
            else AnyIn(base.environments, EnvironmentStatus.Interrupted)
  {
    var m :| 0 <= m < n && writers[m].status != base.status;
    assert writers[m] in writers;
    var merged := Stored(base, writers, n).environments;
    SummaryMeans(merged);
    forall g: nat | Changes(base, writers[m], g)
      ensures writers[m].environments[g] == merged[g]
    {
      Taken(base, writers, base, n, g, m);
    }
    if base.status == UpgradeStatus.Interrupted {
      if base.environments[i].status == EnvironmentStatus.Interrupted {
        OtherIsQuiet(base, writers[m], i);
        assert false;
      }
    } else if !AnyIn(base.environments, EnvironmentStatus.Interrupted) {
      OtherIsQuiet(base, writers[m], i);
      assert false;
    }
  }

  /** The base leaves no other reason for its status than what one environment, still to be applied, is in. */
  ghost predicate OnlyHere(e: seq<EnvironmentRecord>, i: nat, status: UpgradeStatus)
    requires i < |e|
  {
    && !AnyIn(e, EnvironmentStatus.RecoveryRequired) && !AnyIn(e, EnvironmentStatus.Conflicted)
    && (|| (status == UpgradeStatus.Interrupted && e[i].status == EnvironmentStatus.Interrupted)
        || (status == UpgradeStatus.Running && !AnyIn(e, EnvironmentStatus.Interrupted)))
  }

  /** Applying one environment in two records that call for one status, which it keeps in the first. */
  lemma ApplyOne(e: seq<EnvironmentRecord>, x: seq<EnvironmentRecord>, i: nat, applied: EnvironmentRecord)
    requires |e| == |x| && i < |e| && e[i] == x[i] && NeedsWork(e[i]) && applied.status == EnvironmentStatus.Applied
    requires Summarize(e[i := applied]) == Summarize(x)
    ensures Summarize(x[i := applied]) == Summarize(x) || OnlyHere(e, i, Summarize(x))
  {
    var y, z := x[i := applied], e[i := applied];
    SummaryMeans(x);
    SummaryMeans(y);
    SummaryMeans(z);
    KeepsAny(e, z, i, EnvironmentStatus.RecoveryRequired);
    KeepsAny(e, z, i, EnvironmentStatus.Conflicted);
    KeepsAny(x, y, i, EnvironmentStatus.RecoveryRequired);
    KeepsAny(x, y, i, EnvironmentStatus.Conflicted);
    if e[i].status == EnvironmentStatus.Pending {
      KeepsAny(e, z, i, EnvironmentStatus.Interrupted);
      KeepsAny(x, y, i, EnvironmentStatus.Interrupted);
    }
  }

  lemma KeepsAny(e: seq<EnvironmentRecord>, f: seq<EnvironmentRecord>, i: nat, status: EnvironmentStatus)
    requires |e| == |f| && i < |e| && e[i].status != status && f[i].status != status
    requires forall j :: 0 <= j < |e| && j != i ==> f[j] == e[j]
    ensures AnyIn(f, status) <==> AnyIn(e, status)
  {
    if j :| 0 <= j < |e| && e[j].status == status {
      assert f[j].status == status;
    }
  }

  /** Applying an environment, with a status that stays the old one. */
  lemma AppliedKeepsDue(base: UpgradeRecord, writers: seq<UpgradeRecord>, n: nat, i: nat)
    requires EntryFamily(base, writers) && n < |writers| && !Quiet(base, writers, n) && writers[n].status == base.status
    requires ChangesOne(base, writers[n], i) && NeedsWork(base.environments[i])
    requires writers[n].environments[i].status == EnvironmentStatus.Applied
    requires writers[n].status == Summarize(writers[n].environments)
    requires forall k :: 0 <= k < n ==> !Changes(base, writers[k], i)
    requires Due(base, writers, n) == base.status
    ensures Due(base, writers, n + 1) == base.status
  {
    var x := Stored(base, writers, n).environments;
    Untouched(base, writers, base, n, i);
    OneReplaced(base, writers, n, i);
    ApplyOne(base.environments, x, i, writers[n].environments[i]);
    if Due(base, writers, n + 1) != base.status {
      MoverIsSeen(base, writers, n, i);
      assert false;
    }
  }

  lemma OneReplaced(base: UpgradeRecord, writers: seq<UpgradeRecord>, n: nat, i: nat)
    requires Family(base, writers) && n < |writers| && ChangesOne(base, writers[n], i)
    ensures Stored(base, writers, n + 1).environments
         == Stored(base, writers, n).environments[i := writers[n].environments[i]]
  {
  }

  /**
    Once someone moved the status and the merged environments call for the old one again, they still
    do after an operation that keeps it.
   */
  lemma DuePersists(base: UpgradeRecord, writers: seq<UpgradeRecord>, n: nat)
    requires EntryFamily(base, writers) && n < |writers| && !Quiet(base, writers, n) && writers[n].status == base.status
    requires Due(base, writers, n) == base.status
    ensures Due(base, writers, n + 1) == base.status
  {
    var w := writers[n];
    assert w in writers;
    if Idle(base, w) {
      IdleKeeps(base, writers, n);
    } else {
      var i: nat :| ChangesOne(base, w, i);
      OneReplaced(base, writers, n, i);
      if k :| 0 <= k < n && Changes(base, writers[k], i) {
        assert writers[k] in writers;
        Taken(base, writers, base, n, i, k);
        assert Stored(base, writers, n + 1).environments == Stored(base, writers, n).environments;
      } else {
        Untouched(base, writers, base, n, i);
        ReplacedKeepsDue(base, writers, n, i);
      }
    }
  }

  lemma IdleKeeps(base: UpgradeRecord, writers: seq<UpgradeRecord>, n: nat)
    requires Family(base, writers) && n < |writers| && Idle(base, writers[n])
    ensures Stored(base, writers, n + 1).environments == Stored(base, writers, n).environments
  {
  }

  lemma ReplacedKeepsDue(base: UpgradeRecord, writers: seq<UpgradeRecord>, n: nat, i: nat)
    requires EntryFamily(base, writers) && n < |writers| && !Quiet(base, writers, n) && writers[n].status == base.status
    requires ChangesOne(base, writers[n], i) && forall k :: 0 <= k < n ==> !Changes(base, writers[k], i)
    requires Due(base, writers, n) == base.status
    ensures Due(base, writers, n + 1) == base.status
  {
    var x, y := Stored(base, writers, n).environments, Stored(base, writers, n + 1).environments;
    var now := writers[n].environments[i].status;
    Untouched(base, writers, base, n, i);
    OneReplaced(base, writers, n, i);
    if now == base.environments[i].status {
      SameStatuses(x, y);
    } else if now == EnvironmentStatus.Applied {
      AppliedKeepsDue(base, writers, n, i);
    } else {
      SummaryMeans(x);
      SummaryMeans(y);
      assert y[i].status == now;
    }
  }
}
