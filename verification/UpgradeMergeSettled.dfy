/**
  Exactly when concurrent operations store the same status in every order: src/connectivity.rs. They
  loaded one base, hold disjoint leases, and their writes reach `merge_upgrade` one after the other.
 */
module UpgradeMergeSettled {
  import opened Wrappers
  import opened Upgrade
  import opened UpgradeProperties
  import opened UpgradeMerge
  import opened UpgradeMergeOrder
  import opened UpgradeMergeOperations

  /**
    Operation `ops[k]` hands `writers[k]` to `persist`; leases do not overlap, and a rollback leases
    every environment.
   */
  ghost predicate Concurrent(base: UpgradeRecord, ops: seq<Operation>, writers: seq<UpgradeRecord>) {
    && |ops| == |writers| && NoBlankNames(base.environments)
    && (forall k :: 0 <= k < |ops| ==> Run(ops[k], base) == Persist(writers[k]))
    && (forall j, k :: 0 <= j < k < |ops| ==> Footprint(ops[j]) !! Footprint(ops[k]))
    && (forall k, e :: 0 <= k < |ops| && ops[k].Rollback? && e in base.environments ==> e.name in ops[k].locked)
  }

  /** An operation changes only environments it leased. */
  lemma ChangesLeased(base: UpgradeRecord, ops: seq<Operation>, writers: seq<UpgradeRecord>, k: nat, i: nat)
    requires Concurrent(base, ops, writers) && k < |ops| && Changes(base, writers[k], i)
    ensures base.environments[i].name in Footprint(ops[k])
  {
    RunStepsEntries(ops[k], base);
  }

  /** No two operations change the same environment. */
  lemma OneEach(base: UpgradeRecord, ops: seq<Operation>, writers: seq<UpgradeRecord>, j: nat, k: nat, i: nat)
    requires Concurrent(base, ops, writers) && j < |ops| && k < |ops|
    requires Changes(base, writers[j], i) && Changes(base, writers[k], i)
    ensures j == k
  {
    ChangesLeased(base, ops, writers, j, i);
    ChangesLeased(base, ops, writers, k, i);
  }

  lemma ConcurrentFamily(base: UpgradeRecord, ops: seq<Operation>, writers: seq<UpgradeRecord>)
    requires Concurrent(base, ops, writers)
    ensures Family(base, writers)
  {
    forall v, w, i: nat | v in writers && w in writers && Changes(base, v, i) && Changes(base, w, i)
      ensures v == w
    {
      var j :| 0 <= j < |writers| && writers[j] == v;
      var k :| 0 <= k < |writers| && writers[k] == w;
      OneEach(base, ops, writers, j, k, i);
    }
  }

  /** A rollback leases every environment, so next to it nothing else changes one. */
  lemma RollbackExcludes(base: UpgradeRecord, ops: seq<Operation>, writers: seq<UpgradeRecord>, r: nat, k: nat)
    requires Concurrent(base, ops, writers) && r < |ops| && k < |ops| && r != k && ops[r].Rollback?
    ensures !ChangesSome(base, writers[k])
  {
    if i: nat :| Changes(base, writers[k], i) {
      ChangesLeased(base, ops, writers, k, i);
      assert false;
    }
  }

  lemma SeveralAreEntries(base: UpgradeRecord, ops: seq<Operation>, writers: seq<UpgradeRecord>, j: nat, k: nat)
    requires Concurrent(base, ops, writers) && j < k < |ops| && ChangesSome(base, writers[j])
    requires ChangesSome(base, writers[k])
    ensures EntryFamily(base, writers) && writers[j] != writers[k]
  {
    ConcurrentFamily(base, ops, writers);
    forall w | w in writers
      ensures Refreshes(base, w) || ChangesAlone(base, w)
    {
      var m :| 0 <= m < |writers| && writers[m] == w;
      if ops[m].Rollback? {
        RollbackExcludes(base, ops, writers, m, if m == j then k else j);
      }
      EntryOperationWrites(base, ops[m], w);
    }
    var i: nat :| Changes(base, writers[j], i);
    if writers[j] == writers[k] { OneEach(base, ops, writers, j, k, i); }
  }

  // ----- After the first change -----

  /**
    With another writer after the first change, the status is what the environments call for, unless
    nobody moved it.
   */
  lemma {:induction false} StatusAfterChange(base: UpgradeRecord, writers: seq<UpgradeRecord>, n: nat)
    requires Family(base, writers) && 0 < n <= |writers| && Changed(base, writers, n - 1)
    requires EntryFamily(base, writers)
          || forall k :: 0 <= k < |writers| && Changed(base, writers, k) ==> Idle(base, writers[k])
    ensures Stored(base, writers, n).status == if Quiet(base, writers, n) then base.status else Due(base, writers, n)
  {
    OneMore(base, writers, n - 1);
    var before := Stored(base, writers, n - 1).status;
    if Changed(base, writers, n - 2) {
      StatusAfterChange(base, writers, n - 1);
    } else {
      FirstChange(base, writers, n - 2);
    }
    if !Quiet(base, writers, n - 1) && before == base.status && writers[n - 1].status == base.status {
      if EntryFamily(base, writers) {
        DuePersists(base, writers, n - 1);
      } else {
        IdleKeeps(base, writers, n - 1);
      }
    }
  }

  /**
    Operations of which at least two change an environment store the same status in every order,
    status-only ones among them or not: what the merged environments call for, unless nobody moved it.
   */
  lemma SeveralChangesSettle(
    base: UpgradeRecord, ops: seq<Operation>, writers: seq<UpgradeRecord>, j: nat, k: nat, p: seq<UpgradeRecord>)
    requires Concurrent(base, ops, writers) && j < k < |ops| && ChangesSome(base, writers[j])
    requires ChangesSome(base, writers[k])
    requires Reorders(writers, p)
    ensures Family(base, writers) && Writers(base, p)
    ensures Stored(base, p, |p|).status ==
              if Quiet(base, writers, |writers|) then base.status else Due(base, writers, |writers|)
  {
    SeveralAreEntries(base, ops, writers, j, k);
    Reordered(base, writers, p);
    NotBothLast(writers, p, j, k);
    assert Changed(base, p, |p| - 1);
    StatusAfterChange(base, p, |p|);
  }

  lemma Reordered(base: UpgradeRecord, writers: seq<UpgradeRecord>, p: seq<UpgradeRecord>)
    requires Family(base, writers) && Reorders(writers, p)
    ensures Family(base, p) && |p| == |writers| && (forall w :: w in p <==> w in writers)
    ensures Due(base, p, |p|) == Due(base, writers, |writers|)
    ensures Quiet(base, p, |p|) <==> Quiet(base, writers, |writers|)
  {
    SameMembers(writers, p);
    MergeConfluent(base, writers, p, base);
    QuietMembers(base, p);
    QuietMembers(base, writers);
  }

  lemma QuietMembers(base: UpgradeRecord, writers: seq<UpgradeRecord>)
    ensures Quiet(base, writers, |writers|) <==> forall w <- writers :: w.status == base.status
  {
  }

  lemma NotBothLast(writers: seq<UpgradeRecord>, p: seq<UpgradeRecord>, j: nat, k: nat)
    requires Reorders(writers, p) && j < |writers| && k < |writers| && writers[j] != writers[k]
    ensures exists m :: 0 <= m < |p| - 1 && p[m] in {writers[j], writers[k]}
  {
    SameMembers(writers, p);
    assert writers[j] in p && writers[k] in p;
    var x :| 0 <= x < |p| && p[x] == writers[j];
    var y :| 0 <= y < |p| && p[y] == writers[k];
    var m := if x < |p| - 1 then x else y;
    assert p[m] in {writers[j], writers[k]};
  }

  // ----- One change -----

  /** Every other writer is status-only. */
  ghost predicate OnlyChange(base: UpgradeRecord, writers: seq<UpgradeRecord>, c: nat) {
    && c < |writers| && ChangesSome(base, writers[c])
    && forall k :: 0 <= k < |writers| && k != c ==> Idle(base, writers[k])
  }

  /** What the only change and the status-only writers must have in common. */
  ghost predicate Agreeable(base: UpgradeRecord, writers: seq<UpgradeRecord>, c: nat)
    requires c < |writers|
  {
    var due := Summarize(writers[c].environments);
    if writers[c].status != base.status then writers[c].status == due
    else forall k :: 0 <= k < |writers| && writers[k].status != base.status ==> writers[k].status == due
  }

  lemma OnlyChangeReordered(
    base: UpgradeRecord, writers: seq<UpgradeRecord>, c: nat, p: seq<UpgradeRecord>)
    returns (d: nat)
    requires Family(base, writers) && OnlyChange(base, writers, c) && Reorders(writers, p)
    ensures OnlyChange(base, p, d) && p[d] == writers[c]
  {
    SameMembers(writers, p);
    assert writers[c] in p;
    d :| 0 <= d < |p| && p[d] == writers[c];
    CountsOnce(writers, c);
    forall k | 0 <= k < |p| && k != d
      ensures Idle(base, p[k])
    {
      if p[k] == p[d] {
        CountsTwice(p, d, k);
      } else {
        assert p[k] in writers;
      }
    }
  }

  lemma CountsOnce(writers: seq<UpgradeRecord>, c: nat)
    requires c < |writers| && forall k :: 0 <= k < |writers| && k != c ==> writers[k] != writers[c]
    ensures multiset(writers)[writers[c]] == 1
  {
    assert writers == writers[..c] + [writers[c]] + writers[c + 1..];
  }

  lemma CountsTwice(p: seq<UpgradeRecord>, d: nat, k: nat)
    requires d < |p| && k < |p| && d != k && p[d] == p[k]
    ensures multiset(p)[p[d]] >= 2
  {
    var i, j := if d < k then d else k, if d < k then k else d;
    assert p == p[..i] + [p[i]] + p[i + 1..j] + [p[j]] + p[j + 1..];
  }

  /** The environments of the only change are the merged ones. */
  lemma OnlyChangeDue(base: UpgradeRecord, writers: seq<UpgradeRecord>, c: nat)
    requires Family(base, writers) && OnlyChange(base, writers, c)
    ensures Due(base, writers, |writers|) == Summarize(writers[c].environments)
  {
    assert writers[c] in writers && SameShape(base, writers[c]);
    forall i: nat | i < |base.environments|
      ensures Stored(base, writers, |writers|).environments[i] == writers[c].environments[i]
    {
      if Changes(base, writers[c], i) {
        Taken(base, writers, base, |writers|, i, c);
      } else {
        Untouched(base, writers, base, |writers|, i);
      }
    }
    assert Stored(base, writers, |writers|).environments == writers[c].environments;
  }

  /**
    One order: if the change comes last the status is its own or the last one set before; otherwise
    what the environments call for.
   */
  lemma OneOrder(base: UpgradeRecord, p: seq<UpgradeRecord>, d: nat)
    requires Family(base, p) && OnlyChange(base, p, d)
    ensures var status, due := Stored(base, p, |p|).status, Summarize(p[d].environments);
            if Quiet(base, p, |p|) then status == base.status
            else if d < |p| - 1 then status == due
            else if p[d].status != base.status then status == p[d].status
            else exists j: nat :: LastMover(base, p, |p| - 1, j) && status == p[j].status
  {
    OnlyChangeDue(base, p, d);
    var n := |p| - 1;
    if d < n {
      assert Changed(base, p, n);
      StatusAfterChange(base, p, |p|);
    } else {
      StatusBeforeChange(base, p, n);
      OneMore(base, p, n);
    }
  }

  function ToBack(writers: seq<UpgradeRecord>, i: nat): (p: seq<UpgradeRecord>)
    requires i < |writers|
    ensures Reorders(writers, p) && |p| == |writers| && p[|p| - 1] == writers[i]
    ensures |writers| >= 2 ==> p[|p| - 2] == writers[if i == |writers| - 1 then |writers| - 2 else |writers| - 1]
  {
    assert writers == writers[..i] + [writers[i]] + writers[i + 1..];
    writers[..i] + writers[i + 1..] + [writers[i]]
  }

  /** An order in which the change comes last, and `m` right before it. */
  lemma ChangeLast(base: UpgradeRecord, writers: seq<UpgradeRecord>, c: nat, m: nat) returns (p: seq<UpgradeRecord>)
    requires Family(base, writers) && OnlyChange(base, writers, c) && m < |writers| && m != c
    ensures Reorders(writers, p) && Family(base, p) && OnlyChange(base, p, |p| - 1)
    ensures |p| >= 2 && p[|p| - 1] == writers[c] && p[|p| - 2] == writers[m]
  {
    var q := ToBack(writers, m);
    Reordered(base, writers, q);
    var d := OnlyChangeReordered(base, writers, c, q);
    p := ToBack(q, d);
    Reordered(base, writers, p);
    var e := OnlyChangeReordered(base, writers, c, p);
  }

  /**
    With one operation that changes an environment and at least one that does not, the status is the
    same in every order exactly when the change sets the status its environments call for or, if it
    keeps the old one, every operation that moves it sets that.
   */
  lemma OneChangeSettlesExactlyWhen(base: UpgradeRecord, ops: seq<Operation>, writers: seq<UpgradeRecord>, c: nat)
    requires Concurrent(base, ops, writers) && |writers| >= 2 && OnlyChange(base, writers, c)
    ensures Settled(base, writers) <==> Agreeable(base, writers, c)
  {
    ConcurrentFamily(base, ops, writers);
    if Agreeable(base, writers, c) {
      forall p, q | Reorders(writers, p) && Reorders(writers, q) && Writers(base, p) && Writers(base, q)
        ensures Stored(base, p, |p|).status == Stored(base, q, |q|).status
      {
        AgreeableStatus(base, writers, c, p);
        AgreeableStatus(base, writers, c, q);
      }
    } else {
      Unsettled(base, writers, c);
    }
  }

  lemma AgreeableStatus(base: UpgradeRecord, writers: seq<UpgradeRecord>, c: nat, p: seq<UpgradeRecord>)
    requires Family(base, writers) && OnlyChange(base, writers, c) && Agreeable(base, writers, c)
    requires Reorders(writers, p)
    ensures Writers(base, p)
    ensures Stored(base, p, |p|).status ==
              if Quiet(base, writers, |writers|) then base.status else Summarize(writers[c].environments)
  {
    Reordered(base, writers, p);
    var d := OnlyChangeReordered(base, writers, c, p);
    OneOrder(base, p, d);
    assert forall k :: 0 <= k < |p| ==> p[k] in writers;
  }

  lemma Unsettled(base: UpgradeRecord, writers: seq<UpgradeRecord>, c: nat)
    requires Family(base, writers) && OnlyChange(base, writers, c) && |writers| >= 2 && !Agreeable(base, writers, c)
    ensures !Settled(base, writers)
  {
    var due := Summarize(writers[c].environments);
    var other: nat := if c == 0 then 1 else 0;
    assert other < |writers| && other != c;
    if writers[c].status != base.status {
      TwoOrders(base, writers, c, other);
    } else {
      var m: nat :| m < |writers| && writers[m].status != base.status && writers[m].status != due;
      TwoOrders(base, writers, c, m);
    }
  }

  /** The change last and right after `m`, or `m` last. */
  lemma TwoOrders(base: UpgradeRecord, writers: seq<UpgradeRecord>, c: nat, m: nat)
    requires Family(base, writers) && OnlyChange(base, writers, c) && m < |writers| && m != c
    requires var due := Summarize(writers[c].environments);
             if writers[c].status != base.status then writers[c].status != due
             else writers[m].status != base.status && writers[m].status != due
    ensures !Settled(base, writers)
  {
    var p := CLast(base, writers, c, m);
    var q := ToBack(writers, m);
    MLast(base, writers, c, m, q);
    assert Stored(base, p, |p|).status != Stored(base, q, |q|).status;
  }

  lemma CLast(base: UpgradeRecord, writers: seq<UpgradeRecord>, c: nat, m: nat) returns (p: seq<UpgradeRecord>)
    requires Family(base, writers) && OnlyChange(base, writers, c) && m < |writers| && m != c
    requires writers[c].status != base.status || writers[m].status != base.status
    ensures Reorders(writers, p) && Writers(base, p)
    ensures Stored(base, p, |p|).status ==
              if writers[c].status != base.status then writers[c].status else writers[m].status
  {
    p := ChangeLast(base, writers, c, m);
    OneOrder(base, p, |p| - 1);
  }

  lemma MLast(base: UpgradeRecord, writers: seq<UpgradeRecord>, c: nat, m: nat, q: seq<UpgradeRecord>)
    requires Family(base, writers) && OnlyChange(base, writers, c) && m < |writers| && m != c && q == ToBack(writers, m)
    requires writers[c].status != base.status || writers[m].status != base.status
    ensures Reorders(writers, q) && Writers(base, q)
    ensures Stored(base, q, |q|).status == Summarize(writers[c].environments)
  {
    Reordered(base, writers, q);
    var d := OnlyChangeReordered(base, writers, c, q);
    OneOrder(base, q, d);
  }

  // ----- No change -----

  ghost predicate MoversAlike(base: UpgradeRecord, writers: seq<UpgradeRecord>) {
    forall v, w | v in writers && w in writers ::
      v.status != base.status && w.status != base.status ==> v.status == w.status
  }

  /** Status-only operations store the same status in every order exactly when those that move it agree. */
  lemma NoChangeSettlesExactlyWhen(base: UpgradeRecord, writers: seq<UpgradeRecord>)
    requires Family(base, writers) && !Changed(base, writers, |writers|)
    ensures Settled(base, writers) <==> MoversAlike(base, writers)
  {
    if MoversAlike(base, writers) {
      forall p, q | Reorders(writers, p) && Reorders(writers, q) && Writers(base, p) && Writers(base, q)
        ensures Stored(base, p, |p|).status == Stored(base, q, |q|).status
      {
        IdleOrder(base, writers, p);
        IdleOrder(base, writers, q);
        QuietMembers(base, p);
        QuietMembers(base, q);
      }
    } else {
      var v, w :| v in writers && w in writers && v.status != base.status && w.status != base.status && v.status != w.status;
      var j :| 0 <= j < |writers| && writers[j] == v;
      var k :| 0 <= k < |writers| && writers[k] == w;
      MoverLast(base, writers, j);
      MoverLast(base, writers, k);
      assert Reorders(writers, ToBack(writers, j)) && Reorders(writers, ToBack(writers, k));
    }
  }

  ghost predicate LastSet(base: UpgradeRecord, p: seq<UpgradeRecord>, status: UpgradeStatus) {
    if Quiet(base, p, |p|) then status == base.status
    else exists j: nat :: LastMover(base, p, |p|, j) && status == p[j].status
  }

  lemma IdleOrder(base: UpgradeRecord, writers: seq<UpgradeRecord>, p: seq<UpgradeRecord>)
    requires Family(base, writers) && !Changed(base, writers, |writers|) && Reorders(writers, p)
    ensures Family(base, p) && (forall w :: w in p <==> w in writers) && LastSet(base, p, Stored(base, p, |p|).status)
  {
    Reordered(base, writers, p);
    assert forall k :: 0 <= k < |p| ==> p[k] in writers;
    StatusBeforeChange(base, p, |p|);
  }

  lemma MoverLast(base: UpgradeRecord, writers: seq<UpgradeRecord>, j: nat)
    requires Family(base, writers) && !Changed(base, writers, |writers|) && j < |writers|
    requires writers[j].status != base.status
    ensures Reorders(writers, ToBack(writers, j)) && Writers(base, ToBack(writers, j))
    ensures Stored(base, ToBack(writers, j), |writers|).status == writers[j].status
  {
    IdleOrder(base, writers, ToBack(writers, j));
  }

  // ----- All cases -----

  /** Two operations change an environment each. */
  ghost predicate SeveralChange(base: UpgradeRecord, writers: seq<UpgradeRecord>) {
    exists j, k :: 0 <= j < k < |writers| && ChangesSome(base, writers[j]) && ChangesSome(base, writers[k])
  }

  /**
    Any number of concurrent operations store the same status in every order exactly when two of them
    change an environment, or the one that does agrees with the status-only ones beside it, or all
    are status-only and those that move the status agree.
   */
  lemma SettledExactlyWhen(base: UpgradeRecord, ops: seq<Operation>, writers: seq<UpgradeRecord>)
    requires Concurrent(base, ops, writers)
    ensures Settled(base, writers) <==>
              || SeveralChange(base, writers)
              || (exists c: nat :: OnlyChange(base, writers, c) && (|writers| == 1 || Agreeable(base, writers, c)))
              || (!Changed(base, writers, |writers|) && MoversAlike(base, writers))
  {
    ConcurrentFamily(base, ops, writers);
    if SeveralChange(base, writers) {
      var j, k :| 0 <= j < k < |writers| && ChangesSome(base, writers[j]) && ChangesSome(base, writers[k]);
      forall p | Reorders(writers, p)
        ensures Writers(base, p) && Stored(base, p, |p|).status ==
                  if Quiet(base, writers, |writers|) then base.status else Due(base, writers, |writers|)
      {
        SeveralChangesSettle(base, ops, writers, j, k, p);
      }
    } else if Changed(base, writers, |writers|) {
      var c: nat :| c < |writers| && ChangesSome(base, writers[c]);
      OthersIdle(base, writers, c);
      if |writers| == 1 {
        SoleOrder(base, writers);
      } else {
        OneChangeSettlesExactlyWhen(base, ops, writers, c);
      }
      assert forall d: nat :: OnlyChange(base, writers, d) ==> d == c;
    } else {
      NoChangeSettlesExactlyWhen(base, writers);
    }
  }

  lemma OthersIdle(base: UpgradeRecord, writers: seq<UpgradeRecord>, c: nat)
    requires Family(base, writers) && c < |writers| && ChangesSome(base, writers[c]) && !SeveralChange(base, writers)
    ensures OnlyChange(base, writers, c)
  {
    forall k | 0 <= k < |writers| && k != c
      ensures Idle(base, writers[k])
    {
      assert writers[k] in writers && SameShape(base, writers[k]) && !ChangesSome(base, writers[k]);
      forall i: nat | i < |base.environments|
        ensures writers[k].environments[i] == base.environments[i]
      {
        assert !Changes(base, writers[k], i);
      }
    }
  }

  lemma SoleOrder(base: UpgradeRecord, writers: seq<UpgradeRecord>)
    requires |writers| == 1
    ensures Settled(base, writers)
  {
    forall p | Reorders(writers, p)
      ensures p == writers
    {
      SoleReorder(writers, p);
    }
  }

  lemma SoleReorder(writers: seq<UpgradeRecord>, p: seq<UpgradeRecord>)
    requires |writers| == 1 && Reorders(writers, p)
    ensures p == writers
  {
    SameMembers(writers, p);
    assert p[0] in writers;
  }

  // ----- The condition on base and operation -----

  /** No environment but `i` is in one of these statuses. */
  ghost predicate NoOtherIn(e: seq<EnvironmentRecord>, i: nat, statuses: set<EnvironmentStatus>) {
    forall j :: 0 <= j < |e| && j != i ==> e[j].status !in statuses
  }

  /**
    Where the status an operation on environment `i` sets is the one its environments call for, told
    from base and operation.
   */
  ghost predicate SetsDue(base: UpgradeRecord, op: Operation, i: nat)
    requires !op.Rollback? && i < |base.environments|
  {
    var change := ChangeOf(op, base.header, base.environments[i]);
    change.Put? &&
    match change.status
    case KeepStatus => base.status == Summarize(base.environments)
    case Aggregate => true
    case SetStatus(status) =>
      NoOtherIn(base.environments, i, if status == UpgradeStatus.Interrupted
                                      then {EnvironmentStatus.RecoveryRequired, EnvironmentStatus.Conflicted}
                                      else {EnvironmentStatus.RecoveryRequired})
  }

  lemma OwnStatusIsDue(base: UpgradeRecord, op: Operation, w: UpgradeRecord, i: nat)
    requires !op.Rollback? && Run(op, base) == Persist(w) && Changes(base, w, i)
    ensures w.status == Summarize(w.environments) <==> SetsDue(base, op, i)
  {
    EntryWrites(op, base.header, base.environments[i]);
    WritesAt(base, op, w, i);
    var change := ChangeOf(op, base.header, base.environments[i]);
    if change.status == KeepStatus {
      SameStatuses(w.environments, base.environments);
    } else if change.status.SetStatus? {
      WorstStatus(base.environments, i, change.entry);
    }
  }

  lemma WritesAt(base: UpgradeRecord, op: Operation, w: UpgradeRecord, i: nat)
    requires !op.Rollback? && Run(op, base) == Persist(w) && Changes(base, w, i)
    ensures var change := ChangeOf(op, base.header, base.environments[i]);
            && change.Put? && w.environments == base.environments[i := change.entry]
            && (op.Advance? ==> NeedsWork(base.environments[i]))
            && w.status == WithStatus(base.(environments := w.environments), change.status)
  {
  }

  lemma WorstStatus(e: seq<EnvironmentRecord>, i: nat, entry: EnvironmentRecord)
    requires i < |e|
    ensures var f := e[i := entry];
            && (entry.status == EnvironmentStatus.Interrupted ==>
                  (Summarize(f) == UpgradeStatus.Interrupted <==>
                     NoOtherIn(e, i, {EnvironmentStatus.RecoveryRequired, EnvironmentStatus.Conflicted})))
            && (entry.status == EnvironmentStatus.Conflicted ==>
                  (Summarize(f) == UpgradeStatus.Conflicted <==> NoOtherIn(e, i, {EnvironmentStatus.RecoveryRequired})))
  {
    var f := e[i := entry];
    SummaryMeans(f);
    assert f[i].status == entry.status && forall j :: 0 <= j < |e| && j != i ==> f[j] == e[j];
  }

  /**
    A rollback sets the status its environments call for exactly when it halts or leaves nothing but
    rolled back environments.
   */
  lemma RollbackStatusIsDue(base: UpgradeRecord, op: Operation, w: UpgradeRecord)
    requires op.Rollback? && Run(op, base) == Persist(w) && ChangesSome(base, w)
    requires forall e :: e in base.environments ==> e.name in op.locked
    ensures w.status == Summarize(w.environments) <==>
              || w.status == UpgradeStatus.RecoveryRequired
              || forall e :: e in base.environments ==> e.status in {EnvironmentStatus.Applied,
                  EnvironmentStatus.RolledBack}
  {
    RollbackStoresOneShape(base, op.locked, op.outcomes);
    SummaryMeans(w.environments);
    assert forall j :: 0 <= j < |base.environments| ==> base.environments[j] in base.environments;
  }

  // ----- A case that is not settled -----

  const PINS := Header("", "", "", "", "", "", "", "", "", 0)
  const CLASHED := EnvironmentRecord("x", Intermittent, EnvironmentStatus.Conflicted, None, StaleGenerationOnResume,
      None, None)
  const REVERTED := EnvironmentRecord("y", Intermittent, EnvironmentStatus.RolledBack, None, RolledBackByPlan, None,
      None)
  const LOADED := UpgradeRecord(PINS, UpgradeStatus.Conflicted, [CLASHED, REVERTED], 0)
  const IDLE_ADVANCE := Advance("", "", 0, true)
  const INTERRUPT := InterruptTransfer("y", "z", 0)
  const STOPPED := REVERTED.(status := EnvironmentStatus.Interrupted, planId := Some("z"),
      detail := TransferInterrupted,
                             transfer := Some(TransferCheckpoint("z", "", "", "", 0, false)))
  const INTERRUPTED := LOADED.(environments := [CLASHED, STOPPED], status := UpgradeStatus.Interrupted)

  lemma LoadedRuns()
    ensures Run(IDLE_ADVANCE, LOADED) == Persist(LOADED)
    ensures Run(INTERRUPT, LOADED) == Persist(INTERRUPTED)
  {
    var e := LOADED.environments;
    assert e[0].name == "x" && e[1].name == "y";
    assert EnvIndex(e, "").None?;
    assert EnvIndex(e, "y") == Some(1);
    assert e[1 := STOPPED] == [CLASHED, STOPPED];
    SummaryMeans(e);
    assert e[0].status == EnvironmentStatus.Conflicted;
  }

  lemma LoadedMerges()
    ensures Merge(LOADED, LOADED, LOADED) == Ok(LOADED)
    ensures Merge(LOADED, INTERRUPTED, LOADED) == Ok(INTERRUPTED)
    ensures Merge(LOADED, LOADED, INTERRUPTED) == Ok(INTERRUPTED.(status := UpgradeStatus.Conflicted))
  {
    assert MergeEntries(LOADED, LOADED, LOADED) == LOADED.environments;
    assert MergeEntries(LOADED, INTERRUPTED, LOADED) == INTERRUPTED.environments;
    assert MergeEntries(LOADED, LOADED, INTERRUPTED) == INTERRUPTED.environments;
    assert INTERRUPTED.environments[1] != LOADED.environments[1];
    SummaryMeans(INTERRUPTED.environments);
    assert INTERRUPTED.environments[0].status == EnvironmentStatus.Conflicted;
  }

  lemma Pair(base: UpgradeRecord, v: UpgradeRecord, w: UpgradeRecord)
    requires SameShape(base, v) && SameShape(base, w)
    ensures Stored(base, [v, w], 2) == Merge(base, w, Merge(base, v, base).value).value
  {
    var pair := [v, w];
    assert MergeTo(base, pair, base, 0) == base;
    assert MergeTo(base, pair, base, 1) == Merge(base, pair[0], base).value;
  }

  /**
    One environment conflicted, one rolled back. Interrupting the second while an `advance` finds
    nothing to do stores Conflicted if the advance is stored last, and Interrupted if it is first.
   */
  lemma IdleAdvanceShowsOrder()
    ensures Concurrent(LOADED, [IDLE_ADVANCE, INTERRUPT], [LOADED, INTERRUPTED])
    ensures Stored(LOADED, [LOADED, INTERRUPTED], 2).status == UpgradeStatus.Interrupted
    ensures Stored(LOADED, [INTERRUPTED, LOADED], 2).status == UpgradeStatus.Conflicted
  {
    LoadedConcurrent();
    LoadedMerges();
    Pair(LOADED, LOADED, INTERRUPTED);
    Pair(LOADED, INTERRUPTED, LOADED);
  }

  lemma LoadedConcurrent()
    ensures Concurrent(LOADED, [IDLE_ADVANCE, INTERRUPT], [LOADED, INTERRUPTED])
  {
    LoadedRuns();
  }
}
