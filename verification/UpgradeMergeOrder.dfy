/** How the aggregate status depends on the order in which writers off one base are merged: src/connectivity.rs. */
module UpgradeMergeOrder {
  import opened Wrappers
  import opened Upgrade
  import opened UpgradeMerge

  /** Writers off one base, no two of which change the same environment. */
  ghost predicate Family(base: UpgradeRecord, writers: seq<UpgradeRecord>) {
    Writers(base, writers) && Disjoint(base, writers)
  }

  /** The record stored once the first `n` writers are merged onto their base. */
  function Stored(base: UpgradeRecord, writers: seq<UpgradeRecord>, n: nat): (record: UpgradeRecord)
    requires Writers(base, writers) && n <= |writers|
  {
    MergeTo(base, writers, base, n)
  }

  /** The status the environments merged so far call for. */
  function Due(base: UpgradeRecord, writers: seq<UpgradeRecord>, n: nat): (status: UpgradeStatus)
    requires Writers(base, writers) && n <= |writers|
  {
    Summarize(Stored(base, writers, n).environments)
  }

  /** None of the first `n` moves the status. */
  ghost predicate Quiet(base: UpgradeRecord, writers: seq<UpgradeRecord>, n: nat) {
    n <= |writers| && forall j :: 0 <= j < n ==> writers[j].status == base.status
  }

  /** One of the first `n` changes an environment. */
  ghost predicate Changed(base: UpgradeRecord, writers: seq<UpgradeRecord>, n: nat) {
    n <= |writers| && exists j :: 0 <= j < n && ChangesSome(base, writers[j])
  }

  /** The environments moved exactly when a writer changes one. */
  lemma StoredMoved(base: UpgradeRecord, writers: seq<UpgradeRecord>, n: nat)
    requires Family(base, writers) && n <= |writers|
    ensures Changed(base, writers, n) <==> Stored(base, writers, n).environments != base.environments
  {
    if Changed(base, writers, n) {
      var j :| 0 <= j < n && ChangesSome(base, writers[j]);
      var i: nat :| Changes(base, writers[j], i);
      Taken(base, writers, base, n, i, j);
    } else {
      forall i: nat | i < |base.environments|
        ensures Stored(base, writers, n).environments[i] == base.environments[i]
      {
        Untouched(base, writers, base, n, i);
      }
    }
  }

  // ----- The status after one more writer -----

  lemma OneMore(base: UpgradeRecord, writers: seq<UpgradeRecord>, n: nat)
    requires Family(base, writers) && n < |writers|
    ensures var before, w := Stored(base, writers, n).status, writers[n];
            Stored(base, writers, n + 1).status ==
              if !Changed(base, writers, n) then if w.status != base.status then w.status else before
              else if w.status != base.status || before != base.status then Due(base, writers, n + 1)
              else base.status
  {
    StoredMoved(base, writers, n);
  }

  /** Writers that change nothing: the last one that moves the status sets it. */
  lemma {:induction false} StatusBeforeChange(base: UpgradeRecord, writers: seq<UpgradeRecord>, n: nat)
    requires Family(base, writers) && n <= |writers| && !Changed(base, writers, n)
    ensures var status := Stored(base, writers, n).status;
            if Quiet(base, writers, n) then status == base.status
            else exists j: nat :: LastMover(base, writers, n, j) && status == writers[j].status
  {
    if n > 0 {
      StatusBeforeChange(base, writers, n - 1);
      OneMore(base, writers, n - 1);
      if writers[n - 1].status != base.status {
        assert LastMover(base, writers, n, n - 1);
      } else if !Quiet(base, writers, n - 1) {
        var m := n - 1;
        var j: nat :| LastMover(base, writers, m, j) && Stored(base, writers, m).status == writers[j].status;
        assert LastMover(base, writers, n, j);
      }
    }
  }

  ghost predicate LastMover(base: UpgradeRecord, writers: seq<UpgradeRecord>, n: nat, j: nat) {
    && j < n <= |writers| && writers[j].status != base.status
    && forall k :: j < k < n ==> writers[k].status == base.status
  }

  /** Up to and with the first change the status is the old one exactly when nobody moved it. */
  lemma FirstChange(base: UpgradeRecord, writers: seq<UpgradeRecord>, n: nat)
    requires Family(base, writers) && n < |writers| && !Changed(base, writers, n)
    ensures Stored(base, writers, n + 1).status == base.status <==> Quiet(base, writers, n + 1)
  {
    StatusBeforeChange(base, writers, n);
    OneMore(base, writers, n);
  }

  // ----- Orders -----

  ghost predicate Reorders(writers: seq<UpgradeRecord>, p: seq<UpgradeRecord>) {
    multiset(p) == multiset(writers)
  }

  /** The stored status is the same in every order. */
  ghost predicate Settled(base: UpgradeRecord, writers: seq<UpgradeRecord>) {
    forall p, q :: Reorders(writers, p) && Reorders(writers, q) && Writers(base, p) && Writers(base, q) ==>
      Stored(base, p, |p|).status == Stored(base, q, |q|).status
  }
}
