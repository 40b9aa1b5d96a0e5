/**
  The three-way merge of src/connectivity.rs: a writer's changes to the record it loaded are
  applied to the record stored meanwhile.
 */
module UpgradeMerge {
  import opened Wrappers
  import opened Upgrade

  predicate Changes(base: UpgradeRecord, modified: UpgradeRecord, i: nat) {
    i < |base.environments| && i < |modified.environments| && modified.environments[i] != base.environments[i]
  }

  predicate SameShape(a: UpgradeRecord, b: UpgradeRecord) {
    |a.environments| == |b.environments|
  }

  function Max(a: int, b: int): (m: int) {
    if a < b then b else a
  }

  /** The entries of `modified` that changed, over the entries of `current`. */
  function MergeEntries(
    base: UpgradeRecord, modified: UpgradeRecord, current: UpgradeRecord): (merged: seq<EnvironmentRecord>)
    requires SameShape(base, modified) && SameShape(base, current)
  {
    seq(|current.environments|, i requires 0 <= i < |current.environments| =>
      if modified.environments[i] != base.environments[i] then modified.environments[i] else current.environments[i])
  }

  function MergeStatus(base: UpgradeRecord, modified: UpgradeRecord, current: UpgradeRecord): (status: UpgradeStatus)
    requires SameShape(base, modified) && SameShape(base, current)
  {
    if current.environments != base.environments then
      if modified.status != base.status || current.status != base.status
      then Summarize(MergeEntries(base, modified, current))
      else current.status
    else if modified.status != base.status then modified.status
    else current.status
  }

  function Merge(
    base: UpgradeRecord, modified: UpgradeRecord, current: UpgradeRecord): (result: Result<UpgradeRecord>)
  {
    if !SameShape(base, modified) || !SameShape(base, current) then Err
    else
      Ok(UpgradeRecord(
           current.header,
           MergeStatus(base, modified, current),
           MergeEntries(base, modified, current),
           if modified.updatedAt != base.updatedAt then Max(current.updatedAt, modified.updatedAt)
           else current.updatedAt))
  }

  method MergeUpgrade(
    base: UpgradeRecord, modified: UpgradeRecord, current: UpgradeRecord)
    returns (result: Result<UpgradeRecord>)
    ensures result == Merge(base, modified, current)
  {
    if |base.environments| != |modified.environments| || |current.environments| != |base.environments| {
      return Err;
    }
    var concurrent := current.environments != base.environments;
    var merged := current;
    var index := 0;
    while index < |modified.environments|
      invariant 0 <= index <= |modified.environments| == |merged.environments|
      invariant merged == current.(environments := merged.environments)
      invariant merged.environments[..index] == MergeEntries(base, modified, current)[..index]
      invariant merged.environments[index..] == current.environments[index..]
    {
      var changed := modified.environments[index];
      if changed != base.environments[index] {
        merged := merged.(environments := merged.environments[index := changed]);
      }
      index := index + 1;
    }
    assert merged.environments == MergeEntries(base, modified, current);
    if concurrent {
      if modified.status != base.status || merged.status != base.status {
        merged := merged.(status := Summarize(merged.environments));
      }
    } else if modified.status != base.status {
      merged := merged.(status := modified.status);
    }
    if modified.updatedAt != base.updatedAt {
      merged := merged.(updatedAt := Max(merged.updatedAt, modified.updatedAt));
    }
    result := Ok(merged);
  }

  // ----- Writers off one base -----

  ghost predicate Writers(base: UpgradeRecord, writers: seq<UpgradeRecord>) {
    forall w <- writers :: SameShape(base, w)
  }

  /** No environment is changed by two different writers. */
  ghost predicate Disjoint(base: UpgradeRecord, writers: seq<UpgradeRecord>) {
    forall v, w, i: nat :: v in writers && w in writers && Changes(base, v, i) && Changes(base, w, i) ==> v == w
  }

  /** `current` with the first `n` writers merged onto it, one after the other. */
  function MergeTo(
    base: UpgradeRecord, writers: seq<UpgradeRecord>, current: UpgradeRecord, n: nat): (merged: UpgradeRecord)
    requires Writers(base, writers) && SameShape(base, current) && n <= |writers|
    ensures SameShape(base, merged)
  {
    if n == 0 then current else Merge(base, writers[n - 1], MergeTo(base, writers, current, n - 1)).value
  }

  function MergeAll(base: UpgradeRecord, writers: seq<UpgradeRecord>, current: UpgradeRecord): (merged: UpgradeRecord)
    requires Writers(base, writers) && SameShape(base, current)
  {
    MergeTo(base, writers, current, |writers|)
  }

  lemma {:induction false} Untouched(
    base: UpgradeRecord, writers: seq<UpgradeRecord>, current: UpgradeRecord, n: nat, i: nat)
    requires Writers(base, writers) && SameShape(base, current) && n <= |writers| && i < |base.environments|
    requires forall j :: 0 <= j < n ==> !Changes(base, writers[j], i)
    ensures MergeTo(base, writers, current, n).environments[i] == current.environments[i]
  {
    if n > 0 {
      Untouched(base, writers, current, n - 1, i);
      assert !Changes(base, writers[n - 1], i);
    }
  }

  lemma {:induction false} Taken(
    base: UpgradeRecord, writers: seq<UpgradeRecord>, current: UpgradeRecord, n: nat, i: nat, j: nat)
    requires Writers(base, writers) && Disjoint(base, writers) && SameShape(base, current)
    requires j < n <= |writers| && Changes(base, writers[j], i)
    ensures MergeTo(base, writers, current, n).environments[i] == writers[j].environments[i]
  {
    if j < n - 1 {
      Taken(base, writers, current, n - 1, i, j);
      assert writers[j] in writers && writers[n - 1] in writers;
    }
  }

  lemma SameMembers(writers: seq<UpgradeRecord>, p: seq<UpgradeRecord>)
    requires multiset(p) == multiset(writers)
    ensures |p| == |writers| && forall w :: w in p <==> w in writers
  {
    forall w ensures w in p <==> w in writers {
      assert w in p <==> w in multiset(p);
      assert w in writers <==> w in multiset(writers);
    }
    assert |multiset(p)| == |p| && |multiset(writers)| == |writers|;
  }

  /** Any number of writers off one base with disjoint changes store the same environments in every order. */
  lemma MergeConfluent(base: UpgradeRecord, writers: seq<UpgradeRecord>, p: seq<UpgradeRecord>, current: UpgradeRecord)
    requires Writers(base, writers) && SameShape(base, current) && Disjoint(base, writers)
    requires multiset(p) == multiset(writers)
    ensures Writers(base, p) && Disjoint(base, p) && |p| == |writers|
    ensures MergeAll(base, p, current).environments == MergeAll(base, writers, current).environments
  {
    SameMembers(writers, p);
    forall i: nat | i < |base.environments|
      ensures MergeAll(base, p, current).environments[i] == MergeAll(base, writers, current).environments[i]
    {
      if j :| 0 <= j < |writers| && Changes(base, writers[j], i) {
        assert writers[j] in p;
        var k :| 0 <= k < |p| && p[k] == writers[j];
        Taken(base, writers, current, |writers|, i, j);
        Taken(base, p, current, |p|, i, k);
      } else {
        assert forall k :: 0 <= k < |p| ==> p[k] in writers;
        Untouched(base, writers, current, |writers|, i);
        Untouched(base, p, current, |p|, i);
      }
    }
  }

  /** The only writer since its base stores what it wrote. */
  lemma SoleWriterStores(base: UpgradeRecord, w: UpgradeRecord)
    requires SameShape(base, w)
    ensures var stored := Merge(base, w, base).value;
            stored.environments == w.environments && stored.status == w.status && stored.header == base.header
  {
  }

  /** Writers never move the time of a record back: it is the latest of what was stored and of what each of them set. */
  lemma {:induction false} LatestTimeStays(base: UpgradeRecord, writers: seq<UpgradeRecord>, current: UpgradeRecord, n: nat)
    requires Writers(base, writers) && SameShape(base, current) && n <= |writers|
    ensures var merged := MergeTo(base, writers, current, n);
            && merged.header == current.header && merged.updatedAt >= current.updatedAt
            && (forall j :: 0 <= j < n && writers[j].updatedAt != base.updatedAt ==> merged.updatedAt >= writers[j].updatedAt)
            && (|| merged.updatedAt == current.updatedAt
                || exists j :: 0 <= j < n && writers[j].updatedAt != base.updatedAt && merged.updatedAt == writers[j].updatedAt)
  {
    if n > 0 {
      LatestTimeStays(base, writers, current, n - 1);
    }
  }

  // ----- The aggregate status of two writers -----

  ghost predicate ChangesSome(base: UpgradeRecord, w: UpgradeRecord) {
    exists i: nat :: Changes(base, w, i)
  }

  /**
    Two writers that each change an environment store the same record in both orders. Its status follows the
    merged environments as soon as one of them moved the status, and stays as it was otherwise.
   */
  lemma TwoWritersAgreeOnStatus(base: UpgradeRecord, v: UpgradeRecord, w: UpgradeRecord)
    requires SameShape(base, v) && SameShape(base, w) && Disjoint(base, [v, w]) && v != w
    requires ChangesSome(base, v) && ChangesSome(base, w)
    ensures MergeAll(base, [v, w], base) == MergeAll(base, [w, v], base)
    ensures var merged := MergeAll(base, [v, w], base);
            merged.status == if v.status != base.status || w.status != base.status
                             then Summarize(merged.environments) else base.status
  {
    TwoWriters(base, v, w);
    TwoWriters(base, w, v);
    assert multiset([w, v]) == multiset([v, w]);
    MergeConfluent(base, [v, w], [w, v], base);
  }

  lemma TwoWriters(base: UpgradeRecord, v: UpgradeRecord, w: UpgradeRecord)
    requires SameShape(base, v) && SameShape(base, w)
    requires ChangesSome(base, v)
    ensures var first := Merge(base, v, base).value;
            var merged := MergeAll(base, [v, w], base);
            && merged == Merge(base, w, first).value
            && merged.header == base.header
            && merged.status == if v.status != base.status || w.status != base.status
                                then Summarize(merged.environments) else base.status
  {
    var first := Merge(base, v, base).value;
    assert MergeTo(base, [v, w], base, 1) == first;
    var i: nat :| Changes(base, v, i);
    assert first.environments[i] != base.environments[i];
  }
}
