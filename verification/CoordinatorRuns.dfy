/** What holds over whole runs of the lease protocol, for any number of workers and any interleaving. */
module CoordinatorRuns {
  import opened Wrappers
  import opened Upgrade
  import opened UpgradeProperties
  import opened UpgradeMerge
  import opened Coordinator
  import opened CoordinatorSafety

  ghost predicate Execution(states: seq<State>, steps: seq<Step>) {
    && |states| == |steps| + 1
    && Init(states[0])
    && forall k :: 0 <= k < |steps| ==> Enabled(states[k], steps[k]) && states[k + 1] == Apply(states[k], steps[k])
  }

  lemma {:induction false} ReachableInv(states: seq<State>, steps: seq<Step>, k: nat)
    requires Execution(states, steps) && k < |states|
    ensures Inv(states[k])
  {
    if k == 0 {
      InitHolds(states[0]);
    } else {
      ReachableInv(states, steps, k - 1);
      StepKept(states[k - 1], steps[k - 1]);
    }
  }

  lemma {:induction false} InitialIsConstant(states: seq<State>, steps: seq<Step>, k: nat)
    requires Execution(states, steps) && k < |states|
    ensures states[k].initial == states[0].stored
  {
    if k > 0 {
      InitialIsConstant(states, steps, k - 1);
      var _ := Apply(states[k - 1], steps[k - 1]);
    }
  }

  /**
    Serializability. Whatever the interleaving, expiries and takeovers, the stored environments are
    those of the committed operations run one at a time, each alone on the record, in commit order.
   */
  lemma RunsAreSerializable(states: seq<State>, steps: seq<Step>, k: nat)
    requires Execution(states, steps) && k < |states|
    ensures var serial := Serial(states[0].stored, states[k].log);
            && serial.Some?
            && serial.value.environments == states[k].stored.environments
            && serial.value.header == states[k].stored.header
  {
    ReachableInv(states, steps, k);
    InitialIsConstant(states, steps, k);
  }

  /**
    No lost update. A commit started from the entries stored at that moment for every environment
    it leased, and leaves every other entry as it is, so it never overwrites a successor.
   */
  lemma NoUpdateIsLost(states: seq<State>, steps: seq<Step>, k: nat)
    requires Execution(states, steps) && k < |steps| && steps[k].By? && steps[k].action.Commit?
    ensures var phase := states[k].workers[steps[k].w].phase;
            var before, after := states[k].stored, states[k + 1].stored;
            && states[k + 1].log == states[k].log + [phase.op]
            && AgreeOn(phase.base.environments, before.environments, Footprint(phase.op))
            && Run(phase.op, before).Persist?
            && after.environments == Run(phase.op, before).modified.environments
            && forall i :: 0 <= i < |before.environments| && before.environments[i].name !in Footprint(phase.op) ==>
                             after.environments[i] == before.environments[i]
  {
    ReachableInv(states, steps, k);
    CommitOwns(states[k], steps[k].w);
    CommitIsAtomic(states[k], steps[k].w);
  }

  /** The merge of a worker that still holds the write lease never meets a record of another shape. */
  lemma MergeNeverRefuses(states: seq<State>, steps: seq<Step>, k: nat, w: nat)
    requires Execution(states, steps) && k < |states| && w < |states[k].workers|
    requires states[k].workers[w].phase.Merging?
    requires Holds(states[k].leases, WriteKey, states[k].workers[w].phase.token, states[k].now)
    ensures Enabled(states[k], By(w, Commit))
  {
    ReachableInv(states, steps, k);
    assert WorkerInv(states[k], states[k].workers[w]);
  }

  // ----- Evidence -----

  /** One step of the run, seen at environment `i`. */
  lemma StepAtEnvironment(states: seq<State>, steps: seq<Step>, k: nat, i: nat)
    requires Execution(states, steps) && k < |steps|
    requires i < |states[k].stored.environments|
    ensures |states[k + 1].stored.environments| == |states[k].stored.environments|
    ensures states[k + 1].stored.header == states[k].stored.header
    ensures Keeps(states[k].stored.header, states[k].stored.environments[i], states[k + 1].stored.environments[i])
  {
    if steps[k].By? && steps[k].action.Commit? {
      ReachableInv(states, steps, k);
      CommitIsAtomic(states[k], steps[k].w);
      var op := states[k].workers[steps[k].w].phase.op;
      EntryStepKeeps(op, states[k].stored.header, states[k].stored.environments[i],
          states[k + 1].stored.environments[i]);
    } else {
      assert states[k + 1].stored == states[k].stored;
    }
  }

  /** Write-once: a stored bundle digest, receipt digest or receipt is the same in every later stored record. */
  lemma {:induction false} EvidenceIsWrittenOnce(states: seq<State>, steps: seq<Step>, j: nat, k: nat, i: nat)
    requires Execution(states, steps) && j <= k < |states| && i < |states[j].stored.environments|
    ensures |states[k].stored.environments| == |states[j].stored.environments|
    ensures EvidenceKept(states[j].stored.environments[i], states[k].stored.environments[i])
    decreases k
  {
    if j < k {
      EvidenceIsWrittenOnce(states, steps, j, k - 1, i);
      StepAtEnvironment(states, steps, k - 1, i);
    }
  }

  /** In every stored record, an applied environment has the evidence its class asks for. */
  lemma {:induction false} AppliedHasEvidence(states: seq<State>, steps: seq<Step>, k: nat, i: nat)
    requires Execution(states, steps) && k < |states| && i < |states[k].stored.environments|
    ensures Evidenced(states[k].stored.header, states[k].stored.environments[i])
  {
    if k == 0 {
      assert states[0].stored.environments[i] in states[0].stored.environments;
    } else {
      ReachableInv(states, steps, k);
      ReachableInv(states, steps, k - 1);
      InitialIsConstant(states, steps, k);
      InitialIsConstant(states, steps, k - 1);
      AppliedHasEvidence(states, steps, k - 1, i);
      StepAtEnvironment(states, steps, k - 1, i);
    }
  }

  // ----- Deadlines -----

  ghost predicate WorkerStays(before: State, after: State, w: nat) {
    w < |before.workers| ==>
      && w < |after.workers|
      && before.workers[w].held <= after.workers[w].held
      && before.workers[w].deadline <= after.workers[w].deadline
  }

  lemma WorkerStaysOneStep(s: State, step: Step, w: nat)
    requires Inv(s) && Enabled(s, step) && w < |s.workers|
    ensures WorkerStays(s, Apply(s, step), w)
  {
    assert WorkerInv(s, s.workers[w]);
  }

  lemma {:induction false} DeadlineOnlyMovesOut(states: seq<State>, steps: seq<Step>, k: nat, m: nat, w: nat)
    requires Execution(states, steps) && k <= m < |states| && w < |states[k].workers|
    ensures WorkerStays(states[k], states[m], w)
    decreases m
  {
    if k < m {
      DeadlineOnlyMovesOut(states, steps, k, m - 1, w);
      ReachableInv(states, steps, m - 1);
      WorkerStaysOneStep(states[m - 1], steps[m - 1], w);
    }
  }

  /**
    A passed `ensure_held` is good for the whole margin: as long as the worker has not begun to
    unlock, it holds every lease it held then, live and under its own token, in every later state
    up to 10 seconds on. That includes states in the middle of a renewal.
   */
  lemma EnsureHeldIsGoodForTheMargin(states: seq<State>, steps: seq<Step>, k: nat, m: nat, w: nat, i: nat)
    requires Execution(states, steps) && k <= m < |states| && w < |states[k].workers| && i < |states[k].workers[w].held|
    requires states[k].workers[w].EnsureHeld(states[k].now)
    requires states[m].now <= states[k].now + 10_000
    ensures w < |states[m].workers|
    ensures states[m].workers[w].Acting() ==>
              var lease := states[k].workers[w].held[i];
              Holds(states[m].leases, EnvironmentKey(lease.name), lease.token, states[m].now)
  {
    DeadlineOnlyMovesOut(states, steps, k, m, w);
    ReachableInv(states, steps, m);
    var me := states[m].workers[w];
    assert WorkerInv(states[m], me);
    assert states[k].workers[w].held[i] == me.held[i];
    if me.Acting() {
      assert Covers(states[m].leases, me.held[i], me.deadline);
    }
  }

  /** In no state do two workers inside their deadlines hold the same environment. */
  lemma EnvironmentsAreExclusive(states: seq<State>, steps: seq<Step>, k: nat, v: nat, w: nat, i: nat, j: nat)
    requires Execution(states, steps) && k < |states| && v < |states[k].workers| && w < |states[k].workers| && v != w
    requires i < |states[k].workers[v].held| && j < |states[k].workers[w].held|
    requires states[k].workers[v].Acting() && states[k].now < states[k].workers[v].deadline
    requires states[k].workers[w].Acting() && states[k].now < states[k].workers[w].deadline
    ensures states[k].workers[v].held[i].name != states[k].workers[w].held[j].name
  {
    ReachableInv(states, steps, k);
    var s := states[k];
    assert WorkerInv(s, s.workers[v]) && WorkerInv(s, s.workers[w]);
    assert Covers(s.leases, s.workers[v].held[i], s.workers[v].deadline);
    assert Covers(s.leases, s.workers[w].held[j], s.workers[w].deadline);
  }
}
