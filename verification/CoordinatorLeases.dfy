/** What losing and giving back leases means over whole runs of the lease protocol: src/connectivity.rs. */
module CoordinatorLeases {
  import opened Wrappers
  import opened Upgrade
  import opened Coordinator
  import opened CoordinatorSafety
  import opened CoordinatorRuns

  // ----- A failed renewal -----

  /** Once a renewal of worker `w` failed, its `ensure_held` fails at any time, in every later state. */
  lemma FailedRenewalStops(states: seq<State>, steps: seq<Step>, k: nat, m: nat, w: nat, at: int)
    requires Execution(states, steps) && k < m < |states| && steps[k] == By(w, FailRenewal)
    ensures w < |states[m].workers| && !states[m].workers[w].EnsureHeld(at)
    ensures m < |steps| ==> steps[m] != By(w, CheckHeld)
  {
    LostNever(states, steps, k, m, w);
  }

  lemma LostStays(s: State, step: Step, w: nat)
    requires Enabled(s, step) && w < |s.workers| && s.workers[w].lost
    ensures w < |Apply(s, step).workers| && Apply(s, step).workers[w].lost
  {
  }

  lemma {:induction false} LostNever(states: seq<State>, steps: seq<Step>, k: nat, m: nat, w: nat)
    requires Execution(states, steps) && k < m < |states| && steps[k] == By(w, FailRenewal)
    ensures w < |states[m].workers| && states[m].workers[w].lost
    ensures m < |steps| ==> steps[m] != By(w, CheckHeld)
    decreases m
  {
    assert Enabled(states[m - 1], steps[m - 1]);
    if m > k + 1 {
      LostNever(states, steps, k, m - 1, w);
      LostStays(states[m - 1], steps[m - 1], w);
    }
    assert m < |steps| ==> Enabled(states[m], steps[m]);
  }

  /** A worker is past the check of its leases only if it took that step. */
  lemma {:induction false} CheckComesFirst(states: seq<State>, steps: seq<Step>, n: nat, w: nat)
    requires Execution(states, steps) && n < |states|
    requires forall j :: 0 <= j < n ==> steps[j] != By(w, CheckHeld)
    ensures w < |states[n].workers| ==> !states[n].workers[w].phase.Fencing? && !states[n].workers[w].phase.Merging?
    ensures n < |steps| ==> steps[n] != By(w, Commit)
  {
    if n > 0 {
      CheckComesFirst(states, steps, n - 1, w);
      assert Enabled(states[n - 1], steps[n - 1]);
      NotPast(states[n - 1], steps[n - 1], w);
    }
    assert n < |steps| ==> Enabled(states[n], steps[n]);
  }

  lemma NotPast(s: State, step: Step, w: nat)
    requires Enabled(s, step) && step != By(w, CheckHeld)
    requires w < |s.workers| ==> !s.workers[w].phase.Fencing? && !s.workers[w].phase.Merging?
    ensures var after := Apply(s, step).workers;
            w < |after| ==> !after[w].phase.Fencing? && !after[w].phase.Merging?
  {
  }

  /** A worker that had not passed the check when its renewal failed never stores anything. */
  lemma FailedRenewalNeverCommits(states: seq<State>, steps: seq<Step>, k: nat, m: nat, w: nat)
    requires Execution(states, steps) && k < m < |steps| && steps[k] == By(w, FailRenewal)
    requires forall j :: 0 <= j < k ==> steps[j] != By(w, CheckHeld)
    ensures steps[m] != By(w, Commit)
  {
    forall j | 0 <= j < m
      ensures steps[j] != By(w, CheckHeld)
    {
      if j > k { FailedRenewalStops(states, steps, k, j, w, 0); }
    }
    CheckComesFirst(states, steps, m, w);
  }

  // ----- Leases given back -----

  /** A token that is not live under its key never is again. */
  lemma {:induction false} TokensStayDead(states: seq<State>, steps: seq<Step>, k: nat, m: nat, key: Key, token: nat)
    requires Execution(states, steps) && k <= m < |states|
    requires token < states[k].nextToken && !Holds(states[k].leases, key, token, states[k].now)
    ensures token < states[m].nextToken && !Holds(states[m].leases, key, token, states[m].now)
    decreases m
  {
    if k < m {
      TokensStayDead(states, steps, k, m - 1, key, token);
      ReachableInv(states, steps, m - 1);
      assert Enabled(states[m - 1], steps[m - 1]);
      DeadOneStep(states[m - 1], steps[m - 1], key, token);
    }
  }

  lemma DeadOneStep(s: State, step: Step, key: Key, token: nat)
    requires Inv(s) && Enabled(s, step) && token < s.nextToken && !Holds(s.leases, key, token, s.now)
    ensures token < Apply(s, step).nextToken && !Holds(Apply(s, step).leases, key, token, Apply(s, step).now)
  {
  }

  /** A lease a worker releases is not its own from then on, and at once free for others unless one already has it. */
  lemma ReleaseFrees(states: seq<State>, steps: seq<Step>, k: nat, m: nat, w: nat)
    requires Execution(states, steps) && k < m < |states| && steps[k] == By(w, Release)
    ensures var me := states[k].workers[w];
            var lease := me.held[me.phase.released];
            var key := EnvironmentKey(lease.name);
            && !Holds(states[m].leases, key, lease.token, states[m].now)
            && (Current(states[k].leases, lease) ==> Free(states[k + 1].leases, key, states[k + 1].now))
  {
    assert Enabled(states[k], steps[k]);
    ReachableInv(states, steps, k);
    var me := states[k].workers[w];
    var lease := me.held[me.phase.released];
    assert lease.token < states[k].nextToken;
    TokensStayDead(states, steps, k + 1, m, EnvironmentKey(lease.name), lease.token);
  }

  /** A worker that gives up inside `persist` gives the write lease back: it is not its own from then on. */
  lemma GiveUpFreesWrite(states: seq<State>, steps: seq<Step>, k: nat, m: nat, w: nat)
    requires Execution(states, steps) && k < m < |states| && steps[k] == By(w, GiveUp)
    requires w < |states[k].workers| && HasWriteToken(states[k].workers[w].phase)
    ensures !Holds(states[m].leases, WriteKey, states[k].workers[w].phase.token, states[m].now)
  {
    assert Enabled(states[k], steps[k]);
    ReachableInv(states, steps, k);
    TokensStayDead(states, steps, k + 1, m, WriteKey, states[k].workers[w].phase.token);
  }

  // ----- A crash -----

  /** A worker that is gone extends nothing: a lease still live under its token lasts no longer than before. */
  lemma GoneExtendsNothing(s: State, step: Step, w: nat, i: nat)
    requires Inv(s) && Enabled(s, step) && w < |s.workers| && s.workers[w].phase.Gone? && i < |s.workers[w].held|
    ensures var after := Apply(s, step);
            var lease := s.workers[w].held[i];
            var key := EnvironmentKey(lease.name);
            && w < |after.workers| && after.workers[w].phase.Gone? && after.workers[w].held == s.workers[w].held
            && (Holds(after.leases, key, lease.token, after.now) ==>
                  Holds(s.leases, key, lease.token, s.now) && after.leases[key].expiry == s.leases[key].expiry)
  {
    GoneStays(s, step, w);
    if step.By? {
      var lease := s.workers[w].held[i];
      var edit := EditOf(s, s.workers[step.w], step.action);
      if edit.Extend? {
        ExtendsAnother(s, step.w, step.action, w, i);
      }
      assert edit.Grant? ==> edit.token == s.nextToken > lease.token;
      EditLeaves(s.leases, edit, EnvironmentKey(lease.name), lease.token, s.now);
    }
  }

  lemma GoneStays(s: State, step: Step, w: nat)
    requires Enabled(s, step) && w < |s.workers| && s.workers[w].phase.Gone?
    ensures w < |Apply(s, step).workers| && Apply(s, step).workers[w].phase.Gone?
    ensures Apply(s, step).workers[w].held == s.workers[w].held
  {
  }

  /** Only granting another token or extending under another token: nothing changes for this one but for the worse. */
  lemma EditLeaves(leases: Leases, edit: Edit, key: Key, token: nat, now: int)
    requires edit.Grant? ==> edit.token != token
    requires edit.Extend? && edit.key == key && key in leases ==> leases[key].token != token
    ensures Holds(Edited(leases, edit), key, token, now) ==>
              Holds(leases, key, token, now) && Edited(leases, edit)[key].expiry == leases[key].expiry
  {
  }

  /** A worker extends a lease of its own only, so none of one that is gone. */
  lemma ExtendsAnother(s: State, v: nat, action: Action, w: nat, i: nat)
    requires HeldTokensUnique(s.workers) && w < |s.workers| && s.workers[w].phase.Gone? && i < |s.workers[w].held|
    requires v < |s.workers| && Can(s, s.workers[v], action) && EditOf(s, s.workers[v], action).Extend?
    ensures var key := EditOf(s, s.workers[v], action).key;
            key in s.leases && s.leases[key].token != s.workers[w].held[i].token
  {
    var me := s.workers[v];
    var j := if action.RenewOne? then me.renewal.next else me.phase.next;
    assert me.held[j].token == s.leases[EditOf(s, me, action).key].token;
  }

  lemma {:induction false} GoneLeaseBound(states: seq<State>, steps: seq<Step>, k: nat, m: nat, w: nat, i: nat)
    requires Execution(states, steps) && k < m < |states| && steps[k] == By(w, Crash) && w < |states[k].workers|
    requires i < |states[k].workers[w].held|
    ensures w < |states[m].workers| && states[m].workers[w].phase.Gone?
    ensures states[m].workers[w].held == states[k].workers[w].held
    ensures var lease := states[k].workers[w].held[i];
            var key := EnvironmentKey(lease.name);
            Holds(states[m].leases, key, lease.token, states[m].now) ==>
              states[m].leases[key].expiry <= states[k].now + 120_000
    decreases m
  {
    if m == k + 1 {
      ReachableInv(states, steps, k);
      assert Enabled(states[k], steps[k]);
    } else {
      GoneLeaseBound(states, steps, k, m - 1, w, i);
      ReachableInv(states, steps, m - 1);
      assert Enabled(states[m - 1], steps[m - 1]);
      GoneExtendsNothing(states[m - 1], steps[m - 1], w, i);
    }
  }

  /** A crashed operation frees its environments within two minutes, whatever its renewal was doing. */
  lemma CrashFreesInTime(states: seq<State>, steps: seq<Step>, k: nat, m: nat, w: nat, i: nat)
    requires Execution(states, steps) && k < m < |states| && steps[k] == By(w, Crash) && w < |states[k].workers|
    requires i < |states[k].workers[w].held| && states[m].now >= states[k].now + 120_000
    ensures var lease := states[k].workers[w].held[i];
            !Holds(states[m].leases, EnvironmentKey(lease.name), lease.token, states[m].now)
  {
    GoneLeaseBound(states, steps, k, m, w, i);
  }
}
