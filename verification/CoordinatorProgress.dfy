/** What the lease protocol lets through: an operation nobody blocks, and a renewal in time. src/connectivity.rs */
module CoordinatorProgress {
  import opened Wrappers
  import opened Upgrade
  import opened UpgradeMerge
  import opened Coordinator

  /** The steps lead from `s` to `t`, each of them allowed where it is taken. */
  ghost predicate Leads(s: State, steps: seq<Step>, t: State)
    decreases |steps|
  {
    if steps == [] then t == s else Enabled(s, steps[0]) && Leads(Apply(s, steps[0]), steps[1..], t)
  }

  lemma {:induction false} LeadsOn(s: State, first: seq<Step>, t: State, second: seq<Step>, u: State)
    requires Leads(s, first, t) && Leads(t, second, u)
    ensures Leads(s, first + second, u)
    decreases |first|
  {
    if first == [] {
      assert first + second == second;
    } else {
      LeadsOn(Apply(s, first[0]), first[1..], t, second, u);
      assert (first + second)[1..] == first[1..] + second;
    }
  }

  lemma LeadsBy(s: State, step: Step, steps: seq<Step>, t: State)
    requires Enabled(s, step) && Leads(Apply(s, step), steps, t)
    ensures Leads(s, [step] + steps, t)
  {
    assert ([step] + steps)[1..] == steps;
  }

  ghost predicate Once(names: seq<string>) {
    forall i, j :: 0 <= i < j < |names| ==> names[i] != names[j]
  }

  /** Nobody touched the record, the log or the clock between the two. */
  ghost predicate Meanwhile(s: State, t: State) {
    t.now == s.now && t.stored == s.stored && t.log == s.log && |t.workers| == |s.workers|
  }

  /** The lease is held under that token until `expiry`. */
  ghost predicate Until(s: State, lease: Held, expiry: int) {
    var key := EnvironmentKey(lease.name);
    key in s.leases && s.leases[key] == Lease(lease.token, expiry, true)
  }

  // ----- Taking the leases -----

  /** Worker `w` holds its first `n` leases for two minutes from now, and the others are free. */
  ghost predicate Taking(s: State, w: nat, n: nat) {
    w < |s.workers| &&
    var me := s.workers[w];
    && me.phase.Locking? && me.renewal.Resting? && !me.lost && Once(me.wanted) && |me.held| == n <= |me.wanted|
    && (forall i :: 0 <= i < n ==> me.held[i].name == me.wanted[i] && Until(s, me.held[i], After(s.now, 120_000)))
    && (forall i :: n <= i < |me.wanted| ==> Free(s.leases, EnvironmentKey(me.wanted[i]), s.now))
    && Free(s.leases, WriteKey, s.now)
    && me.deadline == if me.wanted == [] then MAX_TIME else After(s.now, 120_000)
  }

  lemma TakeOne(s: State, w: nat, n: nat)
    requires Taking(s, w, n) && n < |s.workers[w].wanted|
    ensures Enabled(s, By(w, AcquireEnvironment))
    ensures var t := Apply(s, By(w, AcquireEnvironment));
            Taking(t, w, n + 1) && t.workers[w].wanted == s.workers[w].wanted && Meanwhile(s, t)
  {
  }

  lemma {:induction false} TakeAll(s: State, w: nat, n: nat) returns (steps: seq<Step>, t: State)
    requires Taking(s, w, n)
    ensures Leads(s, steps, t) && Taking(t, w, |s.workers[w].wanted|)
    ensures t.workers[w].wanted == s.workers[w].wanted && Meanwhile(s, t)
    decreases |s.workers[w].wanted| - n
  {
    if n == |s.workers[w].wanted| {
      steps, t := [], s;
    } else {
      TakeOne(s, w, n);
      var step := By(w, AcquireEnvironment);
      var rest;
      rest, t := TakeAll(Apply(s, step), w, n + 1);
      steps := [step] + rest;
      LeadsBy(s, step, rest, t);
    }
  }

  // ----- Writing -----

  /** Worker `w` has refreshed its first `n` leases inside `persist`, off the record stored now. */
  ghost predicate Refreshing(s: State, w: nat, n: nat, op: Operation) {
    w < |s.workers| &&
    var me := s.workers[w];
    && me.phase.Fencing? && me.phase.base == s.stored && me.phase.op == op && me.phase.next == n <= |me.held|
    && (forall i :: 0 <= i < |me.held| ==> Until(s, me.held[i], After(s.now, 120_000)))
    && WriteKey in s.leases && s.leases[WriteKey] == Lease(me.phase.token, After(s.now, 30_000), true)
  }

  lemma {:induction false} RefreshAll(s: State, w: nat, n: nat, op: Operation) returns (steps: seq<Step>, t: State)
    requires Refreshing(s, w, n, op) && s.now < MAX_TIME
    ensures Leads(s, steps, t) && Refreshing(t, w, |s.workers[w].held|, op)
    ensures t.workers[w].held == s.workers[w].held && Meanwhile(s, t)
    decreases |s.workers[w].held| - n
  {
    if n == |s.workers[w].held| {
      steps, t := [], s;
    } else {
      var step := By(w, RefreshOne);
      assert Until(s, s.workers[w].held[n], After(s.now, 120_000));
      var next := Apply(s, step);
      assert next.leases == s.leases;
      var rest;
      rest, t := RefreshAll(next, w, n + 1, op);
      steps := [step] + rest;
      LeadsBy(s, step, rest, t);
    }
  }

  /** Worker `w` has computed `op` off the record stored now; its leases and the write lease are as at the start. */
  ghost predicate Computed(s: State, w: nat, op: Operation) {
    w < |s.workers| &&
    var me := s.workers[w];
    && me.phase == Persisting(s.stored, op) && !me.lost && Free(s.leases, WriteKey, s.now)
    && (forall i :: 0 <= i < |me.held| ==> Until(s, me.held[i], After(s.now, 120_000)))
    && me.deadline == if me.wanted == [] then MAX_TIME else After(s.now, 120_000)
  }

  lemma Compute(s: State, w: nat, op: Operation) returns (steps: seq<Step>, t: State)
    requires w < |s.workers| && Taking(s, w, |s.workers[w].wanted|)
    requires Run(op, s.stored).Persist? && forall name :: name in Footprint(op) ==> name in s.workers[w].wanted
    ensures Leads(s, steps, t) && Computed(t, w, op) && Meanwhile(s, t)
  {
    var s1 := Apply(s, By(w, Load));
    t := Apply(s1, By(w, Submit(op)));
    assert Leads(t, [], t);
    LeadsBy(s1, By(w, Submit(op)), [], t);
    steps := [By(w, Load)] + ([By(w, Submit(op))] + []);
    LeadsBy(s, By(w, Load), [By(w, Submit(op))] + [], t);
  }

  lemma Guard(s: State, w: nat, op: Operation) returns (steps: seq<Step>, t: State)
    requires Computed(s, w, op) && s.now + 10_000 < MAX_TIME
    ensures Leads(s, steps, t) && Refreshing(t, w, 0, op) && Meanwhile(s, t)
  {
    var s1 := Apply(s, By(w, AcquireWrite));
    assert s1.workers[w].EnsureHeld(s1.now);
    t := Apply(s1, By(w, CheckHeld));
    assert Leads(t, [], t);
    LeadsBy(s1, By(w, CheckHeld), [], t);
    steps := [By(w, AcquireWrite)] + ([By(w, CheckHeld)] + []);
    LeadsBy(s, By(w, AcquireWrite), [By(w, CheckHeld)] + [], t);
  }

  lemma Store(s: State, w: nat, op: Operation) returns (steps: seq<Step>, t: State)
    requires w < |s.workers| && Refreshing(s, w, |s.workers[w].held|, op) && s.now < MAX_TIME
    requires Run(op, s.stored).Persist?
    ensures Leads(s, steps, t) && t.now == s.now && t.log == s.log + [op]
    ensures t.stored == Run(op, s.stored).modified
  {
    var s1 := Apply(s, By(w, ReadCurrent));
    var modified := Run(op, s.stored).modified;
    SoleWriterStores(s.stored, modified);
    assert CanMerge(s1.workers[w].phase);
    assert Enabled(s1, By(w, Commit));
    t := Apply(s1, By(w, Commit));
    assert Leads(t, [], t);
    LeadsBy(s1, By(w, Commit), [], t);
    steps := [By(w, ReadCurrent)] + ([By(w, Commit)] + []);
    LeadsBy(s, By(w, ReadCurrent), [By(w, Commit)] + [], t);
  }

  /**
    An operation whose environments and the write lease are free when it starts can store what it
    computes, whatever other operations are under way, unless the clock is about to run out.
   */
  lemma UncontendedCommits(s: State, wanted: seq<string>, op: Operation) returns (steps: seq<Step>, t: State)
    requires s.now + 10_000 < MAX_TIME && Once(wanted) && Run(op, s.stored).Persist?
    requires forall name :: name in Footprint(op) ==> name in wanted
    requires Free(s.leases, WriteKey, s.now)
    requires forall name :: name in wanted ==> Free(s.leases, EnvironmentKey(name), s.now)
    ensures Leads(s, [Start(wanted)] + steps, t)
    ensures t.now == s.now && t.log == s.log + [op] && t.stored == Run(op, s.stored).modified
  {
    var w := |s.workers|;
    var s0 := Apply(s, Start(wanted));
    assert forall i :: 0 <= i < |wanted| ==> wanted[i] in wanted;
    assert Taking(s0, w, 0);
    var a, s1 := TakeAll(s0, w, 0);
    var b, s2 := Compute(s1, w, op);
    var c, s3 := Guard(s2, w, op);
    var d, s4 := RefreshAll(s3, w, 0, op);
    var e, s5 := Store(s4, w, op);
    LeadsOn(s3, d, s4, e, s5);
    LeadsOn(s2, c, s3, d + e, s5);
    LeadsOn(s1, b, s2, c + (d + e), s5);
    LeadsOn(s0, a, s1, b + (c + (d + e)), s5);
    steps, t := a + (b + (c + (d + e))), s5;
    LeadsBy(s, Start(wanted), steps, t);
  }

  // ----- Renewing -----

  /** The renewal of worker `w` asked for now has extended its first `n` leases by two minutes. */
  ghost predicate Extending(s: State, w: nat, n: nat) {
    w < |s.workers| &&
    var me := s.workers[w];
    && me.renewal == Renewing(s.now, n) && !me.phase.Gone? && n <= |me.held|
    && (forall i, j :: 0 <= i < j < |me.held| ==> me.held[i].name != me.held[j].name)
    && (forall i :: 0 <= i < n ==> Until(s, me.held[i], After(s.now, 120_000)))
    && (forall i :: n <= i < |me.held| ==> Holds(s.leases, EnvironmentKey(me.held[i].name), me.held[i].token, s.now))
  }

  lemma ExtendOne(s: State, w: nat, n: nat)
    requires Extending(s, w, n) && n < |s.workers[w].held| && s.now < MAX_TIME
    ensures Enabled(s, By(w, RenewOne))
    ensures var t := Apply(s, By(w, RenewOne));
            Extending(t, w, n + 1) && t.workers[w].held == s.workers[w].held && Meanwhile(s, t)
  {
  }

  lemma {:induction false} ExtendAll(s: State, w: nat, n: nat) returns (steps: seq<Step>, t: State)
    requires Extending(s, w, n) && s.now < MAX_TIME
    ensures Leads(s, steps, t) && Extending(t, w, |s.workers[w].held|)
    ensures t.workers[w].held == s.workers[w].held && Meanwhile(s, t)
    decreases |s.workers[w].held| - n
  {
    if n == |s.workers[w].held| {
      steps, t := [], s;
    } else {
      ExtendOne(s, w, n);
      var step := By(w, RenewOne);
      var rest;
      rest, t := ExtendAll(Apply(s, step), w, n + 1);
      steps := [step] + rest;
      LeadsBy(s, step, rest, t);
    }
  }

  /** A renewal that finds every lease live extends them, and the deadline, to two minutes from when it asked. */
  lemma RenewalExtends(s: State, w: nat) returns (steps: seq<Step>, t: State)
    requires w < |s.workers| && s.now < MAX_TIME
    requires var me := s.workers[w]; me.renewal.Resting? && me.Locked() && me.wanted != [] && !me.phase.Gone?
    requires forall i, j :: 0 <= i < j < |s.workers[w].held| ==> s.workers[w].held[i].name != s.workers[w].held[j].name
    requires forall i :: 0 <= i < |s.workers[w].held| ==>
               Holds(s.leases, EnvironmentKey(s.workers[w].held[i].name), s.workers[w].held[i].token, s.now)
    ensures Leads(s, [By(w, BeginRenewal)] + steps, t) && Meanwhile(s, t)
    ensures t.workers[w].deadline == After(s.now, 120_000) && t.workers[w].renewal.Resting?
    ensures t.workers[w].held == s.workers[w].held
    ensures forall i :: 0 <= i < |s.workers[w].held| ==> Until(t, s.workers[w].held[i], After(s.now, 120_000))
  {
    var s1 := Apply(s, By(w, BeginRenewal));
    var a, s2 := ExtendAll(s1, w, 0);
    t := Apply(s2, By(w, FinishRenewal));
    assert Leads(t, [], t);
    LeadsBy(s2, By(w, FinishRenewal), [], t);
    LeadsOn(s1, a, s2, [By(w, FinishRenewal)] + [], t);
    steps := a + ([By(w, FinishRenewal)] + []);
    LeadsBy(s, By(w, BeginRenewal), steps, t);
  }
}
