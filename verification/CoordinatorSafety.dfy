/** The invariant of the lease protocol, and that every step keeps it. */
module CoordinatorSafety {
  import opened Wrappers
  import opened Upgrade
  import opened UpgradeProperties
  import opened UpgradeMerge
  import opened Coordinator

  // ----- What the protocol maintains -----

  /** The token of `held` is the one stored, live or not: nobody took the environment over. */
  ghost predicate Current(leases: Leases, held: Held) {
    EnvironmentKey(held.name) in leases && leases[EnvironmentKey(held.name)].token == held.token
  }

  ghost predicate Covers(leases: Leases, held: Held, until: int) {
    && Current(leases, held)
    && leases[EnvironmentKey(held.name)].active
    && leases[EnvironmentKey(held.name)].expiry >= until
  }

  /** The first `n` leases last at least until `until`. */
  ghost predicate Covered(leases: Leases, held: seq<Held>, n: nat, until: int) {
    n <= |held| && forall i :: 0 <= i < n ==> Covers(leases, held[i], until)
  }

  ghost predicate WellShaped(now: int, me: Worker) {
    && |me.held| <= |me.wanted|
    && (forall i :: 0 <= i < |me.held| ==> me.held[i].name == me.wanted[i])
    && (me.wanted != [] ==> me.deadline <= After(now, ENVIRONMENT_TTL))
    && (me.renewal.Renewing? ==>
          && me.renewal.asked <= now && me.renewal.next <= |me.held| && me.Locked() && me.wanted != []
          && me.deadline <= After(me.renewal.asked, ENVIRONMENT_TTL))
    && (HasBase(me.phase) ==> me.Locked())
    && (me.phase.Fencing? ==> me.phase.next <= |me.held|)
  }

  /** No deadline outlives a lease it stands for, also midway through a renewal. */
  ghost predicate DeadlineSafe(s: State, me: Worker) {
    me.Acting() ==>
      && (s.now < me.deadline ==> Covered(s.leases, me.held, |me.held|, me.deadline))
      && (me.renewal.Renewing? && s.now < After(me.renewal.asked, ENVIRONMENT_TTL) ==>
            Covered(s.leases, me.held, me.renewal.next, After(me.renewal.asked, ENVIRONMENT_TTL)))
  }

  /** The environment leases refreshed inside `persist` outlive the write lease they were refreshed under. */
  ghost predicate Fenced(s: State, me: Worker) {
    (me.phase.Fencing? || me.phase.Merging?) && Holds(s.leases, WriteKey, me.phase.token, s.now) ==>
      Covered(s.leases, me.held, if me.phase.Fencing? then me.phase.next else |me.held|, s.leases[WriteKey].expiry)
  }

  ghost predicate SameNames(a: seq<EnvironmentRecord>, b: seq<EnvironmentRecord>) {
    |a| == |b| && forall i :: 0 <= i < |a| ==> a[i].name == b[i].name
  }

  /** An entry the worker read is still the stored one while nobody took its environment over. */
  ghost predicate BaseFresh(s: State, me: Worker) {
    HasBase(me.phase) ==>
      && me.phase.base.header == s.stored.header
      && SameNames(me.phase.base.environments, s.stored.environments)
      && forall i, j :: 0 <= i < |s.stored.environments| && 0 <= j < |me.held|
                        && me.held[j].name == s.stored.environments[i].name && Current(s.leases, me.held[j]) ==>
                          me.phase.base.environments[i] == s.stored.environments[i]
  }

  /** The record re-read inside `persist` is still the stored one while nobody took the write lease over. */
  ghost predicate CurrentFresh(s: State, me: Worker) {
    me.phase.Merging? && WriteKey in s.leases && s.leases[WriteKey].token == me.phase.token ==>
      me.phase.current == s.stored
  }

  ghost predicate Lawful(me: Worker) {
    HasOperation(me.phase) ==>
      Run(me.phase.op, me.phase.base).Persist? && Footprint(me.phase.op) <= (set name | name in me.wanted)
  }

  ghost predicate WorkerInv(s: State, me: Worker) {
    && WellShaped(s.now, me)
    && DeadlineSafe(s, me)
    && Fenced(s, me)
    && BaseFresh(s, me)
    && CurrentFresh(s, me)
    && Lawful(me)
  }

  ghost predicate TokensBelow(workers: seq<Worker>, leases: Leases, bound: nat) {
    && (forall key <- leases :: leases[key].token < bound)
    && (forall w, i :: 0 <= w < |workers| && 0 <= i < |workers[w].held| ==> workers[w].held[i].token < bound)
    && (forall w :: 0 <= w < |workers| && HasWriteToken(workers[w].phase) ==> workers[w].phase.token < bound)
  }

  ghost predicate HeldTokensUnique(workers: seq<Worker>) {
    forall v, w, i, j | 0 <= v < |workers| && 0 <= w < |workers| && 0 <= i < |workers[v].held| && 0 <= j < |workers[w].held| ::
      workers[v].held[i].token == workers[w].held[j].token ==> v == w && i == j
  }

  ghost predicate WriteTokensUnique(workers: seq<Worker>) {
    forall v, w | 0 <= v < w < |workers| && HasWriteToken(workers[v].phase) && HasWriteToken(workers[w].phase) ::
      workers[v].phase.token != workers[w].phase.token
  }

  ghost predicate LeasesBounded(leases: Leases, now: int) {
    forall key <- leases :: leases[key].expiry <= After(now, if key.WriteKey? then WRITE_TTL else ENVIRONMENT_TTL)
  }

  /** One operation after the other, each on the record the one before stored. */
  function Serial(initial: UpgradeRecord, log: seq<Operation>): (record: Option<UpgradeRecord>) {
    if log == [] then Some(initial)
    else
      var before := Serial(initial, log[..|log| - 1]);
      if before.None? || Run(log[|log| - 1], before.value).Refused? then None
      else Some(Run(log[|log| - 1], before.value).modified)
  }

  /** The stored environments are those of the stored operations run one at a time, in the order stored. */
  ghost predicate Serialized(s: State) {
    var serial := Serial(s.initial, s.log);
    && serial.Some?
    && serial.value.header == s.stored.header == s.initial.header
    && serial.value.environments == s.stored.environments
    && SameNames(s.initial.environments, s.stored.environments)
    && NoBlankNames(s.stored.environments)
  }

  ghost predicate Inv(s: State) {
    && s.now <= MAX_TIME
    && TokensBelow(s.workers, s.leases, s.nextToken)
    && HeldTokensUnique(s.workers)
    && WriteTokensUnique(s.workers)
    && LeasesBounded(s.leases, s.now)
    && Serialized(s)
    && forall w :: 0 <= w < |s.workers| ==> WorkerInv(s, s.workers[w])
  }

  // ----- Edits of the lease store -----

  /** The edit takes no live lease away from the holders of `held`. */
  ghost predicate Gentle(leases: Leases, now: int, edit: Edit, held: Held) {
    match edit
    case Keep => true
    case Grant(key, token, _) => Free(leases, key, now) && token != held.token
    case Extend(key, expiry) => key in leases && leases[key].expiry <= expiry
    case Drop(key) => key in leases && (key == EnvironmentKey(held.name) ==> leases[key].token != held.token)
  }

  lemma CoversKept(leases: Leases, now: int, edit: Edit, held: Held, until: int)
    requires Gentle(leases, now, edit, held)
    ensures now < until && Covers(leases, held, until) ==> Covers(Edited(leases, edit), held, until)
    ensures Current(Edited(leases, edit), held) ==> Current(leases, held)
  {
  }

  lemma CoveredKept(leases: Leases, now: int, edit: Edit, held: seq<Held>, n: nat, until: int)
    requires n <= |held| && forall i :: 0 <= i < n ==> Gentle(leases, now, edit, held[i])
    ensures now < until && Covered(leases, held, n, until) ==> Covered(Edited(leases, edit), held, n, until)
  {
    forall i | 0 <= i < n
      ensures now < until && Covers(leases, held[i], until) ==> Covers(Edited(leases, edit), held[i], until)
    {
      CoversKept(leases, now, edit, held[i], until);
    }
  }

  lemma EditGentle(s: State, w: nat, action: Action, v: nat, i: nat)
    requires Inv(s) && w < |s.workers| && v < |s.workers| && i < |s.workers[v].held|
    requires Can(s, s.workers[w], action)
    requires v != w || !action.Release?
    ensures Gentle(s.leases, s.now, EditOf(s, s.workers[w], action), s.workers[v].held[i])
  {
    var me := s.workers[w];
    assert WorkerInv(s, me);
    assert s.workers[v].held[i].token < s.nextToken;
    if action.Release? {
      assert me.held[me.phase.released].token != s.workers[v].held[i].token;
    }
  }

  /** The write lease of `token` was not touched by someone else's edit, or is gone. */
  lemma WriteLeaseKept(s: State, w: nat, action: Action, token: nat)
    requires Inv(s) && w < |s.workers| && Can(s, s.workers[w], action)
    requires token < s.nextToken
    ensures var after := Edited(s.leases, EditOf(s, s.workers[w], action));
            WriteKey in after && after[WriteKey].token == token ==>
              && WriteKey in s.leases && s.leases[WriteKey].token == token
              && after[WriteKey].expiry == s.leases[WriteKey].expiry
              && (after[WriteKey].active ==> s.leases[WriteKey].active)
  {
  }

  // ----- The commit -----

  /**
    At the commit the worker still owns every environment it leased: their leases were refreshed
    under the write lease and outlive it. So what it read of them is what is stored.
   */
  lemma CommitOwns(s: State, w: nat)
    requires Inv(s) && w < |s.workers| && Can(s, s.workers[w], Commit)
    ensures forall j :: 0 <= j < |s.workers[w].held| ==> Current(s.leases, s.workers[w].held[j])
    ensures s.workers[w].phase.current == s.stored
    ensures AgreeOn(s.workers[w].phase.base.environments, s.stored.environments, Footprint(s.workers[w].phase.op))
  {
    var me := s.workers[w];
    assert WorkerInv(s, me);
    forall i | 0 <= i < |s.stored.environments| && s.stored.environments[i].name in Footprint(me.phase.op)
      ensures me.phase.base.environments[i] == s.stored.environments[i]
    {
      var name := s.stored.environments[i].name;
      assert name in me.wanted;
      var j :| 0 <= j < |me.wanted| && me.wanted[j] == name;
      assert Current(s.leases, me.held[j]);
    }
  }

  /** The commit stores what the operation would store if it ran alone, at once, on the stored record. */
  lemma CommitIsAtomic(s: State, w: nat)
    requires Inv(s) && w < |s.workers| && Can(s, s.workers[w], Commit)
    ensures var op := s.workers[w].phase.op;
            var after := Written(s, s.workers[w], Commit).0;
            && Run(op, s.stored).Persist?
            && after.environments == Run(op, s.stored).modified.environments
            && after.header == s.stored.header
            && StepsEntries(op, s.stored, after.environments)
  {
    var me := s.workers[w];
    var op, base := me.phase.op, me.phase.base;
    assert WorkerInv(s, me);
    CommitOwns(s, w);
    RunIsLocal(op, base, s.stored);
    RunStepsEntries(op, base);
    RunStepsEntries(op, s.stored);
    var after := Written(s, me, Commit).0.environments;
    var alone := Run(op, s.stored).modified.environments;
    forall i | 0 <= i < |after|
      ensures after[i] == alone[i]
    {
    }
  }

  // ----- Workers that do not take the step -----

  lemma OtherCovered(s: State, w: nat, action: Action, v: nat, n: nat, until: int)
    requires Inv(s) && w < |s.workers| && v < |s.workers|
    requires Can(s, s.workers[w], action) && (v != w || !action.Release?)
    requires s.now < until && Covered(s.leases, s.workers[v].held, n, until)
    ensures Covered(Apply(s, By(w, action)).leases, s.workers[v].held, n, until)
  {
    forall i | 0 <= i < n
      ensures Gentle(s.leases, s.now, EditOf(s, s.workers[w], action), s.workers[v].held[i])
    {
      EditGentle(s, w, action, v, i);
    }
    CoveredKept(s.leases, s.now, EditOf(s, s.workers[w], action), s.workers[v].held, n, until);
  }

  lemma OtherDeadlineSafe(s: State, w: nat, action: Action, v: nat)
    requires Inv(s) && w < |s.workers| && v < |s.workers| && v != w && Can(s, s.workers[w], action)
    ensures DeadlineSafe(Apply(s, By(w, action)), s.workers[v])
  {
    var you := s.workers[v];
    assert WorkerInv(s, you);
    if you.Acting() && s.now < you.deadline {
      OtherCovered(s, w, action, v, |you.held|, you.deadline);
    }
    if you.Acting() && you.renewal.Renewing? && s.now < After(you.renewal.asked, ENVIRONMENT_TTL) {
      OtherCovered(s, w, action, v, you.renewal.next, After(you.renewal.asked, ENVIRONMENT_TTL));
    }
  }

  lemma OtherFenced(s: State, w: nat, action: Action, v: nat)
    requires Inv(s) && w < |s.workers| && v < |s.workers| && v != w && Can(s, s.workers[w], action)
    ensures Fenced(Apply(s, By(w, action)), s.workers[v])
  {
    var you := s.workers[v];
    assert WorkerInv(s, you);
    var after := Apply(s, By(w, action));
    if (you.phase.Fencing? || you.phase.Merging?) && Holds(after.leases, WriteKey, you.phase.token, s.now) {
      WriteLeaseKept(s, w, action, you.phase.token);
      OtherCovered(s, w, action, v, if you.phase.Fencing? then you.phase.next else |you.held|,
          s.leases[WriteKey].expiry);
    }
  }

  lemma OtherBaseFresh(s: State, w: nat, action: Action, v: nat)
    requires Inv(s) && w < |s.workers| && v < |s.workers| && v != w && Can(s, s.workers[w], action)
    ensures BaseFresh(Apply(s, By(w, action)), s.workers[v])
  {
    var you, me := s.workers[v], s.workers[w];
    assert WorkerInv(s, you) && WorkerInv(s, me);
    var after := Apply(s, By(w, action));
    forall j | 0 <= j < |you.held|
      ensures Current(after.leases, you.held[j]) ==> Current(s.leases, you.held[j])
    {
      EditGentle(s, w, action, v, j);
      CoversKept(s.leases, s.now, EditOf(s, me, action), you.held[j], 0);
    }
    if action.Commit? && HasBase(you.phase) {
      CommitIsAtomic(s, w);
      CommitOwns(s, w);
      SteppedNames(me.phase.op, s.stored, after.stored.environments);
      forall i, j | 0 <= i < |s.stored.environments| && 0 <= j < |you.held|
                    && you.held[j].name == s.stored.environments[i].name && Current(s.leases, you.held[j])
        ensures after.stored.environments[i] == s.stored.environments[i]
      {
        if s.stored.environments[i].name in Footprint(me.phase.op) {
          OnlyOneOwner(s, w, v, j);
        }
      }
    }
  }

  lemma SteppedNames(op: Operation, record: UpgradeRecord, after: seq<EnvironmentRecord>)
    requires StepsEntries(op, record, after)
    ensures SameNames(record.environments, after)
  {
    forall i | 0 <= i < |after|
      ensures after[i].name == record.environments[i].name
    {
      EntryStepKeeps(op, record.header, record.environments[i], after[i]);
    }
  }

  /** While the committing worker owns an environment it leased, nobody else does. */
  lemma OnlyOneOwner(s: State, w: nat, v: nat, j: nat)
    requires Inv(s) && w < |s.workers| && v < |s.workers| && v != w && Can(s, s.workers[w], Commit)
    requires j < |s.workers[v].held| && Current(s.leases, s.workers[v].held[j])
    ensures s.workers[v].held[j].name !in Footprint(s.workers[w].phase.op)
  {
    var me := s.workers[w];
    assert WorkerInv(s, me);
    CommitOwns(s, w);
    assert forall i :: 0 <= i < |me.held| ==> me.held[i].name != s.workers[v].held[j].name;
  }

  lemma OtherCurrentFresh(s: State, w: nat, action: Action, v: nat)
    requires Inv(s) && w < |s.workers| && v < |s.workers| && v != w && Can(s, s.workers[w], action)
    ensures CurrentFresh(Apply(s, By(w, action)), s.workers[v])
  {
    var you := s.workers[v];
    assert WorkerInv(s, you);
    if you.phase.Merging? {
      WriteLeaseKept(s, w, action, you.phase.token);
    }
  }

  lemma OtherKept(s: State, w: nat, action: Action, v: nat)
    requires Inv(s) && w < |s.workers| && v < |s.workers| && v != w && Can(s, s.workers[w], action)
    ensures WorkerInv(Apply(s, By(w, action)), s.workers[v])
  {
    assert WorkerInv(s, s.workers[v]);
    OtherDeadlineSafe(s, w, action, v);
    OtherFenced(s, w, action, v);
    OtherBaseFresh(s, w, action, v);
    OtherCurrentFresh(s, w, action, v);
  }

  // ----- The worker that takes the step -----

  lemma SelfShaped(s: State, w: nat, action: Action)
    requires Inv(s) && w < |s.workers| && Can(s, s.workers[w], action)
    ensures WellShaped(s.now, Moved(s, s.workers[w], action))
    ensures Lawful(Moved(s, s.workers[w], action))
  {
    assert WorkerInv(s, s.workers[w]);
  }

  lemma SelfDeadlineSafe(s: State, w: nat, action: Action)
    requires Inv(s) && w < |s.workers| && Can(s, s.workers[w], action)
    ensures DeadlineSafe(Apply(s, By(w, action)), Moved(s, s.workers[w], action))
  {
    var me := s.workers[w];
    assert WorkerInv(s, me);
    if me.Acting() && !action.Release? {
      if s.now < me.deadline {
        OtherCovered(s, w, action, w, |me.held|, me.deadline);
      }
      if me.renewal.Renewing? && s.now < After(me.renewal.asked, ENVIRONMENT_TTL) {
        OtherCovered(s, w, action, w, me.renewal.next, After(me.renewal.asked, ENVIRONMENT_TTL));
      }
    }
  }

  lemma SelfFenced(s: State, w: nat, action: Action)
    requires Inv(s) && w < |s.workers| && Can(s, s.workers[w], action)
    ensures Fenced(Apply(s, By(w, action)), Moved(s, s.workers[w], action))
  {
    var me := s.workers[w];
    assert WorkerInv(s, me);
    var after := Apply(s, By(w, action));
    if (me.phase.Fencing? || me.phase.Merging?) && Holds(after.leases, WriteKey, me.phase.token, s.now) {
      WriteLeaseKept(s, w, action, me.phase.token);
      OtherCovered(s, w, action, w, if me.phase.Fencing? then me.phase.next else |me.held|, s.leases[WriteKey].expiry);
    }
  }

  lemma SelfBaseFresh(s: State, w: nat, action: Action)
    requires Inv(s) && w < |s.workers| && Can(s, s.workers[w], action)
    ensures BaseFresh(Apply(s, By(w, action)), Moved(s, s.workers[w], action))
  {
    var me := s.workers[w];
    assert WorkerInv(s, me);
    var after := Apply(s, By(w, action));
    if HasBase(me.phase) {
      forall j | 0 <= j < |me.held|
        ensures Current(after.leases, me.held[j]) ==> Current(s.leases, me.held[j])
      {
        EditGentle(s, w, action, w, j);
        CoversKept(s.leases, s.now, EditOf(s, me, action), me.held[j], 0);
      }
    }
  }

  lemma SelfCurrentFresh(s: State, w: nat, action: Action)
    requires Inv(s) && w < |s.workers| && Can(s, s.workers[w], action)
    ensures CurrentFresh(Apply(s, By(w, action)), Moved(s, s.workers[w], action))
  {
    var me := s.workers[w];
    assert WorkerInv(s, me);
    if me.phase.Merging? {
      WriteLeaseKept(s, w, action, me.phase.token);
    }
  }

  lemma SelfKept(s: State, w: nat, action: Action)
    requires Inv(s) && w < |s.workers| && Can(s, s.workers[w], action)
    ensures WorkerInv(Apply(s, By(w, action)), Moved(s, s.workers[w], action))
  {
    SelfShaped(s, w, action);
    SelfDeadlineSafe(s, w, action);
    SelfFenced(s, w, action);
    SelfBaseFresh(s, w, action);
    SelfCurrentFresh(s, w, action);
  }

  // ----- The whole state -----

  /** A step hands out only the next token, and only to the worker that takes it. */
  lemma MovedTokens(s: State, me: Worker, action: Action)
    requires Can(s, me, action)
    ensures var moved, granted := Moved(s, me, action), EditOf(s, me, action).Grant?;
            && |me.held| <= |moved.held| <= |me.held| + 1 && moved.held[..|me.held|] == me.held
            && (|moved.held| > |me.held| ==> granted && moved.held[|me.held|].token == s.nextToken)
            && (HasWriteToken(moved.phase) ==>
                  if HasWriteToken(me.phase) then moved.phase.token == me.phase.token
                  else granted && moved.phase.token == s.nextToken)
  {
  }

  lemma TokensBelowKept(s: State, w: nat, action: Action)
    requires TokensBelow(s.workers, s.leases, s.nextToken) && w < |s.workers| && Can(s, s.workers[w], action)
    ensures var after := Apply(s, By(w, action));
            TokensBelow(after.workers, after.leases, after.nextToken)
  {
    MovedTokens(s, s.workers[w], action);
    var after := Apply(s, By(w, action));
    assert forall i :: 0 <= i < |after.workers[w].held| ==>
      after.workers[w].held[i].token == if i < |s.workers[w].held| then s.workers[w].held[i].token else s.nextToken;
  }

  lemma HeldTokensUniqueKept(s: State, w: nat, action: Action)
    requires TokensBelow(s.workers, s.leases, s.nextToken) && HeldTokensUnique(s.workers) && w < |s.workers|
    requires Can(s, s.workers[w], action)
    ensures HeldTokensUnique(s.workers[w := Moved(s, s.workers[w], action)])
  {
    var me, moved := s.workers[w], Moved(s, s.workers[w], action);
    MovedTokens(s, me, action);
    var after := s.workers[w := moved];
    forall x, y, i, j | 0 <= x < |after| && 0 <= y < |after| && 0 <= i < |after[x].held| && 0 <= j < |after[y].held|
                        && after[x].held[i].token == after[y].held[j].token
      ensures x == y && i == j
    {
      assert i < |s.workers[x].held| ==> after[x].held[i] == s.workers[x].held[i];
      assert j < |s.workers[y].held| ==> after[y].held[j] == s.workers[y].held[j];
    }
  }

  lemma WriteTokensUniqueKept(s: State, w: nat, action: Action)
    requires TokensBelow(s.workers, s.leases, s.nextToken) && WriteTokensUnique(s.workers) && w < |s.workers|
    requires Can(s, s.workers[w], action)
    ensures WriteTokensUnique(s.workers[w := Moved(s, s.workers[w], action)])
  {
    MovedTokens(s, s.workers[w], action);
  }

  lemma LeasesBoundedKept(s: State, w: nat, action: Action)
    requires LeasesBounded(s.leases, s.now) && w < |s.workers| && Can(s, s.workers[w], action)
    ensures LeasesBounded(Apply(s, By(w, action)).leases, s.now)
  {
  }

  lemma SerializedKept(s: State, w: nat, action: Action)
    requires Inv(s) && w < |s.workers| && Can(s, s.workers[w], action)
    ensures Serialized(Apply(s, By(w, action)))
  {
    if action.Commit? {
      var op := s.workers[w].phase.op;
      var after := Apply(s, By(w, action));
      CommitIsAtomic(s, w);
      SteppedNames(op, s.stored, after.stored.environments);
      var serial := Serial(s.initial, s.log).value;
      RunsAlike(op, s.stored, serial);
      SerialAppend(s.initial, s.log, op);
    }
  }

  lemma SerialAppend(initial: UpgradeRecord, log: seq<Operation>, op: Operation)
    requires Serial(initial, log).Some? && Run(op, Serial(initial, log).value).Persist?
    ensures Serial(initial, log + [op]) == Some(Run(op, Serial(initial, log).value).modified)
  {
    assert (log + [op])[..|log|] == log;
  }

  /** Records that differ at most in status and count step alike. */
  lemma RunsAlike(op: Operation, a: UpgradeRecord, b: UpgradeRecord)
    requires a.header == b.header && a.environments == b.environments && NoBlankNames(a.environments)
    requires Run(op, a).Persist?
    ensures Run(op, b).Persist? && Run(op, b).modified.environments == Run(op, a).modified.environments
    ensures Run(op, b).modified.header == a.header
  {
    RunIsLocal(op, a, b);
    RunStepsEntries(op, a);
    RunStepsEntries(op, b);
  }

  lemma TimePasses(s: State, to: int, me: Worker)
    requires WorkerInv(s, me) && s.now <= to <= MAX_TIME
    ensures WorkerInv(s.(now := to), me)
  {
  }

  lemma WorkersComeAndGo(s: State, workers: seq<Worker>, me: Worker)
    requires WorkerInv(s, me)
    ensures WorkerInv(s.(workers := workers), me)
  {
  }

  lemma TickKept(s: State, to: int)
    requires Inv(s) && s.now <= to <= MAX_TIME
    ensures Inv(Apply(s, Tick(to)))
  {
    forall w | 0 <= w < |s.workers|
      ensures WorkerInv(s.(now := to), s.workers[w])
    {
      TimePasses(s, to, s.workers[w]);
    }
  }

  lemma StartKept(s: State, wanted: seq<string>)
    requires Inv(s)
    ensures Inv(Apply(s, Start(wanted)))
  {
    var after := Apply(s, Start(wanted));
    var newcomer := after.workers[|s.workers|];
    assert WorkerInv(after, newcomer);
    forall w | 0 <= w < |s.workers|
      ensures WorkerInv(after, s.workers[w])
    {
      WorkersComeAndGo(s, after.workers, s.workers[w]);
    }
    StartedTokens(s, newcomer);
  }

  lemma StartedTokens(s: State, newcomer: Worker)
    requires Inv(s) && newcomer.held == [] && !HasWriteToken(newcomer.phase)
    ensures TokensBelow(s.workers + [newcomer], s.leases, s.nextToken)
    ensures HeldTokensUnique(s.workers + [newcomer]) && WriteTokensUnique(s.workers + [newcomer])
  {
    var workers := s.workers + [newcomer];
    assert forall w :: 0 <= w < |workers| && (workers[w].held != [] || HasWriteToken(workers[w].phase)) ==>
                         w < |s.workers| && workers[w] == s.workers[w];
  }

  /** Every step keeps the invariant. */
  lemma StepKept(s: State, step: Step)
    requires Inv(s) && Enabled(s, step)
    ensures Inv(Apply(s, step))
  {
    match step
    case Tick(to) => TickKept(s, to);
    case Start(wanted) => StartKept(s, wanted);
    case By(w, action) =>
      TokensBelowKept(s, w, action);
      HeldTokensUniqueKept(s, w, action);
      WriteTokensUniqueKept(s, w, action);
      LeasesBoundedKept(s, w, action);
      SerializedKept(s, w, action);
      SelfKept(s, w, action);
      forall v | 0 <= v < |s.workers| && v != w
        ensures WorkerInv(Apply(s, step), s.workers[v])
      {
        OtherKept(s, w, action, v);
      }
  }

  lemma InitHolds(s: State)
    requires Init(s)
    ensures Inv(s)
  {
  }
}
