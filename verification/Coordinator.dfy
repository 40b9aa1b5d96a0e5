/**
  The lease protocol of src/connectivity.rs as a step system. Any number of workers run operations
  on one stored upgrade; each takes the leases of its environments one at a time, reads the record,
  works, and writes through `persist`. Between any two steps of one worker every other worker, its
  renewal thread, the clock and crashes may take steps.

  The lease store follows src/storage/sqlite_objects/namespaced_leases.rs: a live lease refuses
  another acquire, and refreshing, releasing and writing need the current token of a live lease.
 */
module Coordinator {
  import opened Wrappers
  import opened Upgrade
  import opened UpgradeProperties
  import opened UpgradeMerge

  const MAX_TIME := 0x7fff_ffff_ffff_ffff
  const ENVIRONMENT_TTL := 120_000
  const WRITE_TTL := 30_000
  const MARGIN := 10_000

  /** `saturating_add` on 64-bit milliseconds. */
  function After(t: int, delay: nat): (sum: int) {
    if t + delay > MAX_TIME then MAX_TIME else t + delay
  }

  // ----- The lease store -----

  datatype Key = EnvironmentKey(name: string) | WriteKey

  datatype Lease = Lease(token: nat, expiry: int, active: bool)

  type Leases = map<Key, Lease>

  predicate Live(lease: Lease, now: int) {
    lease.active && lease.expiry > now
  }

  /** What `acquire_lease` asks of the stored lease. */
  predicate Free(leases: Leases, key: Key, now: int) {
    key in leases ==> !Live(leases[key], now)
  }

  /** What `refresh_lease`, `release_lease` and `guarded_update` ask of the stored lease. */
  predicate Holds(leases: Leases, key: Key, token: nat, now: int) {
    key in leases && leases[key].token == token && Live(leases[key], now)
  }

  /** One change to the lease store. */
  datatype Edit = Keep | Grant(key: Key, token: nat, expiry: int) | Extend(key: Key, expiry: int) | Drop(key: Key)

  function Edited(leases: Leases, edit: Edit): (after: Leases) {
    match edit
    case Keep => leases
    case Grant(key, token, expiry) => leases[key := Lease(token, expiry, true)]
    case Extend(key, expiry) => if key in leases then leases[key := leases[key].(expiry := expiry)] else leases
    case Drop(key) => if key in leases then leases[key := leases[key].(active := false)] else leases
  }

  // ----- Workers -----

  datatype Held = Held(name: string, token: nat)

  datatype Renewal = Resting | Renewing(asked: int, next: nat) | Dead

  /**
    Where an operation stands. `Locking` lasts until the record is read; `Guarding` to `Finishing` is
    the inside of `persist`, under the write lease `token`.
   */
  datatype Phase =
    | Locking
    | Working(base: UpgradeRecord)
    | Persisting(base: UpgradeRecord, op: Operation)
    | Guarding(base: UpgradeRecord, op: Operation, token: nat)
    | Fencing(base: UpgradeRecord, op: Operation, token: nat, next: nat)
    | Merging(base: UpgradeRecord, op: Operation, token: nat, current: UpgradeRecord)
    | Finishing(token: nat)
    | Unlocking(released: nat)
    | Gone

  predicate HasBase(phase: Phase) {
    phase.Working? || phase.Persisting? || phase.Guarding? || phase.Fencing? || phase.Merging?
  }

  predicate HasOperation(phase: Phase) {
    phase.Persisting? || phase.Guarding? || phase.Fencing? || phase.Merging?
  }

  predicate HasWriteToken(phase: Phase) {
    phase.Guarding? || phase.Fencing? || phase.Merging? || phase.Finishing?
  }

  datatype Worker = Worker(
    wanted: seq<string>,
    held: seq<Held>,
    deadline: int,
    lost: bool,
    renewal: Renewal,
    phase: Phase)
  {
    /** The operation may still act: it has not begun to release its leases. */
    predicate Acting() {
      !phase.Unlocking? && !phase.Gone?
    }

    predicate Locked() {
      |held| == |wanted|
    }

    /** `HeldEnvironments::ensure_held` at time `now`. */
    predicate EnsureHeld(now: int) {
      !lost && After(now, MARGIN) < deadline
    }
  }

  // ----- States and steps -----

  datatype State = State(
    now: int,
    leases: Leases,
    nextToken: nat,
    stored: UpgradeRecord,
    workers: seq<Worker>,
    initial: UpgradeRecord,
    log: seq<Operation>)

  /** One step of one worker or of its renewal thread. */
  datatype Action =
    | AcquireEnvironment
    | BeginRenewal
    | RenewOne
    | FailRenewal
    | FinishRenewal
    | Load
    | Submit(op: Operation)
    | AcquireWrite
    | CheckHeld
    | RefreshOne
    | ReadCurrent
    | Commit
    | GiveUp
    | Release
    | Crash

  datatype Step = Tick(to: int) | Start(wanted: seq<string>) | By(w: nat, action: Action)

  predicate InitialEntry(entry: EnvironmentRecord) {
    && entry.status == EnvironmentStatus.Pending
    && entry.transfer.None?
    && (entry.isolated.Some? ==> entry.isolated.value.receiptDigest.None?)
  }

  /** A new upgrade: every environment pending, none without a name, perhaps a bundle bound at first install. */
  ghost predicate Init(s: State) {
    && s.workers == [] && s.leases == map[] && s.log == []
    && s.now <= MAX_TIME
    && s.stored == s.initial
    && NoBlankNames(s.stored.environments)
    && forall e <- s.stored.environments :: InitialEntry(e)
  }

  function Modified(phase: Phase): (modified: Attempt)
    requires HasOperation(phase)
  {
    Run(phase.op, phase.base)
  }

  predicate HoldsNext(s: State, held: seq<Held>, next: nat) {
    next < |held| && Holds(s.leases, EnvironmentKey(held[next].name), held[next].token, s.now)
  }

  predicate CanMerge(phase: Phase) {
    phase.Merging? && Modified(phase).Persist? && Merge(phase.base, Modified(phase).modified, phase.current).Ok?
  }

  predicate Can(s: State, me: Worker, action: Action) {
    match action
    case AcquireEnvironment =>
      me.phase.Locking? && |me.held| < |me.wanted| && Free(s.leases, EnvironmentKey(me.wanted[|me.held|]), s.now)
    case BeginRenewal => me.renewal.Resting? && me.Locked() && me.wanted != [] && !me.phase.Gone?
    case RenewOne => me.renewal.Renewing? && !me.phase.Gone? && HoldsNext(s, me.held, me.renewal.next)
    case FailRenewal => me.renewal.Renewing? && !me.phase.Gone?
    case FinishRenewal => me.renewal.Renewing? && !me.phase.Gone? && me.renewal.next == |me.held|
    case Load => me.phase.Locking? && me.Locked()
    case Submit(op) =>
      me.phase.Working? && Run(op, me.phase.base).Persist? && Footprint(op) <= (set name | name in me.wanted)
    case AcquireWrite => me.phase.Persisting? && Free(s.leases, WriteKey, s.now)
    case CheckHeld => me.phase.Guarding? && me.EnsureHeld(s.now)
    case RefreshOne => me.phase.Fencing? && HoldsNext(s, me.held, me.phase.next)
    case ReadCurrent => me.phase.Fencing? && me.phase.next == |me.held|
    case Commit => CanMerge(me.phase) && Holds(s.leases, WriteKey, me.phase.token, s.now)
    case GiveUp => me.Acting()
    case Release => me.phase.Unlocking? && me.phase.released < |me.held|
    case Crash => true
  }

  /** What the action does to the lease store. */
  function EditOf(s: State, me: Worker, action: Action): (edit: Edit)
    requires Can(s, me, action)
  {
    match action
    case AcquireEnvironment => Grant(EnvironmentKey(me.wanted[|me.held|]), s.nextToken, After(s.now, ENVIRONMENT_TTL))
    case RenewOne => Extend(EnvironmentKey(me.held[me.renewal.next].name), After(s.now, ENVIRONMENT_TTL))
    case RefreshOne => Extend(EnvironmentKey(me.held[me.phase.next].name), After(s.now, ENVIRONMENT_TTL))
    case AcquireWrite => Grant(WriteKey, s.nextToken, After(s.now, WRITE_TTL))
    case GiveUp =>
      if HasWriteToken(me.phase) && Holds(s.leases, WriteKey, me.phase.token, s.now) then Drop(WriteKey) else Keep
    case Release =>
      if HoldsNext(s, me.held, me.phase.released) then Drop(EnvironmentKey(me.held[me.phase.released].name)) else Keep
    case _ => Keep
  }

  /** What the action does to the worker that takes it. */
  function Moved(s: State, me: Worker, action: Action): (after: Worker)
    requires Can(s, me, action)
  {
    match action
    case AcquireEnvironment => me.(held := me.held + [Held(me.wanted[|me.held|], s.nextToken)])
    case BeginRenewal => me.(renewal := Renewing(s.now, 0))
    case RenewOne => me.(renewal := Renewing(me.renewal.asked, me.renewal.next + 1))
    case FailRenewal => me.(lost := true, renewal := Dead)
    case FinishRenewal => me.(deadline := After(me.renewal.asked, ENVIRONMENT_TTL), renewal := Resting)
    case Load => me.(phase := Working(s.stored))
    case Submit(op) => me.(phase := Persisting(me.phase.base, op))
    case AcquireWrite => me.(phase := Guarding(me.phase.base, me.phase.op, s.nextToken))
    case CheckHeld => me.(phase := Fencing(me.phase.base, me.phase.op, me.phase.token, 0))
    case RefreshOne => me.(phase := Fencing(me.phase.base, me.phase.op, me.phase.token, me.phase.next + 1))
    case ReadCurrent => me.(phase := Merging(me.phase.base, me.phase.op, me.phase.token, s.stored))
    case Commit => me.(phase := Finishing(me.phase.token))
    case GiveUp => me.(phase := Unlocking(0))
    case Release => me.(phase := Unlocking(me.phase.released + 1))
    case Crash => me.(phase := Gone)
  }

  predicate Enabled(s: State, step: Step) {
    match step
    case Tick(to) => s.now <= to <= MAX_TIME
    case Start(_) => true
    case By(w, action) => w < |s.workers| && Can(s, s.workers[w], action)
  }

  /** The stored record and the operations stored so far, after the action. */
  function Written(s: State, me: Worker, action: Action): (after: (UpgradeRecord, seq<Operation>))
    requires Can(s, me, action)
  {
    if action.Commit? then
      (Merge(me.phase.base, Modified(me.phase).modified, me.phase.current).value, s.log + [me.phase.op])
    else (s.stored, s.log)
  }

  function Apply(s: State, step: Step): (after: State)
    requires Enabled(s, step)
  {
    match step
    case Tick(to) => s.(now := to)
    case Start(wanted) =>
      var deadline := if wanted == [] then MAX_TIME else After(s.now, ENVIRONMENT_TTL);
      s.(workers := s.workers + [Worker(wanted, [], deadline, false, Resting, Locking)])
    case By(w, action) =>
      var me := s.workers[w];
      var edit := EditOf(s, me, action);
      var (stored, log) := Written(s, me, action);
      State(s.now, Edited(s.leases, edit), if edit.Grant? then s.nextToken + 1 else s.nextToken, stored,
            s.workers[w := Moved(s, me, action)], s.initial, log)
  }
}
