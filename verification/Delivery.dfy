/** The delivery signals of every release a plan crosses: src/approval_policy.rs. */
module Delivery {
  import opened Wrappers

  datatype Signals = Signals(hasMigration: bool, changesIdentity: bool, reversesMigration: bool)

  const NONE := Signals(false, false, false)

  function Merge(a: Signals, b: Signals): (s: Signals) {
    Signals(a.hasMigration || b.hasMigration, a.changesIdentity || b.changesIdentity,
        a.reversesMigration || b.reversesMigration)
  }

  /** Every signal of `a` is in `b`. */
  predicate Within(a: Signals, b: Signals) {
    Merge(a, b) == b
  }

  /**
    A version text as semver reads it. Parsed versions are known by their place in semver's total
    order; countably many versions all find a place among the reals.
   */
  datatype Version = Parsed(rank: real) | Unparsed(text: string)

  datatype Id = ReleaseId(product: string, version: Version) | OtherId(text: string)

  datatype Release = Release(product: Option<string>, version: Option<Version>, hasMigration: bool,
      changesIdentity: bool)

  /** Releases as one reads them by id, and as they are listed. */
  datatype Catalog = Catalog(objects: map<Id, Release>, listed: seq<Release>)

  datatype Action = Install | Upgrade | Downgrade | RollBack | Restart | Remove

  datatype Step = Step(action: Action, product: string, releaseId: Id, from: Option<Version>, to: Version, host: bool)

  predicate Reverse(step: Step) {
    step.action.Downgrade? || step.action.RollBack?
  }

  /** Signals of a release a plan moves to. */
  function Target(r: Release): (s: Signals) {
    Signals(r.hasMigration, r.changesIdentity, false)
  }

  /** Signals of a release a downgrade or rollback moves away from. */
  function Departed(r: Release): (s: Signals) {
    Signals(false, false, r.hasMigration)
  }

  function TargetAt(catalog: Catalog, id: Id): (s: Signals) {
    if id in catalog.objects then Target(catalog.objects[id]) else NONE
  }

  predicate Crossed(r: Release, product: string, low: real, high: real) {
    && r.product == Some(product)
    && r.version.Some? && r.version.value.Parsed? && low < r.version.value.rank <= high
  }

  /** The merged signals of the releases of `product` in `(low, high]`. */
  function RangeSignals(listed: seq<Release>, product: string, low: real, high: real, reverse: bool): (s: Signals) {
    if listed == [] then NONE else
      var rest := RangeSignals(listed[..|listed| - 1], product, low, high, reverse);
      var last := listed[|listed| - 1];
      if Crossed(last, product, low, high) then Merge(rest, if reverse then Departed(last) else Target(last)) else rest
  }

  /** What the versions of a step cross, past the target itself. */
  function CrossedSignals(catalog: Catalog, step: Step): (s: Signals) {
    if step.from.None? then NONE
    else if step.from.value.Parsed? && step.to.Parsed? then
      var from, to := step.from.value.rank, step.to.rank;
      RangeSignals(catalog.listed, step.product, if Reverse(step) then to else from,
          if Reverse(step) then from else to, Reverse(step))
    else if Reverse(step) && ReleaseId(step.product, step.from.value) in catalog.objects then
      Departed(catalog.objects[ReleaseId(step.product, step.from.value)])
    else NONE
  }

  function StepSignals(catalog: Catalog, step: Step): (s: Signals) {
    if step.action.Restart? then NONE else Merge(TargetAt(catalog, step.releaseId), CrossedSignals(catalog, step))
  }

  function PlanSignals(catalog: Catalog, steps: seq<Step>): (s: Signals) {
    if steps == [] then NONE
    else Merge(PlanSignals(catalog, steps[..|steps| - 1]), StepSignals(catalog, steps[|steps| - 1]))
  }

  /** `delivery_signals_for_plan`: the listing is read once, when a step first needs it. */
  method DeliverySignalsForPlan(catalog: Catalog, steps: seq<Step>) returns (signals: Signals)
    ensures signals == PlanSignals(catalog, steps)
  {
    signals := NONE;
    var releases: Option<seq<Release>> := None;
    for i := 0 to |steps|
      invariant signals == PlanSignals(catalog, steps[..i])
      invariant releases.Some? ==> releases.value == catalog.listed
    {
      var step := steps[i];
      assert steps[..i + 1][..i] == steps[..i] && steps[..i + 1][i] == step;
      ghost var before := signals;
      if step.action.Restart? { continue; }
      if step.releaseId in catalog.objects {
        signals := Merge(signals, Target(catalog.objects[step.releaseId]));
      }
      if step.from.None? { continue; }
      if !step.from.value.Parsed? || !step.to.Parsed? {
        var departed := ReleaseId(step.product, step.from.value);
        if Reverse(step) && departed in catalog.objects {
          signals := Merge(signals, Departed(catalog.objects[departed]));
        }
        continue;
      }
      var low, high := step.from.value.rank, step.to.rank;
      if Reverse(step) { low, high := high, low; }
      if releases.None? { releases := Some(catalog.listed); }
      signals := FoldRange(signals, releases.value, step.product, low, high, Reverse(step));
      assert signals == Merge(before, StepSignals(catalog, step));
    }
    assert steps[..|steps|] == steps;
  }

  method FoldRange(
    start: Signals, listed: seq<Release>, product: string, low: real, high: real, reverse: bool)
    returns (signals: Signals)
    ensures signals == Merge(start, RangeSignals(listed, product, low, high, reverse))
  {
    signals := start;
    for k := 0 to |listed|
      invariant signals == Merge(start, RangeSignals(listed[..k], product, low, high, reverse))
    {
      assert listed[..k + 1][..k] == listed[..k] && listed[..k + 1][k] == listed[k];
      if Crossed(listed[k], product, low, high) {
        signals := Merge(signals, if reverse then Departed(listed[k]) else Target(listed[k]));
      }
    }
    assert listed[..|listed|] == listed;
  }

  // ----- What the signals mean -----

  /** `r` is a release of the product, later than `low` and no later than `high`. */
  ghost predicate Between(r: Release, product: string, low: real, high: real) {
    r.product == Some(product) && exists rank :: r.version == Some(Parsed(rank)) && low < rank && rank <= high
  }

  lemma CrossedIsBetween(r: Release, product: string, low: real, high: real)
    ensures Crossed(r, product, low, high) <==> Between(r, product, low, high)
  {
    if Crossed(r, product, low, high) {
      assert r.version == Some(Parsed(r.version.value.rank));
    }
  }

  /** `r` is a release the step moves to or through. */
  ghost predicate MovesTo(catalog: Catalog, step: Step, r: Release) {
    && !step.action.Restart?
    && (|| (step.releaseId in catalog.objects && catalog.objects[step.releaseId] == r)
        || (&& !Reverse(step) && step.from.Some? && step.from.value.Parsed? && step.to.Parsed? && r in catalog.listed
            && Between(r, step.product, step.from.value.rank, step.to.rank)))
  }

  /** `r` is a release the step moves back from or over. */
  ghost predicate Undoes(catalog: Catalog, step: Step, r: Release) {
    && Reverse(step) && step.from.Some?
    && (if step.from.value.Parsed? && step.to.Parsed?
        then r in catalog.listed && Between(r, step.product, step.to.rank, step.from.value.rank)
        else ReleaseId(step.product, step.from.value) in catalog.objects
             && r == catalog.objects[ReleaseId(step.product, step.from.value)])
  }

  /** The range fold raises a signal exactly when some listed release in the range declares it. */
  lemma {:induction false} RangeMeans(listed: seq<Release>, product: string, low: real, high: real)
    ensures RangeSignals(listed, product, low, high, false).hasMigration
       <==> exists r :: r in listed && Crossed(r, product, low, high) && r.hasMigration
    ensures RangeSignals(listed, product, low, high, false).changesIdentity
       <==> exists r :: r in listed && Crossed(r, product, low, high) && r.changesIdentity
    ensures RangeSignals(listed, product, low, high, true).reversesMigration
       <==> exists r :: r in listed && Crossed(r, product, low, high) && r.hasMigration
    ensures !RangeSignals(listed, product, low, high, false).reversesMigration
    ensures Within(RangeSignals(listed, product, low, high, true), Signals(false, false, true))
  {
    if listed != [] {
      var rest, last := listed[..|listed| - 1], listed[|listed| - 1];
      RangeMeans(rest, product, low, high);
      assert listed == rest + [last];
      assert forall r :: r in listed <==> r in rest || r == last;
    }
  }

  /** One step raises a signal exactly when it crosses a release that declares it. */
  lemma StepMeans(catalog: Catalog, step: Step)
    ensures StepSignals(catalog, step).hasMigration <==> exists r :: MovesTo(catalog, step, r) && r.hasMigration
    ensures StepSignals(catalog, step).changesIdentity <==> exists r :: MovesTo(catalog, step, r) && r.changesIdentity
    ensures StepSignals(catalog, step).reversesMigration <==> exists r :: Undoes(catalog, step, r) && r.hasMigration
  {
    if step.from.Some? && step.from.value.Parsed? && step.to.Parsed? {
      RangeMeans(catalog.listed, step.product, step.from.value.rank, step.to.rank);
      RangeMeans(catalog.listed, step.product, step.to.rank, step.from.value.rank);
    }
    if step.releaseId in catalog.objects && !step.action.Restart? {
      assert MovesTo(catalog, step, catalog.objects[step.releaseId]);
    }
    RangeWitnesses(catalog, step);
  }

  /** Listed releases in the range of a step are releases it crosses. */
  lemma RangeWitnesses(catalog: Catalog, step: Step)
    ensures step.from.Some? && step.from.value.Parsed? && step.to.Parsed? && !Reverse(step) && !step.action.Restart? ==>
              forall r | r in catalog.listed && Crossed(r, step.product, step.from.value.rank, step.to.rank) ::
                MovesTo(catalog, step, r)
    ensures step.from.Some? && step.from.value.Parsed? && step.to.Parsed? && Reverse(step) ==>
              forall r | r in catalog.listed && Between(r, step.product, step.to.rank, step.from.value.rank) ::
                Undoes(catalog, step, r)
    ensures step.from.Some? && !(step.from.value.Parsed? && step.to.Parsed?) && Reverse(step)
            && ReleaseId(step.product, step.from.value) in catalog.objects ==>
              Undoes(catalog, step, catalog.objects[ReleaseId(step.product, step.from.value)])
  {
  }

  /** A plan raises a signal exactly when one of its steps crosses a release that declares it. */
  lemma {:induction false} PlanMeans(catalog: Catalog, steps: seq<Step>)
    ensures PlanSignals(catalog, steps).hasMigration
       <==> exists step, r :: step in steps && MovesTo(catalog, step, r) && r.hasMigration
    ensures PlanSignals(catalog, steps).changesIdentity
       <==> exists step, r :: step in steps && MovesTo(catalog, step, r) && r.changesIdentity
    ensures PlanSignals(catalog, steps).reversesMigration
       <==> exists step, r :: step in steps && Undoes(catalog, step, r) && r.hasMigration
  {
    if steps != [] {
      var rest, last := steps[..|steps| - 1], steps[|steps| - 1];
      PlanMeans(catalog, rest);
      StepMeans(catalog, last);
      assert steps == rest + [last];
      assert forall step :: step in steps <==> step in rest || step == last;
    }
  }

  // ----- Adding up -----

  lemma {:induction false} RangeSplits(
    listed: seq<Release>, product: string, low: real, mid: real, high: real, reverse: bool)
    requires low <= mid <= high
    ensures RangeSignals(listed, product, low, high, reverse)
         == Merge(RangeSignals(listed, product, low, mid, reverse), RangeSignals(listed, product, mid, high, reverse))
  {
    if listed != [] {
      RangeSplits(listed[..|listed| - 1], product, low, mid, high, reverse);
    }
  }

  /** Two steps through `mid` in place of one. */
  predicate Splits(one: Step, first: Step, second: Step) {
    && one.action == first.action == second.action && (one.action.Upgrade? || Reverse(one))
    && one.product == first.product == second.product && one.host == first.host == second.host
    && one.releaseId == second.releaseId && one.to == second.to && one.from == first.from && second.from == Some(first.to)
    && one.from.Some? && one.from.value.Parsed? && one.to.Parsed? && first.to.Parsed?
    && (if Reverse(one) then one.to.rank <= first.to.rank < one.from.value.rank
        else one.from.value.rank < first.to.rank <= one.to.rank)
  }

  /** Going through `mid` raises what going straight does, and what the release object of `mid` itself declares. */
  lemma StepSplits(catalog: Catalog, one: Step, first: Step, second: Step)
    requires Splits(one, first, second)
    ensures Merge(StepSignals(catalog, first), StepSignals(catalog, second))
         == Merge(StepSignals(catalog, one), TargetAt(catalog, first.releaseId))
    ensures StepSignals(catalog, one) == Merge(StepSignals(catalog, first), StepSignals(catalog, second))
       <==> Within(TargetAt(catalog, first.releaseId), StepSignals(catalog, one))
  {
    var from, mid, to := one.from.value.rank, first.to.rank, one.to.rank;
    if Reverse(one) {
      RangeSplits(catalog.listed, one.product, to, mid, from, true);
    } else {
      RangeSplits(catalog.listed, one.product, from, mid, to, false);
    }
  }

  /** The release object a step moves to is among the listed ones, under the step's product and version. */
  ghost predicate ListedTarget(catalog: Catalog, step: Step) {
    step.releaseId in catalog.objects ==>
      && catalog.objects[step.releaseId] in catalog.listed
      && catalog.objects[step.releaseId].product == Some(step.product)
      && catalog.objects[step.releaseId].version == Some(step.to)
  }

  /** An upgrade that skips a listed version raises exactly the signals of the upgrades through it. */
  lemma UpgradeAddsUp(catalog: Catalog, one: Step, first: Step, second: Step)
    requires Splits(one, first, second) && one.action.Upgrade? && ListedTarget(catalog, first)
    ensures StepSignals(catalog, one) == Merge(StepSignals(catalog, first), StepSignals(catalog, second))
  {
    StepSplits(catalog, one, first, second);
    RangeMeans(catalog.listed, one.product, one.from.value.rank, one.to.rank);
  }

  /** A downgrade or rollback undoes a migration exactly when one of its parts does. */
  lemma ReversalAddsUp(catalog: Catalog, one: Step, first: Step, second: Step)
    requires Splits(one, first, second)
    ensures StepSignals(catalog, one).reversesMigration
         == (StepSignals(catalog, first).reversesMigration || StepSignals(catalog, second).reversesMigration)
  {
    StepSplits(catalog, one, first, second);
  }

  lemma {:induction false} PlanConcat(catalog: Catalog, a: seq<Step>, b: seq<Step>)
    ensures PlanSignals(catalog, a + b) == Merge(PlanSignals(catalog, a), PlanSignals(catalog, b))
  {
    if b == [] {
      assert a + b == a;
    } else {
      PlanConcat(catalog, a, b[..|b| - 1]);
      assert (a + b)[..|a + b| - 1] == a + b[..|b| - 1];
    }
  }

  /** The same, inside any plan. */
  lemma PlanAddsUp(catalog: Catalog, a: seq<Step>, one: Step, first: Step, second: Step, b: seq<Step>)
    requires Splits(one, first, second) && one.action.Upgrade? && ListedTarget(catalog, first)
    ensures PlanSignals(catalog, a + [one] + b) == PlanSignals(catalog, a + [first, second] + b)
  {
    UpgradeAddsUp(catalog, one, first, second);
    PlanConcat(catalog, a + [one], b);
    PlanConcat(catalog, a, [one]);
    PlanConcat(catalog, a + [first, second], b);
    PlanConcat(catalog, a, [first, second]);
    assert [first, second] == [first] + [second] && [first] == [] + [first] && [one] == [] + [one];
    PlanConcat(catalog, [first], [second]);
  }

  /** Without the listing the straight upgrade can say less: `mid` is read by its id, but not listed. */
  lemma UnlistedVersionIsSkipped() returns (catalog: Catalog, one: Step, first: Step, second: Step)
    ensures Splits(one, first, second) && one.action.Upgrade? && !ListedTarget(catalog, first)
    ensures StepSignals(catalog, one) == NONE && StepSignals(catalog, first).hasMigration
  {
    var mid := ReleaseId("p", Parsed(2.0));
    catalog := Catalog(map[mid := Release(Some("p"), Some(Parsed(2.0)), true, false)], []);
    one := Step(Upgrade, "p", ReleaseId("p", Parsed(3.0)), Some(Parsed(1.0)), Parsed(3.0), false);
    first := Step(Upgrade, "p", mid, Some(Parsed(1.0)), Parsed(2.0), false);
    second := Step(Upgrade, "p", ReleaseId("p", Parsed(3.0)), Some(Parsed(2.0)), Parsed(3.0), false);
  }
}
