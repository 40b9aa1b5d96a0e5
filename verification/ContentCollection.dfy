/**
  Content collection of src/content_inventory.rs: what is removable, in which order it is removed,
  and what a run cut short leaves behind.
 */
module ContentCollection {
  import opened Wrappers
  import opened ContentWalk
  import opened ContentReach

  datatype Item = Layer(digest: Digest) | Weights(digest: Digest)

  /** A catalog release: its artifacts, its model weights, and whether anything keeps it. */
  datatype Release = Release(roots: seq<Ref>, weights: Option<Digest>, kept: bool)

  datatype Plan = Plan(kept: set<Item>, unkept: set<Item>, depths: map<Digest, int>)

  function Items(release: Release, digests: set<Digest>): (items: set<Item>) {
    (set d | d in digests :: Layer(d)) + (if release.weights.Some? then {Weights(release.weights.value)} else {})
  }

  /** The plan with one more release in it. `oci` says whether an OCI store is configured. */
  function Added(host: Host, oci: bool, plan: Plan, release: Release): (result: Result<Plan>) {
    var walk := WalkFrom(host, oci && release.kept, release.roots);
    if walk.Err? then Err
    else
      var items, depths := Items(release, walk.value.Keys), Recorded(plan.depths, walk.value);
      if release.kept then Ok(Plan(plan.kept + items, plan.unkept, depths))
      else Ok(Plan(plan.kept, plan.unkept + items, depths))
  }

  /** Every release of the catalog, in order. */
  function Inventory(host: Host, oci: bool, releases: seq<Release>): (result: Result<Plan>) {
    if releases == [] then Ok(Plan({}, {}, map[]))
    else
      var before := Inventory(host, oci, releases[..|releases| - 1]);
      if before.Err? then Err else Added(host, oci, before.value, releases[|releases| - 1])
  }

  /** What only unkept releases name. */
  function Removable(plan: Plan): (items: set<Item>) {
    plan.unkept - plan.kept
  }

  // ----- The removal order -----

  /** Blobs rank `None` and go first; manifests rank by depth, deepest first. */
  function Rank(depths: map<Digest, int>, item: Item): (rank: Option<int>) {
    if item.digest in depths then Some(depths[item.digest]) else None
  }

  predicate Before(a: Option<int>, b: Option<int>) {
    (a.None? && b.Some?) || (a.Some? && b.Some? && a.value > b.value)
  }

  /** The listing order of the set of items: layers before weights, each by digest. */
  predicate Lists(a: Item, b: Item) {
    if a.Layer? == b.Layer? then a.digest < b.digest else a.Layer?
  }

  /** Where the stable sort by rank puts `a` before `b`. */
  predicate GoesBefore(depths: map<Digest, int>, a: Item, b: Item) {
    var x, y := Rank(depths, a), Rank(depths, b);
    Before(x, y) || (x == y && Lists(a, b))
  }

  /** `order` is `items` in the order the code removes them. */
  ghost predicate IsOrder(order: seq<Item>, items: set<Item>, depths: map<Digest, int>) {
    && (forall item :: item in order <==> item in items)
    && (forall j, k :: 0 <= j < k < |order| ==> order[j] != order[k] && GoesBefore(depths, order[j], order[k]))
  }

  /** Blobs go before manifests, deeper manifests before others, layers before weights, and smaller digests first. */
  lemma OrderMeans(order: seq<Item>, items: set<Item>, depths: map<Digest, int>, j: nat, k: nat)
    requires IsOrder(order, items, depths) && j < k < |order|
    ensures var a, b := order[j].digest, order[k].digest;
            && (b !in depths ==> a !in depths)
            && (a in depths ==> b in depths && depths[a] >= depths[b])
            && ((a in depths <==> b in depths) && (a in depths ==> depths[a] == depths[b]) ==>
                  (order[k].Layer? ==> order[j].Layer?) && (order[j].Layer? == order[k].Layer? ==> a < b))
  {
  }

  // ----- A run cut short -----

  predicate Stored(host: Host, item: Item) {
    match item
    case Layer(d) => d in host.layers
    case Weights(d) => d in host.weights
  }

  /** Every listed layer has at least one file. */
  ghost predicate Listed(host: Host) {
    forall d <- host.layers :: host.layers[d] != []
  }

  predicate Going(order: seq<Item>, m: nat, item: Item) {
    m < |order| && order[m] == item
  }

  /** `Cut` leaves nothing of `item`: its turn passed, or its last file went. */
  predicate Gone(order: seq<Item>, m: nat, c: nat, item: Item, files: nat) {
    (m <= |order| && item in order[..m]) || (Going(order, m, item) && c >= files)
  }

  /** The host after a run that removed the first `m` items and `c` files of the next one. */
  function Cut(host: Host, order: seq<Item>, m: nat, c: nat): (left: Host)
    requires m <= |order|
  {
    Host(
      map d | d in host.layers && !Gone(order, m, c, Layer(d), |host.layers[d]|) ::
        if Going(order, m, Layer(d)) then host.layers[d][c..] else host.layers[d],
      (set d | d in host.weights && !Gone(order, m, c, Weights(d), 1)),
      host.content)
  }

  /** The host without `items`. */
  function Purged(host: Host, items: set<Item>): (left: Host) {
    Host(map d | d in host.layers && Layer(d) !in items :: host.layers[d],
         (set d | d in host.weights && Weights(d) !in items),
         host.content)
  }

  // ----- What the inventory is -----

  ghost predicate AllKinds(releases: seq<Release>, host: Host, manifests: set<Digest>) {
    ContentKinds(host, manifests) && forall release <- releases :: Kinds(release.roots, manifests)
  }

  /** The artifacts the releases that are kept, or that are not, name themselves. */
  function RootsWhere(releases: seq<Release>, kept: bool): (roots: set<Digest>) {
    set release, ref | release in releases && release.kept == kept && ref in release.roots :: ref.digest
  }

  ghost predicate NamesWeights(releases: seq<Release>, kept: bool, d: Digest) {
    exists release <- releases :: release.kept == kept && release.weights == Some(d)
  }

  ghost predicate InClosure(host: Host, manifests: set<Digest>, releases: seq<Release>, kept: bool, item: Item) {
    match item
    case Layer(d) => Reaches(host, manifests, RootsWhere(releases, kept), d)
    case Weights(d) => NamesWeights(releases, kept, d)
  }

  /** `release` itself names `item`, directly or through manifests. */
  ghost predicate NamesItem(host: Host, manifests: set<Digest>, release: Release, item: Item) {
    match item
    case Layer(d) => Reaches(host, manifests, RootsOf(release.roots), d)
    case Weights(d) => release.weights == Some(d)
  }

  lemma ReachesMore(
    host: Host, more: Host, manifests: set<Digest>, roots: set<Digest>, moreRoots: set<Digest>, d: Digest)
    requires Reaches(host, manifests, roots, d) && roots <= moreRoots && more.content == host.content
    requires forall x :: Readable(host, x) ==> Readable(more, x)
    ensures Reaches(more, manifests, moreRoots, d)
  {
    var path :| IsPath(host, manifests, roots, path) && path[|path| - 1] == d;
    forall i | 0 <= i < |path| - 1
      ensures Edge(more, manifests, path[i], path[i + 1])
    {
      assert Edge(host, manifests, path[i], path[i + 1]);
    }
    assert IsPath(more, manifests, moreRoots, path);
  }

  lemma ReachesUnion(host: Host, manifests: set<Digest>, a: set<Digest>, b: set<Digest>, d: Digest)
    ensures Reaches(host, manifests, a + b, d) <==> Reaches(host, manifests, a, d) || Reaches(host, manifests, b, d)
  {
    if Reaches(host, manifests, a + b, d) {
      var path :| IsPath(host, manifests, a + b, path) && path[|path| - 1] == d;
      if path[0] in a {
        assert IsPath(host, manifests, a, path);
      } else {
        assert IsPath(host, manifests, b, path);
      }
    }
    if Reaches(host, manifests, a, d) { ReachesMore(host, host, manifests, a, a + b, d); }
    if Reaches(host, manifests, b, d) { ReachesMore(host, host, manifests, b, a + b, d); }
  }

  lemma NothingReachesFromNothing(host: Host, manifests: set<Digest>, d: Digest)
    ensures !Reaches(host, manifests, {}, d)
  {
  }

  /** One more release extends the closure on its side by its own. */
  lemma ClosureSplits(host: Host, manifests: set<Digest>, releases: seq<Release>, kept: bool, item: Item)
    requires releases != []
    ensures var before, last := releases[..|releases| - 1], releases[|releases| - 1];
            InClosure(host, manifests, releases, kept, item) <==>
              || InClosure(host, manifests, before, kept, item)
              || (last.kept == kept && NamesItem(host, manifests, last, item))
  {
    var before, last := releases[..|releases| - 1], releases[|releases| - 1];
    assert forall r :: r in releases <==> r in before || r == last;
    if item.Layer? {
      var own := if last.kept == kept then RootsOf(last.roots) else {};
      assert RootsWhere(releases, kept) == RootsWhere(before, kept) + own;
      ReachesUnion(host, manifests, RootsWhere(before, kept), own, item.digest);
      NothingReachesFromNothing(host, manifests, item.digest);
    }
  }

  /** A manifest that makes the inventory fail. */
  ghost predicate Blocked(host: Host, oci: bool, manifests: set<Digest>, releases: seq<Release>) {
    exists release, d ::
      release in releases && Reaches(host, manifests, RootsOf(release.roots), d)
      && Blocks(host, oci && release.kept, manifests, d)
  }

  /** The inventory of a catalog is the closure of its kept and of its unkept releases, unless one is blocked. */
  lemma {:induction false} InventoryIsClosure(host: Host, oci: bool, releases: seq<Release>, manifests: set<Digest>)
    requires AllKinds(releases, host, manifests)
    ensures var result := Inventory(host, oci, releases);
            && (result.Err? <==> Blocked(host, oci, manifests, releases))
            && (result.Ok? ==>
                  && (forall item :: item in result.value.kept <==> InClosure(host, manifests, releases, true, item))
                  && (forall item :: item in result.value.unkept <==> InClosure(host, manifests, releases, false, item)))
  {
    if releases == [] {
      forall d ensures !Reaches(host, manifests, {}, d) { NothingReachesFromNothing(host, manifests, d); }
      assert RootsWhere(releases, true) == {} && RootsWhere(releases, false) == {};
    } else {
      var before, last := releases[..|releases| - 1], releases[|releases| - 1];
      assert forall r :: r in releases <==> r in before || r == last;
      InventoryIsClosure(host, oci, before, manifests);
      WalkIsClosure(host, oci && last.kept, last.roots, manifests);
      forall kept: bool, item: Item
        ensures InClosure(host, manifests, releases, kept, item) <==>
                  || InClosure(host, manifests, before, kept, item)
                  || (last.kept == kept && NamesItem(host, manifests, last, item))
      {
        ClosureSplits(host, manifests, releases, kept, item);
      }
    }
  }

  // ----- Safety -----

  lemma CutReadsLess(host: Host, order: seq<Item>, m: nat, c: nat, d: Digest)
    requires m <= |order|
    ensures Readable(Cut(host, order, m, c), d) ==> Readable(host, d)
  {
    var left := Cut(host, order, m, c);
    if Readable(left, d) && Going(order, m, Layer(d)) {
      assert forall x :: x in host.layers[d][c..] ==> x in host.layers[d];
    }
  }

  /** A cut touches only items in the order. */
  lemma CutSpares(host: Host, order: seq<Item>, m: nat, c: nat, item: Item)
    requires m <= |order| && item !in order
    ensures var left := Cut(host, order, m, c);
            && (Stored(left, item) <==> Stored(host, item))
            && (item.Layer? && Stored(host, item) ==> left.layers[item.digest] == host.layers[item.digest])
  {
  }

  /** What a kept release reaches is neither in the removal order nor changed by any cut of the run. */
  lemma KeptClosureIsSafe(
    host: Host, oci: bool, releases: seq<Release>, manifests: set<Digest>, order: seq<Item>, m: nat, c: nat, item: Item)
    requires AllKinds(releases, host, manifests)
    requires Inventory(host, oci, releases).Ok?
    requires IsOrder(order, Removable(Inventory(host, oci, releases).value),
        Inventory(host, oci, releases).value.depths)
    requires m <= |order|
    requires InClosure(host, manifests, releases, true, item) || !InClosure(host, manifests, releases, false, item)
    ensures item !in order
    ensures var left := Cut(host, order, m, c);
            && (Stored(left, item) <==> Stored(host, item))
            && (item.Layer? && Stored(host, item) ==> left.layers[item.digest] == host.layers[item.digest])
  {
    InventoryIsClosure(host, oci, releases, manifests);
    CutSpares(host, order, m, c, item);
  }
}
