/** The removal order by recorded depth: when it lets an interrupted collection resume, and when it does not. */
module ContentOrder {
  import opened Wrappers
  import opened ContentWalk
  import opened ContentReach
  import opened ContentCollection
  import opened ContentResume

  // ----- Recorded depths -----

  /** A depth is recorded for exactly the manifests some release reaches. */
  lemma {:induction false} DepthKeys(host: Host, oci: bool, releases: seq<Release>, manifests: set<Digest>, d: Digest)
    requires AllKinds(releases, host, manifests) && Inventory(host, oci, releases).Ok?
    ensures d in Inventory(host, oci, releases).value.depths <==>
              d in manifests &&
              (|| InClosure(host, manifests, releases, true, Layer(d))
               || InClosure(host, manifests, releases, false, Layer(d)))
  {
    if releases == [] {
      assert RootsWhere(releases, true) == {} && RootsWhere(releases, false) == {};
      NothingReachesFromNothing(host, manifests, d);
    } else {
      var before, last := releases[..|releases| - 1], releases[|releases| - 1];
      DepthKeys(host, oci, before, manifests, d);
      ClosureSplits(host, manifests, releases, true, Layer(d));
      ClosureSplits(host, manifests, releases, false, Layer(d));
      LastWalk(host, oci && last.kept, last, manifests, d);
    }
  }

  lemma LastWalk(host: Host, strict: bool, release: Release, manifests: set<Digest>, d: Digest)
    requires Kinds(release.roots, manifests) && ContentKinds(host, manifests)
    requires WalkFrom(host, strict, release.roots).Ok?
    ensures var visits := WalkFrom(host, strict, release.roots).value;
            && Discovered(host, strict, release.roots, visits)
            && (d in visits <==> Reaches(host, manifests, RootsOf(release.roots), d))
            && (d in visits ==> (visits[d].manifest <==> d in manifests))
  {
    StartHolds(host, strict, release.roots);
    WalkDiscovers(host, strict, release.roots, Tasks(release.roots, 0), map[], ContentWalk.Names(host, release.roots));
    DiscoveredIsReach(host, strict, release.roots, WalkFrom(host, strict, release.roots).value, manifests);
  }

  /** `releases[u]` is the only release nothing keeps. */
  ghost predicate Sole(releases: seq<Release>, u: nat) {
    u < |releases| && forall i :: 0 <= i < |releases| ==> (releases[i].kept <==> i != u)
  }

  lemma SoleRoots(releases: seq<Release>, u: nat)
    requires Sole(releases, u)
    ensures RootsWhere(releases, false) == RootsOf(releases[u].roots)
  {
    assert forall r :: r in releases && !r.kept ==> r == releases[u];
    assert releases[u] in releases;
  }

  /** The inventory of a catalog passes only when every release's walk does. */
  lemma {:induction false} WalkPasses(host: Host, oci: bool, releases: seq<Release>, u: nat)
    requires u < |releases| && Inventory(host, oci, releases).Ok?
    ensures WalkFrom(host, oci && releases[u].kept, releases[u].roots).Ok?
  {
    if u < |releases| - 1 {
      WalkPasses(host, oci, releases[..|releases| - 1], u);
    }
  }

  /** With one unkept release, the depth of what only it reaches is the depth its walk met it at. */
  lemma {:induction false} SoleDepth(
    host: Host, oci: bool, releases: seq<Release>, manifests: set<Digest>, u: nat, d: Digest)
    requires AllKinds(releases, host, manifests) && Inventory(host, oci, releases).Ok? && Sole(releases, u)
    requires !InClosure(host, manifests, releases, true, Layer(d))
    requires WalkFrom(host, false, releases[u].roots).Ok?
    requires d in WalkFrom(host, false, releases[u].roots).value && d in manifests
    ensures var depths := Inventory(host, oci, releases).value.depths;
            d in depths && depths[d] == WalkFrom(host, false, releases[u].roots).value[d].depth
  {
    var before, last := releases[..|releases| - 1], releases[|releases| - 1];
    ClosureSplits(host, manifests, releases, true, Layer(d));
    LastWalk(host, oci && last.kept, last, manifests, d);
    if u == |releases| - 1 {
      DepthKeys(host, oci, before, manifests, d);
      assert RootsWhere(before, false) == {};
      NothingReachesFromNothing(host, manifests, d);
    } else {
      SoleDepth(host, oci, before, manifests, u, d);
    }
  }

  // ----- Orders that can be resumed -----

  lemma RankedLater(order: seq<Item>, items: set<Item>, depths: map<Digest, int>, j: nat, k: nat)
    requires IsOrder(order, items, depths) && j < |order| && k < |order|
    requires Before(Rank(depths, order[j]), Rank(depths, order[k]))
    ensures j < k
  {
  }

  /** A collection with a single unkept release can always be resumed. */
  lemma SoleReleaseIsResumable(
    host: Host, oci: bool, releases: seq<Release>, manifests: set<Digest>, order: seq<Item>, u: nat)
    requires Underway(host, oci, releases, manifests, order) && Sole(releases, u)
    ensures ParentsLater(host, manifests, releases, order)
    ensures Resumable(host, oci, releases, order)
  {
    forall j | 0 <= j < |order| && order[j].Layer? && Stored(host, order[j])
               && order[j].digest !in RootsWhere(releases, false)
      ensures HasLaterParent(host, manifests, order, j)
    {
      SoleHasLaterParent(host, oci, releases, manifests, order, u, j);
    }
    ResumableExactlyWhenParentsLater(host, oci, releases, manifests, order);
  }

  lemma SoleHasLaterParent(
    host: Host, oci: bool, releases: seq<Release>, manifests: set<Digest>, order: seq<Item>, u: nat, j: nat)
    requires Underway(host, oci, releases, manifests, order) && Sole(releases, u)
    requires j < |order| && order[j].Layer? && order[j].digest !in RootsWhere(releases, false)
    ensures HasLaterParent(host, manifests, order, j)
  {
    var d, roots := order[j].digest, releases[u].roots;
    var plan := Inventory(host, oci, releases).value;
    InventoryIsClosure(host, oci, releases, manifests);
    SoleRoots(releases, u);
    WalkPasses(host, oci, releases, u);
    assert order[j] in order && releases[u] in releases;
    LastWalk(host, false, releases[u], manifests, d);
    var visits := WalkFrom(host, false, roots).value;
    assert Traced(host, roots, visits, Ref(d, visits[d].manifest), visits[d].depth);
    var p :| References(host, visits, p, Ref(d, visits[d].manifest)) && visits[p].depth + 1 == visits[d].depth;
    LastWalk(host, false, releases[u], manifests, p);
    assert Edge(host, manifests, p, d);
    ParentIsRemovable(host, oci, releases, manifests, order, p, d);
    var k :| 0 <= k < |order| && order[k] == Layer(p);
    SoleDepth(host, oci, releases, manifests, u, p);
    if d in manifests {
      SoleDepth(host, oci, releases, manifests, u, d);
    } else {
      DepthKeys(host, oci, releases, manifests, d);
    }
    RankedLater(order, Removable(plan), plan.depths, j, k);
  }

  /** The recorded depth grows along every reference between removable manifests. */
  ghost predicate DepthsIncrease(host: Host, manifests: set<Digest>, order: seq<Item>, depths: map<Digest, int>) {
    forall p, d | Layer(p) in order && Layer(d) in order && p != d && d in manifests && Edge(host, manifests, p, d) ::
      p in depths && d in depths && depths[p] < depths[d]
  }

  /** With several unkept releases, depths that grow along references are enough. */
  lemma IncreasingDepthsAreResumable(
    host: Host, oci: bool, releases: seq<Release>, manifests: set<Digest>, order: seq<Item>)
    requires Underway(host, oci, releases, manifests, order)
    requires DepthsIncrease(host, manifests, order, Inventory(host, oci, releases).value.depths)
    ensures Resumable(host, oci, releases, order)
  {
    forall j | 0 <= j < |order| && order[j].Layer? && Stored(host, order[j])
               && order[j].digest !in RootsWhere(releases, false)
      ensures HasLaterParent(host, manifests, order, j)
    {
      var d, plan := order[j].digest, Inventory(host, oci, releases).value;
      InventoryIsClosure(host, oci, releases, manifests);
      assert order[j] in order;
      var roots := RootsWhere(releases, false);
      var path :| IsPath(host, manifests, roots, path) && path[|path| - 1] == d;
      var p := LastEdge(host, manifests, roots, path, d);
      ParentIsRemovable(host, oci, releases, manifests, order, p, d);
      var k :| 0 <= k < |order| && order[k] == Layer(p);
      DepthKeys(host, oci, releases, manifests, p);
      DepthKeys(host, oci, releases, manifests, d);
      RankedLater(order, Removable(plan), plan.depths, j, k);
    }
    ResumableExactlyWhenParentsLater(host, oci, releases, manifests, order);
  }

  // ----- An order that cannot -----

  // Two releases reach one manifest `Y` over `P` and over `Q`. Each meets the other's parent late, below
  // an artifact of its own (`A` above `Q` and `C` above `P`), so both parents are recorded as deep as `Y`
  // and are removed before it.
  const A: Digest := 1
  const C: Digest := 2
  const P: Digest := 3
  const Q: Digest := 4
  const Y: Digest := 5

  function Manifest(d: Digest): (ref: Ref) { Ref(d, true) }

  const CROSSED := Host(
    map[A := [true], C := [true], P := [true], Q := [true], Y := [true]],
    {},
    map[A := [Manifest(Q)], C := [Manifest(P)], P := [Manifest(Y)], Q := [Manifest(Y)], Y := []])

  const CROSSED_RELEASES := [Release([Manifest(A), Manifest(P)], None, false),
      Release([Manifest(C), Manifest(Q)], None, false)]

  /** One pop of the walk, with the last pending reference written out. */
  lemma WalkPops(host: Host, rest: seq<Task>, d: Digest, depth: nat, visits: Visits, names: set<Digest>)
    requires Within(host, rest + [Task(Manifest(d), depth)], names) && d in host.content && Readable(host, d)
    ensures var after := rest + Tasks(host.content[d], depth + 1);
            && Within(host, rest, names) && Within(host, after, names)
            && Walk(host, false, rest + [Task(Manifest(d), depth)], visits, names) ==
                 if d in visits then Walk(host, false, rest, visits, names)
                 else Walk(host, false, after, visits[d := Visit(depth, true)], names)
  {
    var pending := rest + [Task(Manifest(d), depth)];
    assert pending[..|pending| - 1] == rest && pending[|pending| - 1] == Task(Manifest(d), depth);
    assert forall t :: t in rest ==> t in pending;
    ExpandedWithin(host, false, Task(Manifest(d), depth), rest, names);
  }

  /** The walk from a direct parent `p` of `y` and an artifact `a` above its other parent `q`. */
  lemma CrossedWalk(host: Host, a: Digest, p: Digest, q: Digest, y: Digest)
    requires a != p && a != q && a != y && p != q && p != y && q != y
    requires Readable(host, a) && Readable(host, p) && Readable(host, q) && Readable(host, y)
    requires a in host.content && p in host.content && q in host.content && y in host.content
    requires host.content[a] == [Manifest(q)] && host.content[y] == []
    requires host.content[p] == [Manifest(y)] && host.content[q] == [Manifest(y)]
    ensures WalkFrom(host, false, [Manifest(a), Manifest(p)]) ==
            Ok(map[p := Visit(0, true), y := Visit(1, true), a := Visit(0, true), q := Visit(1, true)])
  {
    var roots, ta := [Manifest(a), Manifest(p)], Task(Manifest(a), 0);
    var names := ContentWalk.Names(host, roots);
    assert Tasks(roots, 0) == [ta] + [Task(Manifest(p), 0)];
    CrossedPops(host, a, p, q, y, names);
  }

  lemma CrossedPops(host: Host, a: Digest, p: Digest, q: Digest, y: Digest, names: set<Digest>)
    requires a != p && a != q && a != y && p != q && p != y && q != y
    requires Readable(host, a) && Readable(host, p) && Readable(host, q) && Readable(host, y)
    requires a in host.content && p in host.content && q in host.content && y in host.content
    requires host.content[a] == [Manifest(q)] && host.content[y] == []
    requires host.content[p] == [Manifest(y)] && host.content[q] == [Manifest(y)]
    requires Within(host, [Task(Manifest(a), 0)] + [Task(Manifest(p), 0)], names)
    ensures Walk(host, false, [Task(Manifest(a), 0)] + [Task(Manifest(p), 0)], map[], names) ==
            Ok(map[p := Visit(0, true), y := Visit(1, true), a := Visit(0, true), q := Visit(1, true)])
  {
    var ta := Task(Manifest(a), 0);
    WalkPops(host, [ta], p, 0, map[], names);
    var v1: Visits := map[p := Visit(0, true)];
    assert [ta] + Tasks(host.content[p], 1) == [ta] + [Task(Manifest(y), 1)];
    WalkPops(host, [ta], y, 1, v1, names);
    var v2 := v1[y := Visit(1, true)];
    assert [ta] + Tasks(host.content[y], 2) == [] + [ta];
    WalkPops(host, [], a, 0, v2, names);
    var v3 := v2[a := Visit(0, true)];
    assert [] + Tasks(host.content[a], 1) == [] + [Task(Manifest(q), 1)];
    WalkPops(host, [], q, 1, v3, names);
    var v4 := v3[q := Visit(1, true)];
    assert [] + Tasks(host.content[q], 2) == [] + [Task(Manifest(y), 2)];
    WalkPops(host, [], y, 2, v4, names);
    assert Walk(host, false, [], v4, names) == Ok(v4);
  }

  const CROSSED_DEPTHS: map<Digest, int> := map[A := 0, C := 0, P := 1, Q := 1, Y := 1]
  const CROSSED_ITEMS := {Layer(A), Layer(C), Layer(P), Layer(Q), Layer(Y)}
  const CROSSED_ORDER := [Layer(P), Layer(Q), Layer(Y), Layer(A), Layer(C)]

  lemma InventoryAdds(host: Host, oci: bool, before: seq<Release>, plan: Plan, release: Release)
    requires Inventory(host, oci, before) == Ok(plan)
    ensures Inventory(host, oci, before + [release]) == Added(host, oci, plan, release)
  {
    var releases := before + [release];
    assert releases[..|releases| - 1] == before;
  }

  /** The plan with an unkept release in it, from the digests and depths its walk gives. */
  lemma AddedUnkept(host: Host, plan: Plan, roots: seq<Ref>, visits: Visits)
    requires WalkFrom(host, false, roots) == Ok(visits)
    ensures Added(host, true, plan, Release(roots, None, false)) ==
            Ok(Plan(plan.kept, plan.unkept + (set d | d in visits :: Layer(d)), Recorded(plan.depths, visits)))
  {
    assert Items(Release(roots, None, false), visits.Keys) == set d | d in visits :: Layer(d);
  }

  lemma CrossedInventory()
    ensures Inventory(CROSSED, true, CROSSED_RELEASES) == Ok(Plan({}, CROSSED_ITEMS, CROSSED_DEPTHS))
  {
    var first, second := CROSSED_RELEASES[0], CROSSED_RELEASES[1];
    CrossedWalk(CROSSED, A, P, Q, Y);
    var one: Visits := map[P := Visit(0, true), Y := Visit(1, true), A := Visit(0, true), Q := Visit(1, true)];
    AddedUnkept(CROSSED, Plan({}, {}, map[]), first.roots, one);
    InventoryAdds(CROSSED, true, [], Plan({}, {}, map[]), first);
    var depths: map<Digest, int> := map[P := 0, Y := 1, A := 0, Q := 1];
    var half := Plan({}, set d | d in one :: Layer(d), depths);
    assert Recorded(map[], one) == depths;
    assert {} + (set d | d in one :: Layer(d)) == set d | d in one :: Layer(d);
    assert [] + [first] == [first];
    assert Inventory(CROSSED, true, [first]) == Ok(half);

    CrossedWalk(CROSSED, C, Q, P, Y);
    var two: Visits := map[Q := Visit(0, true), Y := Visit(1, true), C := Visit(0, true), P := Visit(1, true)];
    AddedUnkept(CROSSED, half, second.roots, two);
    InventoryAdds(CROSSED, true, [first], half, second);
    assert [first] + [second] == CROSSED_RELEASES;
    CrossedSums(one, two, depths);
  }

  lemma CrossedSums(one: Visits, two: Visits, depths: map<Digest, int>)
    requires one == map[P := Visit(0, true), Y := Visit(1, true), A := Visit(0, true), Q := Visit(1, true)]
    requires two == map[Q := Visit(0, true), Y := Visit(1, true), C := Visit(0, true), P := Visit(1, true)]
    requires depths == map[P := 0, Y := 1, A := 0, Q := 1]
    ensures (set d | d in one :: Layer(d)) + (set d | d in two :: Layer(d)) == CROSSED_ITEMS
    ensures Recorded(depths, two) == CROSSED_DEPTHS
  {
  }

  lemma CrossedOrder()
    ensures IsOrder(CROSSED_ORDER, CROSSED_ITEMS, CROSSED_DEPTHS)
  {
  }

  lemma CrossedKinds(manifests: set<Digest>)
    requires manifests == {A, C, P, Q, Y}
    ensures AllKinds(CROSSED_RELEASES, CROSSED, manifests)
  {
  }

  lemma CrossedParents(manifests: set<Digest>)
    ensures !HasLaterParent(CROSSED, manifests, CROSSED_ORDER, 2)
  {
    assert CROSSED_ORDER[2] == Layer(Y) && CROSSED_ORDER[3] == Layer(A) && CROSSED_ORDER[4] == Layer(C);
  }

  lemma CrossedRoots()
    ensures Y !in RootsWhere(CROSSED_RELEASES, false)
  {
  }

  /**
    With two unkept releases the removal order can orphan content: here a run interrupted after the
    first two removals leaves `Y` stored, and no later run finds it.
   */
  lemma CrossedReleasesAreNotResumable()
    ensures Underway(CROSSED, true, CROSSED_RELEASES, {A, C, P, Q, Y}, CROSSED_ORDER)
    ensures !Resumable(CROSSED, true, CROSSED_RELEASES, CROSSED_ORDER)
  {
    var manifests := {A, C, P, Q, Y};
    CrossedInventory();
    CrossedOrder();
    CrossedKinds(manifests);
    assert Removable(Plan({}, CROSSED_ITEMS, CROSSED_DEPTHS)) == CROSSED_ITEMS;
    CrossedParents(manifests);
    CrossedRoots();
    assert CROSSED_ORDER[2] == Layer(Y) && Stored(CROSSED, CROSSED_ORDER[2]);
    ResumableExactlyWhenParentsLater(CROSSED, true, CROSSED_RELEASES, manifests, CROSSED_ORDER);
  }
}
