/** Whether a collection cut short can be finished by running it again. */
module ContentResume {
  import opened Wrappers
  import opened ContentWalk
  import opened ContentReach
  import opened ContentCollection

  /** A collection that got as far as removing: its inventory passed and `order` is its removal order. */
  ghost predicate Underway(host: Host, oci: bool, releases: seq<Release>, manifests: set<Digest>, order: seq<Item>) {
    && AllKinds(releases, host, manifests)
    && Listed(host)
    && Inventory(host, oci, releases).Ok?
    && var plan := Inventory(host, oci, releases).value;
       IsOrder(order, Removable(plan), plan.depths)
  }

  /** After any cut, the inventory of what is left finds every removable item still stored. */
  ghost predicate Resumable(host: Host, oci: bool, releases: seq<Release>, order: seq<Item>) {
    forall m: nat, c: nat, item | m <= |order| && item in order && Stored(Cut(host, order, m, c), item) ::
      Found(Cut(host, order, m, c), oci, releases, item)
  }

  ghost predicate Found(host: Host, oci: bool, releases: seq<Release>, item: Item) {
    Inventory(host, oci, releases).Ok? && item in Removable(Inventory(host, oci, releases).value)
  }

  /**
    Every stored layer to be removed is an unkept release's own artifact, or some manifest held here
    that references it comes later in the order. This can be read off before the first removal.
   */
  ghost predicate ParentsLater(host: Host, manifests: set<Digest>, releases: seq<Release>, order: seq<Item>) {
    forall j | 0 <= j < |order| && order[j].Layer? && Stored(host, order[j])
               && order[j].digest !in RootsWhere(releases, false) ::
      HasLaterParent(host, manifests, order, j)
  }

  ghost predicate HasLaterParent(host: Host, manifests: set<Digest>, order: seq<Item>, j: nat)
    requires j < |order|
  {
    exists k :: j < k < |order| && order[k].Layer? && Edge(host, manifests, order[k].digest, order[j].digest)
  }

  // ----- The inventory of a host cut short -----

  lemma KeptReadsSame(
    host: Host, oci: bool, releases: seq<Release>, manifests: set<Digest>, order: seq<Item>, m: nat, c: nat, d: Digest)
    requires Underway(host, oci, releases, manifests, order) && m <= |order|
    requires Reaches(host, manifests, RootsWhere(releases, true), d)
    ensures Readable(Cut(host, order, m, c), d) <==> Readable(host, d)
  {
    assert InClosure(host, manifests, releases, true, Layer(d));
    KeptClosureIsSafe(host, oci, releases, manifests, order, m, c, Layer(d));
  }

  /** A path from a kept release is untouched by any cut. */
  lemma KeptPathSurvives(
    host: Host, oci: bool, releases: seq<Release>, manifests: set<Digest>, order: seq<Item>, m: nat, c: nat, path: seq<Digest>)
    requires Underway(host, oci, releases, manifests, order) && m <= |order|
    requires IsPath(host, manifests, RootsWhere(releases, true), path)
    ensures IsPath(Cut(host, order, m, c), manifests, RootsWhere(releases, true), path)
  {
    var left := Cut(host, order, m, c);
    forall i | 0 <= i < |path| - 1
      ensures Edge(left, manifests, path[i], path[i + 1])
    {
      assert IsPath(host, manifests, RootsWhere(releases, true), path[..i + 1]);
      assert path[..i + 1][|path[..i + 1]| - 1] == path[i];
      KeptReadsSame(host, oci, releases, manifests, order, m, c, path[i]);
      assert Edge(host, manifests, path[i], path[i + 1]);
    }
  }

  /** A cut keeps the closure of the kept releases and only shrinks that of the others. */
  lemma CutClosure(
    host: Host, oci: bool, releases: seq<Release>, manifests: set<Digest>, order: seq<Item>, m: nat, c: nat, item: Item)
    requires Underway(host, oci, releases, manifests, order) && m <= |order|
    ensures var left := Cut(host, order, m, c);
            && (InClosure(left, manifests, releases, true, item) <==> InClosure(host, manifests, releases, true, item))
            && (InClosure(left, manifests, releases, false, item) ==> InClosure(host, manifests, releases, false, item))
  {
    var left := Cut(host, order, m, c);
    forall x ensures Readable(left, x) ==> Readable(host, x) { CutReadsLess(host, order, m, c, x); }
    if item.Layer? {
      var d := item.digest;
      forall kept | Reaches(left, manifests, RootsWhere(releases, kept), d)
        ensures Reaches(host, manifests, RootsWhere(releases, kept), d)
      {
        ReachesMore(left, host, manifests, RootsWhere(releases, kept), RootsWhere(releases, kept), d);
      }
      if Reaches(host, manifests, RootsWhere(releases, true), d) {
        var path :| IsPath(host, manifests, RootsWhere(releases, true), path) && path[|path| - 1] == d;
        KeptPathSurvives(host, oci, releases, manifests, order, m, c, path);
      }
    }
  }

  /** Nothing that was not in the way before is in the way after a cut. */
  lemma CutIsNotBlocked(
    host: Host, oci: bool, releases: seq<Release>, manifests: set<Digest>, order: seq<Item>, m: nat, c: nat)
    requires Underway(host, oci, releases, manifests, order) && m <= |order|
    ensures !Blocked(Cut(host, order, m, c), oci, manifests, releases)
  {
    var left := Cut(host, order, m, c);
    InventoryIsClosure(host, oci, releases, manifests);
    forall release, d | release in releases && Reaches(left, manifests, RootsOf(release.roots), d)
      ensures !Blocks(left, oci && release.kept, manifests, d)
    {
      forall x ensures Readable(left, x) ==> Readable(host, x) { CutReadsLess(host, order, m, c, x); }
      var roots := RootsOf(release.roots);
      ReachesMore(left, host, manifests, roots, roots, d);
      assert !Blocks(host, oci && release.kept, manifests, d);
      if release.kept {
        ReachesMore(host, host, manifests, roots, RootsWhere(releases, true), d);
        KeptReadsSame(host, oci, releases, manifests, order, m, c, d);
      }
    }
  }

  /** After any cut the inventory still passes, keeps the same items, and plans no new ones. */
  lemma CutInventory(
    host: Host, oci: bool, releases: seq<Release>, manifests: set<Digest>, order: seq<Item>, m: nat, c: nat)
    requires Underway(host, oci, releases, manifests, order) && m <= |order|
    ensures var left := Cut(host, order, m, c);
            && AllKinds(releases, left, manifests)
            && Inventory(left, oci, releases).Ok?
            && Inventory(left, oci, releases).value.kept == Inventory(host, oci, releases).value.kept
            && Inventory(left, oci, releases).value.unkept <= Inventory(host, oci, releases).value.unkept
  {
    var left := Cut(host, order, m, c);
    CutIsNotBlocked(host, oci, releases, manifests, order, m, c);
    InventoryIsClosure(left, oci, releases, manifests);
    InventoryIsClosure(host, oci, releases, manifests);
    forall item
      ensures item in Inventory(left, oci, releases).value.kept <==> item in Inventory(host, oci, releases).value.kept
      ensures item in Inventory(left, oci, releases).value.unkept ==>
                item in Inventory(host, oci, releases).value.unkept
    {
      CutClosure(host, oci, releases, manifests, order, m, c, item);
    }
  }

  // ----- When a run can be resumed -----

  /** A later parent is whole when its child is still there. */
  lemma LaterIsWhole(host: Host, order: seq<Item>, m: nat, c: nat, j: nat, k: nat)
    requires m <= |order| && j < k < |order| && forall a, b :: 0 <= a < b < |order| ==> order[a] != order[b]
    requires Stored(Cut(host, order, m, c), order[j]) && order[k].Layer? && Stored(host, order[k])
    ensures Stored(Cut(host, order, m, c), order[k])
    ensures Cut(host, order, m, c).layers[order[k].digest] == host.layers[order[k].digest]
  {
    assert forall i :: 0 <= i < m ==> order[i] in order[..m];
    assert m <= j;
  }

  lemma {:induction false} StoredIsReached(
    host: Host, oci: bool, releases: seq<Release>, manifests: set<Digest>, order: seq<Item>, m: nat, c: nat, j: nat)
    requires Underway(host, oci, releases, manifests, order) && m <= |order| && j < |order|
    requires ParentsLater(host, manifests, releases, order)
    requires Stored(Cut(host, order, m, c), order[j])
    ensures InClosure(Cut(host, order, m, c), manifests, releases, false, order[j])
    decreases |order| - j
  {
    var left := Cut(host, order, m, c);
    InventoryIsClosure(host, oci, releases, manifests);
    assert order[j] in order;
    if order[j].Layer? {
      var d := order[j].digest;
      if d in RootsWhere(releases, false) {
        ReachesRoot(left, manifests, RootsWhere(releases, false), d);
      } else {
        assert HasLaterParent(host, manifests, order, j);
        var k :| j < k < |order| && order[k].Layer? && Edge(host, manifests, order[k].digest, d);
        LaterIsWhole(host, order, m, c, j, k);
        StoredIsReached(host, oci, releases, manifests, order, m, c, k);
        assert Edge(left, manifests, order[k].digest, d);
        ReachesFurther(left, manifests, RootsWhere(releases, false), order[k].digest, d);
      }
    }
  }

  /** A digest reached from elsewhere is reached over a last edge from another digest. */
  lemma {:induction false} LastEdge(
    host: Host, manifests: set<Digest>, roots: set<Digest>, path: seq<Digest>, d: Digest)
    returns (p: Digest)
    requires IsPath(host, manifests, roots, path) && path[|path| - 1] == d && d !in roots
    ensures p != d && Edge(host, manifests, p, d) && Reaches(host, manifests, roots, p)
  {
    var before := path[..|path| - 1];
    assert IsPath(host, manifests, roots, before);
    p := before[|before| - 1];
    assert Edge(host, manifests, path[|path| - 2], path[|path| - 1]);
    if p == d {
      p := LastEdge(host, manifests, roots, before, d);
    }
  }

  /** What references a removable layer is itself removable: a kept manifest keeps what it references. */
  lemma ParentIsRemovable(
    host: Host, oci: bool, releases: seq<Release>, manifests: set<Digest>, order: seq<Item>, p: Digest, d: Digest)
    requires Underway(host, oci, releases, manifests, order) && Layer(d) in order
    requires Edge(host, manifests, p, d) && Reaches(host, manifests, RootsWhere(releases, false), p)
    ensures Layer(p) in order
  {
    InventoryIsClosure(host, oci, releases, manifests);
    assert InClosure(host, manifests, releases, false, Layer(p));
    if Reaches(host, manifests, RootsWhere(releases, true), p) {
      ReachesFurther(host, manifests, RootsWhere(releases, true), p, d);
    }
  }

  lemma ResumableHasParentsLater(
    host: Host, oci: bool, releases: seq<Release>, manifests: set<Digest>, order: seq<Item>, j: nat)
    requires Underway(host, oci, releases, manifests, order) && Resumable(host, oci, releases, order)
    requires j < |order| && order[j].Layer? && Stored(host, order[j]) && order[j].digest !in RootsWhere(releases, false)
    ensures HasLaterParent(host, manifests, order, j)
  {
    var d, left := order[j].digest, Cut(host, order, j, 0);
    assert order[j] in order && Stored(left, order[j]);
    assert Found(left, oci, releases, order[j]);
    CutInventory(host, oci, releases, manifests, order, j, 0);
    InventoryIsClosure(left, oci, releases, manifests);
    assert InClosure(left, manifests, releases, false, order[j]);
    var path :| IsPath(left, manifests, RootsWhere(releases, false), path) && path[|path| - 1] == d;
    var p := LastEdge(left, manifests, RootsWhere(releases, false), path, d);
    forall x ensures Readable(left, x) ==> Readable(host, x) { CutReadsLess(host, order, j, 0, x); }
    ReachesMore(left, host, manifests, RootsWhere(releases, false), RootsWhere(releases, false), p);
    assert Edge(host, manifests, p, d);
    ParentIsRemovable(host, oci, releases, manifests, order, p, d);
    var k :| 0 <= k < |order| && order[k] == Layer(p);
    assert forall i :: 0 <= i < j ==> order[i] in order[..j];
    assert j < k;
  }

  /**
    The exact condition under which every interrupted collection can be finished by another one:
    each removable layer that is not a release's own artifact has a manifest that references it
    later in the removal order.
   */
  lemma ResumableExactlyWhenParentsLater(
    host: Host, oci: bool, releases: seq<Release>, manifests: set<Digest>, order: seq<Item>)
    requires Underway(host, oci, releases, manifests, order)
    ensures Resumable(host, oci, releases, order) <==> ParentsLater(host, manifests, releases, order)
  {
    if Resumable(host, oci, releases, order) {
      forall j | 0 <= j < |order| && order[j].Layer? && Stored(host, order[j])
                 && order[j].digest !in RootsWhere(releases, false)
        ensures HasLaterParent(host, manifests, order, j)
      {
        ResumableHasParentsLater(host, oci, releases, manifests, order, j);
      }
    }
    if ParentsLater(host, manifests, releases, order) {
      forall m: nat, c: nat, item | m <= |order| && item in order && Stored(Cut(host, order, m, c), item)
        ensures Found(Cut(host, order, m, c), oci, releases, item)
      {
        var j :| 0 <= j < |order| && order[j] == item;
        StoredIsReached(host, oci, releases, manifests, order, m, c, j);
        CutInventory(host, oci, releases, manifests, order, m, c);
        InventoryIsClosure(Cut(host, order, m, c), oci, releases, manifests);
      }
    }
  }

  // ----- What the next run does -----

  /** A full run leaves exactly the host without the removable items. */
  lemma FullRunPurges(host: Host, oci: bool, releases: seq<Release>, manifests: set<Digest>, order: seq<Item>)
    requires Underway(host, oci, releases, manifests, order)
    ensures Cut(host, order, |order|, 0) == Purged(host, Removable(Inventory(host, oci, releases).value))
  {
    assert order[..|order|] == order;
  }

  /** Running again after any cut ends in the same store as a run that was never cut. */
  lemma RerunFinishes(
    host: Host, oci: bool, releases: seq<Release>, manifests: set<Digest>, order: seq<Item>, m: nat, c: nat)
    requires Underway(host, oci, releases, manifests, order) && m <= |order|
    requires ParentsLater(host, manifests, releases, order)
    ensures var left := Cut(host, order, m, c);
            && Inventory(left, oci, releases).Ok?
            && Purged(left, Removable(Inventory(left, oci, releases).value)) == Cut(host, order, |order|, 0)
  {
    var left := Cut(host, order, m, c);
    CutInventory(host, oci, releases, manifests, order, m, c);
    ResumableExactlyWhenParentsLater(host, oci, releases, manifests, order);
    FullRunPurges(host, oci, releases, manifests, order);
    var again := Removable(Inventory(left, oci, releases).value);
    forall item
      ensures item !in order ==> item !in again
      ensures item in order && Stored(left, item) ==> item in again
    {
      if item in order && Stored(left, item) {
        assert Found(left, oci, releases, item);
      }
    }
    assert Purged(left, again).layers == Purged(host, Removable(Inventory(host, oci, releases).value)).layers;
  }

  /** A second run with the same references finds nothing left to remove. */
  lemma SecondRunRemovesNothing(
    host: Host, oci: bool, releases: seq<Release>, manifests: set<Digest>, order: seq<Item>, item: Item)
    requires Underway(host, oci, releases, manifests, order)
    ensures var left := Cut(host, order, |order|, 0);
            && Inventory(left, oci, releases).Ok?
            && (item in Removable(Inventory(left, oci, releases).value) ==> !Stored(left, item))
  {
    CutInventory(host, oci, releases, manifests, order, |order|, 0);
    assert order[..|order|] == order;
  }
}
