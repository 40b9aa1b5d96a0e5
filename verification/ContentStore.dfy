/**
  `collect` of src/content_inventory.rs on the stores it changes: the inventory, the sorted removal
  list, and the loop that deletes files one at a time.
 */
module ContentStore {
  import opened Wrappers
  import opened ContentWalk
  import opened ContentCollection

  lemma {:induction false} FirstExists(depths: map<Digest, int>, items: set<Item>) returns (first: Item)
    requires items != {}
    ensures first in items && forall other :: other in items && other != first ==> GoesBefore(depths, first, other)
  {
    var pick :| pick in items;
    if items == {pick} {
      first := pick;
    } else {
      var best := FirstExists(depths, items - {pick});
      first := if GoesBefore(depths, pick, best) then pick else best;
      forall other | other in items && other != first
        ensures GoesBefore(depths, first, other)
      {
        if other != pick && other != best {
          assert other in items - {pick};
          assert GoesBefore(depths, best, other);
        }
      }
    }
  }

  /** The removable items sorted by rank, ties in listing order. */
  method SortRemovals(items: set<Item>, depths: map<Digest, int>) returns (order: seq<Item>)
    ensures IsOrder(order, items, depths)
  {
    order := [];
    var rest := items;
    while rest != {}
      invariant rest <= items
      invariant forall item :: item in order <==> item in items - rest
      invariant forall j, k :: 0 <= j < k < |order| ==> order[j] != order[k] && GoesBefore(depths, order[j], order[k])
      invariant forall j, item :: 0 <= j < |order| && item in rest ==> GoesBefore(depths, order[j], item)
      decreases rest
    {
      ghost var first := FirstExists(depths, rest);
      var next :| next in rest && forall other :: other in rest && other != next ==> GoesBefore(depths, next, other);
      order, rest := order + [next], rest - {next};
    }
  }

  method ReadInventory(host: Host, oci: bool, releases: seq<Release>) returns (result: Result<Plan>)
    ensures result == Inventory(host, oci, releases)
  {
    var plan := Plan({}, {}, map[]);
    var i := 0;
    while i < |releases|
      invariant 0 <= i <= |releases|
      invariant Inventory(host, oci, releases[..i]) == Ok(plan)
    {
      var release := releases[i];
      var found := ReleaseLayers(host, release.roots, plan.depths, oci && release.kept);
      assert releases[..i + 1][..i] == releases[..i];
      if found.Err? {
        InventoryPrefixFails(host, oci, releases, i + 1);
        return Err;
      }
      var (digests, depths) := found.value;
      var items := Items(release, digests);
      if release.kept {
        plan := plan.(kept := plan.kept + items, depths := depths);
      } else {
        plan := plan.(unkept := plan.unkept + items, depths := depths);
      }
      i := i + 1;
    }
    assert releases[..i] == releases;
    result := Ok(plan);
  }

  lemma {:induction false} InventoryPrefixFails(host: Host, oci: bool, releases: seq<Release>, n: nat)
    requires n <= |releases| && Inventory(host, oci, releases[..n]).Err?
    ensures Inventory(host, oci, releases).Err?
  {
    if n < |releases| {
      var before := releases[..|releases| - 1];
      assert before[..n] == releases[..n];
      InventoryPrefixFails(host, oci, before, n);
    } else {
      assert releases[..n] == releases;
    }
  }

  // ----- The removal loop, one file at a time -----

  ghost predicate Distinct(order: seq<Item>) {
    forall j, k :: 0 <= j < k < |order| ==> order[j] != order[k]
  }

  lemma CutNothing(host: Host, order: seq<Item>)
    requires Listed(host)
    ensures Cut(host, order, 0, 0) == host
  {
  }

  /** Files of `item` at the start. */
  function Files(host: Host, item: Item): (n: nat) {
    match item
    case Layer(d) => if d in host.layers then |host.layers[d]| else 0
    case Weights(d) => if d in host.weights then 1 else 0
  }

  /** Files of the first `m` items. */
  function FilesTo(host: Host, order: seq<Item>, m: nat): (n: nat)
    requires m <= |order|
  {
    if m == 0 then 0 else FilesTo(host, order, m - 1) + Files(host, order[m - 1])
  }

  lemma {:induction false} FilesGrow(host: Host, order: seq<Item>, m: nat, n: nat)
    requires m <= n <= |order|
    ensures FilesTo(host, order, m) <= FilesTo(host, order, n)
  {
    if m < n {
      FilesGrow(host, order, m, n - 1);
    }
  }

  /**
    A run that may delete `budget` files stopped after `m` items and `c` files of the next: it was
    done, or had deleted that many.
   */
  ghost predicate StopsAt(host: Host, order: seq<Item>, budget: nat, m: nat, c: nat) {
    && m <= |order|
    && if FilesTo(host, order, |order|) <= budget then m == |order| && c == 0
       else m < |order| && c < Files(host, order[m]) && FilesTo(host, order, m) + c == budget
  }

  /** Removing everything listed leaves the host without it. */
  lemma CutAll(host: Host, order: seq<Item>, items: set<Item>)
    requires forall item :: item in order <==> item in items
    ensures Cut(host, order, |order|, 0) == Purged(host, items)
  {
    assert order[..|order|] == order;
  }

  lemma CutLayerFile(host: Host, order: seq<Item>, m: nat, c: nat, d: Digest)
    requires Listed(host) && Distinct(order) && m < |order| && order[m] == Layer(d)
    requires d in host.layers && c < |host.layers[d]|
    ensures var before, after, rest := Cut(host, order, m, c), Cut(host, order, m, c + 1), host.layers[d][c + 1..];
            && after.layers == (if rest == [] then before.layers - {d} else before.layers[d := rest])
            && after.weights == before.weights
  {
    OrderTurn(order, m);
  }

  lemma CutWeightFile(host: Host, order: seq<Item>, m: nat, d: Digest)
    requires Listed(host) && Distinct(order) && m < |order| && order[m] == Weights(d)
    ensures var before, after := Cut(host, order, m, 0), Cut(host, order, m, 1);
            after.layers == before.layers && after.weights == before.weights - {d}
  {
    OrderTurn(order, m);
  }

  /** The item whose turn it is was not removed before. */
  lemma OrderTurn(order: seq<Item>, m: nat)
    requires Distinct(order) && m < |order|
    ensures order[m] !in order[..m] && forall item :: item in order[..m + 1] <==> item in order[..m] || item == order[m]
  {
    assert order[..m + 1] == order[..m] + [order[m]];
  }

  lemma CutNextItem(host: Host, order: seq<Item>, m: nat, c: nat)
    requires Listed(host) && Distinct(order) && m < |order| && c >= Files(host, order[m])
    ensures Cut(host, order, m, c) == Cut(host, order, m + 1, 0)
  {
    OrderTurn(order, m);
  }

  class Store {
    var layers: map<Digest, seq<bool>>
    var weights: set<Digest>

    function AsHost(content: map<Digest, seq<Ref>>): (host: Host)
      reads this
    {
      Host(layers, weights, content)
    }

    /**
      Delete the files of each item of `order` in turn. The run is interrupted once it has deleted
      `budget` files; `m` and `c` say how far it came.
     */
    method RemoveFiles(content: map<Digest, seq<Ref>>, order: seq<Item>, budget: nat) returns (m: nat, c: nat)
      requires Listed(AsHost(content)) && Distinct(order)
      modifies this
      ensures StopsAt(old(AsHost(content)), order, budget, m, c)
      ensures AsHost(content) == Cut(old(AsHost(content)), order, m, c)
    {
      ghost var before := AsHost(content);
      m, c := 0, 0;
      var left := budget;
      CutNothing(before, order);
      while m < |order|
        invariant 0 <= m <= |order| && c == 0
        invariant left >= 0 && left + FilesTo(before, order, m) == budget
        invariant AsHost(content) == Cut(before, order, m, 0)
      {
        OrderTurn(order, m);
        FilesGrow(before, order, m + 1, |order|);
        match order[m] {
          case Layer(d) =>
            var files := if d in layers then layers[d] else [];
            while c < |files|
              invariant 0 <= c <= |files| == Files(before, order[m])
              invariant left >= 0 && left + FilesTo(before, order, m) + c == budget
              invariant files != [] ==> d in before.layers && before.layers[d] == files
              invariant AsHost(content) == Cut(before, order, m, c)
            {
              if left == 0 { return; }
              left := left - 1;
              CutLayerFile(before, order, m, c, d);
              c := c + 1;
              layers := if files[c..] == [] then layers - {d} else layers[d := files[c..]];
            }
          case Weights(d) =>
            if d in weights {
              if left == 0 { return; }
              left := left - 1;
              CutWeightFile(before, order, m, d);
              weights, c := weights - {d}, 1;
            }
        }
        CutNextItem(before, order, m, c);
        m, c := m + 1, 0;
      }
    }

    /** `collect`: refuse, list, or remove. `moved` says the release references changed meanwhile. */
    method Collect(
      content: map<Digest, seq<Ref>>, oci: bool, releases: seq<Release>, moved: bool, apply: bool, budget: nat)
      returns (result: Result<seq<Item>>, ghost m: nat, ghost c: nat)
      requires Listed(AsHost(content))
      modifies this
      ensures result.Err? <==> old(Inventory(AsHost(content), oci, releases)).Err? || (apply && moved)
      ensures result.Ok? ==>
                var plan := old(Inventory(AsHost(content), oci, releases)).value;
                IsOrder(result.value, Removable(plan), plan.depths)
      ensures result.Ok? && apply ==>
                && StopsAt(old(AsHost(content)), result.value, budget, m, c)
                && AsHost(content) == Cut(old(AsHost(content)), result.value, m, c)
      ensures result.Ok? && apply && FilesTo(old(AsHost(content)), result.value, |result.value|) <= budget ==>
                AsHost(content) == Purged(old(AsHost(content)),
                    Removable(old(Inventory(AsHost(content), oci, releases)).value))
      ensures result.Err? || !apply ==> AsHost(content) == old(AsHost(content))
    {
      m, c := 0, 0;
      var read := ReadInventory(AsHost(content), oci, releases);
      if read.Err? { return Err, 0, 0; }
      if apply && moved { return Err, 0, 0; }
      var plan := read.value;
      var order := SortRemovals(Removable(plan), plan.depths);
      if apply {
        CutAll(AsHost(content), order, Removable(plan));
        m, c := RemoveFiles(content, order, budget);
      }
      return Ok(order), m, c;
    }
  }
}
