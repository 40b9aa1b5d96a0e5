/** What the worklist of a release finds: the reference closure, each digest by a path of increasing depth. */
module ContentReach {
  import opened Wrappers
  import opened ContentWalk

  // ----- The walk as a tree -----

  /** `p` was met as a manifest, is held here, and references `ref`. */
  ghost predicate References(host: Host, visits: Visits, p: Digest, ref: Ref) {
    p in visits && visits[p].manifest && Readable(host, p) && p in host.content && ref in host.content[p]
  }

  /** `ref` is one of the release's own artifacts, or a manifest met one level above references it. */
  ghost predicate Traced(host: Host, roots: seq<Ref>, visits: Visits, ref: Ref, depth: nat) {
    || (depth == 0 && ref in roots)
    || exists p :: References(host, visits, p, ref) && visits[p].depth + 1 == depth
  }

  ghost predicate Tree(host: Host, roots: seq<Ref>, visits: Visits) {
    forall d <- visits :: Traced(host, roots, visits, Ref(d, visits[d].manifest), visits[d].depth)
  }

  function Digests(pending: seq<Task>): (digests: set<Digest>) {
    set task | task in pending :: task.ref.digest
  }

  /** Everything a visited manifest references is visited or pending. */
  ghost predicate Closed(host: Host, visits: Visits, open: set<Digest>) {
    forall p <- visits :: visits[p].manifest && Readable(host, p) ==>
      p in host.content && forall ref <- host.content[p] :: ref.digest in visits || ref.digest in open
  }

  ghost predicate Started(roots: seq<Ref>, visits: Visits, open: set<Digest>) {
    forall ref <- roots :: ref.digest in visits || ref.digest in open
  }

  ghost predicate Intact(host: Host, strict: bool, visits: Visits) {
    strict ==> forall d <- visits :: visits[d].manifest ==> Readable(host, d)
  }

  ghost predicate PendingTraced(host: Host, roots: seq<Ref>, pending: seq<Task>, visits: Visits) {
    forall task <- pending :: Traced(host, roots, visits, task.ref, task.depth)
  }

  ghost predicate WalkInv(host: Host, strict: bool, roots: seq<Ref>, pending: seq<Task>, visits: Visits) {
    && Tree(host, roots, visits)
    && PendingTraced(host, roots, pending, visits)
    && Closed(host, visits, Digests(pending))
    && Started(roots, visits, Digests(pending))
    && Intact(host, strict, visits)
  }

  /** What a finished walk found. */
  ghost predicate Discovered(host: Host, strict: bool, roots: seq<Ref>, visits: Visits) {
    Tree(host, roots, visits) && Closed(host, visits, {}) && Started(roots, visits, {}) && Intact(host, strict, visits)
  }

  lemma TracedGrows(host: Host, roots: seq<Ref>, visits: Visits, d: Digest, visit: Visit, ref: Ref, depth: nat)
    requires d !in visits && Traced(host, roots, visits, ref, depth)
    ensures Traced(host, roots, visits[d := visit], ref, depth)
  {
    if !(depth == 0 && ref in roots) {
      var p :| References(host, visits, p, ref) && visits[p].depth + 1 == depth;
      assert References(host, visits[d := visit], p, ref);
    }
  }

  /** Meeting one digest keeps everything known about the walk. */
  lemma VisitKeeps(host: Host, strict: bool, roots: seq<Ref>, pending: seq<Task>, visits: Visits)
    requires pending != [] && WalkInv(host, strict, roots, pending, visits)
    requires var task := pending[|pending| - 1];
             task.ref.digest !in visits && Expanded(host, strict, task, pending[..|pending| - 1]).Ok?
    ensures var task, rest := pending[|pending| - 1], pending[..|pending| - 1];
            WalkInv(host, strict, roots, Expanded(host, strict, task, rest).value,
                    visits[task.ref.digest := Visit(task.depth, task.ref.manifest)])
  {
    var task, rest := pending[|pending| - 1], pending[..|pending| - 1];
    VisitKeepsTraces(host, strict, roots, pending, visits);
    DigestsSplit(pending);
    ExpandedDigests(host, strict, task, rest);
  }

  lemma ExpandedDigests(host: Host, strict: bool, task: Task, rest: seq<Task>)
    requires Expanded(host, strict, task, rest).Ok?
    ensures var open := Digests(Expanded(host, strict, task, rest).value);
            var d := task.ref.digest;
            && Digests(rest) <= open
            && (strict && task.ref.manifest ==> Readable(host, d))
            && (task.ref.manifest && Readable(host, d) ==>
                  d in host.content && forall ref <- host.content[d] :: ref.digest in open)
  {
    var d, after := task.ref.digest, Expanded(host, strict, task, rest).value;
    forall x | x in Digests(rest)
      ensures x in Digests(after)
    {
      var t :| t in rest && t.ref.digest == x;
      assert t in after;
    }
    if task.ref.manifest && Readable(host, d) {
      forall ref | ref in host.content[d]
        ensures ref.digest in Digests(after)
      {
        var i :| 0 <= i < |host.content[d]| && host.content[d][i] == ref;
        assert Tasks(host.content[d], task.depth + 1)[i] in after;
      }
    }
  }

  lemma DigestsSplit(pending: seq<Task>)
    requires pending != []
    ensures Digests(pending) == Digests(pending[..|pending| - 1]) + {pending[|pending| - 1].ref.digest}
  {
    var rest, last := pending[..|pending| - 1], pending[|pending| - 1];
    assert pending == rest + [last];
    assert forall t :: t in pending <==> t in rest || t == last;
  }

  lemma VisitKeepsTraces(host: Host, strict: bool, roots: seq<Ref>, pending: seq<Task>, visits: Visits)
    requires pending != [] && WalkInv(host, strict, roots, pending, visits)
    requires var task := pending[|pending| - 1];
             task.ref.digest !in visits && Expanded(host, strict, task, pending[..|pending| - 1]).Ok?
    ensures var task, rest := pending[|pending| - 1], pending[..|pending| - 1];
            var seen := visits[task.ref.digest := Visit(task.depth, task.ref.manifest)];
            Tree(host, roots, seen) && PendingTraced(host, roots, Expanded(host, strict, task, rest).value, seen)
  {
    var task, rest := pending[|pending| - 1], pending[..|pending| - 1];
    var d, visit := task.ref.digest, Visit(task.depth, task.ref.manifest);
    var seen, after := visits[d := visit], Expanded(host, strict, task, rest).value;
    assert task in pending;
    forall x | x in seen
      ensures Traced(host, roots, seen, Ref(x, seen[x].manifest), seen[x].depth)
    {
      TracedGrows(host, roots, visits, d, visit, Ref(x, seen[x].manifest), seen[x].depth);
    }
    forall t | t in after
      ensures Traced(host, roots, seen, t.ref, t.depth)
    {
      if t in rest {
        assert t in pending;
        TracedGrows(host, roots, visits, d, visit, t.ref, t.depth);
      } else {
        assert References(host, seen, d, t.ref);
      }
    }
  }

  lemma {:induction false} WalkDiscovers(
    host: Host, strict: bool, roots: seq<Ref>, pending: seq<Task>, visits: Visits, names: set<Digest>)
    requires Within(host, pending, names) && WalkInv(host, strict, roots, pending, visits)
    ensures var walk := Walk(host, strict, pending, visits, names);
            walk.Ok? ==> Discovered(host, strict, roots, walk.value)
    decreases |names - visits.Keys|, |pending|
  {
    if pending != [] {
      var task, rest := pending[|pending| - 1], pending[..|pending| - 1];
      if task.ref.digest in visits {
        DigestsSplit(pending);
        WalkDiscovers(host, strict, roots, rest, visits, names);
      } else if Expanded(host, strict, task, rest).Ok? {
        var visit := Visit(task.depth, task.ref.manifest);
        SmallerRest(names, visits, task.ref.digest, visit);
        ExpandedWithin(host, strict, task, rest, names);
        VisitKeeps(host, strict, roots, pending, visits);
        WalkDiscovers(host, strict, roots, Expanded(host, strict, task, rest).value, visits[task.ref.digest := visit],
            names);
      }
    }
  }

  // ----- The reference closure -----

  /** Every reference names a digest with the same kind of media type: a manifest exactly when it is in `manifests`. */
  ghost predicate Kinds(refs: seq<Ref>, manifests: set<Digest>) {
    forall ref <- refs :: ref.manifest <==> ref.digest in manifests
  }

  ghost predicate ContentKinds(host: Host, manifests: set<Digest>) {
    forall p <- host.content :: Kinds(host.content[p], manifests)
  }

  function RootsOf(refs: seq<Ref>): (digests: set<Digest>) {
    set ref | ref in refs :: ref.digest
  }

  ghost predicate Edge(host: Host, manifests: set<Digest>, p: Digest, d: Digest) {
    p in manifests && Readable(host, p) && p in host.content && exists ref <- host.content[p] :: ref.digest == d
  }

  ghost predicate IsPath(host: Host, manifests: set<Digest>, roots: set<Digest>, path: seq<Digest>) {
    && path != [] && path[0] in roots
    && forall i :: 0 <= i < |path| - 1 ==> Edge(host, manifests, path[i], path[i + 1])
  }

  /** Some chain of manifests held here leads from `roots` to `d`. */
  ghost predicate Reaches(host: Host, manifests: set<Digest>, roots: set<Digest>, d: Digest) {
    exists path :: IsPath(host, manifests, roots, path) && path[|path| - 1] == d
  }

  lemma ReachesRoot(host: Host, manifests: set<Digest>, roots: set<Digest>, d: Digest)
    requires d in roots
    ensures Reaches(host, manifests, roots, d)
  {
    assert IsPath(host, manifests, roots, [d]);
  }

  lemma ReachesFurther(host: Host, manifests: set<Digest>, roots: set<Digest>, p: Digest, d: Digest)
    requires Reaches(host, manifests, roots, p) && Edge(host, manifests, p, d)
    ensures Reaches(host, manifests, roots, d)
  {
    var path :| IsPath(host, manifests, roots, path) && path[|path| - 1] == p;
    assert IsPath(host, manifests, roots, path + [d]);
    assert (path + [d])[|path + [d]| - 1] == d;
  }

  /** A manifest `release_digests` fails on. */
  ghost predicate Blocks(host: Host, strict: bool, manifests: set<Digest>, d: Digest) {
    d in manifests && if Readable(host, d) then d !in host.content else strict
  }

  /** Whatever is traced has the kind its digest has, and is reached. */
  lemma {:induction false} TracedReaches(
    host: Host, roots: seq<Ref>, visits: Visits, manifests: set<Digest>, ref: Ref, depth: nat)
    requires Kinds(roots, manifests) && ContentKinds(host, manifests)
    requires Tree(host, roots, visits) && Traced(host, roots, visits, ref, depth)
    ensures ref.manifest <==> ref.digest in manifests
    ensures Reaches(host, manifests, RootsOf(roots), ref.digest)
    decreases depth
  {
    if depth == 0 && ref in roots {
      ReachesRoot(host, manifests, RootsOf(roots), ref.digest);
    } else {
      var p :| References(host, visits, p, ref) && visits[p].depth + 1 == depth;
      TracedReaches(host, roots, visits, manifests, Ref(p, visits[p].manifest), visits[p].depth);
      assert Edge(host, manifests, p, ref.digest);
      ReachesFurther(host, manifests, RootsOf(roots), p, ref.digest);
    }
  }

  lemma {:induction false} ClosedHoldsPath(
    host: Host, strict: bool, roots: seq<Ref>, visits: Visits, manifests: set<Digest>, path: seq<Digest>)
    requires Kinds(roots, manifests) && ContentKinds(host, manifests)
    requires Discovered(host, strict, roots, visits) && IsPath(host, manifests, RootsOf(roots), path)
    ensures path[|path| - 1] in visits
  {
    if |path| > 1 {
      var before := path[..|path| - 1];
      ClosedHoldsPath(host, strict, roots, visits, manifests, before);
      var p := before[|before| - 1];
      assert Edge(host, manifests, p, path[|path| - 1]);
      TracedReaches(host, roots, visits, manifests, Ref(p, visits[p].manifest), visits[p].depth);
    }
  }

  /** A finished walk met exactly the reference closure of the release, and nothing in it blocks. */
  lemma DiscoveredIsReach(host: Host, strict: bool, roots: seq<Ref>, visits: Visits, manifests: set<Digest>)
    requires Kinds(roots, manifests) && ContentKinds(host, manifests)
    requires Discovered(host, strict, roots, visits)
    ensures forall d :: d in visits <==> Reaches(host, manifests, RootsOf(roots), d)
    ensures forall d <- visits :: (visits[d].manifest <==> d in manifests) && !Blocks(host, strict, manifests, d)
  {
    forall d | d in visits
      ensures Reaches(host, manifests, RootsOf(roots), d)
      ensures visits[d].manifest <==> d in manifests
    {
      TracedReaches(host, roots, visits, manifests, Ref(d, visits[d].manifest), visits[d].depth);
    }
    forall d | Reaches(host, manifests, RootsOf(roots), d)
      ensures d in visits
    {
      var path :| IsPath(host, manifests, RootsOf(roots), path) && path[|path| - 1] == d;
      ClosedHoldsPath(host, strict, roots, visits, manifests, path);
    }
  }

  lemma {:induction false} WalkBlocked(
    host: Host, strict: bool, roots: seq<Ref>, pending: seq<Task>, visits: Visits, names: set<Digest>, manifests: set<Digest>)
    returns (d: Digest)
    requires Kinds(roots, manifests) && ContentKinds(host, manifests)
    requires Within(host, pending, names) && WalkInv(host, strict, roots, pending, visits)
    requires Walk(host, strict, pending, visits, names).Err?
    ensures Reaches(host, manifests, RootsOf(roots), d) && Blocks(host, strict, manifests, d)
    decreases |names - visits.Keys|, |pending|
  {
    var task, rest := pending[|pending| - 1], pending[..|pending| - 1];
    if task.ref.digest in visits {
      DigestsSplit(pending);
      d := WalkBlocked(host, strict, roots, rest, visits, names, manifests);
    } else if Expanded(host, strict, task, rest).Ok? {
      var visit := Visit(task.depth, task.ref.manifest);
      SmallerRest(names, visits, task.ref.digest, visit);
      ExpandedWithin(host, strict, task, rest, names);
      VisitKeeps(host, strict, roots, pending, visits);
      d := WalkBlocked(
        host, strict, roots, Expanded(host, strict, task, rest).value, visits[task.ref.digest := visit],
        names, manifests);
    } else {
      d := task.ref.digest;
      assert task in pending;
      TracedReaches(host, roots, visits, manifests, task.ref, task.depth);
    }
  }

  lemma StartHolds(host: Host, strict: bool, roots: seq<Ref>)
    ensures WalkInv(host, strict, roots, Tasks(roots, 0), map[])
  {
    forall ref | ref in roots
      ensures ref.digest in Digests(Tasks(roots, 0))
    {
      var i :| 0 <= i < |roots| && roots[i] == ref;
      assert Tasks(roots, 0)[i] in Tasks(roots, 0);
    }
  }

  /**
    The worklist ends on any reference graph, cycles included. It fails exactly when a manifest in
    the closure blocks it, and otherwise finds exactly the closure.
   */
  lemma WalkIsClosure(host: Host, strict: bool, roots: seq<Ref>, manifests: set<Digest>)
    requires Kinds(roots, manifests) && ContentKinds(host, manifests)
    ensures var walk := WalkFrom(host, strict, roots);
            && (walk.Err? <==>
                  exists d :: Reaches(host, manifests, RootsOf(roots), d) && Blocks(host, strict, manifests, d))
            && (walk.Ok? ==> forall d :: d in walk.value <==> Reaches(host, manifests, RootsOf(roots), d))
  {
    StartHolds(host, strict, roots);
    var walk := WalkFrom(host, strict, roots);
    if walk.Ok? {
      WalkDiscovers(host, strict, roots, Tasks(roots, 0), map[], Names(host, roots));
      DiscoveredIsReach(host, strict, roots, walk.value, manifests);
    } else {
      var d := WalkBlocked(host, strict, roots, Tasks(roots, 0), map[], Names(host, roots), manifests);
    }
  }
}
