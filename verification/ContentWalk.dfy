/**
  The worklist of `release_digests` in src/content_inventory.rs: every layer a release names, through
  the image manifests this host holds.
 */
module ContentWalk {
  import opened Wrappers

  /** A sha256 digest; only its identity and order matter. */
  type Digest = int

  /** A reference to content. `manifest` says whether its media type is an image manifest or index. */
  datatype Ref = Ref(digest: Digest, manifest: bool)

  /**
    What this host holds. `layers` lists the stored copies of each layer, one flag per file saying
    whether its bytes match the digest. `content` is what bytes with a digest reference, absent when
    they do not parse as a manifest.
   */
  datatype Host = Host(layers: map<Digest, seq<bool>>, weights: set<Digest>, content: map<Digest, seq<Ref>>)

  /** Any stored copy whose bytes match the digest will do. */
  predicate Readable(host: Host, digest: Digest) {
    digest in host.layers && true in host.layers[digest]
  }

  datatype Task = Task(ref: Ref, depth: nat)

  /** How a digest was first met. */
  datatype Visit = Visit(depth: nat, manifest: bool)

  type Visits = map<Digest, Visit>

  function Tasks(refs: seq<Ref>, depth: nat): (tasks: seq<Task>) {
    seq(|refs|, i requires 0 <= i < |refs| => Task(refs[i], depth))
  }

  /** Every digest the worklist can meet. */
  function Names(host: Host, roots: seq<Ref>): (names: set<Digest>) {
    (set ref | ref in roots :: ref.digest) + (set p, ref | p in host.content && ref in host.content[p] :: ref.digest)
  }

  ghost predicate Within(host: Host, pending: seq<Task>, names: set<Digest>) {
    && (forall task <- pending :: task.ref.digest in names)
    && (forall p, ref :: p in host.content && ref in host.content[p] ==> ref.digest in names)
  }

  lemma SmallerRest(names: set<Digest>, visits: Visits, digest: Digest, visit: Visit)
    requires digest in names && digest !in visits
    ensures |names - visits[digest := visit].Keys| < |names - visits.Keys|
    ensures visits[digest := visit].Keys == visits.Keys + {digest}
  {
    assert names - visits[digest := visit].Keys == (names - visits.Keys) - {digest};
  }

  /**
    What is pending once a digest was met for the first time: a manifest held here adds what it
    references, one level deeper. Fails on a manifest that does not parse and, with `strict`, for a
    kept release, on one that is missing or damaged.
   */
  function Expanded(host: Host, strict: bool, task: Task, rest: seq<Task>): (pending: Result<seq<Task>>) {
    var digest := task.ref.digest;
    if !task.ref.manifest then Ok(rest)
    else if !Readable(host, digest) then if strict then Err else Ok(rest)
    else if digest !in host.content then Err
    else Ok(rest + Tasks(host.content[digest], task.depth + 1))
  }

  lemma ExpandedWithin(host: Host, strict: bool, task: Task, rest: seq<Task>, names: set<Digest>)
    requires Within(host, rest, names) && Expanded(host, strict, task, rest).Ok?
    ensures Within(host, Expanded(host, strict, task, rest).value, names)
  {
  }

  /** Pop the last pending reference until none is left; a digest already met is skipped. */
  function Walk(
    host: Host, strict: bool, pending: seq<Task>, visits: Visits, ghost names: set<Digest>): (result: Result<Visits>)
    requires Within(host, pending, names)
    decreases |names - visits.Keys|, |pending|
  {
    if pending == [] then Ok(visits)
    else
      var task, rest := pending[|pending| - 1], pending[..|pending| - 1];
      if task.ref.digest in visits then Walk(host, strict, rest, visits, names)
      else
        var expanded := Expanded(host, strict, task, rest);
        if expanded.Err? then Err
        else
          var visit := Visit(task.depth, task.ref.manifest);
          SmallerRest(names, visits, task.ref.digest, visit);
          ExpandedWithin(host, strict, task, rest, names);
          Walk(host, strict, expanded.value, visits[task.ref.digest := visit], names)
  }

  function WalkFrom(host: Host, strict: bool, roots: seq<Ref>): (result: Result<Visits>) {
    assert Within(host, Tasks(roots, 0), Names(host, roots));
    Walk(host, strict, Tasks(roots, 0), map[], Names(host, roots))
  }

  function Max(a: int, b: int): (m: int) {
    if a < b then b else a
  }

  /** The manifest depths after a walk: of every depth a manifest was met at, the largest. */
  function Recorded(depths: map<Digest, int>, visits: Visits): (recorded: map<Digest, int>) {
    map d | d in depths.Keys + visits.Keys && (d in depths || visits[d].manifest) ::
      if d !in depths then visits[d].depth
      else if d in visits && visits[d].manifest then Max(depths[d], visits[d].depth)
      else depths[d]
  }

  lemma RecordedOne(depths: map<Digest, int>, visits: Visits, digest: Digest, visit: Visit)
    requires digest !in visits
    ensures var recorded := Recorded(depths, visits);
            Recorded(depths, visits[digest := visit]) ==
              if visit.manifest
              then recorded[digest := Max(if digest in recorded then recorded[digest] else visit.depth, visit.depth)]
              else recorded
  {
  }

  /** Note the depth of a digest met for the first time, if it was met as a manifest. */
  method RecordDepth(manifestDepth: map<Digest, int>, task: Task, ghost depths: map<Digest, int>, ghost visits: Visits)
    returns (noted: map<Digest, int>)
    requires manifestDepth == Recorded(depths, visits) && task.ref.digest !in visits
    ensures noted == Recorded(depths, visits[task.ref.digest := Visit(task.depth, task.ref.manifest)])
  {
    var digest := task.ref.digest;
    RecordedOne(depths, visits, digest, Visit(task.depth, task.ref.manifest));
    noted := manifestDepth;
    if task.ref.manifest {
      var known := if digest in noted then noted[digest] else task.depth;
      noted := noted[digest := Max(known, task.depth)];
    }
  }

  /** The worklist loop. */
  method DrainPending(host: Host, start: seq<Task>, depths: map<Digest, int>, kept: bool, ghost names: set<Digest>)
    returns (result: Result<(set<Digest>, map<Digest, int>)>)
    requires Within(host, start, names)
    ensures var walk := Walk(host, kept, start, map[], names);
            result == if walk.Err? then Err else Ok((walk.value.Keys, Recorded(depths, walk.value)))
  {
    var digests: set<Digest> := {};
    var manifestDepth := depths;
    var pending := start;
    ghost var visits: Visits := map[];
    assert Recorded(depths, visits) == depths;
    while pending != []
      invariant Within(host, pending, names)
      invariant digests == visits.Keys
      invariant manifestDepth == Recorded(depths, visits)
      invariant Walk(host, kept, pending, visits, names) == Walk(host, kept, start, map[], names)
      decreases |names - visits.Keys|, |pending|
    {
      var task, rest := pending[|pending| - 1], pending[..|pending| - 1];
      var digest := task.ref.digest;
      if digest in digests {
        pending := rest;
        continue;
      }
      ghost var visit := Visit(task.depth, task.ref.manifest);
      SmallerRest(names, visits, digest, visit);
      manifestDepth := RecordDepth(manifestDepth, task, depths, visits);
      digests, visits := digests + {digest}, visits[digest := visit];
      var expanded := Expanded(host, kept, task, rest);
      if expanded.Err? { return Err; }
      ExpandedWithin(host, kept, task, rest, names);
      pending := expanded.value;
    }
    result := Ok((digests, manifestDepth));
  }

  method ReleaseLayers(host: Host, roots: seq<Ref>, depths: map<Digest, int>, kept: bool)
    returns (result: Result<(set<Digest>, map<Digest, int>)>)
    ensures var walk := WalkFrom(host, kept, roots);
            result == if walk.Err? then Err else Ok((walk.value.Keys, Recorded(depths, walk.value)))
  {
    result := DrainPending(host, Tasks(roots, 0), depths, kept, Names(host, roots));
  }

  // ----- Copies -----

  /** Some stored copy of the digest has the right bytes. */
  ghost predicate HasGoodCopy(host: Host, d: Digest) {
    d in host.layers && exists i :: 0 <= i < |host.layers[d]| && host.layers[d][i]
  }

  /** Only whether a digest has a good copy matters: bad copies, and further good ones, change no walk. */
  lemma OneGoodCopyIsEnough(host: Host, other: Host, strict: bool, roots: seq<Ref>)
    requires host.content == other.content && forall d :: HasGoodCopy(host, d) <==> HasGoodCopy(other, d)
    ensures WalkFrom(host, strict, roots) == WalkFrom(other, strict, roots)
  {
    forall d
      ensures Readable(host, d) <==> Readable(other, d)
    {
      assert HasGoodCopy(host, d) <==> HasGoodCopy(other, d);
    }
    assert Names(host, roots) == Names(other, roots);
    assert Within(host, Tasks(roots, 0), Names(host, roots));
    SameWalk(host, other, strict, Tasks(roots, 0), map[], Names(host, roots));
  }

  /** A digest met for the first time: the walk goes on from what it expands to. */
  lemma WalkNew(host: Host, strict: bool, pending: seq<Task>, visits: Visits, names: set<Digest>)
    requires Within(host, pending, names) && pending != [] && pending[|pending| - 1].ref.digest !in visits
    requires Expanded(host, strict, pending[|pending| - 1], pending[..|pending| - 1]).Ok?
    ensures var task := pending[|pending| - 1];
            var expanded := Expanded(host, strict, task, pending[..|pending| - 1]).value;
            var met := visits[task.ref.digest := Visit(task.depth, task.ref.manifest)];
            && Within(host, expanded, names) && |names - met.Keys| < |names - visits.Keys|
            && Walk(host, strict, pending, visits, names) == Walk(host, strict, expanded, met, names)
  {
    var task, rest := pending[|pending| - 1], pending[..|pending| - 1];
    SmallerRest(names, visits, task.ref.digest, Visit(task.depth, task.ref.manifest));
    ExpandedWithin(host, strict, task, rest, names);
  }

  lemma {:induction false} SameWalk(
    host: Host, other: Host, strict: bool, pending: seq<Task>, visits: Visits, names: set<Digest>)
    requires Within(host, pending, names) && Within(other, pending, names) && host.content == other.content
    requires forall d :: Readable(host, d) <==> Readable(other, d)
    ensures Walk(host, strict, pending, visits, names) == Walk(other, strict, pending, visits, names)
    decreases |names - visits.Keys|, |pending|
  {
    if pending != [] {
      var task, rest := pending[|pending| - 1], pending[..|pending| - 1];
      if task.ref.digest in visits {
        SameWalk(host, other, strict, rest, visits, names);
      } else if Expanded(host, strict, task, rest).Ok? {
        WalkNew(host, strict, pending, visits, names);
        WalkNew(other, strict, pending, visits, names);
        SameWalk(host, other, strict, Expanded(host, strict, task, rest).value,
                 visits[task.ref.digest := Visit(task.depth, task.ref.manifest)], names);
      }
    }
  }
}
