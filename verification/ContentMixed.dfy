/**
  Digests named under two kinds of media type, in src/content_inventory.rs: exactly when the worklist
  of a release misses content. Nothing is assumed about the kinds references give a digest.
 */
module ContentMixed {
  import opened Wrappers
  import opened ContentWalk
  import opened ContentReach

  /** Opened under the kind `p` gives it, `p` references `ref`. */
  ghost predicate Opens(host: Host, p: Ref, ref: Ref) {
    p.manifest && Readable(host, p.digest) && p.digest in host.content && ref in host.content[p.digest]
  }

  ghost predicate IsRefPath(host: Host, roots: seq<Ref>, path: seq<Ref>) {
    && path != [] && path[0] in roots
    && forall i :: 0 <= i < |path| - 1 ==> Opens(host, path[i], path[i + 1])
  }

  /** Some chain of manifests held here, each opened where it is named as one, leads from `roots` to `ref`. */
  ghost predicate Named(host: Host, roots: seq<Ref>, ref: Ref) {
    exists path :: IsRefPath(host, roots, path) && path[|path| - 1] == ref
  }

  lemma NamedFurther(host: Host, roots: seq<Ref>, p: Ref, ref: Ref)
    requires Named(host, roots, p) && Opens(host, p, ref)
    ensures Named(host, roots, ref)
  {
    var path :| IsRefPath(host, roots, path) && path[|path| - 1] == p;
    assert IsRefPath(host, roots, path + [ref]);
    assert (path + [ref])[|path + [ref]| - 1] == ref;
  }

  lemma {:induction false} TracedIsNamed(host: Host, roots: seq<Ref>, visits: Visits, ref: Ref, depth: nat)
    requires Tree(host, roots, visits) && Traced(host, roots, visits, ref, depth)
    ensures Named(host, roots, ref)
    decreases depth
  {
    if depth == 0 && ref in roots {
      assert IsRefPath(host, roots, [ref]);
      assert [ref][|[ref]| - 1] == ref;
    } else {
      var p :| References(host, visits, p, ref) && visits[p].depth + 1 == depth;
      TracedIsNamed(host, roots, visits, Ref(p, visits[p].manifest), visits[p].depth);
      NamedFurther(host, roots, Ref(p, true), ref);
    }
  }

  /** `p` was met as a plain blob first, is named as a manifest as well, and references something not met. */
  ghost predicate Hides(host: Host, roots: seq<Ref>, visits: Visits, p: Digest) {
    && p in visits && !visits[p].manifest && Named(host, roots, Ref(p, true))
    && exists ref :: Opens(host, Ref(p, true), ref) && ref.digest !in visits
  }

  /** The first digest on a path that was not met is referenced by one that hides it. */
  lemma {:induction false} MissedIsHidden(host: Host, strict: bool, roots: seq<Ref>, visits: Visits, path: seq<Ref>)
    returns (p: Digest)
    requires Discovered(host, strict, roots, visits) && IsRefPath(host, roots, path)
    requires path[|path| - 1].digest !in visits
    ensures Hides(host, roots, visits, p)
  {
    var before := path[..|path| - 1];
    assert |path| > 1;
    var q := before[|before| - 1];
    assert IsRefPath(host, roots, before);
    if q.digest !in visits {
      p := MissedIsHidden(host, strict, roots, visits, before);
    } else {
      p := q.digest;
      assert Opens(host, path[|path| - 2], path[|path| - 1]);
      assert Named(host, roots, q);
    }
  }

  /**
    Whatever kinds references give a digest, a finished walk finds nothing but what is named. It finds
    all of it exactly when no digest it met as a blob first, though it is named as a manifest too,
    references something it did not meet.
   */
  lemma WalkMissesExactlyWhen(host: Host, strict: bool, roots: seq<Ref>)
    ensures var walk := WalkFrom(host, strict, roots);
            walk.Ok? ==>
              && (forall d <- walk.value :: Named(host, roots, Ref(d, walk.value[d].manifest)))
              && ((exists ref :: Named(host, roots, ref) && ref.digest !in walk.value) <==>
                    exists p :: Hides(host, roots, walk.value, p))
  {
    var walk := WalkFrom(host, strict, roots);
    if walk.Ok? {
      var visits := walk.value;
      StartHolds(host, strict, roots);
      WalkDiscovers(host, strict, roots, Tasks(roots, 0), map[], ContentWalk.Names(host, roots));
      forall d | d in visits
        ensures Named(host, roots, Ref(d, visits[d].manifest))
      {
        TracedIsNamed(host, roots, visits, Ref(d, visits[d].manifest), visits[d].depth);
      }
      if ref :| Named(host, roots, ref) && ref.digest !in visits {
        var path :| IsRefPath(host, roots, path) && path[|path| - 1] == ref;
        var p := MissedIsHidden(host, strict, roots, visits, path);
      } else if p :| Hides(host, roots, visits, p) {
        var ref :| Opens(host, Ref(p, true), ref) && ref.digest !in visits;
        NamedFurther(host, roots, Ref(p, true), ref);
      }
    }
  }

  /** Where every digest is named under one kind only, nothing is missed. */
  lemma OneKindMissesNothing(host: Host, strict: bool, roots: seq<Ref>, visits: Visits, p: Digest)
    requires WalkFrom(host, strict, roots) == Ok(visits)
    requires forall d :: !(Named(host, roots, Ref(d, true)) && Named(host, roots, Ref(d, false)))
    ensures !Hides(host, roots, visits, p)
  {
    WalkMissesExactlyWhen(host, strict, roots);
  }

  /**
    The walk dedups on the digest alone, so an artifact met as a plain blob first is never opened, and
    what it references is not found.
   */
  lemma MixedKindsHideContent()
    ensures var host := Host(map[1 := [true], 2 := [true]], {}, map[1 := [Ref(2, false)]]);
            var walk := WalkFrom(host, true, [Ref(1, true), Ref(1, false)]);
            walk.Ok? && 1 in walk.value && 2 !in walk.value
  {
    var host := Host(map[1 := [true], 2 := [true]], {}, map[1 := [Ref(2, false)]]);
    var roots := [Ref(1, true), Ref(1, false)];
    var names := Names(host, roots);
    assert Tasks(roots, 0) == [Task(Ref(1, true), 0), Task(Ref(1, false), 0)];
    assert [Task(Ref(1, true), 0), Task(Ref(1, false), 0)][..1] == [Task(Ref(1, true), 0)];
    var seen: Visits := map[1 := Visit(0, false)];
    assert Within(host, [Task(Ref(1, true), 0)], names);
    assert Walk(host, true, [Task(Ref(1, true), 0)], seen, names) == Ok(seen);
  }
}
