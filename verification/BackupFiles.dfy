/** The backup directory of src/backup.rs: its names, its contents, and what must hold of them at every moment. */
module BackupFiles {
  import opened Wrappers

  type Bytes = seq<int>

  /** An ideal digest: equal only for equal bytes. */
  datatype Digest = Sha256(bytes: Bytes)

  /** The part of a backup's name between prefix and extension; other spellings may also parse as a stamp. */
  datatype Stem = Stamp(ms: int) | Spelled(text: string, parsed: Option<int>)

  function Parsed(stem: Stem): (stamp: Option<int>) {
    match stem
    case Stamp(ms) => Some(ms)
    case Spelled(_, parsed) => parsed
  }

  /** Names in the directory; `Temporary` are the partial and temporary files this module writes. */
  datatype Name = Db(stem: Stem) | Json(stem: Stem) | Sig(stem: Stem) | StatusFile | Temporary(id: nat) | Foreign(text: string)

  datatype Manifest = Manifest(ours: bool, stem: Stem, sha256: Digest, size: nat, takenAt: int, tool: Option<string>)

  datatype Failure = Failure(at: int, pruning: bool)

  datatype Status = Status(lastSuccess: Option<Manifest>, lastFailure: Option<Failure>)

  /** `of` is the manifest a signature verifies for under the set's key, if it does for any. */
  datatype Content =
    | Data(bytes: Bytes)
    | ManifestText(manifest: Manifest)
    | SignatureText(ours: bool, of: Option<Manifest>)
    | StatusText(status: Status)
    | Unreadable

  type Files = map<Name, Content>

  /** The manifest `write_backup` writes for a database. */
  function ManifestFor(ms: int, bytes: Bytes): (manifest: Manifest) {
    Manifest(true, Stamp(ms), Sha256(bytes), |bytes|, ms, None)
  }

  /** What was published under a stamp, and whether with a signing key. */
  datatype Copy = Copy(bytes: Bytes, signed: bool)

  /**
    Every database published by this module that is still there has a manifest matching its bytes and,
    if there was a signing key, our signature of that manifest.
   */
  ghost predicate ManifestsMatch(files: Files, published: map<int, Copy>) {
    forall ms <- published :: Db(Stamp(ms)) in files ==>
      && files[Db(Stamp(ms))] == Data(published[ms].bytes)
      && Json(Stamp(ms)) in files
      && files[Json(Stamp(ms))] == ManifestText(ManifestFor(ms, published[ms].bytes))
      && (published[ms].signed ==> SignedIn(files, ms, published[ms].bytes))
  }

  /** Our signature of the manifest of that backup lies beside it. */
  ghost predicate SignedIn(files: Files, ms: int, bytes: Bytes) {
    Sig(Stamp(ms)) in files && files[Sig(Stamp(ms))] == SignatureText(true, Some(ManifestFor(ms, bytes)))
  }

  /** The last success, unless it is evidence of a backup kept elsewhere, names a published database still there. */
  ghost predicate Names(files: Files, published: map<int, Copy>, manifest: Manifest) {
    manifest.tool.None? ==>
      && manifest.stem.Stamp? && manifest.stem.ms in published && Db(manifest.stem) in files
      && manifest == ManifestFor(manifest.stem.ms, published[manifest.stem.ms].bytes)
  }

  ghost predicate StatusIsTrue(files: Files, published: map<int, Copy>) {
    StatusFile in files && files[StatusFile].StatusText? && files[StatusFile].status.lastSuccess.Some? ==>
      Names(files, published, files[StatusFile].status.lastSuccess.value)
  }

  ghost predicate Sound(files: Files, published: map<int, Copy>) {
    ManifestsMatch(files, published) && StatusIsTrue(files, published)
  }

  /** Both lack the name, or hold the same under it. */
  ghost predicate SameAt(before: Files, after: Files, name: Name) {
    (name in before <==> name in after) && (name in before ==> after[name] == before[name])
  }

  /** Only temporaries, and manifests and signatures without a database, differ. */
  ghost predicate Harmless(before: Files, after: Files) {
    && SameAt(before, after, StatusFile)
    && (forall text :: SameAt(before, after, Foreign(text)))
    && (forall stem :: SameAt(before, after, Db(stem)))
    && (forall stem :: Db(stem) in before ==> SameAt(before, after, Json(stem)) && SameAt(before, after, Sig(stem)))
  }

  /** As `Harmless`, but a database stamped `now` may have appeared. */
  ghost predicate HarmlessBut(before: Files, after: Files, now: int) {
    && SameAt(before, after, StatusFile)
    && (forall text :: SameAt(before, after, Foreign(text)))
    && (forall stem :: stem != Stamp(now) || Db(stem) in before ==> SameAt(before, after, Db(stem)))
    && (forall stem :: Db(stem) in before ==> SameAt(before, after, Json(stem)) && SameAt(before, after, Sig(stem)))
  }

  /** Publishing a database whose manifest is in place keeps everything true. */
  lemma LinkKeepsSound(files: Files, published: map<int, Copy>, now: int, bytes: Bytes, signed: bool)
    requires Sound(files, published) && Db(Stamp(now)) !in files
    requires Json(Stamp(now)) in files && files[Json(Stamp(now))] == ManifestText(ManifestFor(now, bytes))
    requires signed ==> SignedIn(files, now, bytes)
    ensures Sound(files[Db(Stamp(now)) := Data(bytes)], published[now := Copy(bytes, signed)])
  {
  }

  lemma HarmlessKeepsSound(before: Files, after: Files, published: map<int, Copy>)
    requires Harmless(before, after) && Sound(before, published)
    ensures Sound(after, published)
  {
  }

  lemma HarmlessTwice(a: Files, b: Files, c: Files)
    requires Harmless(a, b) && Harmless(b, c)
    ensures Harmless(a, c)
  {
  }

  /** Only one temporary differs. */
  ghost predicate TemporaryOnly(before: Files, after: Files, id: nat) {
    forall name :: name != Temporary(id) ==> SameAt(before, after, name)
  }

  lemma TemporaryIsHarmless(before: Files, after: Files, id: nat)
    requires TemporaryOnly(before, after, id)
    ensures Harmless(before, after)
  {
  }

  lemma HarmlessThenBut(a: Files, b: Files, c: Files, now: int)
    requires (Harmless(a, b) && HarmlessBut(b, c, now)) || (HarmlessBut(a, b, now) && Harmless(b, c))
    ensures HarmlessBut(a, c, now)
  {
    forall stem | Db(stem) in a
      ensures SameAt(a, c, Db(stem)) && SameAt(a, c, Json(stem)) && SameAt(a, c, Sig(stem))
    {
      assert SameAt(a, b, Db(stem));
    }
  }

  // ----- Retention -----

  /** The backups `list_backups` finds: a stamp in the name and a manifest beside it. */
  function Listing(files: Files): (stems: set<Stem>) {
    set name | name in files && name.Db? && Parsed(name.stem).Some? && Json(name.stem) in files :: name.stem
  }

  lemma ListingAt(files: Files, stem: Stem)
    ensures stem in Listing(files) <==> Db(stem) in files && Parsed(stem).Some? && Json(stem) in files
  {
  }

  lemma HarmlessKeepsListing(before: Files, after: Files)
    requires Harmless(before, after)
    ensures Listing(after) == Listing(before)
  {
    forall stem
      ensures stem in Listing(after) <==> stem in Listing(before)
    {
      assert SameAt(before, after, Db(stem));
      if Db(stem) in before {
        assert SameAt(before, after, Json(stem));
        assert stem in Listing(before) <==> Parsed(stem).Some? && Json(stem) in before;
      }
    }
  }

  /** `order` is `stems`, once each, newest stamp first. */
  ghost predicate NewestFirst(order: seq<Stem>, stems: set<Stem>) {
    && (forall stem :: stem in order <==> stem in stems)
    && (forall i, j :: 0 <= i < j < |order| ==> order[i] != order[j] && StampOf(order[i]) >= StampOf(order[j]))
  }

  /** The stamp of a listed backup. */
  function StampOf(stem: Stem): (ms: int) {
    if Parsed(stem).Some? then Parsed(stem).value else 0
  }

  /** `after` is the new backup plus exactly the newest `retain - 1` of the others. */
  ghost predicate Retained(before: set<Stem>, after: set<Stem>, newest: Stem, retain: nat) {
    var others := before - {newest};
    var kept := after - {newest};
    && newest in after && kept <= others
    && |kept| == (if retain - 1 <= |others| then retain - 1 else |others|)
    && forall k, g :: k in kept && g in others - kept ==> StampOf(k) >= StampOf(g)
  }

  function Min(a: nat, b: nat): (m: nat) {
    if a < b then a else b
  }

  function Elements(order: seq<Stem>): (stems: set<Stem>) {
    set stem | stem in order
  }

  lemma {:induction false} DistinctCounts(order: seq<Stem>, n: nat)
    requires n <= |order| && forall i, j :: 0 <= i < j < |order| ==> order[i] != order[j]
    ensures |Elements(order[..n])| == n
  {
    if n > 0 {
      DistinctCounts(order, n - 1);
      assert order[..n] == order[..n - 1] + [order[n - 1]];
      assert Elements(order[..n]) == Elements(order[..n - 1]) + {order[n - 1]};
    }
  }

  /** Dropping everything past the first `retain - 1` in newest-first order is the retention rule. */
  lemma DropsOldest(before: set<Stem>, after: set<Stem>, newest: Stem, retain: nat, order: seq<Stem>)
    requires retain > 0 && newest in before && NewestFirst(order, before - {newest})
    requires forall stem :: stem in after <==> stem == newest || stem in order[..Min(retain - 1, |order|)]
    ensures Retained(before, after, newest, retain)
  {
    var n := Min(retain - 1, |order|);
    assert order[..|order|] == order;
    DistinctCounts(order, n);
    DistinctCounts(order, |order|);
    assert after - {newest} == Elements(order[..n]);
    assert before - {newest} == Elements(order);
    forall k, g | k in after - {newest} && g in before - {newest} - (after - {newest})
      ensures StampOf(k) >= StampOf(g)
    {
      var i :| 0 <= i < n && order[i] == k;
      var j :| 0 <= j < |order| && order[j] == g;
      assert forall x :: 0 <= x < n ==> order[x] in order[..n];
    }
  }

  /** Of the files of some backups only those may be missing; the rest is as before. */
  ghost predicate PrunedOnly(before: Files, after: Files, stems: set<Stem>) {
    forall name: Name ::
      ((name.Db? || name.Json? || name.Sig?) && name.stem in stems && name !in after) || SameAt(before, after, name)
  }

  /** Removing a database the status does not name keeps everything true. */
  lemma DropKeepsSound(files: Files, published: map<int, Copy>, stem: Stem)
    requires Sound(files, published)
    requires StatusFile in files && files[StatusFile].StatusText? && files[StatusFile].status.lastSuccess.Some?
    requires files[StatusFile].status.lastSuccess.value.tool.None?
    requires files[StatusFile].status.lastSuccess.value.stem != stem
    ensures Sound(files - {Db(stem)}, published)
  {
  }

  /** Replacing the status by one that names a published database still there keeps everything true. */
  lemma StatusKeepsSound(before: Files, after: Files, published: map<int, Copy>, status: Status)
    requires Sound(before, published)
    requires forall name :: name != StatusFile && !name.Temporary? ==> SameAt(before, after, name)
    requires SameAt(before, after, StatusFile) || (StatusFile in after && after[StatusFile] == StatusText(status))
    requires status.lastSuccess.Some? ==> Names(before, published, status.lastSuccess.value)
    ensures Sound(after, published)
  {
    forall stem
      ensures SameAt(before, after, Db(stem)) && SameAt(before, after, Json(stem)) && SameAt(before, after, Sig(stem))
    {
    }
  }

  /** No signature appeared or changed. */
  ghost predicate NoNewSignature(before: Files, after: Files) {
    forall stem :: Sig(stem) in after ==> SameAt(before, after, Sig(stem))
  }

  lemma NoNewTwice(a: Files, b: Files, c: Files)
    requires NoNewSignature(a, b) && NoNewSignature(b, c)
    ensures NoNewSignature(a, c)
  {
    forall stem | Sig(stem) in c
      ensures SameAt(a, c, Sig(stem))
    {
      assert SameAt(b, c, Sig(stem));
    }
  }

  // ----- Drills -----

  /** What `drill` checks before it restores: the manifest and, against trust roots, its signature. */
  predicate DrillAccepts(files: Files, stem: Stem, rooted: bool) {
    && Json(stem) in files && files[Json(stem)].ManifestText?
    && (rooted ==>
          && Sig(stem) in files && files[Sig(stem)].SignatureText? && files[Sig(stem)].ours
          && files[Sig(stem)].of == Some(files[Json(stem)].manifest))
    && Db(stem) in files && files[Db(stem)].Data?
    && Sha256(files[Db(stem)].bytes) == files[Json(stem)].manifest.sha256
  }

  /** Every published database still there passes its drill, against trust roots if it was signed. */
  lemma PublishedPassesItsDrill(files: Files, published: map<int, Copy>, ms: int)
    requires Sound(files, published) && ms in published && Db(Stamp(ms)) in files
    ensures DrillAccepts(files, Stamp(ms), published[ms].signed)
  {
    assert ManifestsMatch(files, published);
  }

  /** The key signed nothing but manifests of what was published with it. */
  ghost predicate OnlySigned(files: Files, published: map<int, Copy>) {
    forall name :: name in files && files[name].SignatureText? && files[name].of.Some? ==>
      exists ms :: SignedFor(published, ms, files[name].of.value)
  }

  ghost predicate SignedFor(published: map<int, Copy>, ms: int, manifest: Manifest) {
    ms in published && published[ms].signed && manifest == ManifestFor(ms, published[ms].bytes)
  }

  /**
    Whatever was done to the directory, a database that passes a drill against trust roots is, byte for
    byte, one that was published with the key, though it may lie under another name.
   */
  lemma DrillProvesTheBytes(files: Files, published: map<int, Copy>, stem: Stem) returns (ms: int)
    requires OnlySigned(files, published) && DrillAccepts(files, stem, true)
    ensures ms in published && published[ms].signed && files[Db(stem)] == Data(published[ms].bytes)
  {
    ms :| SignedFor(published, ms, files[Sig(stem)].of.value);
  }
}
