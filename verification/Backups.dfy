/**
  Taking, pruning and recording backups: src/backup.rs. Every file-system call may succeed, fail, or
  be the moment the process dies; a script the methods consume says which.
 */
module Backups {
  import opened Wrappers
  import opened BackupFiles

  datatype Outcome = Done | Failed | Crashed

  /** No call fails, and the process lives. */
  ghost predicate Smooth(script: seq<Outcome>) {
    forall i :: 0 <= i < |script| ==> script[i] == Done
  }

  /** The next call fails, and nothing after it. */
  ghost predicate FailsOnce(script: seq<Outcome>) {
    script != [] && script[0] == Failed && Smooth(script[1..])
  }

  /** Of the calls to come exactly one fails, and the process lives. */
  ghost predicate OneLapse(script: seq<Outcome>) {
    script != [] && if script[0] == Done then OneLapse(script[1..]) else FailsOnce(script)
  }

  /** The lapse is still to come, or `o` was it. */
  ghost predicate LapseOr(script: seq<Outcome>, o: Outcome) {
    (o == Done && OneLapse(script)) || (o == Failed && Smooth(script))
  }

  /** What `take` returns; `Died` when the process did not live to return. */
  datatype Taken = Took(manifest: Manifest) | Refused | Died

  class BackupSet {
    var files: Files
    var script: seq<Outcome>
    var nextTemporary: nat
    const retain: nat
    const signing: bool
    /** What this module published, by stamp; only the proofs look at it. */
    ghost var published: map<int, Copy>

    ghost predicate Valid()
      reads this
    {
      retain > 0 && Sound(files, published)
    }

    /** Open a directory an earlier run may have left at any moment. */
    constructor (retain: nat, signing: bool, files: Files, script: seq<Outcome>, ghost published: map<int, Copy>)
      requires retain > 0 && Sound(files, published)
      ensures Valid() && this.retain == retain && this.signing == signing
      ensures this.files == files && this.published == published
    {
      this.retain, this.signing, this.files, this.script := retain, signing, files, script;
      this.nextTemporary, this.published := 0, published;
    }

    // ----- File-system calls -----

    method Call() returns (o: Outcome)
      modifies this`script
      ensures o == if old(script) == [] then Done else old(script)[0]
      ensures script == if old(script) == [] then [] else old(script)[1..]
    {
      if script == [] {
        o := Done;
      } else {
        o, script := script[0], script[1..];
      }
    }

    /** Create or overwrite `name`. */
    method Put(name: Name, content: Content) returns (o: Outcome)
      modifies this`script, this`files
      ensures files == if o == Done then old(files)[name := content] else old(files)
      ensures Smooth(old(script)) ==> o == Done && Smooth(script)
    {
      o := Call();
      if o == Done {
        files := files[name := content];
      }
    }

    /** Remove `name`; a missing file is an error. */
    method Remove(name: Name) returns (o: Outcome)
      modifies this`script, this`files
      ensures files == if o == Done then old(files) - {name} else old(files)
      ensures o == Done ==> name in old(files)
      ensures Smooth(old(script)) ==> Smooth(script) && (o == Done <==> name in old(files)) && o != Crashed
      ensures OneLapse(old(script)) && name in old(files) ==> LapseOr(script, o)
    {
      o := Call();
      if o == Done {
        if name in files {
          files := files - {name};
        } else {
          o := Failed;
        }
      }
    }

    /** Move `from` over `to`. */
    method Rename(from: Name, to: Name) returns (o: Outcome)
      requires from in files
      modifies this`script, this`files
      ensures files == if o == Done then old(files)[to := old(files)[from]] - {from} else old(files)
      ensures Smooth(old(script)) ==> o == Done && Smooth(script)
    {
      o := Call();
      if o == Done {
        files := files[to := files[from]] - {from};
      }
    }

    /** Link `from` as `to`, never over an existing file. */
    method Link(from: Name, to: Name) returns (o: Outcome)
      requires from in files
      modifies this`script, this`files
      ensures files == if o == Done then old(files)[to := old(files)[from]] else old(files)
      ensures o == Done ==> to !in old(files)
      ensures Smooth(old(script)) ==> Smooth(script) && (o == Done <==> to !in old(files))
      ensures FailsOnce(old(script)) ==> o == Failed && Smooth(script)
    {
      o := Call();
      if o == Done {
        if to in files {
          o := Failed;
        } else {
          files := files[to := files[from]];
        }
      }
    }

    /**
      `write_durable`: a temporary file, synced, renamed into place, and the directory synced. Until
      the rename nothing but the temporary is there; after it the file is, whatever fails next.
     */
    method WriteDurable(name: Name, content: Content) returns (o: Outcome, ghost placed: bool)
      requires !name.Temporary?
      modifies this`script, this`files, this`nextTemporary
      ensures nextTemporary == old(nextTemporary) + 1
      ensures o == Done ==> placed
      ensures forall other :: other != Temporary(old(nextTemporary)) ==>
                if placed && other == name then other in files && files[other] == content
                else SameAt(old(files), files, other)
      ensures Smooth(old(script)) ==> o == Done && Smooth(script)
    {
      var temporary := Temporary(nextTemporary);
      nextTemporary := nextTemporary + 1;
      placed := false;
      o := Put(temporary, Unreadable);
      if o == Done {
        o := Put(temporary, content);
        if o == Done {
          o := Call();
          if o == Done {
            o := Rename(temporary, name);
            if o == Done {
              placed := true;
              o := Call();
            }
          }
        }
      }
      if o == Failed {
        var cleaned := Remove(temporary);
        if cleaned == Crashed { o := Crashed; }
      }
    }

    // ----- Cleaning up -----

    /** A file an interrupted backup or prune left behind. */
    predicate Incomplete(name: Name)
      reads this
    {
      name in files &&
      match name
      case Temporary(_) => true
      case Json(stem) => Db(stem) !in files && files[name].ManifestText? && files[name].manifest.ours
      case Sig(stem) => Db(stem) !in files && files[name].SignatureText? && files[name].ours
      case _ => false
    }

    /** Remove what was left behind. A database is never touched, with or without a manifest. */
    method RemoveIncomplete() returns (o: Outcome)
      modifies this`script, this`files
      ensures Harmless(old(files), files)
      ensures forall name :: SameAt(old(files), files, name) || (name !in files && Orphaned(old(files), name))
      ensures o == Done ==> forall name :: name in files ==> !Orphaned(files, name)
      ensures Smooth(old(script)) ==> o == Done && Smooth(script)
    {
      var remaining := files.Keys;
      while remaining != {}
        invariant Harmless(old(files), files)
        invariant forall name :: SameAt(old(files), files, name) || (name !in files && Orphaned(old(files), name))
        invariant forall name :: Incomplete(name) ==> name in remaining
        invariant Smooth(old(script)) ==> Smooth(script)
        decreases |remaining|
      {
        var name :| name in remaining;
        remaining := remaining - {name};
        if Incomplete(name) {
          o := Remove(name);
          if o != Done { return; }
        }
      }
      assert forall name :: name in files && Orphaned(files, name) ==> Incomplete(name);
      o := Done;
    }

    // ----- One backup -----

    /** The partial copy: created empty, filled by the store, synced, hashed. */
    method CopyStore(partial: Name, bytes: Bytes) returns (o: Outcome)
      requires partial.Temporary?
      modifies this`script, this`files
      ensures TemporaryOnly(old(files), files, partial.id)
      ensures o == Done ==> partial in files && files[partial] == Data(bytes)
      ensures Smooth(old(script)) ==> o == Done && Smooth(script)
    {
      o := Put(partial, Unreadable);
      if o != Done { return; }
      o := Put(partial, Data(bytes));
      if o != Done { return; }
      o := Call();
      if o != Done { return; }
      o := Call();
    }

    /** Write a manifest or signature whose database is not there yet. */
    method WriteBeside(name: Name, content: Content) returns (o: Outcome)
      requires (name.Json? || name.Sig?) && Db(name.stem) !in files
      modifies this`script, this`files, this`nextTemporary
      ensures Harmless(old(files), files) && nextTemporary == old(nextTemporary) + 1
      ensures o == Done ==> name in files && files[name] == content
      ensures forall other :: other != name && (other.Temporary? ==> other.id < old(nextTemporary)) ==>
                SameAt(old(files), files, other)
      ensures Smooth(old(script)) ==> o == Done && Smooth(script)
    {
      ghost var placed;
      o, placed := WriteDurable(name, content);
    }

    /** Everything before the link: the partial copy, the manifest and, with a signing key, the signature. */
    method StageBackup(partial: Name, now: int, bytes: Bytes) returns (o: Outcome)
      requires partial.Temporary? && partial.id < nextTemporary && Db(Stamp(now)) !in files
      modifies this`script, this`files, this`nextTemporary
      ensures Harmless(old(files), files)
      ensures o == Done ==>
                && partial in files && files[partial] == Data(bytes)
                && Json(Stamp(now)) in files && files[Json(Stamp(now))] == ManifestText(ManifestFor(now, bytes))
                && (signing ==> SignedIn(files, now, bytes))
      ensures !signing ==> NoNewSignature(old(files), files)
      ensures Smooth(old(script)) ==> o == Done && Smooth(script)
    {
      o := CopyStore(partial, bytes);
      TemporaryIsHarmless(old(files), files, partial.id);
      if o != Done { return; }
      ghost var copied := files;
      o := WriteBeside(Json(Stamp(now)), ManifestText(ManifestFor(now, bytes)));
      HarmlessTwice(old(files), copied, files);
      assert o == Done ==> SameAt(copied, files, partial);
      NoNewTwice(old(files), copied, files);
      if o != Done || !signing { return; }
      ghost var described := files;
      o := Call();
      if o != Done { return; }
      o := WriteBeside(Sig(Stamp(now)), SignatureText(true, Some(ManifestFor(now, bytes))));
      HarmlessTwice(old(files), described, files);
      assert SameAt(described, files, partial) && SameAt(described, files, Json(Stamp(now)));
    }

    /** The link failed: take the signature and the manifest back, as far as that goes. */
    method Withdraw(stem: Stem) returns (o: Outcome)
      requires Db(stem) !in files
      modifies this`script, this`files
      ensures Harmless(old(files), files) && NoNewSignature(old(files), files)
      ensures o != Done
      ensures Smooth(old(script)) ==> o == Failed && Json(stem) !in files && Sig(stem) !in files
    {
      o := Remove(Sig(stem));
      if o == Crashed { return; }
      o := Remove(Json(stem));
      if o == Done { o := Failed; }
    }

    /** The link that publishes the database, or the way back when it fails. */
    method Publish(partial: Name, now: int, bytes: Bytes) returns (o: Outcome)
      requires Sound(files, published) && Db(Stamp(now)) !in files
      requires partial in files && files[partial] == Data(bytes)
      requires Json(Stamp(now)) in files && files[Json(Stamp(now))] == ManifestText(ManifestFor(now, bytes))
      requires signing ==> SignedIn(files, now, bytes)
      modifies this`script, this`files, this`published
      ensures Sound(files, published)
      ensures HarmlessBut(old(files), files, now) && NoNewSignature(old(files), files)
      ensures FailsOnce(old(script)) ==> o == Failed && Json(Stamp(now)) !in files && Sig(Stamp(now)) !in files
      ensures o == Done ==> Db(Stamp(now)) in files && published == old(published)[now := Copy(bytes, signing)]
      ensures Smooth(old(script)) ==> o == Done && Smooth(script)
    {
      o := Link(partial, Db(Stamp(now)));
      if o == Done {
        LinkKeepsSound(old(files), published, now, bytes, signing);
        published := published[now := Copy(bytes, signing)];
        o := Call();
      } else if o == Failed {
        o := Withdraw(Stamp(now));
        HarmlessKeepsSound(old(files), files, published);
      }
    }

    /**
      `write_backup`: the database appears only once its manifest is in place, under a name nothing
      else had.
     */
    method WriteBackup(now: int, bytes: Bytes) returns (o: Outcome)
      requires Sound(files, published)
      modifies this`script, this`files, this`nextTemporary, this`published
      ensures Sound(files, published)
      ensures HarmlessBut(old(files), files, now)
      ensures !signing ==> NoNewSignature(old(files), files)
      ensures o == Done ==>
                && Db(Stamp(now)) !in old(files) && Db(Stamp(now)) in files
                && published == old(published)[now := Copy(bytes, signing)]
      ensures Smooth(old(script)) && Db(Stamp(now)) !in old(files) ==> o == Done && Smooth(script)
      ensures Db(Stamp(now)) in old(files) ==> o == Failed && script == old(script)
    {
      if Db(Stamp(now)) in files { return Failed; }
      var partial := Temporary(nextTemporary);
      nextTemporary := nextTemporary + 1;
      o := WriteFrom(partial, now, bytes);
      if o != Crashed {
        ghost var before := files;
        var cleaned := Remove(partial);
        TemporaryIsHarmless(before, files, partial.id);
        HarmlessKeepsSound(before, files, published);
        HarmlessThenBut(old(files), before, files, now);
        if cleaned == Crashed { o := Crashed; }
      }
    }

    /** Everything but removing the partial copy again. */
    method WriteFrom(partial: Name, now: int, bytes: Bytes) returns (o: Outcome)
      requires Sound(files, published) && partial.Temporary? && partial.id < nextTemporary && Db(Stamp(now)) !in files
      modifies this`script, this`files, this`nextTemporary, this`published
      ensures Sound(files, published) && HarmlessBut(old(files), files, now)
      ensures !signing ==> NoNewSignature(old(files), files)
      ensures o == Done ==> Db(Stamp(now)) in files && published == old(published)[now := Copy(bytes, signing)]
      ensures Smooth(old(script)) ==> o == Done && Smooth(script)
    {
      o := StageBackup(partial, now, bytes);
      HarmlessKeepsSound(old(files), files, published);
      if o == Done {
        ghost var staged := files;
        o := Publish(partial, now, bytes);
        HarmlessThenBut(old(files), staged, files, now);
      }
    }

    // ----- Status -----

    /** `status.json`, or an empty status when it is missing or cannot be read. */
    function ReadStatus(): (status: Status)
      reads this
    {
      if StatusFile in files && files[StatusFile].StatusText? then files[StatusFile].status else Status(None, None)
    }

    method WriteStatus(status: Status) returns (o: Outcome)
      requires Sound(files, published)
      requires status.lastSuccess.Some? ==> Names(files, published, status.lastSuccess.value)
      modifies this`script, this`files, this`nextTemporary
      ensures Sound(files, published)
      ensures o == Done ==> StatusFile in files && files[StatusFile] == StatusText(status)
      ensures SameAt(old(files), files, StatusFile) || (StatusFile in files && files[StatusFile] == StatusText(status))
      ensures forall name :: name != StatusFile && !name.Temporary? ==> SameAt(old(files), files, name)
      ensures Smooth(old(script)) ==> o == Done && Smooth(script)
    {
      ghost var placed;
      o, placed := WriteDurable(StatusFile, StatusText(status));
      StatusKeepsSound(old(files), files, published, status);
    }

    // ----- Retention -----

    ghost predicate Reports(stem: Stem)
      reads this
    {
      && StatusFile in files && files[StatusFile].StatusText? && files[StatusFile].status.lastSuccess.Some?
      && files[StatusFile].status.lastSuccess.value.tool.None?
      && files[StatusFile].status.lastSuccess.value.stem == stem
    }

    /**
      Keep `newest`, reported as the last success, and the newest `retain - 1` others. A crash or an
      error part of the way leaves more of them.
     */
    method Prune(newest: Stem) returns (o: Outcome)
      requires Valid() && Reports(newest) && newest in Listing(files)
      modifies this`script, this`files
      ensures Valid() && Reports(newest)
      ensures PrunedOnly(old(files), files, Listing(old(files)) - {newest})
      ensures o == Done ==>
                && Retained(Listing(old(files)), Listing(files), newest, retain)
                && forall stem :: stem in Listing(old(files)) - Listing(files) ==> Cleared(files, stem)
      ensures Smooth(old(script)) ==> o == Done && Smooth(script)
      ensures OneLapse(old(script)) ==> LapseOr(script, o)
    {
      ghost var before := files;
      var others := Listing(files) - {newest};
      var order := SortNewestFirst(others);
      var start := Min(retain - 1, |order|);
      ghost var done;
      forall k | start <= k < |order|
        ensures Beside(files, order[k])
      {
        assert order[k] in order;
        ListingAt(files, order[k]);
      }
      o, done := PruneFrom(order, start, newest);
      PrunedWithin(before, files, order, start, done, others);
      if o == Done {
        PrunedListing(before, files, newest, order, start);
        DropsOldest(Listing(before), Listing(files), newest, retain, order);
      }
    }

    /** Remove the backups of `order` from `start` on, up to the first call that fails. */
    method PruneFrom(order: seq<Stem>, start: nat, ghost newest: Stem) returns (o: Outcome, ghost done: nat)
      requires Sound(files, published) && Reports(newest) && newest !in order && start <= |order|
      requires forall j, k :: 0 <= j < k < |order| ==> order[j] != order[k]
      modifies this`script, this`files
      ensures Sound(files, published) && Reports(newest)
      ensures start <= done <= |order| && PrunedOnly(old(files), files, Elements(order[start..done]))
      ensures o == Done ==> done == |order| && ClearedTo(files, order, start, |order|)
      ensures Smooth(old(script)) && BesideFrom(old(files), order, start) ==> o == Done && Smooth(script)
      ensures OneLapse(old(script)) && BesideFrom(old(files), order, start) ==> LapseOr(script, o)
    {
      ghost var before := files;
      done := start;
      var i := start;
      while i < |order|
        invariant start <= i <= |order| && done == i
        invariant Sound(files, published) && Reports(newest)
        invariant PrunedOnly(before, files, Elements(order[start..i]))
        invariant ClearedTo(files, order, start, i)
        invariant Smooth(old(script)) && BesideFrom(before, order, start) ==> Smooth(script)
        invariant OneLapse(old(script)) && BesideFrom(before, order, start) ==> OneLapse(script)
      {
        ghost var so := files;
        assert order[i] in order;
        if BesideFrom(before, order, start) { Unpruned(before, files, order, start, i); }
        o := PruneOne(order[i], newest);
        PrunedMore(before, so, files, order, start, i);
        if o == Done { ClearedMore(so, files, order, start, i); }
        i := i + 1;
        done := i;
        if o != Done { return; }
      }
      o := Done;
    }

    /** Remove one backup, the database first. */
    method PruneOne(stem: Stem, ghost newest: Stem) returns (o: Outcome)
      requires Sound(files, published) && Reports(newest) && stem != newest
      modifies this`script, this`files
      ensures Sound(files, published) && Reports(newest)
      ensures PrunedOnly(old(files), files, {stem})
      ensures o == Done ==> Cleared(files, stem)
      ensures Smooth(old(script)) && Beside(old(files), stem) ==> o == Done && Smooth(script)
      ensures OneLapse(old(script)) && Beside(old(files), stem) ==> LapseOr(script, o)
    {
      DropKeepsSound(files, published, stem);
      o := Remove(Db(stem));
      if o != Done { return; }
      ghost var dropped := files;
      o := PruneBeside(stem);
      HarmlessKeepsSound(dropped, files, published);
    }

    /** The manifest and the signature of a database that is gone. */
    method PruneBeside(stem: Stem) returns (o: Outcome)
      requires Db(stem) !in files
      modifies this`script, this`files
      ensures Harmless(old(files), files) && PrunedOnly(old(files), files, {stem})
      ensures o == Done ==> Cleared(files, stem)
      ensures Smooth(old(script)) && Json(stem) in old(files) ==> o == Done && Smooth(script)
      ensures OneLapse(old(script)) && Json(stem) in old(files) ==> LapseOr(script, o)
    {
      o := Remove(Json(stem));
      if o == Done && Sig(stem) in files {
        o := Remove(Sig(stem));
      }
    }

    // ----- Taking a backup -----

    /** The backup once its lock is held: clean up, write, report, prune. */
    method TakeLocked(now: int, bytes: Bytes) returns (taken: Taken)
      requires Valid()
      modifies this`script, this`files, this`nextTemporary, this`published
      ensures Valid()
      ensures LeavesStrangers(old(files), files)
      ensures Reports(Stamp(now)) || KeepsBackups(old(files), files)
      ensures !signing ==> NoNewSignature(old(files), files)
      ensures taken.Took? ==>
                && taken.manifest == Manifest(true, Stamp(now), Sha256(bytes), |bytes|, now, None)
                && (signing ==> SignedIn(files, now, bytes))
                && published == old(published)[now := Copy(bytes, signing)]
                && Reports(Stamp(now)) && ReadStatus() == old(ReadStatus()).(lastSuccess := Some(taken.manifest))
                && Retained(Listing(old(files)) + {Stamp(now)}, Listing(files), Stamp(now), retain)
                && (forall stem :: stem in Listing(old(files)) - Listing(files) ==> Cleared(files, stem))
      ensures Smooth(old(script)) && Db(Stamp(now)) !in old(files) ==> taken.Took?
      ensures Smooth(old(script)) && Db(Stamp(now)) in old(files) ==>
                taken.Refused? && ReadStatus() == old(ReadStatus()).(lastFailure := Some(Failure(now, false)))
    {
      var o := RemoveIncomplete();
      HarmlessKeepsSound(old(files), files, published);
      HarmlessKeepsListing(old(files), files);
      if o != Done { return if o == Crashed then Died else Refused; }
      ghost var cleaned := files;
      var written := WriteBackup(now, bytes);
      HarmlessThenBut(old(files), cleaned, files, now);
      if written == Crashed { return Died; }
      var status := ReadStatus();
      if written == Done {
        status := status.(lastSuccess := Some(ManifestFor(now, bytes)));
      } else {
        status := status.(lastFailure := Some(Failure(now, false)));
      }
      ghost var copied := files;
      o := WriteStatus(status);
      ReportedListing(copied, files);
      ReportedSignatures(old(files), copied, files, signing);
      ReportedLeaves(old(files), copied, files, now);
      if o != Done || written != Done { return if o == Crashed then Died else Refused; }
      ghost var reported := files;
      WrittenListing(cleaned, copied, reported, published, now);
      ghost var pruned;
      o, pruned := PruneReported(now, status);
      PrunedLeaves(old(files), reported, pruned, now);
      PrunedSignatures(old(files), reported, pruned, Listing(reported) - {Stamp(now)}, signing);
      LeavesThenSame(old(files), pruned, files);
      ReportedSignatures(old(files), pruned, files, signing);
      if o == Done { return Took(ManifestFor(now, bytes)); }
      taken := if o == Crashed then Died else Refused;
    }

    /** The retention pass after the new backup was reported; if it fails, the status says so too. */
    method PruneReported(now: int, status: Status) returns (o: Outcome, ghost pruned: Files)
      requires Valid() && Reports(Stamp(now)) && Stamp(now) in Listing(files) && files[StatusFile] == StatusText(status)
      modifies this`script, this`files, this`nextTemporary
      ensures Valid() && Reports(Stamp(now))
      ensures PrunedOnly(old(files), pruned, Listing(old(files)) - {Stamp(now)})
      ensures forall name :: name != StatusFile && !name.Temporary? ==> SameAt(pruned, files, name)
      ensures o == Done ==>
                && ReadStatus() == status
                && Retained(Listing(old(files)), Listing(files), Stamp(now), retain)
                && forall stem :: stem in Listing(old(files)) - Listing(files) ==> Cleared(files, stem)
      ensures Smooth(old(script)) ==> o == Done
      ensures OneLapse(old(script)) && o != Done ==> ReadStatus() == status.(lastFailure := Some(Failure(now, true)))
    {
      o := Prune(Stamp(now));
      pruned := files;
      if o != Failed { return; }
      var told := WriteStatus(status.(lastFailure := Some(Failure(now, true))));
      if told == Crashed { o := Crashed; }
    }

    /** `take`, from the lock on: whatever happens, and wherever it is cut, the directory stays sound. */
    method Take(now: int, bytes: Bytes) returns (taken: Taken)
      requires Valid()
      modifies this`script, this`files, this`nextTemporary, this`published
      ensures Valid()
      ensures LeavesStrangers(old(files), files)
      ensures Reports(Stamp(now)) || KeepsBackups(old(files), files)
      ensures !signing ==> NoNewSignature(old(files), files)
      ensures taken.Took? ==>
                && taken.manifest == Manifest(true, Stamp(now), Sha256(bytes), |bytes|, now, None)
                && (signing ==> SignedIn(files, now, bytes))
                && published == old(published)[now := Copy(bytes, signing)]
                && Reports(Stamp(now)) && ReadStatus() == old(ReadStatus()).(lastSuccess := Some(taken.manifest))
                && Retained(Listing(old(files)) + {Stamp(now)}, Listing(files), Stamp(now), retain)
                && (forall stem :: stem in Listing(old(files)) - Listing(files) ==> Cleared(files, stem))
      ensures Smooth(old(script)) && Db(Stamp(now)) !in old(files) ==> taken.Took?
      ensures Smooth(old(script)) && Db(Stamp(now)) in old(files) ==>
                taken.Refused? && ReadStatus() == old(ReadStatus()).(lastFailure := Some(Failure(now, false)))
    {
      var o := Call();
      if o != Done { return if o == Crashed then Died else Refused; }
      taken := TakeLocked(now, bytes);
    }

    // ----- Evidence of backups kept elsewhere -----

    /**
      `record_evidence`: report a database-native backup as the last success, unless a newer one is
      known. `wellFormed` stands for the checks on its name, tool and digest.
     */
    method RecordEvidence(evidence: Manifest, now: int, wellFormed: bool) returns (taken: Taken)
      requires Valid() && evidence.tool.Some?
      modifies this`script, this`files, this`nextTemporary
      ensures Valid()
      ensures forall name :: name != StatusFile && !name.Temporary? ==> SameAt(old(files), files, name)
      ensures taken.Took? ==>
                && taken.manifest == evidence
                && ReadStatus() == old(ReadStatus()).(lastSuccess := Some(Newer(old(ReadStatus()).lastSuccess, evidence)))
      ensures taken.Took? ==> wellFormed && 0 < evidence.takenAt <= now + 300_000 && Listing(files) == {}
      ensures Smooth(old(script)) && wellFormed && 0 < evidence.takenAt <= now + 300_000 && Listing(old(files)) == {} ==>
                taken.Took?
      ensures old(ReadStatus()).lastSuccess.Some? ==>
                && ReadStatus().lastSuccess.Some?
                && ReadStatus().lastSuccess.value.takenAt >= old(ReadStatus()).lastSuccess.value.takenAt
    {
      if !wellFormed || evidence.takenAt <= 0 || evidence.takenAt > now + EVIDENCE_CLOCK_SKEW { return Refused; }
      var o := Call();
      if o != Done { return if o == Crashed then Died else Refused; }
      if Listing(files) != {} { return Refused; }
      var status := ReadStatus();
      if status.lastSuccess.None? || status.lastSuccess.value.takenAt <= evidence.takenAt {
        status := status.(lastSuccess := Some(evidence));
        ghost var before := files;
        o := WriteStatus(status);
        ReportedListing(before, files);
        if o != Done { return if o == Crashed then Died else Refused; }
      }
      taken := Took(evidence);
    }
  }

  /** A temporary, or a manifest or signature of ours whose database is not there. */
  ghost predicate Orphaned(files: Files, name: Name) {
    || name.Temporary?
    || ((name.Json? || name.Sig?) && Db(name.stem) !in files && OursAt(files, name))
  }

  ghost predicate OursAt(files: Files, name: Name) {
    name in files && ((name.Json? && files[name].ManifestText? && files[name].manifest.ours)
                      || (name.Sig? && files[name].SignatureText? && files[name].ours))
  }

  /** The later of the two; of equal times, the one recorded now. */
  function Newer(last: Option<Manifest>, evidence: Manifest): (m: Manifest)
    ensures m == evidence || last == Some(m)
    ensures m.takenAt >= evidence.takenAt && (last.Some? ==> m.takenAt >= last.value.takenAt)
    ensures last.None? || last.value.takenAt == evidence.takenAt ==> m == evidence
  {
    if last.Some? && last.value.takenAt > evidence.takenAt then last.value else evidence
  }

  const EVIDENCE_CLOCK_SKEW := 5 * 60 * 1000

  /** Files of others stay: any other file, and a database without a manifest, which is never one of ours. */
  ghost predicate LeavesStrangers(before: Files, after: Files) {
    && (forall text :: SameAt(before, after, Foreign(text)))
    && (forall stem :: Db(stem) in before && Json(stem) !in before ==> SameAt(before, after, Db(stem)) && Json(stem) !in after)
  }

  /** Every database there was is still there, with what lay beside it. */
  ghost predicate KeepsBackups(before: Files, after: Files) {
    forall stem :: Db(stem) in before ==>
      SameAt(before, after, Db(stem)) && SameAt(before, after, Json(stem)) && SameAt(before, after, Sig(stem))
  }

  /** A new status changes no listing. */
  lemma ReportedListing(before: Files, after: Files)
    requires forall name :: name != StatusFile && !name.Temporary? ==> SameAt(before, after, name)
    ensures Listing(after) == Listing(before)
  {
    forall stem
      ensures stem in Listing(after) <==> stem in Listing(before)
    {
      ListingAt(before, stem);
      ListingAt(after, stem);
      assert SameAt(before, after, Db(stem)) && SameAt(before, after, Json(stem));
    }
  }

  lemma ReportedLeaves(before: Files, copied: Files, after: Files, now: int)
    requires HarmlessBut(before, copied, now)
    requires forall name :: name != StatusFile && !name.Temporary? ==> SameAt(copied, after, name)
    ensures LeavesStrangers(before, after)
    ensures KeepsBackups(before, after)
  {
    forall text
      ensures SameAt(before, after, Foreign(text))
    {
      assert SameAt(copied, after, Foreign(text));
    }
    forall stem | Db(stem) in before
      ensures SameAt(before, after, Db(stem)) && SameAt(before, after, Json(stem)) && SameAt(before, after, Sig(stem))
    {
      assert SameAt(copied, after, Db(stem)) && SameAt(copied, after, Json(stem)) && SameAt(copied, after, Sig(stem));
    }
  }

  lemma ReportedSignatures(before: Files, copied: Files, after: Files, signing: bool)
    requires !signing ==> NoNewSignature(before, copied)
    requires forall name :: name != StatusFile && !name.Temporary? ==> SameAt(copied, after, name)
    ensures !signing ==> NoNewSignature(before, after)
  {
    assert forall stem :: SameAt(copied, after, Sig(stem));
    if !signing { NoNewTwice(before, copied, after); }
  }

  lemma PrunedSignatures(before: Files, reported: Files, after: Files, stems: set<Stem>, signing: bool)
    requires !signing ==> NoNewSignature(before, reported)
    requires PrunedOnly(reported, after, stems)
    ensures !signing ==> NoNewSignature(before, after)
  {
    assert forall stem :: Sig(stem) !in after || SameAt(reported, after, Sig(stem));
    if !signing { NoNewTwice(before, reported, after); }
  }

  lemma LeavesThenSame(before: Files, pruned: Files, after: Files)
    requires LeavesStrangers(before, pruned)
    requires forall name :: name != StatusFile && !name.Temporary? ==> SameAt(pruned, after, name)
    ensures LeavesStrangers(before, after)
  {
    forall text
      ensures SameAt(before, after, Foreign(text))
    {
      assert SameAt(pruned, after, Foreign(text));
    }
    forall stem | Db(stem) in before && Json(stem) !in before
      ensures SameAt(before, after, Db(stem)) && Json(stem) !in after
    {
      assert SameAt(pruned, after, Db(stem)) && SameAt(pruned, after, Json(stem));
    }
  }

  /** Pruning removes listed backups only, so it leaves a database without a manifest alone. */
  lemma PrunedLeaves(before: Files, reported: Files, after: Files, now: int)
    requires LeavesStrangers(before, reported) && PrunedOnly(reported, after, Listing(reported) - {Stamp(now)})
    ensures LeavesStrangers(before, after)
  {
    forall text
      ensures SameAt(before, after, Foreign(text))
    {
      assert SameAt(reported, after, Foreign(text));
    }
    forall stem | Db(stem) in before && Json(stem) !in before
      ensures SameAt(before, after, Db(stem)) && Json(stem) !in after
    {
      ListingAt(reported, stem);
      assert SameAt(reported, after, Db(stem)) && SameAt(reported, after, Json(stem));
    }
  }

  /** A written backup adds exactly itself to the listing. */
  lemma WrittenListing(cleaned: Files, copied: Files, reported: Files, published: map<int, Copy>, now: int)
    requires HarmlessBut(cleaned, copied, now)
    requires forall name :: name != StatusFile && !name.Temporary? ==> SameAt(copied, reported, name)
    requires Sound(reported, published) && now in published && Db(Stamp(now)) in reported
    ensures Listing(reported) == Listing(cleaned) + {Stamp(now)}
  {
    forall stem
      ensures stem in Listing(reported) <==> stem in Listing(cleaned) || stem == Stamp(now)
    {
      ListingAt(cleaned, stem);
      ListingAt(reported, stem);
      assert SameAt(copied, reported, Db(stem)) && SameAt(copied, reported, Json(stem));
    }
  }

  /** Nothing of a backup is left. */
  ghost predicate Cleared(files: Files, stem: Stem) {
    Db(stem) !in files && Json(stem) !in files && Sig(stem) !in files
  }

  ghost predicate ClearedTo(files: Files, order: seq<Stem>, start: nat, end: nat) {
    end <= |order| && forall k :: start <= k < end ==> Cleared(files, order[k])
  }

  lemma ClearedMore(so: Files, after: Files, order: seq<Stem>, start: nat, i: nat)
    requires start <= i < |order| && ClearedTo(so, order, start, i)
    requires PrunedOnly(so, after, {order[i]}) && Cleared(after, order[i])
    ensures ClearedTo(after, order, start, i + 1)
  {
    forall k | start <= k < i
      ensures Cleared(after, order[k])
    {
      assert Cleared(so, order[k]);
      StaysCleared(so, after, {order[i]}, order[k]);
    }
  }

  lemma StaysCleared(so: Files, after: Files, stems: set<Stem>, stem: Stem)
    requires PrunedOnly(so, after, stems) && Cleared(so, stem)
    ensures Cleared(after, stem)
  {
    assert forall name :: name in {Db(stem), Json(stem), Sig(stem)} ==> name !in after || SameAt(so, after, name);
  }

  ghost predicate BesideFrom(files: Files, order: seq<Stem>, start: nat) {
    forall k :: start <= k < |order| ==> Beside(files, order[k])
  }

  /** A database with a manifest beside it. */
  ghost predicate Beside(files: Files, stem: Stem) {
    Db(stem) in files && Json(stem) in files
  }

  /** What is not pruned yet is still there. */
  lemma Unpruned(before: Files, so: Files, order: seq<Stem>, start: nat, i: nat)
    requires start <= i < |order| && PrunedOnly(before, so, Elements(order[start..i]))
    requires forall j, k :: 0 <= j < k < |order| ==> order[j] != order[k]
    ensures Beside(before, order[i]) ==> Beside(so, order[i])
  {
    assert order[i] !in Elements(order[start..i]);
    assert SameAt(before, so, Db(order[i])) && SameAt(before, so, Json(order[i]));
  }

  lemma PrunedMore(before: Files, so: Files, after: Files, order: seq<Stem>, start: nat, i: nat)
    requires start <= i < |order|
    requires PrunedOnly(before, so, Elements(order[start..i])) && PrunedOnly(so, after, {order[i]})
    ensures PrunedOnly(before, after, Elements(order[start..i + 1]))
  {
    assert order[start..i + 1] == order[start..i] + [order[i]];
    assert Elements(order[start..i + 1]) == Elements(order[start..i]) + {order[i]};
    forall name: Name
      ensures ((name.Db? || name.Json? || name.Sig?) && name.stem in Elements(order[start..i + 1]))
              || SameAt(before, after, name)
    {
      assert ((name.Db? || name.Json? || name.Sig?) && name.stem in {order[i]}) || SameAt(so, after, name);
    }
  }

  lemma PrunedWithin(before: Files, after: Files, order: seq<Stem>, start: nat, i: nat, stems: set<Stem>)
    requires start <= i <= |order| && PrunedOnly(before, after, Elements(order[start..i])) && Elements(order) <= stems
    ensures PrunedOnly(before, after, stems)
  {
    assert Elements(order[start..i]) <= Elements(order);
  }

  /** Once everything past `start` is gone, the rest is listed as before. */
  lemma PrunedListing(before: Files, after: Files, newest: Stem, order: seq<Stem>, start: nat)
    requires start <= |order| && newest in Listing(before) && NewestFirst(order, Listing(before) - {newest})
    requires PrunedOnly(before, after, Elements(order[start..|order|]))
    requires ClearedTo(after, order, start, |order|)
    ensures forall stem :: stem in Listing(after) <==> stem == newest || stem in order[..start]
    ensures forall stem :: stem in Listing(before) - Listing(after) ==> Cleared(after, stem)
  {
    forall stem
      ensures stem in Listing(after) <==> stem == newest || stem in order[..start]
    {
      ListingAt(before, stem);
      ListingAt(after, stem);
      SplitAt(order, start, stem);
      if stem !in order[start..|order|] {
        assert SameAt(before, after, Db(stem)) && SameAt(before, after, Json(stem));
      }
    }
  }

  lemma SplitAt(order: seq<Stem>, start: nat, stem: Stem)
    requires start <= |order| && forall i, j :: 0 <= i < j < |order| ==> order[i] != order[j]
    ensures stem in order <==> stem in order[..start] || stem in order[start..|order|]
    ensures !(stem in order[..start] && stem in order[start..|order|])
    ensures stem in order[start..|order|] ==> exists k :: start <= k < |order| && order[k] == stem
  {
    assert order == order[..start] + order[start..|order|];
  }

  method SortNewestFirst(stems: set<Stem>) returns (order: seq<Stem>)
    ensures NewestFirst(order, stems)
  {
    order := [];
    var rest := stems;
    while rest != {}
      invariant rest <= stems
      invariant forall stem :: stem in order <==> stem in stems - rest
      invariant forall i, j :: 0 <= i < j < |order| ==> order[i] != order[j] && StampOf(order[i]) >= StampOf(order[j])
      invariant forall i, stem :: 0 <= i < |order| && stem in rest ==> StampOf(order[i]) >= StampOf(stem)
      decreases rest
    {
      ghost var newest := NewestOf(rest);
      var next :| next in rest && forall other :: other in rest ==> StampOf(next) >= StampOf(other);
      assert next !in order;
      order, rest := order + [next], rest - {next};
    }
  }

  lemma {:induction false} NewestOf(stems: set<Stem>) returns (newest: Stem)
    requires stems != {}
    ensures newest in stems && forall other :: other in stems ==> StampOf(newest) >= StampOf(other)
  {
    var pick :| pick in stems;
    newest := pick;
    if stems != {pick} {
      var best := NewestOf(stems - {pick});
      if StampOf(best) > StampOf(pick) { newest := best; }
      forall other | other in stems
        ensures StampOf(newest) >= StampOf(other)
      {
        if other != pick { assert other in stems - {pick}; }
      }
    }
  }
}
