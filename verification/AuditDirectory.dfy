/** `export_next` of src/audit_export.rs: the directory that holds one chain, a file for each export. */
module AuditDirectory {
  import opened Wrappers
  import opened AuditStore
  import opened AuditExport
  import opened AuditProperties
  import opened AuditHistory

  ghost predicate Ascending(exports: seq<Export>) {
    forall i, j :: 0 <= i < j < |exports| ==> exports[i].statement.sequence < exports[j].statement.sequence
  }

  ghost predicate InSequence(exports: seq<Export>) {
    forall i, j :: 0 <= i < j < |exports| ==> exports[i].statement.sequence <= exports[j].statement.sequence
  }

  /** Insertion by sequence. */
  function Placed(e: Export, sorted: seq<Export>): (after: seq<Export>)
    ensures |after| == |sorted| + 1 && forall x :: x in after <==> x == e || x in sorted
  {
    if sorted == [] then [e]
    else if sorted[0].statement.sequence < e.statement.sequence then [sorted[0]] + Placed(e, sorted[1..])
    else [e] + sorted
  }

  lemma {:induction false} PlacedAscends(e: Export, sorted: seq<Export>)
    requires Ascending(sorted) && forall x <- sorted :: x.statement.sequence != e.statement.sequence
    ensures Ascending(Placed(e, sorted))
  {
    if sorted != [] && sorted[0].statement.sequence < e.statement.sequence {
      PlacedAscends(e, sorted[1..]);
      var rest := Placed(e, sorted[1..]);
      forall j | 0 <= j < |rest|
        ensures sorted[0].statement.sequence < rest[j].statement.sequence
      {
        assert rest[j] in rest;
      }
    }
  }

  lemma {:induction false} PlacedInSequence(e: Export, sorted: seq<Export>)
    requires InSequence(sorted)
    ensures InSequence(Placed(e, sorted))
  {
    if sorted != [] && sorted[0].statement.sequence < e.statement.sequence {
      PlacedInSequence(e, sorted[1..]);
      var rest := Placed(e, sorted[1..]);
      forall j | 0 <= j < |rest|
        ensures sorted[0].statement.sequence <= rest[j].statement.sequence
      {
        assert rest[j] in rest;
      }
    }
  }

  /** `listed` is every export of the directory, by sequence, whatever the files are called. */
  ghost predicate Lists(files: map<nat, Export>, listed: seq<Export>) {
    && |listed| == |files| && InSequence(listed)
    && (forall k <- files :: files[k] in listed) && (forall e <- listed :: exists k :: k in files && files[k] == e)
  }

  /** The exports found in the directory, by sequence, verify as one chain from the start. */
  ghost predicate Undamaged(crypto: Crypto, roots: Roots, files: map<nat, Export>) {
    files == map[] || exists listed :: Lists(files, listed) && ChainOk(crypto, roots, listed, None)
  }

  /** The directory holds exactly `chain`, each export in the file named for its sequence. */
  ghost predicate Holds(files: map<nat, Export>, chain: seq<Export>) {
    && (forall k: nat :: k in files <==> 1 <= k <= |chain|)
    && forall i :: 0 <= i < |chain| ==> files[i + 1] == chain[i] && chain[i].statement.sequence == i + 1
  }

  lemma HeldAt(files: map<nat, Export>, chain: seq<Export>, k: nat)
    requires Holds(files, chain) && k in files
    ensures 1 <= k <= |chain| && files[k] == chain[k - 1] && chain[k - 1].statement.sequence == k
  {
    assert files[(k - 1) + 1] == chain[k - 1];
  }

  lemma HoldsAppend(files: map<nat, Export>, chain: seq<Export>, e: Export)
    requires Holds(files, chain) && e.statement.sequence == |chain| + 1
    ensures e.statement.sequence !in files && Holds(files[|chain| + 1 := e], chain + [e])
  {
  }

  ghost function UpTo(n: nat): (numbers: set<nat>)
    ensures forall k: nat :: k in numbers <==> 1 <= k <= n
    ensures |numbers| == n
  {
    if n == 0 then {} else UpTo(n - 1) + {n}
  }

  /** An ascending list of as many sequences as there are between 1 and its length counts them off. */
  lemma {:induction false} AscendingCounts(exports: seq<Export>, i: nat)
    requires Ascending(exports) && i < |exports|
    requires forall e <- exports :: 1 <= e.statement.sequence <= |exports|
    ensures exports[i].statement.sequence == i + 1
  {
    AtLeast(exports, i);
    AtMost(exports, i);
  }

  lemma {:induction false} AtLeast(exports: seq<Export>, i: nat)
    requires Ascending(exports) && i < |exports| && forall e <- exports :: 1 <= e.statement.sequence
    ensures exports[i].statement.sequence >= i + 1
  {
    if i > 0 {
      AtLeast(exports, i - 1);
    } else {
      assert exports[0] in exports;
    }
  }

  lemma {:induction false} AtMost(exports: seq<Export>, i: nat)
    requires Ascending(exports) && i < |exports| && forall e <- exports :: e.statement.sequence <= |exports|
    ensures exports[i].statement.sequence <= i + 1
    decreases |exports| - i
  {
    if i < |exports| - 1 {
      AtMost(exports, i + 1);
    } else {
      assert exports[i] in exports;
    }
  }

  lemma HeldIsListed(files: map<nat, Export>, chain: seq<Export>, listed: seq<Export>)
    requires Holds(files, chain) && Lists(files, listed) && Ascending(listed)
    ensures listed == chain
  {
    HeldCount(files, chain);
    forall e | e in listed
      ensures 1 <= e.statement.sequence <= |chain| && e == chain[e.statement.sequence - 1]
    {
      var k :| k in files && files[k] == e;
      HeldAt(files, chain, k);
    }
    InPlace(chain, listed);
  }

  lemma HeldCount(files: map<nat, Export>, chain: seq<Export>)
    requires Holds(files, chain)
    ensures |files| == |chain|
  {
    assert files.Keys == UpTo(|chain|);
  }

  lemma InPlace(chain: seq<Export>, listed: seq<Export>)
    requires Ascending(listed) && |listed| == |chain|
    requires forall e <- listed :: 1 <= e.statement.sequence <= |chain| && e == chain[e.statement.sequence - 1]
    ensures listed == chain
  {
    forall i | 0 <= i < |listed|
      ensures listed[i] == chain[i]
    {
      AscendingCounts(listed, i);
      assert listed[i] in listed;
    }
  }

  /** Export everything written since `previous`, step by step. */
  method ExportSince(
    crypto: Crypto, store: Store, previous: Option<Export>, end: int, key: string)
    returns (result: Result<Export>)
    requires ValidStore(store)
    ensures result == MakeExport(crypto, store, previous, end, key)
  {
    var from := if previous.Some? then previous.value.statement else Origin();
    if end < from.periodEnd { return Err; }
    if previous.Some? && !StoreContinues(store, from) { return Err; }
    var observed, auditThrough, changeThrough, seen :=
      EntriesAfter([store.audit], [store.change], from.auditThrough, from.changeThrough);
    var usage := CountUsage(end, observed);
    var statement := Assembled(crypto, previous, end, observed, auditThrough, changeThrough, usage);
    result := Ok(Export(ExportSchema, key, statement, crypto.sign(key, statement)));
  }

  class Directory {
    var files: map<nat, Export>

    /** The exports of the directory, read in any order and sorted by sequence. */
    method ReadChain(ghost chain: seq<Export>) returns (listed: seq<Export>)
      ensures Lists(files, listed)
      ensures Holds(files, chain) ==> listed == chain
    {
      listed := [];
      var remaining := files.Keys;
      if Holds(files, chain) {
        assert remaining == UpTo(|chain|);
      }
      while remaining != {}
        invariant remaining <= files.Keys && InSequence(listed) && |listed| + |remaining| == |files|
        invariant forall e <- listed :: exists k :: k in files && k !in remaining && files[k] == e
        invariant forall k :: k in files && k !in remaining ==> files[k] in listed
        invariant Holds(files, chain) ==> Ascending(listed)
        decreases |remaining|
      {
        var k :| k in remaining;
        if Holds(files, chain) {
          forall e | e in listed
            ensures e.statement.sequence != files[k].statement.sequence
          {
            var j :| j in files && j !in remaining && files[j] == e;
            HeldAt(files, chain, j);
            HeldAt(files, chain, k);
          }
          PlacedAscends(files[k], listed);
        }
        PlacedInSequence(files[k], listed);
        listed := Placed(files[k], listed);
        remaining := remaining - {k};
      }
      if Holds(files, chain) {
        HeldIsListed(files, chain, listed);
      }
    }

    /**
      Write the next export of the chain in this directory. A directory whose exports do not verify as
      one chain is not continued, whatever is in it, and a file that exists is never replaced.
     */
    method ExportNext(crypto: Crypto, store: Store, end: int, key: string, extra: Roots, ghost chain: seq<Export>)
      returns (result: Result<Export>)
      requires ValidStore(store)
      modifies this
      ensures result.Err? ==> files == old(files)
      ensures result.Ok? ==> result.value.statement.sequence !in old(files)
                             && files == old(files)[result.value.statement.sequence := result.value]
      ensures !Undamaged(crypto, ExporterRoots(key, extra), old(files)) ==> result.Err?
      ensures old(Holds(files, chain)) ==>
                var roots := ExporterRoots(key, extra);
                var made := MakeExport(crypto, store, LastOf(chain), end, key);
                && (result.Ok? <==> (chain == [] || ChainOk(crypto, roots, chain, None)) && made.Ok?)
                && (result.Ok? ==> result == made && Holds(files, chain + [result.value]))
    {
      var listed := ReadChain(chain);
      var roots := ExporterRoots(key, extra);
      if listed != [] {
        var ok := VerifyChain(crypto, roots, listed, None);
        if !ok { return Err; }
      }
      result := ExportSince(crypto, store, LastOf(listed), end, key);
      if result.Err? { return; }
      MakesNext(crypto, store, LastOf(listed), end, key);
      if Holds(files, chain) {
        HoldsAppend(files, chain, result.value);
      }
      var sequence := result.value.statement.sequence;
      if sequence in files { return Err; }
      files := files[sequence := result.value];
    }
  }

  /**
    On a directory that holds a history of exports, `export_next` with any key exports a store that
    only grew exactly when its roots still trust every earlier key at its export's end and the new
    end is not before the last. The longer chain verifies exactly when they trust the new key as well.
   */
  lemma NextExportExactlyWhen(
    crypto: Crypto, keys: seq<string>, stores: seq<Store>, ends: seq<int>, chain: seq<Export>,
    key: string, extra: Roots, store: Store, end: int)
    requires SignsSoundly(crypto) && History(crypto, keys, stores, ends, chain, |chain|)
    requires Grows(LastStore(stores), store)
    ensures var roots := ExporterRoots(key, extra);
            var made := MakeExport(crypto, store, LastOf(chain), end, key);
            var continues := (chain == [] || ChainOk(crypto, roots, chain, None)) && made.Ok?;
            && (continues <==>
                  && TrustedTo(roots, keys, ends, |chain|)
                  && end >= if chain == [] then 0 else chain[|chain| - 1].statement.periodEnd)
            && (continues ==> (ChainOk(crypto, roots, chain + [made.value], None) <==> Trusts(roots, key, end)))
  {
    var roots := ExporterRoots(key, extra);
    var made := MakeExport(crypto, store, LastOf(chain), end, key);
    HistoryGoesOn(crypto, keys, stores, ends, chain, store, end, key);
    if chain != [] {
      HistoryVerifiesExactlyWhen(crypto, roots, keys, stores, ends, chain, |chain|);
      assert chain[..|chain|] == chain;
    }
    if made.Ok? && (chain == [] || ChainOk(crypto, roots, chain, None)) {
      ExportExtendsChain(crypto, roots, chain, store, end, key, made.value);
    }
  }
}
