/**
  What src/audit_export.rs accepts and makes, told from rows, entries, keys and signatures alone: a
  second account of the checks, and that the first one agrees with it.
 */
module AuditMeaning {
  import opened Wrappers
  import opened AuditStore
  import opened AuditExport
  import opened AuditProperties
  import opened AuditHistory

  // ----- Numbers in texts -----

  /** The number a text of digits, perhaps after a minus sign, stands for. */
  function Value(text: string): (n: int) {
    if text == [] then 0
    else if text[0] == '-' then -Value(text[1..])
    else 10 * Value(text[..|text| - 1]) + (text[|text| - 1] as int - '0' as int)
  }

  lemma {:induction false} DecimalReads(n: int)
    ensures Decimal(n) != [] && Value(Decimal(n)) == n && (n >= 0 ==> Decimal(n)[0] != '-')
    decreases if n < 0 then 1 - n else n
  {
    var text := Decimal(n);
    if n < 0 {
      DecimalReads(-n);
      assert text[1..] == Decimal(-n);
    } else if n >= 10 {
      DecimalReads(n / 10);
      assert text[..|text| - 1] == Decimal(n / 10) && text[0] == Decimal(n / 10)[0];
    }
  }

  // ----- Whether a store still holds what was exported -----

  /** A row at `cursor` still reads as recorded: its id, action, resource and time, joined. Nothing is asked at cursor 0. */
  ghost predicate Kept(rows: seq<AuditEntry>, cursor: int, recorded: string) {
    cursor > 0 ==> exists row :: row in rows && row.cursor == cursor && Reads(row, recorded)
  }

  ghost predicate Reads(row: AuditEntry, recorded: string) {
    recorded == row.id + "|" + row.action + "|" + row.resource + "|" + Decimal(row.at)
  }

  lemma KeptIsHeld(rows: seq<AuditEntry>, source: Source, cursor: int, recorded: string)
    requires Rows(rows, source)
    ensures HoldsLast(rows, source, cursor, recorded) <==> Kept(rows, cursor, recorded)
  {
    if cursor > 0 {
      if n :| 0 <= n < |rows| && rows[n].cursor == cursor {
        StoredAtFinds(rows, source, n);
        assert forall row :: row in rows && row.cursor == cursor ==> row == rows[n];
      } else {
        StoredAtIsRow(rows, source, cursor);
      }
    }
  }

  lemma StoredAtIsRow(rows: seq<AuditEntry>, source: Source, cursor: int)
    ensures var found := StoredAt(rows, source, cursor);
            found.Some? ==> found.value.cursor == cursor && exists n :: 0 <= n < |rows| && rows[n] == found.value
  {
    var rest := RowsAfter(rows, cursor - 1);
    assert forall e :: e in rest ==> e in rows;
  }

  /**
    On any store, grown or not, the export after another one is made exactly when its end is not
    before the last one's and the store still holds, at each cursor reached, the row recorded there.
   */
  lemma ContinuesExactlyWhen(crypto: Crypto, store: Store, previous: Export, end: int, key: string)
    requires ValidStore(store)
    ensures var last := previous.statement;
            MakeExport(crypto, store, Some(previous), end, key).Ok? <==>
              && end >= last.periodEnd
              && Kept(store.audit, last.auditThrough, last.auditLast)
              && Kept(store.change, last.changeThrough, last.changeLast)
  {
    KeptIsHeld(store.audit, Audit, previous.statement.auditThrough, previous.statement.auditLast);
    KeptIsHeld(store.change, Change, previous.statement.changeThrough, previous.statement.changeLast);
  }

  /** No row of `rows` is at the last cursor of `read` and reads like the last row of `read`. */
  ghost predicate Lost(read: seq<AuditEntry>, rows: seq<AuditEntry>) {
    read != [] &&
    var last := read[|read| - 1];
    forall row <- rows ::
      row.cursor == last.cursor ==> !Reads(row, last.id + "|" + last.action + "|" + last.resource + "|" + Decimal(last.at))
  }

  /**
    After any history of exports, a store that no longer holds the last row exported of a source, say
    because it was restored from an older backup, is refused.
   */
  lemma RestoredStoreIsRefused(
    crypto: Crypto, keys: seq<string>, stores: seq<Store>, ends: seq<int>, chain: seq<Export>,
    store: Store, end: int, key: string)
    requires History(crypto, keys, stores, ends, chain, |chain|) && chain != [] && ValidStore(store)
    requires Lost(LastStore(stores).audit, store.audit) || Lost(LastStore(stores).change, store.change)
    ensures MakeExport(crypto, store, LastOf(chain), end, key).Err?
  {
    HistoryEnds(crypto, keys, stores, ends, chain, |chain|);
    HistoryIsValid(crypto, keys, stores, ends, chain);
    ContinuesExactlyWhen(crypto, store, chain[|chain| - 1], end, key);
    LostIsNotKept(LastStore(stores), store, chain[|chain| - 1].statement);
  }

  lemma HistoryIsValid(crypto: Crypto, keys: seq<string>, stores: seq<Store>, ends: seq<int>, chain: seq<Export>)
    requires History(crypto, keys, stores, ends, chain, |chain|) && chain != []
    ensures ValidStore(LastStore(stores))
  {
  }

  lemma LostIsNotKept(read: Store, store: Store, statement: AuditStatement)
    requires ValidStore(read) && Ended(read, statement) && (Lost(read.audit, store.audit) || Lost(read.change, store.change))
    ensures !(Kept(store.audit, statement.auditThrough, statement.auditLast)
              && Kept(store.change, statement.changeThrough, statement.changeLast))
  {
  }

  // ----- What a verified chain is -----

  /** The first listing of the key is number `j`, and its window covers `at`. */
  ghost predicate ListedFirst(signers: seq<TrustedSigner>, keyId: string, at: int, j: nat) {
    && j < |signers| && signers[j].keyId == keyId && (forall i :: 0 <= i < j ==> signers[i].keyId != keyId)
    && (signers[j].notBefore.Some? ==> signers[j].notBefore.value <= at)
    && (signers[j].notAfter.Some? ==> at <= signers[j].notAfter.value)
  }

  ghost predicate Lists(signers: seq<TrustedSigner>, keyId: string, at: int) {
    exists j: nat :: ListedFirst(signers, keyId, at, j)
  }

  lemma {:induction false} ListsMeans(signers: seq<TrustedSigner>, keyId: string, at: int)
    ensures ListsAt(signers, keyId, at) <==> Lists(signers, keyId, at)
  {
    if signers != [] {
      var rest := signers[1..];
      if signers[0].keyId == keyId {
        assert ListsAt(signers, keyId, at) ==> ListedFirst(signers, keyId, at, 0);
      } else {
        ListsMeans(rest, keyId, at);
        if j: nat :| ListedFirst(rest, keyId, at, j) {
          assert ListedFirst(signers, keyId, at, j + 1);
        }
        if j: nat :| ListedFirst(signers, keyId, at, j) {
          assert ListedFirst(rest, keyId, at, j - 1);
        }
      }
    }
  }

  /** An export by a key that is not revoked and was valid at its end, with a signature that verifies. */
  ghost predicate Genuine(crypto: Crypto, roots: Roots, e: Export) {
    && e.keyId !in roots.revoked && Lists(roots.signers, e.keyId, e.statement.periodEnd)
    && crypto.verifies(e.keyId, e.signature, e.statement)
  }

  /** Every entry lies within the cursors of its source, or is one of the five usage records. */
  ghost predicate Contained(s: AuditStatement) {
    && s.periodStart <= s.periodEnd && s.auditAfter <= s.auditThrough && s.changeAfter <= s.changeThrough
    && forall e <- s.entries ::
         || (e.source == Audit && s.auditAfter < e.cursor && e.cursor <= s.auditThrough)
         || (e.source == Change && s.changeAfter < e.cursor && e.cursor <= s.changeThrough)
         || (e.source == Usage && e.cursor == 0 && e.at == s.periodEnd && e.id == "usage:" + e.action
             && (e.action == "environments.managed" || e.action == "plans.applied" || e.action == "releases.deployed"
                 || e.action == "executor.hours" || e.action == "runtime.hours"))
  }

  lemma ContainedMeans(s: AuditStatement)
    ensures StatementOk(s) <==> Contained(s)
  {
    forall e | e in s.entries
      ensures InRange(s, e) <==>
              || (e.source == Audit && s.auditAfter < e.cursor && e.cursor <= s.auditThrough)
              || (e.source == Change && s.changeAfter < e.cursor && e.cursor <= s.changeThrough)
              || (e.source == Usage && e.cursor == 0 && e.at == s.periodEnd && e.id == "usage:" + e.action
                  && (e.action == "environments.managed" || e.action == "plans.applied" || e.action == "releases.deployed"
                      || e.action == "executor.hours" || e.action == "runtime.hours"))
    {
      UsageActions(e.action);
    }
  }

  lemma UsageActions(action: string)
    ensures (exists kind: UsageKind :: action == UsageAction(kind)) <==>
              || action == "environments.managed" || action == "plans.applied" || action == "releases.deployed"
              || action == "executor.hours" || action == "runtime.hours"
  {
    assert UsageAction(EnvironmentsManaged) == "environments.managed" && UsageAction(PlansApplied) == "plans.applied";
    assert UsageAction(ReleasesDeployed) == "releases.deployed" && UsageAction(ExecutorHours) == "executor.hours";
    assert UsageAction(RuntimeHours) == "runtime.hours";
  }

  /** The next export picks up where the one before ended, and names its digest. */
  ghost predicate PicksUp(crypto: Crypto, a: AuditStatement, b: AuditStatement) {
    && b.sequence == a.sequence + 1 && b.periodStart == a.periodEnd && b.auditAfter == a.auditThrough
    && b.changeAfter == a.changeThrough && b.previousDigest == Some(crypto.digest(a))
  }

  /** Accepted are exactly the chains that start where they should, of genuine exports that each pick up the last. */
  lemma AcceptedExactlyWhen(crypto: Crypto, roots: Roots, exports: seq<Export>, anchor: Option<string>)
    ensures ChainOk(crypto, roots, exports, anchor) <==>
              && exports != []
              && (anchor.Some? ==> exports[0].statement.previousDigest == anchor)
              && (anchor.None? ==> exports[0].statement.sequence == 1 && exports[0].statement.previousDigest == None)
              && (forall e <- exports :: e.schema == ExportSchema && Genuine(crypto, roots, e) && Contained(e.statement))
              && (forall i :: 0 < i < |exports| ==> PicksUp(crypto, exports[i - 1].statement, exports[i].statement))
  {
    forall e: Export
      ensures ExportOk(crypto, roots, e) <==>
                e.schema == ExportSchema && Genuine(crypto, roots, e) && Contained(e.statement)
    {
      ListsMeans(roots.signers, e.keyId, e.statement.periodEnd);
      ContainedMeans(e.statement);
    }
    assert (forall i :: 0 <= i < |exports| ==> ExportOk(crypto, roots, exports[i])) <==>
             forall e <- exports :: ExportOk(crypto, roots, e);
  }

  /** Signatures verify only for statements really signed with that key. */
  ghost predicate Unforgeable(crypto: Crypto, signed: iset<(string, AuditStatement)>) {
    forall key, signature, statement :: crypto.verifies(key, signature, statement) ==> (key, statement) in signed
  }

  /** Every statement of an accepted chain was really signed, with a key that is not revoked and was valid at its end. */
  lemma AcceptedIsAuthentic(
    crypto: Crypto, roots: Roots, exports: seq<Export>, anchor: Option<string>,
    signed: iset<(string, AuditStatement)>, e: Export)
    requires Unforgeable(crypto, signed) && ChainOk(crypto, roots, exports, anchor) && e in exports
    ensures (e.keyId, e.statement) in signed && e.keyId !in roots.revoked
    ensures Lists(roots.signers, e.keyId, e.statement.periodEnd)
  {
    AcceptedExactlyWhen(crypto, roots, exports, anchor);
  }

  /** The same holds of every statement in an accepted range. */
  lemma AcceptedRangeIsAuthentic(
    crypto: Crypto, roots: Roots, range: Range, anchor: Option<string>, signed: iset<(string, AuditStatement)>, e: Export)
    requires Unforgeable(crypto, signed) && RangeOk(crypto, roots, range, anchor) && e in range.exports
    ensures (e.keyId, e.statement) in signed && e.keyId !in roots.revoked
    ensures Lists(roots.signers, e.keyId, e.statement.periodEnd)
  {
    AcceptedIsAuthentic(
      crypto, roots, range.exports, if anchor.Some? then anchor else range.exports[0].statement.previousDigest, signed, e);
  }

  /** One export with a signature that does not verify, or a key not trusted, has the chain and any range refused. */
  lemma ForgedIsRefused(crypto: Crypto, roots: Roots, exports: seq<Export>, anchor: Option<string>, e: Export)
    requires e in exports
    requires || !crypto.verifies(e.keyId, e.signature, e.statement) || e.keyId in roots.revoked
             || !Lists(roots.signers, e.keyId, e.statement.periodEnd)
    ensures !ChainOk(crypto, roots, exports, anchor)
    ensures forall from: nat, to: nat :: !RangeOk(crypto, roots, Range(RangeSchema, from, to, exports), anchor)
  {
    AcceptedExactlyWhen(crypto, roots, exports, anchor);
    if anchor.None? {
      AcceptedExactlyWhen(crypto, roots, exports, exports[0].statement.previousDigest);
    }
  }

  /** Accepted are exactly the ranges of the sequences they name, at most 1000, that verify on their anchor. */
  lemma RangeAcceptedExactlyWhen(crypto: Crypto, roots: Roots, range: Range, anchor: Option<string>)
    ensures RangeOk(crypto, roots, range, anchor) <==>
              && range.schema == RangeSchema && 1 <= range.from <= range.to && range.to - range.from < 1000
              && |range.exports| == range.to - range.from + 1
              && (forall i :: 0 <= i < |range.exports| ==> range.exports[i].statement.sequence == range.from + i)
              && ChainOk(crypto, roots, range.exports,
                         if anchor.Some? then anchor else range.exports[0].statement.previousDigest)
  {
    if range.exports != [] {
      var start := if anchor.Some? then anchor else range.exports[0].statement.previousDigest;
      if ChainOk(crypto, roots, range.exports, start) {
        forall i | 0 <= i < |range.exports|
          ensures range.exports[i].statement.sequence == range.exports[0].statement.sequence + i
        {
          SequencesCount(crypto, roots, range.exports, start, i);
        }
      }
    }
  }

  /** The periods of a verified chain follow one another: none overlaps an earlier one. */
  lemma {:induction false} PeriodsAscend(
    crypto: Crypto, roots: Roots, chain: seq<Export>, anchor: Option<string>, i: nat, j: nat)
    requires ChainOk(crypto, roots, chain, anchor) && i < j < |chain|
    ensures chain[i].statement.periodEnd <= chain[j].statement.periodStart
    ensures j == i + 1 ==> chain[i].statement.periodEnd == chain[j].statement.periodStart
    decreases j
  {
    AcceptedExactlyWhen(crypto, roots, chain, anchor);
    assert PicksUp(crypto, chain[j - 1].statement, chain[j].statement);
    if i < j - 1 {
      PeriodsAscend(crypto, roots, chain, anchor, i, j - 1);
      assert chain[j - 1] in chain;
    }
  }

  // ----- The entries of an export -----

  /** Entries ascend in time; at one time audit records come before change events before usage, each by cursor. */
  lemma SortedByTime(entries: seq<AuditEntry>, i: nat, j: nat)
    requires i < j < |Sorted(entries)|
    ensures var a, b := Sorted(entries)[i], Sorted(entries)[j];
            && a.at <= b.at
            && (a.at == b.at ==>
                  && !(a.source == Change && b.source == Audit) && !(a.source == Usage && b.source in {Audit, Change})
                  && (a.source == b.source ==> a.cursor <= b.cursor))
  {
    SortedIsOldestFirst(entries);
  }

  /** The change events that say a plan was applied. */
  ghost function Applied(entries: seq<AuditEntry>): (at: set<int>) {
    set i | 0 <= i < |entries| && entries[i].source == Change && entries[i].action == "plan_applied"
  }

  lemma {:induction false} AppliesCounts(entries: seq<AuditEntry>)
    ensures Applies(entries) == |Applied(entries)|
  {
    if entries != [] {
      var rest, last := entries[..|entries| - 1], entries[|entries| - 1];
      AppliesCounts(rest);
      if IsApply(last) {
        assert Applied(entries) == Applied(rest) + {|entries| - 1};
      } else {
        assert Applied(entries) == Applied(rest);
      }
    }
  }

  ghost function Record(at: int, action: string, outcome: string): (entry: AuditEntry) {
    AuditEntry(at, Usage, "usage:" + action, 0, action, "", "tenkai", outcome, "")
  }

  /** The environments change events name. */
  ghost function Seen(entries: seq<AuditEntry>): (environments: set<string>) {
    set i | 0 <= i < |entries| && entries[i].source == Change && entries[i].environment != "" :: entries[i].environment
  }

  /** The five usage records: environments that change events name, plans applied, and hours not counted yet. */
  lemma UsageMeans(periodEnd: int, entries: seq<AuditEntry>)
    ensures UsageRecords(periodEnd, entries) == [
              Record(periodEnd, "environments.managed", Decimal(|Seen(entries)|)),
              Record(periodEnd, "plans.applied", Decimal(|Applied(entries)|)),
              Record(periodEnd, "releases.deployed", Decimal(|Applied(entries)|)),
              Record(periodEnd, "executor.hours", "0"),
              Record(periodEnd, "runtime.hours", "0")]
  {
    AppliesCounts(entries);
    assert Environments(entries) == Seen(entries);
  }

  /** Besides the new rows, an export holds exactly the usage records of what it observed. */
  lemma ExportHoldsUsage(crypto: Crypto, store: Store, previous: Option<Export>, end: int)
    requires ValidStore(store)
    ensures var statement := NextStatement(crypto, store, previous, end);
            var observed := Observed(store, statement.auditAfter, statement.changeAfter);
            multiset(OfSource(statement.entries, Usage)) == multiset(UsageRecords(end, observed))
  {
    var statement := NextStatement(crypto, store, previous, end);
    var audit, change := RowsAfter(store.audit, statement.auditAfter), RowsAfter(store.change, statement.changeAfter);
    var observed := Sorted(audit + change);
    var usage := UsageRecords(end, observed);
    UsageIsUsage(end, observed);
    OfSourceRearranged(statement.entries, observed + usage, Usage);
    OfSourceAppend(observed, usage, Usage);
    OfSourceUniform(usage, Usage, Usage);
    forall e | e in observed
      ensures e.source != Usage
    {
      ObservedComesFrom(store, statement.auditAfter, statement.changeAfter, e);
    }
    NoneOfSource(observed, Usage);
    assert [] + usage == usage;
  }

  lemma {:induction false} NoneOfSource(entries: seq<AuditEntry>, source: Source)
    requires forall e <- entries :: e.source != source
    ensures OfSource(entries, source) == []
  {
    if entries != [] {
      NoneOfSource(entries[1..], source);
    }
  }
}
