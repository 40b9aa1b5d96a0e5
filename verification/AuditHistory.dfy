/** Exports of a growing store: every record is exported once, and the chain never breaks. */
module AuditHistory {
  import opened Wrappers
  import opened AuditStore
  import opened AuditExport
  import opened AuditProperties

  /** The store only ever appends. */
  ghost predicate Grows(before: Store, after: Store) {
    ValidStore(before) && ValidStore(after) && before.audit <= after.audit && before.change <= after.change
  }

  function LastCursor(rows: seq<AuditEntry>): (cursor: int) {
    if rows == [] then 0 else rows[|rows| - 1].cursor
  }

  /** `through` and `last` are where a reader of `rows` ended. */
  ghost predicate EndsOn(rows: seq<AuditEntry>, through: int, last: string) {
    through == LastCursor(rows) && (rows != [] ==> last == Fingerprint(rows[|rows| - 1]))
  }

  /** The export covered everything `store` held. */
  ghost predicate Ended(store: Store, statement: AuditStatement) {
    && EndsOn(store.audit, statement.auditThrough, statement.auditLast)
    && EndsOn(store.change, statement.changeThrough, statement.changeLast)
  }

  // ----- One source -----

  /** What a reader finds after it read `before`, once the rows are `after`. */
  lemma NewRows(before: seq<AuditEntry>, after: seq<AuditEntry>, source: Source)
    requires Rows(before, source) && Rows(after, source) && before <= after
    ensures RowsAfter(after, LastCursor(before)) == after[|before|..]
    ensures Through(after, LastCursor(before)) == LastCursor(after)
  {
    SkipIs(after, source, LastCursor(before), |before|);
  }

  lemma RowsAfterAreLater(rows: seq<AuditEntry>, source: Source, cursor: int, e: AuditEntry)
    requires Rows(rows, source) && e in RowsAfter(rows, cursor)
    ensures cursor < e.cursor <= Through(rows, cursor) && e.source == source
  {
    SkippedAreLater(rows, source, cursor);
  }

  lemma {:induction false} SkippedAreLater(rows: seq<AuditEntry>, source: Source, cursor: int)
    requires Rows(rows, source)
    ensures forall i :: Skip(rows, cursor) <= i < |rows| ==> rows[i].cursor > cursor
  {
    if rows != [] && rows[0].cursor <= cursor {
      SkippedAreLater(rows[1..], source, cursor);
    }
  }

  /** A row stored at `cursor` is what `stored_at` finds there. */
  lemma StoredAtFinds(rows: seq<AuditEntry>, source: Source, n: nat)
    requires Rows(rows, source) && n < |rows|
    ensures StoredAt(rows, source, rows[n].cursor) == Some(rows[n])
  {
    SkipIs(rows, source, rows[n].cursor - 1, n);
    assert PageAfter(rows, rows[n].cursor - 1, 1) == [rows[n]];
  }

  lemma ContinuesInSource(before: seq<AuditEntry>, after: seq<AuditEntry>, source: Source, through: int, last: string)
    requires Rows(before, source) && Rows(after, source) && before <= after && EndsOn(before, through, last)
    ensures HoldsLast(after, source, through, last)
  {
    if before != [] {
      StoredAtFinds(after, source, |before| - 1);
    }
  }

  /** An append-only store is never refused as the wrong one, after any number of exports, empty ones included. */
  lemma GrowingStoreContinues(before: Store, after: Store, statement: AuditStatement)
    requires Grows(before, after) && Ended(before, statement)
    ensures StoreContinues(after, statement)
  {
    ContinuesInSource(before.audit, after.audit, Audit, statement.auditThrough, statement.auditLast);
    ContinuesInSource(before.change, after.change, Change, statement.changeThrough, statement.changeLast);
  }

  // ----- The entries of one export -----

  lemma ObservedOfSource(store: Store, auditAfter: int, changeAfter: int)
    requires ValidStore(store)
    ensures var observed := Observed(store, auditAfter, changeAfter);
            && multiset(OfSource(observed, Audit)) == multiset(RowsAfter(store.audit, auditAfter))
            && multiset(OfSource(observed, Change)) == multiset(RowsAfter(store.change, changeAfter))
  {
    var audit, change := RowsAfter(store.audit, auditAfter), RowsAfter(store.change, changeAfter);
    var observed := Observed(store, auditAfter, changeAfter);
    forall source: Source
      ensures multiset(OfSource(observed, source)) ==
              multiset((if source == Audit then audit else []) + (if source == Change then change else []))
    {
      OfSourceRearranged(observed, audit + change, source);
      OfSourceAppend(audit, change, source);
      OfSourceUniform(audit, Audit, source);
      OfSourceUniform(change, Change, source);
    }
    assert audit + [] == audit && [] + change == change;
  }

  lemma EntriesOfSource(observed: seq<AuditEntry>, usage: seq<AuditEntry>, source: Source)
    requires source != Usage && forall e <- usage :: e.source == Usage
    ensures multiset(OfSource(Sorted(observed + usage), source)) == multiset(OfSource(observed, source))
  {
    OfSourceRearranged(Sorted(observed + usage), observed + usage, source);
    OfSourceAppend(observed, usage, source);
    OfSourceUniform(usage, Usage, source);
    assert OfSource(observed, source) + [] == OfSource(observed, source);
  }

  lemma UsageIsUsage(periodEnd: int, observed: seq<AuditEntry>)
    ensures forall e <- UsageRecords(periodEnd, observed) ::
              && e.source == Usage && e.cursor == 0 && e.at == periodEnd && e.id == UsageId(e.action)
              && exists kind: UsageKind :: e.action == UsageAction(kind)
  {
  }

  /** An export holds exactly the audit records and change events after its cursors, once each. */
  lemma ExportHoldsNewRows(crypto: Crypto, store: Store, previous: Option<Export>, end: int)
    requires ValidStore(store)
    ensures var statement := NextStatement(crypto, store, previous, end);
            && multiset(OfSource(statement.entries, Audit)) == multiset(RowsAfter(store.audit, statement.auditAfter))
            && multiset(OfSource(statement.entries, Change)) == multiset(RowsAfter(store.change, statement.changeAfter))
  {
    var statement := NextStatement(crypto, store, previous, end);
    ObservedOfSource(store, statement.auditAfter, statement.changeAfter);
    var observed := Observed(store, statement.auditAfter, statement.changeAfter);
    var usage := UsageRecords(end, observed);
    UsageIsUsage(end, observed);
    EntriesOfSource(observed, usage, Audit);
    EntriesOfSource(observed, usage, Change);
  }

  lemma ObservedComesFrom(store: Store, auditAfter: int, changeAfter: int, e: AuditEntry)
    requires ValidStore(store)
    ensures e in Observed(store, auditAfter, changeAfter) <==>
              e in RowsAfter(store.audit, auditAfter) || e in RowsAfter(store.change, changeAfter)
  {
    var observed := Observed(store, auditAfter, changeAfter);
    var both := RowsAfter(store.audit, auditAfter) + RowsAfter(store.change, changeAfter);
    assert e in observed <==> e in multiset(observed);
    assert e in both <==> e in multiset(both);
  }

  /** The fingerprint carried on is that of the newest row, whether this export saw it or an earlier one. */
  lemma LastIsCarried(
    before: seq<AuditEntry>, after: seq<AuditEntry>, observed: seq<AuditEntry>, source: Source, last: string)
    requires Rows(before, source) && Rows(after, source) && before <= after
    requires EndsOn(before, LastCursor(before), last)
    requires forall e :: e in observed && e.source == source <==> e in after[|before|..]
    ensures EndsOn(after, LastCursor(after), Last(observed, source, LastCursor(after), last))
  {
    if |before| < |after| {
      assert after[|before|..][|after| - |before| - 1] == after[|after| - 1];
      assert after[|after| - 1] in observed;
    }
    var found := EntryAt(observed, source, LastCursor(after));
    if found.Some? {
      assert found.value in after[|before|..];
      var i :| |before| <= i < |after| && after[i] == found.value;
      assert i == |after| - 1;
    }
  }

  lemma ObservedIsNew(before: Store, after: Store, e: AuditEntry)
    requires Grows(before, after)
    ensures var observed := Observed(after, LastCursor(before.audit), LastCursor(before.change));
            && (e in observed && e.source == Audit <==> e in after.audit[|before.audit|..])
            && (e in observed && e.source == Change <==> e in after.change[|before.change|..])
  {
    NewRows(before.audit, after.audit, Audit);
    NewRows(before.change, after.change, Change);
    ObservedComesFrom(after, LastCursor(before.audit), LastCursor(before.change), e);
  }

  /** An export of a store that grew since the last one covers everything it holds now. */
  lemma ExportEnds(crypto: Crypto, before: Store, after: Store, previous: Option<Export>, end: int)
    requires Grows(before, after)
    requires if previous.Some? then Ended(before, previous.value.statement) else before == Store([], [])
    ensures Ended(after, NextStatement(crypto, after, previous, end))
  {
    var from := if previous.Some? then previous.value.statement else Origin();
    NewRows(before.audit, after.audit, Audit);
    NewRows(before.change, after.change, Change);
    var observed := Observed(after, from.auditThrough, from.changeThrough);
    forall e
      ensures e in observed && e.source == Audit <==> e in after.audit[|before.audit|..]
      ensures e in observed && e.source == Change <==> e in after.change[|before.change|..]
    {
      ObservedIsNew(before, after, e);
    }
    LastIsCarried(before.audit, after.audit, observed, Audit, from.auditLast);
    LastIsCarried(before.change, after.change, observed, Change, from.changeLast);
  }

  // ----- Chains of exports -----

  /** Every entry of an export lies in its range. */
  lemma EntriesInRange(crypto: Crypto, store: Store, previous: Option<Export>, end: int, e: AuditEntry)
    requires ValidStore(store)
    requires e in NextStatement(crypto, store, previous, end).entries
    ensures InRange(NextStatement(crypto, store, previous, end), e)
  {
    var statement := NextStatement(crypto, store, previous, end);
    var observed := Observed(store, statement.auditAfter, statement.changeAfter);
    var usage := UsageRecords(end, observed);
    assert e in multiset(statement.entries);
    assert e in observed + usage;
    UsageIsUsage(end, observed);
    if e in observed {
      ObservedComesFrom(store, statement.auditAfter, statement.changeAfter, e);
      if e in RowsAfter(store.audit, statement.auditAfter) {
        RowsAfterAreLater(store.audit, Audit, statement.auditAfter, e);
      } else {
        RowsAfterAreLater(store.change, Change, statement.changeAfter, e);
      }
    }
  }

  lemma ThroughIsNotBefore(rows: seq<AuditEntry>, source: Source, cursor: int)
    requires Rows(rows, source)
    ensures cursor <= Through(rows, cursor)
  {
    SkippedAreLater(rows, source, cursor);
  }

  lemma NextStatementOk(crypto: Crypto, store: Store, previous: Option<Export>, end: int)
    requires ValidStore(store)
    requires (if previous.Some? then previous.value.statement.periodEnd else 0) <= end
    ensures StatementOk(NextStatement(crypto, store, previous, end))
  {
    var statement := NextStatement(crypto, store, previous, end);
    ThroughIsNotBefore(store.audit, Audit, statement.auditAfter);
    ThroughIsNotBefore(store.change, Change, statement.changeAfter);
    forall e | e in statement.entries
      ensures InRange(statement, e)
    {
      EntriesInRange(crypto, store, previous, end, e);
    }
  }

  function LastOf(chain: seq<Export>): (last: Option<Export>) {
    if chain == [] then None else Some(chain[|chain| - 1])
  }

  /** The next statement follows the end of the chain, or starts one. */
  lemma NextLinks(crypto: Crypto, store: Store, chain: seq<Export>, end: int)
    ensures var next := NextStatement(crypto, store, LastOf(chain), end);
            if chain == [] then Starts(next, None) else Links(crypto, chain[|chain| - 1].statement, next)
    ensures NextStatement(crypto, store, LastOf(chain), end).periodEnd == end
  {
  }

  lemma LinkedExtends(crypto: Crypto, roots: Roots, chain: seq<Export>, e: Export)
    requires chain == [] || ChainOk(crypto, roots, chain, None)
    requires if chain == [] then Starts(e.statement, None) else Links(crypto, chain[|chain| - 1].statement, e.statement)
    ensures ChainOk(crypto, roots, chain + [e], None) <==> ExportOk(crypto, roots, e)
  {
    if chain != [] {
      ChainsAppend(crypto, roots, chain, [e], None);
    } else {
      assert chain + [e] == [e];
    }
  }

  /**
    Exporting onto a verified chain gives a chain that verifies, for any store, exactly when the
    roots trust the exporter's key at the new export's end.
   */
  lemma ExportExtendsChain(
    crypto: Crypto, roots: Roots, chain: seq<Export>, store: Store, end: int, key: string, e: Export)
    requires SignsSoundly(crypto) && ValidStore(store)
    requires chain == [] || ChainOk(crypto, roots, chain, None)
    requires MakeExport(crypto, store, LastOf(chain), end, key) == Ok(e)
    ensures ChainOk(crypto, roots, chain + [e], None) <==> Trusts(roots, key, end)
  {
    var statement := NextStatement(crypto, store, LastOf(chain), end);
    assert e == Export(ExportSchema, key, statement, crypto.sign(key, statement));
    NextLinks(crypto, store, chain, end);
    NextStatementOk(crypto, store, LastOf(chain), end);
    LinkedExtends(crypto, roots, chain, e);
    assert crypto.verifies(key, crypto.sign(key, statement), statement);
  }

  /**
    The roots an exporter verifies its own chain against trust its key, unless it is revoked or an
    extra root lists it as expired.
   */
  lemma ExporterTrustsItself(key: string, extra: Roots, at: int)
    ensures Trusts(ExporterRoots(key, extra), key, at) <==>
              key !in extra.revoked &&
              (ListsAt(extra.signers, key, at) || forall signer <- extra.signers :: signer.keyId != key)
  {
    ListedLast(extra.signers, TrustedSigner(key, None, None), at);
  }

  lemma {:induction false} ListedLast(signers: seq<TrustedSigner>, last: TrustedSigner, at: int)
    requires last.notBefore.None? && last.notAfter.None?
    ensures ListsAt(signers + [last], last.keyId, at) <==>
              ListsAt(signers, last.keyId, at) || forall signer <- signers :: signer.keyId != last.keyId
  {
    if signers != [] {
      assert (signers + [last])[1..] == signers[1..] + [last];
      ListedLast(signers[1..], last, at);
      assert forall signer :: signer in signers <==> signer == signers[0] || signer in signers[1..];
    }
  }

  /**
    The first `n` exports of `chain` were made one at a time, export `k` signed with `keys[k]`, from
    a store that only grew.
   */
  ghost predicate History(
    crypto: Crypto, keys: seq<string>, stores: seq<Store>, ends: seq<int>, chain: seq<Export>, n: nat)
  {
    && |keys| == |stores| == |ends| == |chain| && n <= |chain|
    && (n > 0 ==>
          && History(crypto, keys, stores, ends, chain, n - 1)
          && Follows(crypto, keys[n - 1], StoreBefore(stores, n - 1), stores[n - 1],
                     ExportBefore(chain, n - 1), ends[n - 1], chain[n - 1]))
  }

  ghost predicate Follows(
    crypto: Crypto, key: string, before: Store, store: Store, previous: Option<Export>, end: int, made: Export)
  {
    Grows(before, store) && MakeExport(crypto, store, previous, end, key) == Ok(made)
  }

  /** The store the export before number `k` read; an empty one before the first. */
  function StoreBefore(stores: seq<Store>, k: nat): (store: Store)
    requires k <= |stores|
  {
    if k == 0 then Store([], []) else stores[k - 1]
  }

  function ExportBefore(chain: seq<Export>, k: nat): (previous: Option<Export>)
    requires k <= |chain|
  {
    if k == 0 then None else Some(chain[k - 1])
  }

  /** The store the last export read. */
  function LastStore(stores: seq<Store>): (store: Store) {
    StoreBefore(stores, |stores|)
  }

  ghost predicate EndedOn(store: Store, previous: Option<Export>) {
    if previous.Some? then Ended(store, previous.value.statement) else store == Store([], [])
  }

  lemma {:induction false} HistoryEnds(
    crypto: Crypto, keys: seq<string>, stores: seq<Store>, ends: seq<int>, chain: seq<Export>, n: nat)
    requires History(crypto, keys, stores, ends, chain, n)
    ensures EndedOn(StoreBefore(stores, n), ExportBefore(chain, n))
  {
    if n > 0 {
      HistoryEnds(crypto, keys, stores, ends, chain, n - 1);
      MadeEnds(crypto, keys[n - 1], StoreBefore(stores, n - 1), stores[n - 1], ExportBefore(chain, n - 1), ends[n - 1],
          chain[n - 1]);
    }
  }

  lemma MadeEnds(
    crypto: Crypto, key: string, before: Store, store: Store, previous: Option<Export>, end: int, made: Export)
    requires Follows(crypto, key, before, store, previous, end, made) && EndedOn(before, previous)
    ensures EndedOn(store, Some(made))
  {
    ExportEnds(crypto, before, store, previous, end);
    MakesNext(crypto, store, previous, end, key);
  }

  lemma MakesNext(crypto: Crypto, store: Store, previous: Option<Export>, end: int, key: string)
    ensures var made := MakeExport(crypto, store, previous, end, key);
            made.Ok? ==> made.value.statement == NextStatement(crypto, store, previous, end)
  {
  }

  /**
    The chain goes on: the next export of a store that only grew is made, whenever its end is not
    before the last one's.
   */
  lemma HistoryGoesOn(
    crypto: Crypto, keys: seq<string>, stores: seq<Store>, ends: seq<int>, chain: seq<Export>,
    store: Store, end: int, key: string)
    requires History(crypto, keys, stores, ends, chain, |chain|) && Grows(LastStore(stores), store)
    ensures MakeExport(crypto, store, LastOf(chain), end, key).Ok? <==>
              end >= if chain == [] then 0 else chain[|chain| - 1].statement.periodEnd
  {
    HistoryEnds(crypto, keys, stores, ends, chain, |chain|);
    GrownStoreExports(crypto, key, LastStore(stores), store, LastOf(chain), end);
  }

  lemma GrownStoreExports(crypto: Crypto, key: string, before: Store, store: Store, previous: Option<Export>, end: int)
    requires EndedOn(before, previous) && Grows(before, store)
    ensures MakeExport(crypto, store, previous, end, key).Ok? <==>
              end >= if previous.None? then 0 else previous.value.statement.periodEnd
  {
    if previous.Some? {
      GrowingStoreContinues(before, store, previous.value.statement);
    }
  }

  /** All entries of one source in the first `n` exports, export after export. */
  function Covered(chain: seq<Export>, n: nat, source: Source): (entries: seq<AuditEntry>)
    requires n <= |chain|
  {
    if n == 0 then [] else Covered(chain, n - 1, source) + OfSource(chain[n - 1].statement.entries, source)
  }

  /** What one export adds is what the store gained since the last one. */
  lemma ExportAddsGain(crypto: Crypto, before: Store, after: Store, previous: Option<Export>, end: int)
    requires Grows(before, after) && EndedOn(before, previous)
    ensures var entries := NextStatement(crypto, after, previous, end).entries;
            && multiset(before.audit) + multiset(OfSource(entries, Audit)) == multiset(after.audit)
            && multiset(before.change) + multiset(OfSource(entries, Change)) == multiset(after.change)
  {
    ExportHoldsNewRows(crypto, after, previous, end);
    NewRows(before.audit, after.audit, Audit);
    NewRows(before.change, after.change, Change);
    GainIsRest(before.audit, after.audit);
    GainIsRest(before.change, after.change);
  }

  lemma GainIsRest(before: seq<AuditEntry>, after: seq<AuditEntry>)
    requires before <= after
    ensures multiset(before) + multiset(after[|before|..]) == multiset(after)
  {
    assert after == before + after[|before|..];
  }

  /**
    Exactly once. However the store grew between exports, wherever pages ended and whatever the times
    of the records, the first `n` exports together hold every record of the last store they read
    exactly once.
   */
  lemma {:induction false} ExportsCoverExactlyOnce(
    crypto: Crypto, keys: seq<string>, stores: seq<Store>, ends: seq<int>, chain: seq<Export>, n: nat)
    requires History(crypto, keys, stores, ends, chain, n)
    ensures multiset(Covered(chain, n, Audit)) == multiset(StoreBefore(stores, n).audit)
    ensures multiset(Covered(chain, n, Change)) == multiset(StoreBefore(stores, n).change)
  {
    if n > 0 {
      ExportsCoverExactlyOnce(crypto, keys, stores, ends, chain, n - 1);
      HistoryEnds(crypto, keys, stores, ends, chain, n - 1);
      MadeAddsGain(crypto, keys[n - 1], StoreBefore(stores, n - 1), stores[n - 1], ExportBefore(chain, n - 1),
          ends[n - 1], chain[n - 1]);
    }
  }

  lemma MadeAddsGain(
    crypto: Crypto, key: string, before: Store, store: Store, previous: Option<Export>, end: int, made: Export)
    requires Follows(crypto, key, before, store, previous, end, made) && EndedOn(before, previous)
    ensures multiset(before.audit) + multiset(OfSource(made.statement.entries, Audit)) == multiset(store.audit)
    ensures multiset(before.change) + multiset(OfSource(made.statement.entries, Change)) == multiset(store.change)
  {
    ExportAddsGain(crypto, before, store, previous, end);
    MakesNext(crypto, store, previous, end, key);
  }

  lemma Prefix(chain: seq<Export>, n: nat)
    requires 0 < n <= |chain|
    ensures chain[..n - 1] + [chain[n - 1]] == chain[..n]
    ensures LastOf(chain[..n - 1]) == ExportBefore(chain, n - 1)
  {
  }

  /** The roots trust the key of each of the first `n` exports at its end. */
  ghost predicate TrustedTo(roots: Roots, keys: seq<string>, ends: seq<int>, n: nat) {
    && n <= |keys| && n <= |ends|
    && (n > 0 ==> TrustedTo(roots, keys, ends, n - 1) && Trusts(roots, keys[n - 1], ends[n - 1]))
  }

  /**
    A history of exports, across any change of keys, verifies as one chain exactly when each key is
    trusted at its export's end.
   */
  lemma {:induction false} HistoryVerifiesExactlyWhen(
    crypto: Crypto, roots: Roots, keys: seq<string>, stores: seq<Store>, ends: seq<int>, chain: seq<Export>, n: nat)
    requires SignsSoundly(crypto) && History(crypto, keys, stores, ends, chain, n) && n > 0
    ensures ChainOk(crypto, roots, chain[..n], None) <==> TrustedTo(roots, keys, ends, n)
  {
    Prefix(chain, n);
    if n > 1 {
      HistoryVerifiesExactlyWhen(crypto, roots, keys, stores, ends, chain, n - 1);
    }
    assert Follows(crypto, keys[n - 1], StoreBefore(stores, n - 1), stores[n - 1], ExportBefore(chain, n - 1),
        ends[n - 1], chain[n - 1]);
    ExtendsExactlyWhen(crypto, roots, chain[..n - 1], stores[n - 1], ends[n - 1], keys[n - 1], chain[n - 1]);
  }

  lemma ExtendsExactlyWhen(
    crypto: Crypto, roots: Roots, chain: seq<Export>, store: Store, end: int, key: string, e: Export)
    requires SignsSoundly(crypto) && ValidStore(store) && MakeExport(crypto, store, LastOf(chain), end, key) == Ok(e)
    ensures ChainOk(crypto, roots, chain + [e], None) <==>
              (chain == [] || ChainOk(crypto, roots, chain, None)) && Trusts(roots, key, end)
  {
    if chain == [] || ChainOk(crypto, roots, chain, None) {
      ExportExtendsChain(crypto, roots, chain, store, end, key, e);
    } else {
      ChainsAppend(crypto, roots, chain, [e], None);
    }
  }
}
