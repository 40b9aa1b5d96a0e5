/** Signed, chained audit exports: src/audit_export.rs. */
module AuditExport {
  import opened Wrappers
  import opened AuditStore

  datatype AuditStatement = AuditStatement(
    sequence: nat,
    periodStart: int,
    periodEnd: int,
    auditAfter: int,
    auditThrough: int,
    changeAfter: int,
    changeThrough: int,
    auditLast: string,
    changeLast: string,
    previousDigest: Option<string>,
    entries: seq<AuditEntry>)

  datatype Schema = ExportSchema | RangeSchema | OtherSchema

  datatype Export = Export(schema: Schema, keyId: string, statement: AuditStatement, signature: string)

  /**
    The cryptography, as parameters: the digest of a statement's signed bytes, and signing and
    verifying them under a key id.
   */
  datatype Crypto = Crypto(
    digest: AuditStatement -> string,
    sign: (string, AuditStatement) -> string,
    verifies: (string, string, AuditStatement) -> bool)

  /** Signatures made with a key verify under it. */
  ghost predicate SignsSoundly(crypto: Crypto) {
    forall key, statement :: crypto.verifies(key, crypto.sign(key, statement), statement)
  }

  datatype TrustedSigner = TrustedSigner(keyId: string, notBefore: Option<int>, notAfter: Option<int>)

  /** The trust roots as a verifier has them: the signers listed, and the key ids revoked by now. */
  datatype Roots = Roots(signers: seq<TrustedSigner>, revoked: set<string>)

  /** The first signer listed under the key id was valid at `at`. */
  predicate ListsAt(signers: seq<TrustedSigner>, keyId: string, at: int) {
    signers != [] &&
    if signers[0].keyId == keyId then
      && (signers[0].notBefore.Some? ==> signers[0].notBefore.value <= at)
      && (signers[0].notAfter.Some? ==> at <= signers[0].notAfter.value)
    else ListsAt(signers[1..], keyId, at)
  }

  /** `resolve_at`: the key is not revoked, whenever it signed, and was valid at `at`. */
  predicate Trusts(roots: Roots, keyId: string, at: int) {
    keyId !in roots.revoked && ListsAt(roots.signers, keyId, at)
  }

  /** The roots a chain signed with `key` verifies against: any extra ones first, then the key itself. */
  function ExporterRoots(key: string, extra: Roots): (roots: Roots) {
    extra.(signers := extra.signers + [TrustedSigner(key, None, None)])
  }

  // ----- Usage records -----

  datatype UsageKind = EnvironmentsManaged | PlansApplied | ReleasesDeployed | ExecutorHours | RuntimeHours

  function UsageAction(kind: UsageKind): (action: string) {
    match kind
    case EnvironmentsManaged => "environments.managed"
    case PlansApplied => "plans.applied"
    case ReleasesDeployed => "releases.deployed"
    case ExecutorHours => "executor.hours"
    case RuntimeHours => "runtime.hours"
  }

  function UsageId(action: string): (id: string) {
    "usage:" + action
  }

  function Decimal(n: int): (text: string)
    decreases if n < 0 then 1 - n else n
  {
    if n < 0 then "-" + Decimal(-n)
    else if n < 10 then [('0' as int + n) as char]
    else Decimal(n / 10) + [('0' as int + n % 10) as char]
  }

  predicate IsApply(e: AuditEntry) {
    e.source == Change && e.action == "plan_applied"
  }

  function Applies(entries: seq<AuditEntry>): (count: nat) {
    if entries == [] then 0
    else Applies(entries[..|entries| - 1]) + if IsApply(entries[|entries| - 1]) then 1 else 0
  }

  function Environments(entries: seq<AuditEntry>): (environments: set<string>) {
    set e | e in entries && e.source == Change && e.environment != "" :: e.environment
  }

  function UsageOutcome(kind: UsageKind, environments: nat, plans: nat): (outcome: string) {
    match kind
    case EnvironmentsManaged => Decimal(environments)
    case PlansApplied => Decimal(plans)
    case ReleasesDeployed => Decimal(plans)
    case ExecutorHours => "0"
    case RuntimeHours => "0"
  }

  function UsageRecord(periodEnd: int, kind: UsageKind, environments: nat, plans: nat): (entry: AuditEntry) {
    AuditEntry(periodEnd, Usage, UsageId(UsageAction(kind)), 0, UsageAction(kind), "", "tenkai",
               UsageOutcome(kind, environments, plans), "")
  }

  const USAGE_KINDS := [EnvironmentsManaged, PlansApplied, ReleasesDeployed, ExecutorHours, RuntimeHours]

  function RecordsOf(periodEnd: int, kinds: seq<UsageKind>, environments: nat, plans: nat): (records: seq<AuditEntry>) {
    seq(|kinds|, i requires 0 <= i < |kinds| => UsageRecord(periodEnd, kinds[i], environments, plans))
  }

  /** Period quantities of deployment activity, from the change entries of the export. */
  function UsageRecords(periodEnd: int, entries: seq<AuditEntry>): (records: seq<AuditEntry>) {
    RecordsOf(periodEnd, USAGE_KINDS, |Environments(entries)|, Applies(entries))
  }

  lemma CountedOne(entries: seq<AuditEntry>, i: nat)
    requires i < |entries|
    ensures Environments(entries[..i + 1]) ==
              Environments(entries[..i]) + if entries[i].source == Change && entries[i].environment != ""
                                           then {entries[i].environment} else {}
    ensures Applies(entries[..i + 1]) == Applies(entries[..i]) + if IsApply(entries[i]) then 1 else 0
  {
    assert entries[..i + 1] == entries[..i] + [entries[i]];
  }

  method CountUsage(periodEnd: int, entries: seq<AuditEntry>) returns (records: seq<AuditEntry>)
    ensures records == UsageRecords(periodEnd, entries)
  {
    var environments: set<string> := {};
    var plans := 0;
    var i := 0;
    while i < |entries|
      invariant 0 <= i <= |entries|
      invariant environments == Environments(entries[..i])
      invariant plans == Applies(entries[..i])
    {
      var entry := entries[i];
      CountedOne(entries, i);
      i := i + 1;
      if entry.source == Change {
        if entry.environment != "" {
          environments := environments + {entry.environment};
        }
        if entry.action == "plan_applied" {
          plans := plans + 1;
        }
      }
    }
    assert entries[..i] == entries;
    records := RecordsOf(periodEnd, USAGE_KINDS, |environments|, plans);
  }

  // ----- One export -----

  function Fingerprint(entry: AuditEntry): (text: string) {
    entry.id + "|" + entry.action + "|" + entry.resource + "|" + Decimal(entry.at)
  }

  /** The first entry of `source` at exactly `cursor`. */
  function EntryAt(entries: seq<AuditEntry>, source: Source, cursor: int): (found: Option<AuditEntry>)
    ensures found.Some? ==> found.value in entries && found.value.source == source && found.value.cursor == cursor
    ensures found.None? ==> forall e <- entries :: e.source != source || e.cursor != cursor
  {
    if entries == [] then None
    else if entries[0].source == source && entries[0].cursor == cursor then Some(entries[0])
    else EntryAt(entries[1..], source, cursor)
  }

  /** `stored_at`: a page of one row just below the cursor. */
  function StoredAt(rows: seq<AuditEntry>, source: Source, cursor: int): (found: Option<AuditEntry>) {
    EntryAt(PageAfter(rows, cursor - 1, 1), source, cursor)
  }

  predicate HoldsLast(rows: seq<AuditEntry>, source: Source, cursor: int, last: string) {
    cursor > 0 ==>
      var found := StoredAt(rows, source, cursor);
      found.Some? && Fingerprint(found.value) == last
  }

  /** `require_store_continues`: the store still holds what the previous export ended on. */
  predicate StoreContinues(store: Store, previous: AuditStatement) {
    && HoldsLast(store.audit, Audit, previous.auditThrough, previous.auditLast)
    && HoldsLast(store.change, Change, previous.changeThrough, previous.changeLast)
  }

  /** What an export starts from: the end of the previous one, or nothing. */
  function Origin(): (origin: AuditStatement) {
    AuditStatement(0, 0, 0, 0, 0, 0, 0, "", "", None, [])
  }

  function Last(entries: seq<AuditEntry>, source: Source, cursor: int, before: string): (last: string) {
    var newest := EntryAt(entries, source, cursor);
    if newest.Some? then Fingerprint(newest.value) else before
  }

  function Observed(store: Store, auditAfter: int, changeAfter: int): (entries: seq<AuditEntry>) {
    Sorted(RowsAfter(store.audit, auditAfter) + RowsAfter(store.change, changeAfter))
  }

  /** The statement after `previous` over what was read since. */
  function Assembled(
    crypto: Crypto, previous: Option<Export>, end: int, observed: seq<AuditEntry>, auditThrough: int, changeThrough: int,
    usage: seq<AuditEntry>): (statement: AuditStatement)
  {
    var from := if previous.Some? then previous.value.statement else Origin();
    AuditStatement(
      from.sequence + 1, from.periodEnd, end, from.auditThrough, auditThrough, from.changeThrough, changeThrough,
      Last(observed, Audit, auditThrough, from.auditLast), Last(observed, Change, changeThrough, from.changeLast),
      if previous.Some? then Some(crypto.digest(from)) else None,
      Sorted(observed + usage))
  }

  function NextStatement(
    crypto: Crypto, store: Store, previous: Option<Export>, end: int): (statement: AuditStatement)
  {
    var from := if previous.Some? then previous.value.statement else Origin();
    var observed := Observed(store, from.auditThrough, from.changeThrough);
    Assembled(crypto, previous, end, observed, Through(store.audit, from.auditThrough),
        Through(store.change, from.changeThrough),
              UsageRecords(end, observed))
  }

  /** Sign the export of everything written since `previous`, stamped `end`. */
  function MakeExport(
    crypto: Crypto, store: Store, previous: Option<Export>, end: int, key: string): (result: Result<Export>)
  {
    if end < (if previous.Some? then previous.value.statement.periodEnd else 0) then Err
    else if previous.Some? && !StoreContinues(store, previous.value.statement) then Err
    else
      var statement := NextStatement(crypto, store, previous, end);
      Ok(Export(ExportSchema, key, statement, crypto.sign(key, statement)))
  }

  /**
    `entries_after`, on a store whose rows may grow while it is read: the result is that of one of
    its states of each source.
   */
  method EntriesAfter(audits: seq<seq<AuditEntry>>, changes: seq<seq<AuditEntry>>, auditAfter: int, changeAfter: int)
    returns (entries: seq<AuditEntry>, auditThrough: int, changeThrough: int, seen: Store)
    requires Views(audits, Audit) && Views(changes, Change)
    ensures seen.audit in audits && seen.change in changes
    ensures entries == Observed(seen, auditAfter, changeAfter)
    ensures auditThrough == Through(seen.audit, auditAfter) && changeThrough == Through(seen.change, changeAfter)
  {
    var audit, change;
    var i, j;
    audit, auditThrough, i := ReadPages(audits, Audit, auditAfter);
    change, changeThrough, j := ReadPages(changes, Change, changeAfter);
    seen := Store(audits[i], changes[j]);
    entries := Sorted(audit + change);
  }

  // ----- Verification -----

  predicate InRange(statement: AuditStatement, entry: AuditEntry) {
    match entry.source
    case Audit => statement.auditAfter < entry.cursor <= statement.auditThrough
    case Change => statement.changeAfter < entry.cursor <= statement.changeThrough
    case Usage =>
      && entry.cursor == 0 && entry.at == statement.periodEnd && entry.id == UsageId(entry.action)
      && exists kind: UsageKind :: entry.action == UsageAction(kind)
    case Unknown => false
  }

  predicate StatementOk(statement: AuditStatement) {
    && statement.periodStart <= statement.periodEnd
    && statement.auditAfter <= statement.auditThrough
    && statement.changeAfter <= statement.changeThrough
    && forall e <- statement.entries :: InRange(statement, e)
  }

  /** What one export must satisfy on its own. */
  predicate ExportOk(crypto: Crypto, roots: Roots, e: Export) {
    && e.schema == ExportSchema
    && Trusts(roots, e.keyId, e.statement.periodEnd)
    && crypto.verifies(e.keyId, e.signature, e.statement)
    && StatementOk(e.statement)
  }

  /** `next` follows `previous` without a gap and names its digest. */
  predicate Links(crypto: Crypto, previous: AuditStatement, next: AuditStatement) {
    && next.sequence == previous.sequence + 1
    && next.auditAfter == previous.auditThrough
    && next.changeAfter == previous.changeThrough
    && next.periodStart == previous.periodEnd
    && next.previousDigest == Some(crypto.digest(previous))
  }

  predicate Starts(first: AuditStatement, anchor: Option<string>) {
    if anchor.Some? then first.previousDigest == anchor else first.sequence == 1 && first.previousDigest.None?
  }

  /** A chain of exports, in order: each sound on its own, the first anchored, every other one linked. */
  ghost predicate ChainOk(crypto: Crypto, roots: Roots, exports: seq<Export>, anchor: Option<string>) {
    && exports != []
    && Starts(exports[0].statement, anchor)
    && (forall i :: 0 <= i < |exports| ==> ExportOk(crypto, roots, exports[i]))
    && (forall i :: 0 < i < |exports| ==> Links(crypto, exports[i - 1].statement, exports[i].statement))
  }

  method VerifyChain(crypto: Crypto, roots: Roots, exports: seq<Export>, anchor: Option<string>) returns (ok: bool)
    ensures ok <==> ChainOk(crypto, roots, exports, anchor)
  {
    if exports == [] { return false; }
    var previous: Option<Export> := None;
    var i := 0;
    while i < |exports|
      invariant 0 <= i <= |exports|
      invariant previous == if i == 0 then None else Some(exports[i - 1])
      invariant i > 0 ==> ChainOk(crypto, roots, exports[..i], anchor)
    {
      var e := exports[i];
      if !ExportOk(crypto, roots, e) { return false; }
      if previous.Some? {
        if !Links(crypto, previous.value.statement, e.statement) { return false; }
      } else {
        if !Starts(e.statement, anchor) { return false; }
      }
      previous := Some(e);
      i := i + 1;
    }
    assert exports[..i] == exports;
    return true;
  }

  // ----- Ranges -----

  const MAX_RANGE_EXPORTS := 1_000

  datatype Range = Range(schema: Schema, from: nat, to: nat, exports: seq<Export>)

  predicate BoundsOk(from: nat, to: nat) {
    from != 0 && from <= to && to - from + 1 <= MAX_RANGE_EXPORTS
  }

  /** `verify_range`: exactly the exports `from..=to`, anchored on `anchor` or on the range itself. */
  ghost predicate RangeOk(crypto: Crypto, roots: Roots, range: Range, anchor: Option<string>) {
    && range.schema == RangeSchema
    && BoundsOk(range.from, range.to)
    && range.exports != []
    && range.exports[0].statement.sequence == range.from
    && |range.exports| == range.to - range.from + 1
    && ChainOk(crypto, roots, range.exports, if anchor.Some? then anchor else range.exports[0].statement.previousDigest)
  }

  method VerifyRange(crypto: Crypto, roots: Roots, range: Range, anchor: Option<string>) returns (ok: bool)
    ensures ok <==> RangeOk(crypto, roots, range, anchor)
  {
    if range.schema != RangeSchema || !BoundsOk(range.from, range.to) || range.exports == [] { return false; }
    var first := range.exports[0].statement;
    if first.sequence != range.from || |range.exports| != range.to - range.from + 1 { return false; }
    ok := VerifyChain(crypto, roots, range.exports, if anchor.Some? then anchor else first.previousDigest);
  }
}
