/**
  The operational store as src/audit_export.rs reads it, the cursor-paged reader, and the order of
  the entries in an export.
 */
module AuditStore {
  import opened Wrappers

  /** Where an entry comes from; `Unknown` stands for any other text. */
  datatype Source = Audit | Change | Usage | Unknown

  datatype AuditEntry = AuditEntry(
    at: int,
    source: Source,
    id: string,
    cursor: int,
    action: string,
    principal: string,
    resource: string,
    outcome: string,
    environment: string)

  /**
    The audit records and the change events, each as the entry an export makes of it, in insertion
    order. The insertion cursors ascend; the times are whatever the writers' clocks said.
   */
  datatype Store = Store(audit: seq<AuditEntry>, change: seq<AuditEntry>)

  const PAGE: nat := 1_000

  ghost predicate Rows(rows: seq<AuditEntry>, source: Source) {
    && (forall i :: 0 <= i < |rows| ==> rows[i].source == source && rows[i].cursor > 0)
    && (forall i, j :: 0 <= i < j < |rows| ==> rows[i].cursor < rows[j].cursor)
  }

  ghost predicate ValidStore(store: Store) {
    Rows(store.audit, Audit) && Rows(store.change, Change)
  }

  /** How many rows lie at or below `cursor`. */
  function Skip(rows: seq<AuditEntry>, cursor: int): (n: nat)
    ensures n <= |rows|
  {
    if rows == [] || rows[0].cursor > cursor then 0 else 1 + Skip(rows[1..], cursor)
  }

  /** The rows after `cursor`. */
  function RowsAfter(rows: seq<AuditEntry>, cursor: int): (rest: seq<AuditEntry>) {
    rows[Skip(rows, cursor)..]
  }

  /** What the store returns for one page. */
  function PageAfter(rows: seq<AuditEntry>, cursor: int, limit: nat): (page: seq<AuditEntry>) {
    var rest := RowsAfter(rows, cursor);
    if |rest| <= limit then rest else rest[..limit]
  }

  /** The cursor a reader ends at. */
  function Through(rows: seq<AuditEntry>, cursor: int): (through: int) {
    var rest := RowsAfter(rows, cursor);
    if rest == [] then cursor else rest[|rest| - 1].cursor
  }

  lemma {:induction false} SkipIs(rows: seq<AuditEntry>, source: Source, cursor: int, n: nat)
    requires Rows(rows, source) && n <= |rows|
    requires n > 0 ==> rows[n - 1].cursor <= cursor
    requires n < |rows| ==> cursor < rows[n].cursor
    ensures Skip(rows, cursor) == n
  {
    if n > 0 {
      assert rows[0].cursor <= rows[n - 1].cursor;
      SkipIs(rows[1..], source, cursor, n - 1);
    }
  }

  lemma PageExtends(rows: seq<AuditEntry>, start: nat, through: int)
    requires start <= Skip(rows, through)
    ensures var n := Skip(rows, through);
            var page := PageAfter(rows, through, PAGE);
            && n + |page| <= |rows| && rows[start..n] + page == rows[start..n + |page|]
            && (page != [] ==> page[|page| - 1] == rows[n + |page| - 1])
            && (|page| != PAGE ==> n + |page| == |rows|)
  {
    var n := Skip(rows, through);
    var page := PageAfter(rows, through, PAGE);
    PageIs(rows, n, PAGE);
    Adjoin(rows, start, n, n + |page|);
  }

  lemma Adjoin(rows: seq<AuditEntry>, i: nat, j: nat, k: nat)
    requires i <= j <= k <= |rows|
    ensures rows[i..j] + rows[j..k] == rows[i..k]
  {
  }

  lemma PageIs(rows: seq<AuditEntry>, n: nat, limit: nat)
    requires n <= |rows|
    ensures var rest := rows[n..];
            if |rest| <= limit then rest == rows[n..n + |rest|] else rest[..limit] == rows[n..n + limit]
  {
  }

  /** What an append-only source held when each page was read; the last view stays. */
  ghost predicate Views(views: seq<seq<AuditEntry>>, source: Source) {
    && views != [] && (forall k :: 0 <= k < |views| ==> Rows(views[k], source))
    && (forall k :: 0 < k < |views| ==> views[k - 1] <= views[k])
  }

  lemma {:induction false} ViewsGrow(views: seq<seq<AuditEntry>>, source: Source, i: nat, j: nat)
    requires Views(views, source) && i <= j < |views|
    ensures views[i] <= views[j]
  {
    if i < j {
      ViewsGrow(views, source, i, j - 1);
      assert views[j - 1] <= views[j];
    }
  }

  /** Having read `entries`, a reader of `rows` from `cursor` on stands at `through`, before row `n`. */
  ghost predicate ReadTo(rows: seq<AuditEntry>, cursor: int, entries: seq<AuditEntry>, through: int, n: nat) {
    var start := Skip(rows, cursor);
    && start <= n <= |rows| && entries == rows[start..n] && Skip(rows, through) == n
    && through == if n == start then cursor else rows[n - 1].cursor
  }

  /** One more page; a short one is the last. */
  lemma PageRead(rows: seq<AuditEntry>, source: Source, cursor: int, entries: seq<AuditEntry>, through: int, n: nat)
    requires Rows(rows, source) && ReadTo(rows, cursor, entries, through, n)
    ensures var page := PageAfter(rows, through, PAGE);
            && ReadTo(rows, cursor, entries + page, if page == [] then through else page[|page| - 1].cursor, n + |page|)
            && (|page| != PAGE ==> n + |page| == |rows|)
  {
    var page := PageAfter(rows, through, PAGE);
    PageExtends(rows, Skip(rows, cursor), through);
    if page != [] {
      SkipIs(rows, source, page[|page| - 1].cursor, n + |page|);
    }
  }

  /** A reader that has read something stands where it stood when rows are added. */
  lemma SameInView(
    before: seq<AuditEntry>, after: seq<AuditEntry>, source: Source, cursor: int, entries: seq<AuditEntry>,
    through: int, n: nat)
    requires Rows(before, source) && Rows(after, source) && before <= after
    requires ReadTo(before, cursor, entries, through, n) && entries != []
    ensures ReadTo(after, cursor, entries, through, n)
  {
    var start := Skip(before, cursor);
    SkipBounds(before, source, cursor);
    SkipIs(after, source, cursor, start);
    SkipIs(after, source, through, n);
    assert after[start..n] == before[start..n];
  }

  lemma NextView(
    views: seq<seq<AuditEntry>>, source: Source, v: nat, cursor: int, entries: seq<AuditEntry>, through: int,
    n: nat)
    requires Views(views, source) && v + 1 < |views| && ReadTo(views[v], cursor, entries, through, n) && entries != []
    ensures ReadTo(views[v + 1], cursor, entries, through, n) && |views[v + 1]| <= |views[|views| - 1]|
  {
    assert views[(v + 1) - 1] <= views[v + 1];
    SameInView(views[v], views[v + 1], source, cursor, entries, through, n);
    ViewsGrow(views, source, v + 1, |views| - 1);
  }

  lemma {:induction false} SkipBounds(rows: seq<AuditEntry>, source: Source, cursor: int)
    requires Rows(rows, source)
    ensures var n := Skip(rows, cursor);
            (n > 0 ==> rows[n - 1].cursor <= cursor) && (n < |rows| ==> cursor < rows[n].cursor)
  {
    if rows != [] && rows[0].cursor <= cursor {
      SkipBounds(rows[1..], source, cursor);
    }
  }

  /**
    Read every page after `cursor`, oldest first; a short page ends the reading. Rows may arrive
    between pages: the result is what a reader of the view the last page saw finds.
   */
  method ReadPages(views: seq<seq<AuditEntry>>, ghost source: Source, cursor: int)
    returns (entries: seq<AuditEntry>, through: int, seen: nat)
    requires Views(views, source)
    ensures seen < |views| && entries == RowsAfter(views[seen], cursor)
    ensures through == Through(views[seen], cursor)
  {
    var v := 0;
    ghost var last := |views| - 1;
    ViewsGrow(views, source, 0, last);
    ghost var n := Skip(views[0], cursor);
    entries, through := [], cursor;
    var short := false;
    while !short
      invariant v < |views| && |views[v]| <= |views[last]|
      invariant ReadTo(views[v], cursor, entries, through, n)
      invariant short ==> n == |views[v]|
      decreases !short, |views[last]| - n
    {
      entries, through, short, n := ReadPage(views[v], source, cursor, entries, through, n);
      if !short && v + 1 < |views| {
        NextView(views, source, v, cursor, entries, through, n);
        v := v + 1;
      }
    }
    seen := v;
    ReadAll(views[v], cursor, entries, through);
  }

  /** One page more, and whether it was the last. */
  method ReadPage(
    rows: seq<AuditEntry>, ghost source: Source, ghost cursor: int, entries: seq<AuditEntry>, through: int,
    ghost n: nat)
    returns (longer: seq<AuditEntry>, next: int, short: bool, ghost m: nat)
    requires Rows(rows, source) && ReadTo(rows, cursor, entries, through, n)
    ensures ReadTo(rows, cursor, longer, next, m)
    ensures short ==> m == |rows|
    ensures !short ==> m > n && longer != []
  {
    var page := PageAfter(rows, through, PAGE);
    PageRead(rows, source, cursor, entries, through, n);
    longer, m := entries + page, n + |page|;
    next := if page == [] then through else page[|page| - 1].cursor;
    short := |page| < PAGE;
  }

  lemma ReadAll(rows: seq<AuditEntry>, cursor: int, entries: seq<AuditEntry>, through: int)
    requires ReadTo(rows, cursor, entries, through, |rows|)
    ensures entries == RowsAfter(rows, cursor) && through == Through(rows, cursor)
  {
    assert rows[Skip(rows, cursor)..|rows|] == rows[Skip(rows, cursor)..];
  }

  // ----- Entry order -----

  function SourceRank(source: Source): (rank: nat) {
    match source
    case Audit => 0
    case Change => 1
    case Usage => 2
    case Unknown => 3
  }

  predicate TextBefore(a: string, b: string) {
    b != [] && (a == [] || a[0] < b[0] || (a[0] == b[0] && TextBefore(a[1..], b[1..])))
  }

  /** The sort key of an entry comes strictly before that of another: time, source, cursor, action, id. */
  predicate KeyBefore(a: AuditEntry, b: AuditEntry) {
    a.at < b.at || (a.at == b.at && (
      SourceRank(a.source) < SourceRank(b.source) || (a.source == b.source && (
        a.cursor < b.cursor || (a.cursor == b.cursor && (
          TextBefore(a.action, b.action) || (a.action == b.action && TextBefore(a.id, b.id))))))))
  }

  /** Insertion before every entry whose key is not smaller, so that sorting from the back is stable. */
  function Insert(entry: AuditEntry, sorted: seq<AuditEntry>): (after: seq<AuditEntry>)
    ensures multiset(after) == multiset{entry} + multiset(sorted)
  {
    if sorted == [] then [entry]
    else
      assert sorted == [sorted[0]] + sorted[1..];
      if KeyBefore(sorted[0], entry) then [sorted[0]] + Insert(entry, sorted[1..]) else [entry] + sorted
  }

  function Sorted(entries: seq<AuditEntry>): (sorted: seq<AuditEntry>)
    ensures multiset(sorted) == multiset(entries)
  {
    if entries == [] then []
    else
      assert entries == [entries[0]] + entries[1..];
      Insert(entries[0], Sorted(entries[1..]))
  }

  ghost predicate OldestFirst(entries: seq<AuditEntry>) {
    forall i, j :: 0 <= i < j < |entries| ==> !KeyBefore(entries[j], entries[i])
  }

  lemma {:induction false} TextOrder(a: string, b: string, c: string)
    ensures TextBefore(a, b) || a == b || TextBefore(b, a)
    ensures !(TextBefore(a, b) && TextBefore(b, a))
    ensures TextBefore(a, b) && TextBefore(b, c) ==> TextBefore(a, c)
  {
    if a != [] && b != [] {
      TextOrder(a[1..], b[1..], if c == [] then [] else c[1..]);
      assert a == [a[0]] + a[1..] && b == [b[0]] + b[1..];
    }
  }

  lemma KeyOrder(a: AuditEntry, b: AuditEntry, c: AuditEntry)
    ensures !(KeyBefore(a, b) && KeyBefore(b, a))
    ensures !KeyBefore(b, a) && !KeyBefore(c, b) ==> !KeyBefore(c, a)
  {
    TextOrder(a.action, b.action, c.action);
    TextOrder(b.action, c.action, a.action);
    TextOrder(c.action, a.action, b.action);
    TextOrder(a.id, b.id, c.id);
    TextOrder(b.id, c.id, a.id);
    TextOrder(c.id, a.id, b.id);
  }

  lemma {:induction false} InsertKeepsOrder(entry: AuditEntry, sorted: seq<AuditEntry>)
    requires OldestFirst(sorted)
    ensures OldestFirst(Insert(entry, sorted))
  {
    if sorted != [] {
      if KeyBefore(sorted[0], entry) {
        InsertKeepsOrder(entry, sorted[1..]);
        var rest := Insert(entry, sorted[1..]);
        forall j | 0 <= j < |rest|
          ensures !KeyBefore(rest[j], sorted[0])
        {
          assert rest[j] in multiset(rest);
          assert rest[j] == entry || rest[j] in sorted[1..];
          KeyOrder(sorted[0], entry, entry);
        }
      } else {
        forall j | 0 <= j < |sorted|
          ensures !KeyBefore(sorted[j], entry)
        {
          KeyOrder(entry, sorted[0], sorted[j]);
        }
      }
    }
  }

  /** The entries of an export are in key order, oldest first. */
  lemma {:induction false} SortedIsOldestFirst(entries: seq<AuditEntry>)
    ensures OldestFirst(Sorted(entries))
  {
    if entries != [] {
      SortedIsOldestFirst(entries[1..]);
      InsertKeepsOrder(entries[0], Sorted(entries[1..]));
    }
  }

  // ----- Entries of one source -----

  function OfSource(entries: seq<AuditEntry>, source: Source): (filtered: seq<AuditEntry>) {
    if entries == [] then []
    else if entries[0].source == source then [entries[0]] + OfSource(entries[1..], source)
    else OfSource(entries[1..], source)
  }

  lemma {:induction false} OfSourceCount(entries: seq<AuditEntry>, source: Source, e: AuditEntry)
    ensures multiset(OfSource(entries, source))[e] == if e.source == source then multiset(entries)[e] else 0
  {
    if entries != [] {
      OfSourceCount(entries[1..], source, e);
      assert entries == [entries[0]] + entries[1..];
    }
  }

  /** Sorting moves no entry between sources and drops or repeats none. */
  lemma OfSourceRearranged(entries: seq<AuditEntry>, rearranged: seq<AuditEntry>, source: Source)
    requires multiset(entries) == multiset(rearranged)
    ensures multiset(OfSource(entries, source)) == multiset(OfSource(rearranged, source))
  {
    forall e
      ensures multiset(OfSource(entries, source))[e] == multiset(OfSource(rearranged, source))[e]
    {
      OfSourceCount(entries, source, e);
      OfSourceCount(rearranged, source, e);
    }
  }

  lemma {:induction false} OfSourceAppend(a: seq<AuditEntry>, b: seq<AuditEntry>, source: Source)
    ensures OfSource(a + b, source) == OfSource(a, source) + OfSource(b, source)
  {
    if a == [] {
      assert a + b == b;
    } else {
      assert (a + b)[1..] == a[1..] + b;
      OfSourceAppend(a[1..], b, source);
    }
  }

  lemma {:induction false} OfSourceUniform(entries: seq<AuditEntry>, from: Source, source: Source)
    requires forall e <- entries :: e.source == from
    ensures OfSource(entries, source) == if from == source then entries else []
  {
    if entries != [] {
      OfSourceUniform(entries[1..], from, source);
    }
  }
}
