/** What chains of audit exports guarantee. */
module AuditProperties {
  import opened Wrappers
  import opened AuditStore
  import opened AuditExport

  // ----- The digest chain commits to everything before it -----

  ghost predicate SameStatements(a: seq<Export>, b: seq<Export>) {
    |a| == |b| && forall i :: 0 <= i < |a| ==> a[i].statement == b[i].statement
  }

  /** Two different statements with one digest. */
  ghost predicate Collide(crypto: Crypto, a: AuditStatement, b: AuditStatement) {
    a != b && crypto.digest(a) == crypto.digest(b)
  }

  ghost predicate Collision(crypto: Crypto, a: seq<Export>, b: seq<Export>) {
    exists i, j :: 0 <= i < |a| && 0 <= j < |b| && Collide(crypto, a[i].statement, b[j].statement)
  }

  lemma {:induction false} SequencesCount(
    crypto: Crypto, roots: Roots, chain: seq<Export>, anchor: Option<string>, i: nat)
    requires ChainOk(crypto, roots, chain, anchor) && i < |chain|
    ensures chain[i].statement.sequence == chain[0].statement.sequence + i
  {
    if i > 0 {
      SequencesCount(crypto, roots, chain, anchor, i - 1);
    }
  }

  lemma {:induction false} LinkedBack(
    crypto: Crypto, roots: Roots, trusted: Roots, a: seq<Export>, b: seq<Export>, i: nat)
    requires ChainOk(crypto, roots, a, None) && ChainOk(crypto, trusted, b, None) && |a| == |b|
    requires crypto.digest(a[|a| - 1].statement) == crypto.digest(b[|b| - 1].statement)
    requires !Collision(crypto, a, b) && i < |a|
    ensures a[i].statement == b[i].statement
    decreases |a| - i
  {
    if i == |a| - 1 {
      assert !Collide(crypto, a[i].statement, b[i].statement);
    } else {
      LinkedBack(crypto, roots, trusted, a, b, i + 1);
      assert Links(crypto, a[i + 1 - 1].statement, a[i + 1].statement);
      assert Links(crypto, b[i + 1 - 1].statement, b[i + 1].statement);
      assert !Collide(crypto, a[i].statement, b[i].statement);
    }
  }

  /**
    Commitment. Two whole chains that verify, under any trust roots, and end on the same digest hold
    the same statements in the same order, unless they contain a collision of the digest.
   */
  lemma LastDigestCommits(crypto: Crypto, roots: Roots, trusted: Roots, a: seq<Export>, b: seq<Export>)
    requires ChainOk(crypto, roots, a, None) && ChainOk(crypto, trusted, b, None)
    requires crypto.digest(a[|a| - 1].statement) == crypto.digest(b[|b| - 1].statement)
    ensures SameStatements(a, b) || Collision(crypto, a, b)
  {
    if !Collision(crypto, a, b) {
      assert !Collide(crypto, a[|a| - 1].statement, b[|b| - 1].statement);
      SequencesCount(crypto, roots, a, None, |a| - 1);
      SequencesCount(crypto, trusted, b, None, |b| - 1);
      forall i | 0 <= i < |a|
        ensures a[i].statement == b[i].statement
      {
        LinkedBack(crypto, roots, trusted, a, b, i);
      }
    }
  }

  // ----- A verified chain never holds a record twice -----

  lemma {:induction false} CursorsAscend(
    crypto: Crypto, roots: Roots, chain: seq<Export>, anchor: Option<string>, i: nat, j: nat)
    requires ChainOk(crypto, roots, chain, anchor) && i < j < |chain|
    ensures chain[i].statement.auditThrough <= chain[j].statement.auditAfter
    ensures chain[i].statement.changeThrough <= chain[j].statement.changeAfter
    decreases j
  {
    assert Links(crypto, chain[j - 1].statement, chain[j].statement);
    if i < j - 1 {
      CursorsAscend(crypto, roots, chain, anchor, i, j - 1);
      assert ExportOk(crypto, roots, chain[j - 1]);
    }
  }

  /** Two exports of a verified chain share no audit record and no change event. */
  lemma NoRecordInTwoExports(
    crypto: Crypto, roots: Roots, chain: seq<Export>, anchor: Option<string>, i: nat, j: nat, d: AuditEntry, e: AuditEntry)
    requires ChainOk(crypto, roots, chain, anchor) && i < j < |chain|
    requires d in chain[i].statement.entries && e in chain[j].statement.entries
    requires d.source == e.source && d.source != Usage
    ensures d.cursor < e.cursor
  {
    CursorsAscend(crypto, roots, chain, anchor, i, j);
    assert ExportOk(crypto, roots, chain[i]) && ExportOk(crypto, roots, chain[j]);
    assert InRange(chain[i].statement, d) && InRange(chain[j].statement, e);
  }

  // ----- Ranges -----

  /** The contiguous slice `i..j` of a chain, as a range. */
  function Slice(chain: seq<Export>, i: nat, j: nat): (range: Range)
    requires i < j <= |chain|
  {
    Range(RangeSchema, chain[i].statement.sequence, chain[i].statement.sequence + (j - i) - 1, chain[i..j])
  }

  lemma SliceIsChain(crypto: Crypto, roots: Roots, chain: seq<Export>, anchor: Option<string>, i: nat, j: nat)
    requires ChainOk(crypto, roots, chain, anchor) && i < j <= |chain|
    ensures ChainOk(crypto, roots, chain[i..j], chain[i].statement.previousDigest)
  {
    var part := chain[i..j];
    forall k | 0 < k < |part|
      ensures Links(crypto, part[k - 1].statement, part[k].statement)
    {
      assert part[k - 1] == chain[i + k - 1] && part[k] == chain[i + k];
      assert Links(crypto, chain[(i + k) - 1].statement, chain[i + k].statement);
    }
    if i > 0 {
      assert Links(crypto, chain[i - 1].statement, chain[i].statement);
    }
  }

  /**
    Every contiguous slice of a verified chain verifies as a range, both anchored on itself and on
    the export before it, exactly when it is within the length limit and does not start at sequence 0.
   */
  lemma SlicesAreRanges(crypto: Crypto, roots: Roots, chain: seq<Export>, anchor: Option<string>, i: nat, j: nat)
    requires ChainOk(crypto, roots, chain, anchor) && i < j <= |chain|
    ensures RangeOk(crypto, roots, Slice(chain, i, j), None) <==>
              j - i <= 1000 && chain[i].statement.sequence != 0
    ensures i > 0 ==>
              (RangeOk(crypto, roots, Slice(chain, i, j), Some(crypto.digest(chain[i - 1].statement))) <==>
                 j - i <= 1000 && chain[i].statement.sequence != 0)
    ensures anchor.None? ==> chain[i].statement.sequence != 0
  {
    SliceIsChain(crypto, roots, chain, anchor, i, j);
    SequencesCount(crypto, roots, chain, anchor, i);
    if i > 0 {
      assert Links(crypto, chain[i - 1].statement, chain[i].statement);
    }
  }

  lemma ChainsAppend(crypto: Crypto, roots: Roots, a: seq<Export>, b: seq<Export>, anchor: Option<string>)
    requires a != [] && b != []
    ensures ChainOk(crypto, roots, a + b, anchor) <==>
              && ChainOk(crypto, roots, a, anchor)
              && Links(crypto, a[|a| - 1].statement, b[0].statement)
              && ChainOk(crypto, roots, b, b[0].statement.previousDigest)
  {
    var whole := a + b;
    if ChainOk(crypto, roots, whole, anchor) {
      SliceIsChain(crypto, roots, whole, anchor, |a|, |whole|);
      assert whole[|a|..] == b;
      assert Links(crypto, whole[|a| - 1].statement, whole[|a|].statement);
      assert forall i :: 0 <= i < |a| ==> whole[i] == a[i];
      forall i | 0 < i < |a|
        ensures Links(crypto, a[i - 1].statement, a[i].statement)
      {
        assert Links(crypto, whole[i - 1].statement, whole[i].statement);
      }
      forall i | 0 <= i < |a|
        ensures ExportOk(crypto, roots, a[i])
      {
        assert ExportOk(crypto, roots, whole[i]);
      }
    }
  }

  /** Two verified ranges concatenate to one exactly when the second links to the end of the first. */
  lemma RangesConcatenate(crypto: Crypto, roots: Roots, a: Range, b: Range, anchor: Option<string>)
    requires RangeOk(crypto, roots, a, anchor) && RangeOk(crypto, roots, b, None)
    ensures RangeOk(crypto, roots, Range(RangeSchema, a.from, b.to, a.exports + b.exports), anchor) <==>
              && Links(crypto, a.exports[|a.exports| - 1].statement, b.exports[0].statement)
              && |a.exports| + |b.exports| <= 1000
  {
    var first := a.exports[0].statement;
    var start := if anchor.Some? then anchor else first.previousDigest;
    ChainsAppend(crypto, roots, a.exports, b.exports, start);
    SequencesCount(crypto, roots, a.exports, start, |a.exports| - 1);
    assert (a.exports + b.exports)[0] == a.exports[0];
  }
}
