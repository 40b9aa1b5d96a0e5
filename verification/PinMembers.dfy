/** The members of a change-set pin and their canonical order: src/change_set_pin.rs. */
module PinMembers {
  import opened Framing

  datatype Member = Member(kind: Text, id: Text, digest: Text)

  // ----- The order of keys -----

  /** The order of texts: byte by byte, a proper prefix first. */
  predicate TextLess(a: Bytes, b: Bytes) {
    if b == [] then false
    else if a == [] then true
    else if a[0] != b[0] then a[0] < b[0]
    else TextLess(a[1..], b[1..])
  }

  /** By kind, then by id. */
  predicate KeyLess(m: Member, n: Member) {
    TextLess(m.kind, n.kind) || (m.kind == n.kind && TextLess(m.id, n.id))
  }

  lemma {:induction false} TextOrder(a: Bytes, b: Bytes, c: Bytes)
    ensures !TextLess(a, a)
    ensures TextLess(a, b) && TextLess(b, c) ==> TextLess(a, c)
    decreases |a| + |b| + |c|
  {
    if a != [] {
      TextOrder(a[1..], if b == [] then b else b[1..], if c == [] then c else c[1..]);
    }
  }

  lemma {:induction false} TextTotal(a: Bytes, b: Bytes)
    ensures a == b || TextLess(a, b) || TextLess(b, a)
  {
    if a != [] && b != [] {
      TextTotal(a[1..], b[1..]);
      assert a == [a[0]] + a[1..] && b == [b[0]] + b[1..];
    }
  }

  lemma KeyOrder(l: Member, m: Member, n: Member)
    ensures !KeyLess(l, l)
    ensures KeyLess(l, m) && KeyLess(m, n) ==> KeyLess(l, n)
  {
    TextOrder(l.kind, m.kind, n.kind);
    TextOrder(l.id, m.id, n.id);
  }

  lemma KeyTotal(m: Member, n: Member)
    ensures (m.kind == n.kind && m.id == n.id) || KeyLess(m, n) || KeyLess(n, m)
  {
    TextTotal(m.kind, n.kind);
    TextTotal(m.id, n.id);
  }

  ghost predicate InOrder(members: seq<Member>) {
    forall i, j :: 0 <= i < j < |members| ==> !KeyLess(members[j], members[i])
  }

  /** In order, and no key twice. */
  ghost predicate Ascending(members: seq<Member>) {
    forall i, j :: 0 <= i < j < |members| ==> KeyLess(members[i], members[j])
  }

  // ----- Sorting -----

  function Insert(m: Member, sorted: seq<Member>): (longer: seq<Member>)
    ensures multiset(longer) == multiset(sorted) + multiset{m}
  {
    if sorted == [] then [m]
    else if !KeyLess(sorted[0], m) then [m] + sorted
    else
      assert sorted == [sorted[0]] + sorted[1..];
      [sorted[0]] + Insert(m, sorted[1..])
  }

  /** `canonicalize`: a stable sort by key. */
  function Canonical(members: seq<Member>): (sorted: seq<Member>)
    ensures multiset(sorted) == multiset(members)
    ensures InOrder(sorted)
  {
    if members == [] then [] else
      assert members == [members[0]] + members[1..];
      InsertInOrder(members[0], Canonical(members[1..]));
      Insert(members[0], Canonical(members[1..]))
  }

  lemma {:induction false} InsertInOrder(m: Member, sorted: seq<Member>)
    requires InOrder(sorted)
    ensures InOrder(Insert(m, sorted))
  {
    if sorted == [] {
    } else if !KeyLess(sorted[0], m) {
      forall j | 0 <= j < |sorted|
        ensures !KeyLess(sorted[j], m)
      {
        KeyOrder(sorted[j], m, sorted[0]);
        NotAfter(m, sorted[0], sorted[j]);
      }
    } else {
      var rest := Insert(m, sorted[1..]);
      InsertInOrder(m, sorted[1..]);
      forall j | 0 <= j < |rest|
        ensures !KeyLess(rest[j], sorted[0])
      {
        assert rest[j] in multiset(rest);
        KeyOrder(sorted[0], m, sorted[0]);
        assert rest[j] == m || rest[j] in sorted[1..];
      }
    }
  }

  /** Not greater, twice. */
  lemma NotAfter(l: Member, m: Member, n: Member)
    requires !KeyLess(m, l) && !KeyLess(n, m)
    ensures !KeyLess(n, l)
  {
    KeyTotal(l, m);
    KeyTotal(m, n);
    KeyOrder(n, l, m);
    KeyOrder(l, m, n);
    KeyOrder(m, n, l);
  }

  /** With no key twice, members have one sorted order. */
  lemma {:induction false} OneOrder(s: seq<Member>, t: seq<Member>)
    requires Ascending(s) && InOrder(t) && multiset(s) == multiset(t)
    ensures s == t
  {
    if s == [] {
      assert |multiset(t)| == 0;
    } else {
      assert s[0] in multiset(t) && t[0] in multiset(s);
      SameHead(s, t);
      Tail(s);
      Tail(t);
      OneOrder(s[1..], t[1..]);
    }
  }

  lemma Tail(s: seq<Member>)
    requires s != []
    ensures s == [s[0]] + s[1..] && multiset(s[1..]) == multiset(s) - multiset{s[0]}
  {
    assert s == [s[0]] + s[1..];
  }

  lemma SameHead(s: seq<Member>, t: seq<Member>)
    requires Ascending(s) && InOrder(t) && |s| > 0 && |t| > 0 && s[0] in t && t[0] in s
    ensures s[0] == t[0]
  {
    var i :| 0 <= i < |s| && s[i] == t[0];
    var j :| 0 <= j < |t| && t[j] == s[0];
    KeyOrder(s[0], s[0], s[0]);
  }

  /** Members without a repeated key have the same canonical order as exactly their reorderings. */
  lemma SameCanonicalExactlyWhenReordered(a: seq<Member>, b: seq<Member>)
    requires Ascending(Canonical(a))
    ensures Canonical(b) == Canonical(a) <==> multiset(b) == multiset(a)
  {
    if multiset(b) == multiset(a) {
      OneOrder(Canonical(a), Canonical(b));
    } else {
      assert multiset(Canonical(b)) != multiset(Canonical(a));
    }
  }

  /** The order is the one of the first byte that differs, a missing byte first. */
  lemma {:induction false} TextLessExactlyWhen(a: Bytes, b: Bytes)
    ensures TextLess(a, b) <==> exists k: nat :: LessAt(a, b, k)
  {
    if b == [] {
    } else if a == [] || a[0] < b[0] {
      assert LessAt(a, b, 0);
    } else if a[0] == b[0] {
      TextLessExactlyWhen(a[1..], b[1..]);
      if k: nat :| LessAt(a[1..], b[1..], k) {
        LessAtTail(a, b, k);
      }
      if k: nat :| LessAt(a, b, k) {
        LessAtTail(a, b, k - 1);
      }
    } else {
      assert forall k: nat :: LessAt(a, b, k) ==> k == 0 || a[0] == b[0];
    }
  }

  /** The texts agree before `k`, where `a` ends or has the smaller byte. */
  ghost predicate LessAt(a: Bytes, b: Bytes, k: nat) {
    k <= |a| && k < |b| && (forall i :: 0 <= i < k ==> a[i] == b[i]) && (k == |a| || a[k] < b[k])
  }

  lemma LessAtTail(a: Bytes, b: Bytes, k: nat)
    requires a != [] && b != [] && a[0] == b[0]
    ensures LessAt(a[1..], b[1..], k) <==> LessAt(a, b, k + 1)
  {
    var c, d := a[1..], b[1..];
    assert forall i :: 0 <= i < |c| ==> c[i] == a[i + 1];
    assert forall i :: 0 <= i < |d| ==> d[i] == b[i + 1];
    if LessAt(c, d, k) {
      assert forall i :: 0 < i < k + 1 ==> a[i] == c[i - 1] && b[i] == d[i - 1];
    }
  }

  // ----- Repeated keys -----

  ghost predicate SameKey(m: Member, n: Member) {
    m.kind == n.kind && m.id == n.id
  }

  ghost predicate NewKey(m: Member, members: seq<Member>) {
    forall n :: n in members ==> !SameKey(m, n)
  }

  ghost predicate Distinct(members: seq<Member>) {
    members == [] || (NewKey(members[0], members[1..]) && Distinct(members[1..]))
  }

  lemma {:induction false} DistinctMeans(members: seq<Member>)
    ensures Distinct(members) <==> forall i, j :: 0 <= i < j < |members| ==> !SameKey(members[i], members[j])
  {
    if members != [] {
      var rest := members[1..];
      DistinctMeans(rest);
      assert forall i :: 0 <= i < |rest| ==> rest[i] == members[i + 1];
      assert forall j :: 0 < j < |members| ==> members[j] == rest[j - 1];
    }
  }

  /** A rearrangement with one more member holds that one and the others. */
  lemma NewKeyPlus(x: Member, longer: seq<Member>, members: seq<Member>, m: Member)
    requires multiset(longer) == multiset(members) + multiset{m}
    ensures NewKey(x, longer) <==> !SameKey(x, m) && NewKey(x, members)
  {
    assert forall n :: n in longer <==> n in multiset(longer);
    assert forall n :: n in members <==> n in multiset(members);
  }

  lemma {:induction false} InsertDistinct(m: Member, sorted: seq<Member>)
    ensures Distinct(Insert(m, sorted)) <==> Distinct(sorted) && NewKey(m, sorted)
  {
    if sorted == [] {
      assert Distinct([m]);
    } else if !KeyLess(sorted[0], m) {
      assert ([m] + sorted)[1..] == sorted;
    } else {
      var rest := Insert(m, sorted[1..]);
      InsertDistinct(m, sorted[1..]);
      assert Insert(m, sorted)[0] == sorted[0] && Insert(m, sorted)[1..] == rest;
      NewKeyPlus(sorted[0], rest, sorted[1..], m);
      assert sorted == [sorted[0]] + sorted[1..];
      NewKeyPlus(m, sorted, sorted[1..], sorted[0]);
    }
  }

  /** Sorting neither makes nor hides a repeated key. */
  lemma {:induction false} CanonicalDistinct(members: seq<Member>)
    ensures Distinct(Canonical(members)) <==> Distinct(members)
  {
    if members != [] {
      var rest := Canonical(members[1..]);
      CanonicalDistinct(members[1..]);
      InsertDistinct(members[0], rest);
      assert forall n :: n in rest <==> n in multiset(rest);
      assert forall n :: n in members[1..] <==> n in multiset(members[1..]);
    }
  }

  /** So a list sorts into strictly ascending order exactly when no two of its members share kind and id. */
  lemma AscendingExactlyWhenDistinct(members: seq<Member>)
    ensures Ascending(Canonical(members)) <==>
            forall i, j :: 0 <= i < j < |members| ==> members[i].kind != members[j].kind || members[i].id != members[j].id
  {
    var sorted := Canonical(members);
    DistinctMeans(members);
    DistinctMeans(sorted);
    CanonicalDistinct(members);
    forall i, j | 0 <= i < j < |sorted|
      ensures KeyLess(sorted[i], sorted[j]) <==> !SameKey(sorted[i], sorted[j])
    {
      KeyTotal(sorted[i], sorted[j]);
      KeyOrder(sorted[i], sorted[j], sorted[i]);
    }
  }
}
