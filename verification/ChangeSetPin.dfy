/** Change-set pins: what is hashed, what is valid, and what is admitted. src/change_set_pin.rs. */
module ChangeSetPin {
  import opened Wrappers
  import opened Framing
  import opened PinMembers

  const MAX_MEMBERS := 32

  /** The seven texts a pin and its publication evidence both carry. */
  datatype Header = Header(contract: Text, namespace: Text, branchId: Text, proposalId: Text, baseDigest: Text,
                           closureDigest: Text, receiptDigest: Text)

  datatype Pin = Pin(header: Header, members: seq<Member>)

  datatype PublicationStatus = Accepted | Unaccepted | Incomplete | Recalled | Unknown

  datatype Evidence = Evidence(schema: Text, status: PublicationStatus, authorized: bool, header: Header,
      members: seq<Member>)

  /** The fixed names, and the checks on one text: a known member kind, an opaque identifier, a sha256 digest. */
  datatype Rules = Rules(contract: Text, schema: Text, kind: Text -> bool, identifier: Text -> bool,
      digest: Text -> bool)

  // ----- The bytes of a pin -----

  /** TENKAI-CHANGE-SET-PIN-V1 and a zero byte. */
  const DOMAIN: Bytes := [84, 69, 78, 75, 65, 73, 45, 67, 72, 65, 78, 71, 69, 45, 83, 69, 84, 45, 80, 73, 78, 45, 86,
      49, 0]

  lemma DomainSpells()
    ensures var text := "TENKAI-CHANGE-SET-PIN-V1";
            |DOMAIN| == |text| + 1 && DOMAIN[|text|] == 0 && forall i :: 0 <= i < |text| ==> DOMAIN[i] == text[i] as int
  {
  }

  function HeaderTexts(h: Header): (texts: seq<Text>)
    ensures |texts| == 7
  {
    [h.contract, h.namespace, h.branchId, h.proposalId, h.baseDigest, h.closureDigest, h.receiptDigest]
  }

  function MemberTexts(members: seq<Member>): (texts: seq<Text>)
    ensures |texts| == |members| * 3
  {
    if members == [] then []
    else [members[0].kind, members[0].id, members[0].digest] + MemberTexts(members[1..])
  }

  function PinBytes(pin: Pin): (bytes: Bytes) {
    DOMAIN + Document(HeaderTexts(pin.header), |pin.members|, MemberTexts(pin.members))
  }

  /** The bytes `digest` hashes for a valid pin. */
  method DigestInput(pin: Pin) returns (output: Bytes)
    ensures output == PinBytes(pin)
  {
    output := PushAll(DOMAIN, HeaderTexts(pin.header));
    output := output + BigEndian(|pin.members|, 8);
    output := PushMembers(output, pin.members);
  }

  method PushMembers(output: Bytes, members: seq<Member>) returns (longer: Bytes)
    ensures longer == output + Frames(MemberTexts(members))
  {
    longer := output;
    for i := 0 to |members|
      invariant longer == output + Frames(MemberTexts(members[..i]))
    {
      longer := PushLenPrefixed(longer, members[i].kind);
      longer := PushLenPrefixed(longer, members[i].id);
      longer := PushLenPrefixed(longer, members[i].digest);
      MemberFrames(members, i);
      RegroupThree(output, Frames(MemberTexts(members[..i])), members[i]);
    }
    assert members[..|members|] == members;
  }

  lemma RegroupThree(output: Bytes, done: Bytes, m: Member)
    ensures output + done + Frame(m.kind) + Frame(m.id) + Frame(m.digest)
         == output + (done + Frame(m.kind) + Frame(m.id) + Frame(m.digest))
  {
    Regroup(output, done, Frame(m.kind));
    Regroup(output, done + Frame(m.kind), Frame(m.id));
    Regroup(output, done + Frame(m.kind) + Frame(m.id), Frame(m.digest));
  }

  lemma MemberFrames(members: seq<Member>, i: nat)
    requires i < |members|
    ensures Frames(MemberTexts(members[..i + 1]))
         == Frames(MemberTexts(members[..i])) + Frame(members[i].kind) + Frame(members[i].id) + Frame(members[i].digest)
  {
    ThreeMore(MemberTexts(members[..i]), members[i]);
    MemberTextsAppend(members[..i], members[i]);
    assert members[..i + 1] == members[..i] + [members[i]];
  }

  lemma ThreeMore(texts: seq<Text>, m: Member)
    ensures Frames(texts + [m.kind, m.id, m.digest]) == Frames(texts) + Frame(m.kind) + Frame(m.id) + Frame(m.digest)
  {
    FramesAppend(texts, m.kind);
    FramesAppend(texts + [m.kind], m.id);
    FramesAppend(texts + [m.kind] + [m.id], m.digest);
    assert texts + [m.kind, m.id, m.digest] == texts + [m.kind] + [m.id] + [m.digest];
  }

  lemma {:induction false} MemberTextsAppend(members: seq<Member>, last: Member)
    ensures MemberTexts(members + [last]) == MemberTexts(members) + [last.kind, last.id, last.digest]
  {
    if members == [] {
      assert MemberTexts([last]) == [last.kind, last.id, last.digest] + MemberTexts([]);
    } else {
      MemberTextsAppend(members[1..], last);
      assert (members + [last])[1..] == members[1..] + [last];
    }
  }

  lemma {:induction false} MemberTextsInjective(a: seq<Member>, b: seq<Member>)
    requires |a| == |b| && MemberTexts(a) == MemberTexts(b)
    ensures a == b
  {
    if a != [] {
      var x, y := MemberTexts(a), MemberTexts(b);
      assert x[0] == y[0] && x[1] == y[1] && x[2] == y[2];
      assert x[3..] == MemberTexts(a[1..]) && y[3..] == MemberTexts(b[1..]);
      MemberTextsInjective(a[1..], b[1..]);
      assert a == [a[0]] + a[1..] && b == [b[0]] + b[1..];
    }
  }

  /** Equal bytes are hashed only for equal pins. */
  lemma PinInjective(a: Pin, b: Pin)
    requires |a.members| < 0x1_0000_0000_0000_0000 && |b.members| < 0x1_0000_0000_0000_0000
    requires PinBytes(a) == PinBytes(b)
    ensures a == b
  {
    CutHead(DOMAIN, Document(HeaderTexts(a.header), |a.members|, MemberTexts(a.members)),
            DOMAIN, Document(HeaderTexts(b.header), |b.members|, MemberTexts(b.members)));
    DocumentInjective(HeaderTexts(a.header), |a.members|, MemberTexts(a.members),
                      HeaderTexts(b.header), |b.members|, MemberTexts(b.members), 3);
    MemberTextsInjective(a.members, b.members);
    var x, y := HeaderTexts(a.header), HeaderTexts(b.header);
    assert x[0] == y[0] && x[1] == y[1] && x[2] == y[2] && x[3] == y[3] && x[4] == y[4] && x[5] == y[5] && x[6] == y[6];
  }

  // ----- Validity -----

  ghost predicate ValidMember(rules: Rules, m: Member) {
    rules.kind(m.kind) && rules.identifier(m.id) && rules.digest(m.digest)
  }

  ghost predicate ValidMembers(rules: Rules, members: seq<Member>) {
    && 1 <= |members| <= 32
    && (forall i :: 0 <= i < |members| ==> ValidMember(rules, members[i]))
    && Ascending(members)
  }

  /** Comparing each member with the one before decides that no key repeats anywhere. */
  method ValidateMembers(rules: Rules, members: seq<Member>) returns (ok: bool)
    ensures ok <==> ValidMembers(rules, members)
  {
    if members == [] || |members| > MAX_MEMBERS { return false; }
    var previous: Option<Member> := None;
    for i := 0 to |members|
      invariant forall k :: 0 <= k < i ==> ValidMember(rules, members[k])
      invariant Ascending(members[..i])
      invariant previous == if i == 0 then None else Some(members[i - 1])
    {
      var member := members[i];
      if !(rules.kind(member.kind) && rules.identifier(member.id) && rules.digest(member.digest)) { return false; }
      if previous.Some? && !KeyLess(previous.value, member) { return false; }
      AscendingMore(members, i);
      previous := Some(member);
    }
    assert members[..|members|] == members;
    ok := true;
  }

  lemma AscendingMore(members: seq<Member>, i: nat)
    requires i < |members| && Ascending(members[..i]) && (i > 0 ==> KeyLess(members[i - 1], members[i]))
    ensures Ascending(members[..i + 1])
  {
    forall k | 0 <= k < i
      ensures KeyLess(members[k], members[i])
    {
      assert k < i - 1 ==> KeyLess(members[..i][k], members[..i][i - 1]);
      KeyOrder(members[k], members[i - 1], members[i]);
    }
  }

  ghost predicate ValidHeader(rules: Rules, h: Header) {
    && h.contract == rules.contract
    && rules.identifier(h.namespace) && rules.identifier(h.branchId) && rules.identifier(h.proposalId)
    && rules.digest(h.baseDigest) && rules.digest(h.closureDigest) && rules.digest(h.receiptDigest)
  }

  ghost predicate ValidPin(rules: Rules, pin: Pin) {
    ValidHeader(rules, pin.header) && ValidMembers(rules, pin.members)
  }

  /** `from_section`: sort, then validate. */
  ghost function FromSection(rules: Rules, section: Pin): (pin: Result<Pin>) {
    var pin := section.(members := Canonical(section.members));
    if ValidPin(rules, pin) then Ok(pin) else Err
  }

  /** No two members share kind and id. */
  ghost predicate NoKeyTwice(members: seq<Member>) {
    forall i, j :: 0 <= i < j < |members| ==> members[i].kind != members[j].kind || members[i].id != members[j].id
  }

  /**
    A section, its members in any order, is accepted exactly when every text of the header is right
    and it has 1 to 32 members, each valid, of which no two share kind and id.
   */
  lemma SectionAcceptedExactlyWhen(rules: Rules, section: Pin)
    ensures FromSection(rules, section).Ok? <==>
            && RightHeader(rules, section.header) && 1 <= |section.members| <= 32
            && NoKeyTwice(section.members)
            && (forall m :: m in section.members ==> rules.kind(m.kind) && rules.identifier(m.id) && rules.digest(m.digest))
  {
    HeaderAcceptedExactlyWhen(rules, section.header);
    AscendingExactlyWhenDistinct(section.members);
    SameValidity(rules, section.members, Canonical(section.members));
  }

  lemma SameValidity(rules: Rules, members: seq<Member>, sorted: seq<Member>)
    requires multiset(members) == multiset(sorted)
    ensures |members| == |sorted|
    ensures (forall i :: 0 <= i < |sorted| ==> ValidMember(rules, sorted[i])) <==>
            forall m :: m in members ==> rules.kind(m.kind) && rules.identifier(m.id) && rules.digest(m.digest)
  {
    assert |members| == |multiset(members)| && |sorted| == |multiset(sorted)|;
    assert forall m :: m in members <==> m in multiset(members);
    assert forall m :: m in sorted <==> m in multiset(sorted);
    assert forall i :: 0 <= i < |sorted| ==> sorted[i] in sorted;
  }

  ghost predicate RightHeader(rules: Rules, h: Header) {
    && h.contract == rules.contract
    && (forall text :: text in [h.namespace, h.branchId, h.proposalId] ==> rules.identifier(text))
    && (forall text :: text in [h.baseDigest, h.closureDigest, h.receiptDigest] ==> rules.digest(text))
  }

  lemma HeaderAcceptedExactlyWhen(rules: Rules, h: Header)
    ensures ValidHeader(rules, h) <==> RightHeader(rules, h)
  {
    assert h.namespace in [h.namespace, h.branchId, h.proposalId] && h.branchId in [h.namespace, h.branchId, h.proposalId];
    assert h.proposalId in [h.namespace, h.branchId, h.proposalId];
    assert h.baseDigest in [h.baseDigest, h.closureDigest, h.receiptDigest];
    assert h.closureDigest in [h.baseDigest, h.closureDigest, h.receiptDigest];
    assert h.receiptDigest in [h.baseDigest, h.closureDigest, h.receiptDigest];
  }

  /** Writing the members in another order changes neither whether a section is accepted nor its pin. */
  lemma ReorderedSection(rules: Rules, a: Pin, b: Pin)
    requires a.header == b.header && multiset(a.members) == multiset(b.members)
    ensures FromSection(rules, a) == FromSection(rules, b)
  {
    if FromSection(rules, a).Ok? {
      SameCanonicalExactlyWhenReordered(a.members, b.members);
    }
    if FromSection(rules, b).Ok? {
      SameCanonicalExactlyWhenReordered(b.members, a.members);
    }
  }

  /** Two accepted sections have the same digest input exactly when they are one section up to member order. */
  lemma SameBytesExactlyWhenReordered(rules: Rules, a: Pin, b: Pin)
    requires FromSection(rules, a).Ok? && FromSection(rules, b).Ok?
    ensures PinBytes(FromSection(rules, a).value) == PinBytes(FromSection(rules, b).value)
       <==> a.header == b.header && multiset(a.members) == multiset(b.members)
  {
    var p, q := FromSection(rules, a).value, FromSection(rules, b).value;
    SameCanonicalExactlyWhenReordered(a.members, b.members);
    if PinBytes(p) == PinBytes(q) {
      PinInjective(p, q);
    }
  }

  // ----- Admission -----

  /** `validate_structure`: incomplete evidence may hold any members, up to the limit. */
  ghost predicate ValidEvidence(rules: Rules, e: Evidence) {
    && e.schema == rules.schema && !e.status.Unknown? && ValidHeader(rules, e.header)
    && (if e.status.Incomplete? then |e.members| <= MAX_MEMBERS else ValidMembers(rules, e.members))
  }

  /** `load_evidence` for a document: sort, then validate. */
  ghost function LoadEvidence(rules: Rules, document: Evidence): (evidence: Result<Evidence>) {
    var e := document.(members := Canonical(document.members));
    if ValidEvidence(rules, e) then Ok(e) else Err
  }

  /** Evidence loads exactly when its schema, status and header are right and, unless incomplete, its members too. */
  lemma EvidenceLoadsExactlyWhen(rules: Rules, document: Evidence)
    ensures LoadEvidence(rules, document).Ok? <==>
            && document.schema == rules.schema && !document.status.Unknown? && RightHeader(rules, document.header)
            && |document.members| <= 32
            && (!document.status.Incomplete? ==>
                  && document.members != [] && NoKeyTwice(document.members)
                  && forall m :: m in document.members ==>
                       rules.kind(m.kind) && rules.identifier(m.id) && rules.digest(m.digest))
  {
    HeaderAcceptedExactlyWhen(rules, document.header);
    AscendingExactlyWhenDistinct(document.members);
    SameValidity(rules, document.members, Canonical(document.members));
  }

  /** `require_accepted_match` */
  ghost predicate AcceptedMatch(pin: Pin, evidence: Evidence) {
    evidence.authorized && evidence.status.Accepted? && evidence.header == pin.header && evidence.members == pin.members
  }

  datatype Admitted = Admitted(pin: Pin, evidence: Evidence, digest: Bytes)

  /** `admit_pin` on a document; the digest is kept as the bytes hashed. */
  ghost function Admit(rules: Rules, section: Pin, document: Evidence): (admitted: Result<Admitted>) {
    var pin := FromSection(rules, section);
    var evidence := LoadEvidence(rules, document);
    if pin.Ok? && evidence.Ok? && AcceptedMatch(pin.value, evidence.value)
    then Ok(Admitted(pin.value, evidence.value, PinBytes(pin.value))) else Err
  }

  ghost predicate Vouches(rules: Rules, document: Evidence, section: Pin) {
    && document.schema == rules.schema && document.authorized && document.status.Accepted?
    && document.header == section.header && multiset(document.members) == multiset(section.members)
  }

  /**
    A section is admitted exactly when authorized, accepted evidence names the same header and the
    same members, in any order.
   */
  lemma AdmittedExactlyWhenAccepted(rules: Rules, section: Pin, document: Evidence)
    ensures Admit(rules, section, document).Ok? <==>
              FromSection(rules, section).Ok? && Vouches(rules, document, section)
  {
    if FromSection(rules, section).Ok? {
      SameCanonicalExactlyWhenReordered(section.members, document.members);
      var pin := FromSection(rules, section).value;
      var e := document.(members := Canonical(document.members));
      assert AcceptedMatch(pin, e) && e.schema == rules.schema <==> Vouches(rules, document, section);
      if AcceptedMatch(pin, e) {
        MatchIsValid(rules, pin, e);
      }
    }
  }

  lemma MatchIsValid(rules: Rules, pin: Pin, e: Evidence)
    requires ValidPin(rules, pin) && AcceptedMatch(pin, e)
    ensures ValidEvidence(rules, e) <==> e.schema == rules.schema
  {
  }

  /** One document admits sections of one digest only. */
  lemma EvidenceFixesDigest(rules: Rules, a: Pin, b: Pin, document: Evidence)
    requires Admit(rules, a, document).Ok? && Admit(rules, b, document).Ok?
    ensures Admit(rules, a, document).value.digest == Admit(rules, b, document).value.digest
  {
    AdmittedExactlyWhenAccepted(rules, a, document);
    AdmittedExactlyWhenAccepted(rules, b, document);
    SameBytesExactlyWhenReordered(rules, a, b);
  }

  /** `stored_projection`: the checks on what a release stores, digests compared by the bytes they are of. */
  ghost predicate ReadsBack(rules: Rules, stored: Admitted) {
    && ValidPin(rules, stored.pin) && ValidEvidence(rules, stored.evidence)
    && AcceptedMatch(stored.pin, stored.evidence) && stored.digest == PinBytes(stored.pin)
  }

  /** What is admitted reads back, and what reads back is exactly what admitting it again would store. */
  lemma StoredExactlyWhenAdmitted(rules: Rules, stored: Admitted)
    ensures ReadsBack(rules, stored) <==> Admit(rules, stored.pin, stored.evidence) == Ok(stored)
    ensures forall section, document :: Admit(rules, section, document) == Ok(stored) ==> ReadsBack(rules, stored)
  {
    if ReadsBack(rules, stored) {
      OneOrder(stored.pin.members, Canonical(stored.pin.members));
    }
  }
}
