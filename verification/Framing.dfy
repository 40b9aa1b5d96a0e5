/** The length-prefixed byte framing every digest of this system is taken over. */
module Framing {

  type Byte = b: int | 0 <= b < 256

  type Bytes = seq<Byte>

  /** A text as its bytes; no text in memory reaches 2^64 bytes. */
  type Text = t: Bytes | |t| < 0x1_0000_0000_0000_0000

  // ----- Big-endian numbers -----

  function Power(width: nat): (p: nat)
    ensures p > 0
  {
    if width == 0 then 1 else 256 * Power(width - 1)
  }

  /** `to_be_bytes`: the low `width` bytes of `n`, the highest first. */
  function BigEndian(n: nat, width: nat): (bytes: Bytes)
    ensures |bytes| == width
  {
    if width == 0 then [] else BigEndian(n / 256, width - 1) + [n % 256]
  }

  function FromBigEndian(bytes: Bytes): (n: nat) {
    if bytes == [] then 0 else 256 * FromBigEndian(bytes[..|bytes| - 1]) + bytes[|bytes| - 1]
  }

  lemma {:induction false} BigEndianRoundTrip(n: nat, width: nat)
    requires n < Power(width)
    ensures FromBigEndian(BigEndian(n, width)) == n
  {
    if width > 0 {
      BigEndianRoundTrip(n / 256, width - 1);
      var bytes := BigEndian(n, width);
      assert bytes[..width - 1] == BigEndian(n / 256, width - 1);
    }
  }

  /** The eight bytes that carry a length. */
  function Length(n: nat): (bytes: Bytes)
    ensures |bytes| == 8
  {
    BigEndian(n, 8)
  }

  lemma EightBytes()
    ensures Power(8) == 0x1_0000_0000_0000_0000
  {
    assert Power(4) == 0x1_0000_0000;
    assert Power(6) == 0x1_0000_0000_0000;
  }

  lemma LengthInjective(m: nat, n: nat)
    requires m < 0x1_0000_0000_0000_0000 && n < 0x1_0000_0000_0000_0000
    requires Length(m) == Length(n)
    ensures m == n
  {
    EightBytes();
    BigEndianRoundTrip(m, 8);
    BigEndianRoundTrip(n, 8);
  }

  // ----- Frames -----

  function Frame(text: Text): (bytes: Bytes)
    ensures |bytes| == 8 + |text|
  {
    Length(|text|) + text
  }

  function Frames(texts: seq<Text>): (bytes: Bytes) {
    if texts == [] then [] else Frame(texts[0]) + Frames(texts[1..])
  }

  /** `push_len_prefixed` */
  method PushLenPrefixed(output: Bytes, value: Text) returns (longer: Bytes)
    ensures longer == output + Frame(value)
  {
    longer := output + BigEndian(|value|, 8);
    longer := longer + value;
  }

  lemma {:induction false} FramesAppend(texts: seq<Text>, last: Text)
    ensures Frames(texts + [last]) == Frames(texts) + Frame(last)
  {
    if texts == [] {
      assert Frames([last]) == Frame(last) + Frames([]);
    } else {
      FramesAppend(texts[1..], last);
      assert (texts + [last])[1..] == texts[1..] + [last];
    }
  }

  lemma Regroup(a: Bytes, b: Bytes, c: Bytes)
    ensures (a + b) + c == a + (b + c)
  {
  }

  /** Equal heads of equal length can be cut off. */
  lemma CutHead(a: Bytes, x: Bytes, b: Bytes, y: Bytes)
    requires |a| == |b| && a + x == b + y
    ensures a == b && x == y
  {
    assert a == (a + x)[..|a|] && b == (b + y)[..|b|];
    assert x == (a + x)[|a|..] && y == (b + y)[|b|..];
  }

  /** A frame tells where it ends, whatever follows. */
  lemma FramePrefixFree(a: Text, x: Bytes, b: Text, y: Bytes)
    requires Frame(a) + x == Frame(b) + y
    ensures a == b && x == y
  {
    Regroup(Length(|a|), a, x);
    Regroup(Length(|b|), b, y);
    CutHead(Length(|a|), a + x, Length(|b|), b + y);
    LengthInjective(|a|, |b|);
    CutHead(a, x, b, y);
  }

  /** Frames of as many texts are equal only for equal texts, whatever follows. */
  lemma {:induction false} FramesPrefixFree(a: seq<Text>, x: Bytes, b: seq<Text>, y: Bytes)
    requires |a| == |b| && Frames(a) + x == Frames(b) + y
    ensures a == b && x == y
  {
    if a == [] {
      assert Frames(a) + x == x && Frames(b) + y == y;
    } else {
      FirstFrame(a, x);
      FirstFrame(b, y);
      FramePrefixFree(a[0], Frames(a[1..]) + x, b[0], Frames(b[1..]) + y);
      FramesPrefixFree(a[1..], x, b[1..], y);
    }
  }

  lemma FirstFrame(texts: seq<Text>, x: Bytes)
    requires texts != []
    ensures Frames(texts) + x == Frame(texts[0]) + (Frames(texts[1..]) + x)
    ensures texts == [texts[0]] + texts[1..]
  {
    Regroup(Frame(texts[0]), Frames(texts[1..]), x);
    assert texts == [texts[0]] + texts[1..];
  }

  /** A header of a fixed number of texts, a counted list, and texts for that list. */
  function Document(header: seq<Text>, count: nat, rest: seq<Text>): (bytes: Bytes) {
    Frames(header) + Length(count) + Frames(rest)
  }

  /** Equal only for equal parts, when the count fixes how many texts follow. */
  lemma DocumentInjective(h: seq<Text>, m: nat, r: seq<Text>, g: seq<Text>, n: nat, s: seq<Text>, per: nat)
    requires |h| == |g| && |r| == m * per && |s| == n * per
    requires m < 0x1_0000_0000_0000_0000 && n < 0x1_0000_0000_0000_0000
    requires Document(h, m, r) == Document(g, n, s)
    ensures h == g && m == n && r == s
  {
    Regroup(Frames(h), Length(m), Frames(r));
    Regroup(Frames(g), Length(n), Frames(s));
    FramesPrefixFree(h, Length(m) + Frames(r), g, Length(n) + Frames(s));
    CutHead(Length(m), Frames(r), Length(n), Frames(s));
    LengthInjective(m, n);
    assert Frames(r) + [] == Frames(s) + [];
    FramesPrefixFree(r, [], s, []);
  }

  // ----- The identity of an upgrade -----

  datatype Identity = Identity(name: Text, product: Text, version: Text, channel: Text, releaseId: Text,
                               releaseDigest: Text, artifactDigest: Text, environments: seq<Text>)

  function IdentityHeader(id: Identity): (texts: seq<Text>) {
    [id.name, id.product, id.version, id.channel, id.releaseId, id.releaseDigest, id.artifactDigest]
  }

  function IdentityBytes(id: Identity): (bytes: Bytes) {
    Document(IdentityHeader(id), |id.environments|, id.environments)
  }

  /** The bytes `identity_digest` hashes. */
  method IdentityPayload(id: Identity) returns (payload: Bytes)
    ensures payload == IdentityBytes(id)
  {
    payload := PushAll([], IdentityHeader(id));
    payload := payload + BigEndian(|id.environments|, 8);
    payload := PushAll(payload, id.environments);
  }

  method PushAll(output: Bytes, values: seq<Text>) returns (longer: Bytes)
    ensures longer == output + Frames(values)
  {
    longer := output;
    for i := 0 to |values|
      invariant longer == output + Frames(values[..i])
    {
      longer := PushLenPrefixed(longer, values[i]);
      FramesAppend(values[..i], values[i]);
      assert values[..i + 1] == values[..i] + [values[i]];
    }
    assert values[..|values|] == values;
  }

  lemma IdentityInjective(a: Identity, b: Identity)
    requires |a.environments| < 0x1_0000_0000_0000_0000 && |b.environments| < 0x1_0000_0000_0000_0000
    requires IdentityBytes(a) == IdentityBytes(b)
    ensures a == b
  {
    DocumentInjective(IdentityHeader(a), |a.environments|, a.environments, IdentityHeader(b), |b.environments|,
        b.environments, 1);
    var x, y := IdentityHeader(a), IdentityHeader(b);
    assert x[0] == y[0] && x[1] == y[1] && x[2] == y[2] && x[3] == y[3] && x[4] == y[4] && x[5] == y[5] && x[6] == y[6];
  }
}
