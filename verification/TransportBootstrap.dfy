/** The bootstrap text that one device shows the other: a prefix and 216 bytes in base64url. */
module TransportBootstrap {
  import opened Bits
  import opened BigEndian
  import opened Buffers
  import opened Wrappers
  import Base64Url

  const PREFIX: string := "phil-step6c-routine-v1:"
  const MAGIC: seq<Byte> := [0x50, 0x48, 0x49, 0x4C, 0x36, 0x43, 0x30, 0x31]

  /** What the codec is built on: the hashes of the two endpoint paths, and which 65-byte
      strings are points of the curve. */
  datatype Setting = Setting(beginHash: seq<Byte>, completeHash: seq<Byte>, isPoint: seq<Byte> -> bool) {
    predicate Valid() { |beginHash| == 32 && |completeHash| == 32 }
  }

  datatype Bootstrap = Bootstrap(
    sessionId: seq<Byte>, ipv4: seq<Byte>, port: nat, desktopKey: seq<Byte>, requestId: seq<Byte>, expiresAt: nat)

  predicate NonZero(b: seq<Byte>) {
    exists i :: 0 <= i < |b| && b[i] != 0
  }

  /** The private address ranges of RFC 1918. */
  predicate PrivateAddress(a: seq<Byte>) {
    |a| == 4 && (a[0] == 10 || (a[0] == 172 && 16 <= a[1] <= 31) || (a[0] == 192 && a[1] == 168))
  }

  predicate Acceptable(st: Setting, x: Bootstrap) {
    |x.sessionId| == 32 && NonZero(x.sessionId) && PrivateAddress(x.ipv4) && 1 <= x.port < 0x1_0000
    && |x.desktopKey| == 65 && x.desktopKey[0] == 4 && st.isPoint(x.desktopKey)
    && |x.requestId| == 32 && NonZero(x.requestId) && 1 <= x.expiresAt < 0x1_0000_0000_0000_0000
  }

  /** The 216 bytes: magic, version, session, address, port, path hashes, key, request, expiry. */
  function Layout(st: Setting, x: Bootstrap): seq<Byte> {
    MAGIC + ([1] + (x.sessionId + (x.ipv4 + (Fixed(x.port, 2) + Back(st, x)))))
  }

  function Back(st: Setting, x: Bootstrap): seq<Byte> {
    st.beginHash + (st.completeHash + (x.desktopKey + (x.requestId + (Fixed(x.expiresAt, 8) + []))))
  }

  function Encode(st: Setting, x: Bootstrap): Option<string>
    requires st.Valid()
  {
    if Acceptable(st, x) then Some(PREFIX + Base64Url.Encode(Layout(st, x))) else None
  }

  function Fields(b: seq<Byte>): Bootstrap
    requires |b| == 216
  {
    Bootstrap(b[9..41], b[41..45], Value(b[45..47]), b[111..176], b[176..208], Value(b[208..216]))
  }

  function Decode(st: Setting, text: string): Option<Bootstrap>
    requires st.Valid()
  {
    if !(PREFIX <= text) then None
    else
      match Base64Url.Decode(text[|PREFIX|..])
      case None => None
      case Some(b) =>
        if |b| != 216 || b[..8] != MAGIC || b[8] != 1 then None
        else if b[47..79] != st.beginHash || b[79..111] != st.completeHash then None
        else
          var x := Fields(b);
          if !Acceptable(st, x) || Encode(st, x) != Some(text) then None else Some(x)
  }

  lemma Sizes(st: Setting, x: Bootstrap)
    requires st.Valid() && Acceptable(st, x)
    ensures |Layout(st, x)| == 216 && |MAGIC| == 8
  {
  }

  /** Each part of the layout stands at the offset where the decoder reads it. */
  lemma Parts(st: Setting, x: Bootstrap)
    requires st.Valid() && Acceptable(st, x)
    ensures var b := Layout(st, x);
      |b| == 216 && Reads(b, 0, MAGIC) && Reads(b, 8, [1]) && Reads(b, 9, x.sessionId) && Reads(b, 41, x.ipv4)
      && Reads(b, 45, Fixed(x.port, 2)) && Reads(b, 47, st.beginHash) && Reads(b, 79, st.completeHash)
      && Reads(b, 111, x.desktopKey) && Reads(b, 176, x.requestId) && Reads(b, 208, Fixed(x.expiresAt, 8))
  {
    hide Fixed, NonZero, PrivateAddress, Reads, MAGIC;
    var b := Layout(st, x);
    AllReads(b);
    Sizes(st, x);
    Five(b, 0, MAGIC, [1], x.sessionId, x.ipv4, Fixed(x.port, 2), Back(st, x));
    Five(b, 47, st.beginHash, st.completeHash, x.desktopKey, x.requestId, Fixed(x.expiresAt, 8), []);
  }

  /** Five consecutive parts and what follows them. */
  lemma Five(b: seq<Byte>, at: nat, p: seq<Byte>, q: seq<Byte>, r: seq<Byte>, s: seq<Byte>, t: seq<Byte>, rest: seq<Byte>)
    requires Reads(b, at, p + (q + (r + (s + (t + rest)))))
    ensures Reads(b, at, p) && Reads(b, at + |p|, q) && Reads(b, at + |p| + |q|, r) && Reads(b, at + |p| + |q| + |r|, s)
    ensures Reads(b, at + |p| + |q| + |r| + |s|, t) && Reads(b, at + |p| + |q| + |r| + |s| + |t|, rest)
  {
    hide Reads;
    ReadsAfter(b, at, p, q + (r + (s + (t + rest))));
    ReadsAfter(b, at + |p|, q, r + (s + (t + rest)));
    ReadsAfter(b, at + |p| + |q|, r, s + (t + rest));
    ReadsAfter(b, at + |p| + |q| + |r|, s, t + rest);
    ReadsAfter(b, at + |p| + |q| + |r| + |s|, t, rest);
  }

  lemma AllReads(b: seq<Byte>)
    ensures Reads(b, 0, b)
  {
  }

  lemma FixedValues(x: Bootstrap)
    requires x.port < 0x1_0000 && x.expiresAt < 0x1_0000_0000_0000_0000
    ensures Value(Fixed(x.port, 2)) == x.port && Value(Fixed(x.expiresAt, 8)) == x.expiresAt
  {
    assert Pow256(2) == 0x1_0000;
    assert Pow256(8) == 0x1_0000_0000_0000_0000;
    ValueOfFixed(x.port, 2);
    ValueOfFixed(x.expiresAt, 8);
  }

  lemma FieldsOfLayout(st: Setting, x: Bootstrap)
    requires st.Valid() && Acceptable(st, x)
    ensures |Layout(st, x)| == 216 && Fields(Layout(st, x)) == x
    ensures var b := Layout(st, x); b[..8] == MAGIC && b[8] == 1 && b[47..79] == st.beginHash && b[79..111] == st.completeHash
  {
    hide Fixed, Value, NonZero, Layout, MAGIC;
    Sizes(st, x);
    Parts(st, x);
    FixedValues(x);
    var b := Layout(st, x);
    assert b[8..9][0] == b[8];
    assert b[..8] == b[0..8];
  }

  /** Decoding and encoding are inverse both ways: a text decodes to x exactly when x encodes
      to that text. */
  lemma DecodeExactly(st: Setting, text: string, x: Bootstrap)
    requires st.Valid()
    ensures Decode(st, text) == Some(x) <==> Encode(st, x) == Some(text)
  {
    hide Base64Url.Encode, Base64Url.Decode, Layout, Fields, Acceptable, PREFIX;
    if Encode(st, x) == Some(text) {
      var b := Layout(st, x);
      FieldsOfLayout(st, x);
      Base64Url.DecodeExactly(Base64Url.Encode(b), b);
      assert text[|PREFIX|..] == Base64Url.Encode(b);
    }
  }
}
