/**
 * P-256 signatures on the wire: the strict DER reader of the routine protocol, its low-S
 * form and 64-byte raw form, and the lenient DER reader of the WebAuthn adapter.
 *
 * The strict reader is shown to accept exactly the distinguished encodings (sections 8.3
 * and 10.1 of ITU-T X.690) of pairs 1 <= r, s < n.
 */
module P256Der {
  import opened Bits
  import opened BigEndian
  import opened Buffers
  import opened Wrappers

  const ORDER: nat := 0xffffffff00000000ffffffffffffffffbce6faada7179e84f3b9cac2fc632551
  const HALF_ORDER: nat := ORDER / 2

  datatype Error = Malformed | LengthInvalid | TrailingBytes | IntegerInvalid | ScalarInvalid | HighS | WidthInvalid

  datatype Result<T> = Ok(value: T) | Err(error: Error)

  /** The two scalars, each as 32 bytes. */
  datatype Components = Components(r: seq<Byte>, s: seq<Byte>)

  // ---- Distinguished encodings ------------------------------------------------

  /** The contents of a non-negative INTEGER: a zero byte keeps the sign bit clear. */
  function IntegerContents(v: nat): seq<Byte> {
    var m := Minimal(v);
    if m[0] >= 0x80 then [0] + m else m
  }

  function DerInteger(v: nat): seq<Byte>
    requires |IntegerContents(v)| < 0x80
  {
    [0x02, |IntegerContents(v)|] + IntegerContents(v)
  }

  predicate InRange(v: int) { 1 <= v < ORDER }

  /** SEQUENCE { r INTEGER, s INTEGER }. */
  function DerSignature(r: nat, s: nat): seq<Byte>
    requires InRange(r) && InRange(s)
  {
    ContentsBound(r);
    ContentsBound(s);
    [0x30, |DerInteger(r)| + |DerInteger(s)|] + (DerInteger(r) + DerInteger(s))
  }

  lemma OrderFits()
    ensures ORDER < Pow256(32)
  {
    assert Pow256(4) == 0x1_0000_0000;
    assert Pow256(8) == 0x1_0000_0000_0000_0000;
    assert Pow256(12) == 0x1_0000_0000_0000_0000_0000_0000;
    assert Pow256(16) == 0x1_0000_0000_0000_0000_0000_0000_0000_0000;
    assert Pow256(20) == 0x1_0000_0000_0000_0000_0000_0000_0000_0000_0000_0000;
    assert Pow256(24) == 0x1_0000_0000_0000_0000_0000_0000_0000_0000_0000_0000_0000_0000;
    assert Pow256(28) == 0x1_0000_0000_0000_0000_0000_0000_0000_0000_0000_0000_0000_0000_0000_0000;
    assert Pow256(32) == 0x1_0000_0000_0000_0000_0000_0000_0000_0000_0000_0000_0000_0000_0000_0000_0000_0000;
  }

  lemma ContentsBound(v: nat)
    requires InRange(v)
    ensures 1 <= |IntegerContents(v)| <= 33
  {
    OrderFits();
    MinimalLength(v, 32);
  }

  // ---- The strict reader ------------------------------------------------------

  datatype Head = Head(length: nat, next: nat)

  /** The length at an offset: short form, or a minimal long form of one or two octets. */
  function LengthAt(input: seq<Byte>, offset: nat): Result<Head> {
    if offset >= |input| then Err(Malformed)
    else if input[offset] < 0x80 then Ok(Head(input[offset], offset + 1))
    else if input[offset] == 0x80 || input[offset] > 0x82 || offset + input[offset] - 0x7F > |input| then Err(LengthInvalid)
    else if input[offset + 1] == 0 then Err(LengthInvalid)
    else if input[offset] == 0x81 then
      if input[offset + 1] < 0x80 then Err(LengthInvalid) else Ok(Head(input[offset + 1], offset + 2))
    else Ok(Head(256 * (input[offset + 1] as int) + input[offset + 2], offset + 3))
  }

  /** The reader's own loop over the octets of a long form. */
  method ReadDerLength(input: seq<Byte>, offset: nat) returns (r: Result<Head>)
    ensures r == LengthAt(input, offset)
  {
    if offset >= |input| { return Err(Malformed); }
    var first := input[offset];
    if first < 0x80 { return Ok(Head(first, offset + 1)); }
    var octets := first - 0x80;
    if octets == 0 || octets > 2 || offset + 1 + octets > |input| { return Err(LengthInvalid); }
    if input[offset + 1] == 0 { return Err(LengthInvalid); }
    var length: nat := 0;
    for i := 0 to octets
      invariant length == Value(input[offset + 1..offset + 1 + i])
    {
      length := 256 * length + input[offset + 1 + i];
      assert input[offset + 1..offset + 2 + i][..i] == input[offset + 1..offset + 1 + i];
    }
    ShortValue(input[offset + 1..offset + 1 + octets]);
    if length < 0x80 { return Err(LengthInvalid); }
    return Ok(Head(length, offset + 1 + octets));
  }

  lemma ShortValue(b: seq<Byte>)
    requires 1 <= |b| <= 2
    ensures Value(b) == if |b| == 1 then b[0] else 256 * (b[0] as int) + b[1]
  {
    assert Value(b[..1]) == b[0] by { assert b[..1][..0] == []; assert Value(b[..1][..0]) == 0; }
    assert |b| == 1 ==> b == b[..1];
  }

  datatype Scalar = Scalar(value: nat, next: nat)

  /** A positive, minimally encoded INTEGER below the group order. */
  function IntegerAt(input: seq<Byte>, offset: nat): Result<Scalar> {
    if offset >= |input| || input[offset] != 0x02 then Err(IntegerInvalid)
    else
      match LengthAt(input, offset + 1)
      case Err(e) => Err(e)
      case Ok(head) =>
        var end := head.next + head.length;
        if head.length == 0 || head.length > 33 || end > |input| then Err(IntegerInvalid)
        else
          var encoded := input[head.next..end];
          if encoded[0] >= 0x80 then Err(IntegerInvalid)
          else if |encoded| > 1 && encoded[0] == 0 && encoded[1] < 0x80 then Err(IntegerInvalid)
          else if |encoded| == 33 && (encoded[0] != 0 || encoded[1] < 0x80) then Err(IntegerInvalid)
          else if !InRange(Value(encoded)) then Err(ScalarInvalid)
          else Ok(Scalar(Value(encoded), end))
  }

  function ScalarOf(b: seq<Byte>): Result<nat> {
    if |b| != 32 then Err(WidthInvalid)
    else if !InRange(Value(b)) then Err(ScalarInvalid)
    else Ok(Value(b))
  }

  function LowS(s: nat): nat
    requires InRange(s)
  {
    if s > HALF_ORDER then ORDER - s else s
  }

  function NormalizeLowS(input: Components): Result<Components> {
    match ScalarOf(input.r)
    case Err(e) => Err(e)
    case Ok(r) =>
      match ScalarOf(input.s)
      case Err(e) => Err(e)
      case Ok(s) => Ok(Components(Fixed(r, 32), Fixed(LowS(s), 32)))
  }

  function ParseSignature(encoded: seq<Byte>): Result<Components> {
    if |encoded| < 8 || encoded[0] != 0x30 then Err(Malformed)
    else
      match LengthAt(encoded, 1)
      case Err(e) => Err(e)
      case Ok(sequence) =>
        if sequence.next + sequence.length != |encoded| then Err(TrailingBytes)
        else
          match IntegerAt(encoded, sequence.next)
          case Err(e) => Err(e)
          case Ok(r) =>
            match IntegerAt(encoded, r.next)
            case Err(e) => Err(e)
            case Ok(s) =>
              if s.next != |encoded| then Err(TrailingBytes)
              else NormalizeLowS(Components(Fixed(r.value, 32), Fixed(s.value, 32)))
  }

  function EncodeRaw(input: Components): Result<seq<Byte>> {
    match NormalizeLowS(input)
    case Err(e) => Err(e)
    case Ok(c) => Ok(c.r + c.s)
  }

  function DecodeRaw(raw: seq<Byte>): Result<Components> {
    if |raw| != 64 then Err(WidthInvalid)
    else
      match ScalarOf(raw[..32])
      case Err(e) => Err(e)
      case Ok(_) =>
        match ScalarOf(raw[32..])
        case Err(e) => Err(e)
        case Ok(s) => if s > HALF_ORDER then Err(HighS) else Ok(Components(raw[..32], raw[32..]))
  }

  // ---- Integers: accepted exactly when distinguished ------------------------------

  /** The three content checks of the reader. */
  predicate MinimalSigned(c: seq<Byte>) {
    1 <= |c| <= 33 && c[0] < 0x80 && (|c| > 1 && c[0] == 0 ==> c[1] >= 0x80)
    && (|c| == 33 ==> c[0] == 0 && c[1] >= 0x80)
  }

  lemma ContentsUnique(c: seq<Byte>)
    requires MinimalSigned(c) && Value(c) > 0
    ensures c == IntegerContents(Value(c))
  {
    if c[0] == 0 {
      assert c == [0] + c[1..];
      LeadingZero(c[1..]);
      MinimalOfValue(c[1..]);
    } else {
      MinimalOfValue(c);
    }
  }

  lemma ContentsAccepted(v: nat)
    requires InRange(v)
    ensures MinimalSigned(IntegerContents(v)) && Value(IntegerContents(v)) == v
  {
    OrderFits();
    MinimalLength(v, 32);
    ValueOfMinimal(v);
    LeadingZero(Minimal(v));
  }

  lemma IntegerAtSound(input: seq<Byte>, offset: nat)
    requires IntegerAt(input, offset).Ok?
    ensures var i := IntegerAt(input, offset).value;
      InRange(i.value) && |IntegerContents(i.value)| <= 33
      && Reads(input, offset, DerInteger(i.value)) && i.next == offset + |DerInteger(i.value)|
  {
    hide Minimal, Value, IntegerContents;
    var i := IntegerAt(input, offset).value;
    var head := LengthAt(input, offset + 1).value;
    assert head.length <= 33 && head.next == offset + 2;
    var c := input[head.next..i.next];
    ContentsUnique(c);
    assert input[offset..i.next] == [0x02, head.length] + c;
  }

  lemma IntegerAtComplete(input: seq<Byte>, offset: nat, v: nat)
    requires InRange(v) && |IntegerContents(v)| <= 33 && Reads(input, offset, DerInteger(v))
    ensures IntegerAt(input, offset) == Ok(Scalar(v, offset + |DerInteger(v)|))
  {
    hide Minimal, Value, IntegerContents;
    ContentsAccepted(v);
    var d, c := DerInteger(v), IntegerContents(v);
    var at := input[offset..offset + |d|];
    assert at[0] == input[offset] && at[1] == input[offset + 1];
    assert input[offset + 2..offset + 2 + |c|] == at[2..] == c;
  }

  // ---- Signatures -------------------------------------------------------------

  lemma ScalarOfFixed(v: nat)
    requires InRange(v)
    ensures ScalarOf(Fixed(v, 32)) == Ok(v)
  {
    hide Fixed, Value, Pow256;
    OrderFits();
    ValueOfFixed(v, 32);
  }

  lemma LowSInRange(s: nat)
    requires InRange(s)
    ensures InRange(LowS(s)) && LowS(s) <= HALF_ORDER
    ensures LowS(s) == if s <= ORDER - s then s else ORDER - s
    ensures LowS(ORDER - s) == LowS(s) && LowS(LowS(s)) == LowS(s)
  {
  }

  lemma NormalizeFixed(r: nat, s: nat)
    requires InRange(r) && InRange(s)
    ensures NormalizeLowS(Components(Fixed(r, 32), Fixed(s, 32))) == Ok(Components(Fixed(r, 32), Fixed(LowS(s), 32)))
  {
    hide Fixed, Value, Pow256;
    ScalarOfFixed(r);
    ScalarOfFixed(s);
  }

  /** The distinguished encoding read back. */
  lemma ParseOfDer(r: nat, s: nat)
    requires InRange(r) && InRange(s)
    ensures ParseSignature(DerSignature(r, s)) == Ok(Components(Fixed(r, 32), Fixed(LowS(s), 32)))
  {
    hide Fixed, Value, Pow256, Minimal, IntegerContents, NormalizeLowS, IntegerAt;
    ContentsBound(r);
    ContentsBound(s);
    var b, dr, ds := DerSignature(r, s), DerInteger(r), DerInteger(s);
    assert Reads(b, 2, dr);
    assert Reads(b, 2 + |dr|, ds);
    IntegerAtComplete(b, 2, r);
    IntegerAtComplete(b, 2 + |dr|, s);
    NormalizeFixed(r, s);
  }

  /** Whatever is accepted is the distinguished encoding of an in-range pair. */
  lemma ParseSound(b: seq<Byte>) returns (r: nat, s: nat)
    requires ParseSignature(b).Ok?
    ensures InRange(r) && InRange(s) && b == DerSignature(r, s)
  {
    hide Fixed, Value, Pow256, Minimal, IntegerContents, NormalizeLowS, IntegerAt;
    var sequence := LengthAt(b, 1).value;
    var first := IntegerAt(b, sequence.next).value;
    var second := IntegerAt(b, first.next).value;
    IntegerAtSound(b, sequence.next);
    IntegerAtSound(b, first.next);
    r, s := first.value, second.value;
    ContentsBound(r);
    ContentsBound(s);
    var dr, ds := DerInteger(r), DerInteger(s);
    assert sequence.length == |dr| + |ds| <= 70;
    assert sequence.next == 2;
    assert b == [b[0], b[1]] + (b[2..2 + |dr|] + b[2 + |dr|..]);
  }

  /** The strict reader, exactly: which byte strings, and what it returns for each. */
  lemma StrictExactly(b: seq<Byte>, c: Components)
    ensures ParseSignature(b) == Ok(c)
       <==> exists r: nat, s: nat :: InRange(r) && InRange(s) && b == DerSignature(r, s)
                                     && c == Components(Fixed(r, 32), Fixed(LowS(s), 32))
  {
    hide ParseSignature, DerSignature, Fixed;
    if ParseSignature(b) == Ok(c) {
      var r, s := ParseSound(b);
      ParseOfDer(r, s);
    }
    if r: nat, s: nat :| InRange(r) && InRange(s) && b == DerSignature(r, s)
                         && c == Components(Fixed(r, 32), Fixed(LowS(s), 32)) {
      ParseOfDer(r, s);
    }
  }

  /** One encoding, one pair: reading the two integers inverts the encoder. */
  lemma DerInjective(r: nat, s: nat, r': nat, s': nat)
    requires InRange(r) && InRange(s) && InRange(r') && InRange(s')
    requires DerSignature(r, s) == DerSignature(r', s')
    ensures r == r' && s == s'
  {
    hide Fixed, Value, Pow256, Minimal, IntegerContents, IntegerAt;
    ContentsBound(r);
    ContentsBound(s);
    ContentsBound(r');
    ContentsBound(s');
    var b := DerSignature(r, s);
    assert Reads(b, 2, DerInteger(r)) && Reads(b, 2, DerInteger(r'));
    IntegerAtComplete(b, 2, r);
    IntegerAtComplete(b, 2, r');
    var next := 2 + |DerInteger(r)|;
    assert Reads(b, next, DerInteger(s)) && Reads(b, next, DerInteger(s'));
    IntegerAtComplete(b, next, s);
    IntegerAtComplete(b, next, s');
  }

  // ---- The raw form ------------------------------------------------------------

  lemma ScalarOfOk(b: seq<Byte>)
    requires ScalarOf(b).Ok?
    ensures Fixed(Value(b), 32) == b && ScalarOf(b).value == Value(b)
  {
    FixedOfValue(b);
  }

  /** Decoding what was encoded gives the normalized pair, and fails exactly as normalizing does. */
  lemma DecodeOfEncode(c: Components)
    ensures EncodeRaw(c).Err? <==> NormalizeLowS(c).Err?
    ensures EncodeRaw(c).Ok? ==> DecodeRaw(EncodeRaw(c).value) == NormalizeLowS(c)
  {
    hide Fixed, Value, Pow256;
    if NormalizeLowS(c).Ok? {
      var n := NormalizeLowS(c).value;
      ScalarOfFixed(Value(c.r));
      LowSInRange(Value(c.s));
      ScalarOfFixed(LowS(Value(c.s)));
      var raw := EncodeRaw(c).value;
      assert raw[..32] == n.r && raw[32..] == n.s;
    }
  }

  /** Encoding what was decoded gives back the same 64 bytes. */
  lemma EncodeOfDecode(raw: seq<Byte>)
    requires DecodeRaw(raw).Ok?
    ensures NormalizeLowS(DecodeRaw(raw).value) == DecodeRaw(raw)
    ensures EncodeRaw(DecodeRaw(raw).value) == Ok(raw)
  {
    hide Fixed, Value, Pow256;
    ScalarOfOk(raw[..32]);
    ScalarOfOk(raw[32..]);
    assert raw == raw[..32] + raw[32..];
  }

  /** On low-S values the two are mutually inverse: a pair is decodable exactly when it is
      its own normal form. */
  lemma RawExactly(c: Components)
    ensures (|c.r| == 32 && DecodeRaw(c.r + c.s) == Ok(c)) <==> NormalizeLowS(c) == Ok(c)
  {
    hide Fixed, Value, Pow256;
    if |c.r| == 32 {
      var raw := c.r + c.s;
      assert |raw| >= 32 && raw[..32] == c.r && raw[32..] == c.s;
      if DecodeRaw(raw) == Ok(c) { EncodeOfDecode(raw); }
    }
    if NormalizeLowS(c) == Ok(c) { DecodeOfEncode(c); }
  }

  // ---- The lenient reader ---------------------------------------------------------

  function LenientLengthAt(b: seq<Byte>, offset: nat): Option<Head> {
    if offset >= |b| then None
    else if b[offset] < 0x80 then Some(Head(b[offset], offset + 1))
    else if b[offset] == 0x80 || b[offset] > 0x82 then None
    else if b[offset] == 0x81 then Some(Head(ByteAt(b, offset + 1), offset + 2))
    else Some(Head(256 * (ByteAt(b, offset + 1) as int) + ByteAt(b, offset + 2), offset + 3))
  }

  method ReadLenientLength(b: seq<Byte>, offset: nat) returns (r: Option<Head>)
    ensures r == LenientLengthAt(b, offset)
  {
    if offset >= |b| { return None; }
    var first := b[offset];
    if first < 0x80 { return Some(Head(first, offset + 1)); }
    var byteCount := first - 0x80;
    if byteCount == 0 || byteCount > 2 { return None; }
    var length: nat := 0;
    for index := 0 to byteCount
      invariant index == 0 ==> length == 0
      invariant index == 1 ==> length == ByteAt(b, offset + 1)
      invariant index == 2 ==> length == 256 * (ByteAt(b, offset + 1) as int) + ByteAt(b, offset + 2)
    {
      length := 256 * length + ByteAt(b, offset + 1 + index);
    }
    return Some(Head(length, offset + 1 + byteCount));
  }

  datatype Slice = Slice(value: seq<Byte>, next: nat)

  function LenientIntegerAt(b: seq<Byte>, offset: nat): Option<Slice> {
    if offset >= |b| || b[offset] != 0x02 then None
    else
      match LenientLengthAt(b, offset + 1)
      case None => None
      case Some(head) =>
        Some(Slice(Clamped(b, head.next, head.next + head.length), head.next + head.length))
  }

  function StripZeros(b: seq<Byte>): (r: seq<Byte>)
    ensures |r| <= |b| && (r == [] || r[0] != 0)
  {
    if b != [] && b[0] == 0 then StripZeros(b[1..]) else b
  }

  /** At most 32 significant bytes, right-aligned in 32. */
  function ToFixed32(value: seq<Byte>): Option<seq<Byte>> {
    var n := StripZeros(value);
    if |n| > 32 then None else Some(Zeros(32 - |n|) + n)
  }

  /** The stripping loop and the copy into a zeroed 32-byte buffer. */
  method DerIntegerToFixed32(value: seq<Byte>) returns (r: Option<seq<Byte>>)
    ensures r == ToFixed32(value)
    ensures r.Some? <==> Value(value) < Pow256(32)
    ensures r.Some? ==> r.value == Fixed(Value(value), 32)
  {
    hide ToFixed32, Fixed, Value, Pow256;
    var normalized := value;
    while |normalized| > 0 && normalized[0] == 0
      invariant StripZeros(normalized) == StripZeros(value)
    {
      normalized := normalized[1..];
    }
    ToFixed32Exactly(value);
    if |normalized| > 32 { return None; }
    var out := seq(32, i requires 0 <= i < 32 => if i < 32 - |normalized| then 0 else normalized[i - (32 - |normalized|)]);
    assert out == Zeros(32 - |normalized|) + normalized;
    return Some(out);
  }

  lemma {:induction false} StripZerosValue(b: seq<Byte>)
    ensures Value(StripZeros(b)) == Value(b)
    ensures Value(b) > 0 ==> StripZeros(b) == Minimal(Value(b))
  {
    hide Value, Minimal;
    if b != [] && b[0] == 0 {
      StripZerosValue(b[1..]);
      LeadingZero(b[1..]);
      assert b == [0] + b[1..];
    } else if b != [] {
      MinimalOfValue(b);
    } else {
      NoValue();
    }
  }

  lemma NoValue()
    ensures Value([]) == 0
  {
  }

  lemma ToFixed32Exactly(value: seq<Byte>)
    ensures ToFixed32(value) == if Value(value) < Pow256(32) then Some(Fixed(Value(value), 32)) else None
    ensures ToFixed32(value) == if |StripZeros(value)| > 32 then None else Some(Zeros(32 - |StripZeros(value)|) + StripZeros(value))
  {
    hide Fixed, Value, Pow256, Minimal;
    var n := StripZeros(value);
    StripZerosValue(value);
    if |n| <= 32 {
      LeadingZeros(32 - |n|, n);
      ValueBound(Zeros(32 - |n|) + n);
      FixedOfValue(Zeros(32 - |n|) + n);
    } else {
      MinimalOfValue(n);
      if Value(value) < Pow256(32) { MinimalLength(Value(value), 32); }
    }
  }

  /** The sequence, two integers ending where the sequence ends, and the raw pair. */
  function LenientParse(b: seq<Byte>): Option<seq<Byte>> {
    if b == [] || b[0] != 0x30 then None
    else
      match LenientLengthAt(b, 1)
      case None => None
      case Some(sequence) =>
        match LenientIntegerAt(b, sequence.next)
        case None => None
        case Some(r) =>
          match LenientIntegerAt(b, r.next)
          case None => None
          case Some(s) =>
            if s.next != sequence.next + sequence.length then None
            else
              match ToFixed32(r.value)
              case None => None
              case Some(left) =>
                match ToFixed32(s.value)
                case None => None
                case Some(right) => Some(left + right)
  }

  lemma LenientIntegerComplete(b: seq<Byte>, offset: nat, v: nat)
    requires InRange(v) && |IntegerContents(v)| <= 33 && Reads(b, offset, DerInteger(v))
    ensures LenientIntegerAt(b, offset) == Some(Slice(IntegerContents(v), offset + |DerInteger(v)|))
  {
    hide Minimal, IntegerContents, Clamped;
    var c := IntegerContents(v);
    ReadsAfter(b, offset, [0x02, |c|], c);
    ClampedReads(b, offset + 2, c);
    assert b[offset..offset + 2][0] == 0x02 && b[offset..offset + 2][1] == |c|;
  }

  lemma ContentsToFixed32(v: nat)
    requires InRange(v)
    ensures ToFixed32(IntegerContents(v)) == Some(Fixed(v, 32))
  {
    hide Fixed, Value, Pow256, Minimal, IntegerContents, ToFixed32;
    ContentsAccepted(v);
    OrderFits();
    ToFixed32Exactly(IntegerContents(v));
  }

  /** A distinguished encoding is read as its own pair, whatever bytes follow it. */
  lemma LenientOfDer(r: nat, s: nat, tail: seq<Byte>)
    requires InRange(r) && InRange(s)
    ensures LenientParse(DerSignature(r, s) + tail) == Some(Fixed(r, 32) + Fixed(s, 32))
  {
    hide Fixed, Value, Pow256, Minimal, IntegerContents, ToFixed32, LenientIntegerAt;
    ContentsBound(r);
    ContentsBound(s);
    var b, dr, ds := DerSignature(r, s) + tail, DerInteger(r), DerInteger(s);
    assert Reads(b, 2, dr);
    assert Reads(b, 2 + |dr|, ds);
    LenientIntegerComplete(b, 2, r);
    LenientIntegerComplete(b, 2 + |dr|, s);
    ContentsToFixed32(r);
    ContentsToFixed32(s);
  }

  /** On what the strict reader accepts the lenient one gives the same raw pair up to low-S. */
  lemma LenientAgrees(b: seq<Byte>)
    requires ParseSignature(b).Ok?
    ensures LenientParse(b).Some? && |LenientParse(b).value| == 64
    ensures var raw := LenientParse(b).value;
      NormalizeLowS(Components(raw[..32], raw[32..])) == ParseSignature(b)
  {
    hide ParseSignature, LenientParse, DerSignature, Fixed, NormalizeLowS;
    var r, s := ParseSound(b);
    ParseOfDer(r, s);
    LenientOfDer(r, s, []);
    assert b + [] == b;
    NormalizeFixed(r, s);
    var raw := LenientParse(b).value;
    assert raw[..32] == Fixed(r, 32) && raw[32..] == Fixed(s, 32);
  }

  /** The converse fails for every signature: with any bytes appended, the lenient reader
      still answers and the strict one refuses. */
  lemma StrictRefusesTail(r: nat, s: nat, tail: seq<Byte>)
    requires InRange(r) && InRange(s) && tail != []
    ensures ParseSignature(DerSignature(r, s) + tail).Err?
    ensures LenientParse(DerSignature(r, s) + tail).Some?
  {
    hide Fixed, Value, Pow256, Minimal, IntegerContents, IntegerAt, LenientParse;
    ContentsBound(r);
    ContentsBound(s);
    LenientOfDer(r, s, tail);
    var b := DerSignature(r, s) + tail;
    assert b[1] == DerSignature(r, s)[1] == |DerSignature(r, s)| - 2 <= 70;
    assert LengthAt(b, 1) == Ok(Head(|DerSignature(r, s)| - 2, 2));
  }

  // ---- The group order -------------------------------------------------------------------

  /** The order of P-256 (section 3.2.1.3 of NIST SP 800-186), in decimal. */
  lemma OrderIs()
    ensures ORDER == 115792089210356248762697446949407573529996955224135760342422259061068512044369
    ensures ORDER == 2 * HALF_ORDER + 1
  {
  }

  /** Normalizing takes two 32-byte scalars from 1 to the order less one, and replaces the second by the smaller
      of it and its complement. */
  lemma NormalizeExactly(x: Components, y: Components)
    ensures NormalizeLowS(x) == Ok(y)
       <==> && |x.r| == |x.s| == |y.r| == |y.s| == 32 && y.r == x.r
            && 0 < Value(x.r) < ORDER && 0 < Value(x.s) < ORDER
            && 2 * Value(y.s) < ORDER && (Value(y.s) == Value(x.s) || Value(y.s) + Value(x.s) == ORDER)
  {
    hide Fixed, Value, Pow256;
    OrderFits();
    if ScalarOf(x.r).Ok? && ScalarOf(x.s).Ok? {
      FixedOfValue(x.r);
      ValueOfFixed(LowS(Value(x.s)), 32);
      LowSInRange(Value(x.s));
      if |y.s| == 32 { FixedOfValue(y.s); }
    }
  }
}
