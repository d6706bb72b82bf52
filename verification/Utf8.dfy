/**
 * UTF-8 as the platform's TextDecoder reads it: the decoder of the WHATWG Encoding
 * Standard (section 8.1.1) with replacement characters, a leading byte order mark
 * removed, against the encoder of RFC 3629.
 */
module Utf8 {
  import opened Bits

  type Text = seq<char>

  const MARK: char := '\U{FEFF}'
  const REPLACEMENT: char := '\U{FFFD}'

  /** RFC 3629, section 3. */
  function EncodeChar(c: char): (b: seq<Byte>)
    ensures |b| > 0
  {
    var v := c as int;
    if v < 0x80 then [v]
    else if v < 0x800 then [0xC0 + v / 64, 0x80 + v % 64]
    else if v < 0x10000 then [0xE0 + v / 4096, 0x80 + v / 64 % 64, 0x80 + v % 64]
    else [0xF0 + v / 262144, 0x80 + v / 4096 % 64, 0x80 + v / 64 % 64, 0x80 + v % 64]
  }

  function Encode(t: Text): seq<Byte> {
    if t == [] then [] else EncodeChar(t[0]) + Encode(t[1..])
  }

  /** The decoder between two bytes: how many continuation bytes it still needs, the code
      point so far, and the range the next byte must fall into. */
  datatype State = State(needed: nat, point: nat, lower: nat, upper: nat)

  const START := State(0, 0, 0x80, 0xBF)

  /** The state after a lead byte, or none for a byte that leads nothing. */
  function Lead(b: Byte): (s: State) {
    if 0xC2 <= b <= 0xDF then State(1, b - 0xC0, 0x80, 0xBF)
    else if 0xE0 <= b <= 0xEF then State(2, b - 0xE0, if b == 0xE0 then 0xA0 else 0x80, if b == 0xED then 0x9F else 0xBF)
    else if 0xF0 <= b <= 0xF4 then State(3, b - 0xF0, if b == 0xF0 then 0x90 else 0x80, if b == 0xF4 then 0x8F else 0xBF)
    else START
  }

  function CharOf(v: nat): char {
    if v < 0xD800 || 0xE000 <= v < 0x110000 then v as char else REPLACEMENT
  }

  /** The code point so far with six more bits. */
  function Extended(point: nat, b: Byte): nat { 64 * point + b % 64 }

  function Run(b: seq<Byte>, s: State): Text
    decreases |b|, s.needed
  {
    if b == [] then (if s.needed > 0 then [REPLACEMENT] else [])
    else if s.needed == 0 then
      if b[0] < 0x80 then [CharOf(b[0])] + Run(b[1..], START)
      else if Lead(b[0]).needed > 0 then Run(b[1..], Lead(b[0]))
      else [REPLACEMENT] + Run(b[1..], START)
    else if !(s.lower <= b[0] <= s.upper) then [REPLACEMENT] + Run(b, START)
    else if s.needed == 1 then [CharOf(Extended(s.point, b[0]))] + Run(b[1..], START)
    else Run(b[1..], State(s.needed - 1, Extended(s.point, b[0]), 0x80, 0xBF))
  }

  /** TextDecoder.decode. */
  function Decode(b: seq<Byte>): Text {
    if [0xEF, 0xBB, 0xBF] <= b then Run(b[3..], START) else Run(b, START)
  }

  predicate Marked(t: Text) { t != [] && t[0] == MARK }

  // ---- One character ------------------------------------------------------------

  lemma ExtendedBy(point: nat, byte: Byte)
    requires 0x80 <= byte < 0xC0
    ensures Extended(point, byte) == 64 * point + (byte - 0x80)
  {
  }

  lemma ContinueStep(byte: Byte, rest: seq<Byte>, s: State)
    requires s.needed > 0 && s.lower <= byte <= s.upper
    ensures Run([byte] + rest, s)
         == if s.needed == 1 then [CharOf(Extended(s.point, byte))] + Run(rest, START)
            else Run(rest, State(s.needed - 1, Extended(s.point, byte), 0x80, 0xBF))
  {
    hide Extended, CharOf, Lead;
    assert ([byte] + rest)[1..] == rest;
  }

  lemma LeadStep(byte: Byte, rest: seq<Byte>)
    requires byte >= 0x80 && Lead(byte).needed > 0
    ensures Run([byte] + rest, START) == Run(rest, Lead(byte))
  {
    assert ([byte] + rest)[1..] == rest;
  }

  /** The base-64 digits of a code point. */
  lemma Digits(v: nat)
    ensures v == 64 * (v / 64) + v % 64
    ensures v / 64 == 64 * (v / 4096) + v / 64 % 64
    ensures v / 4096 == 64 * (v / 262144) + v / 4096 % 64
  {
    assert v / 64 / 64 == v / 4096;
    assert v / 4096 / 64 == v / 262144;
  }

  lemma RunTwo(v: nat, rest: seq<Byte>)
    requires 0x80 <= v < 0x800
    ensures Run([0xC0 + v / 64, 0x80 + v % 64] + rest, START) == [CharOf(v)] + Run(rest, START)
  {
    hide Run, CharOf, Extended;
    var a, b := 0xC0 + v / 64, 0x80 + v % 64;
    assert [a, b] + rest == [a] + ([b] + rest);
    LeadStep(a, [b] + rest);
    ContinueStep(b, rest, Lead(a));
    ExtendedBy(v / 64, b);
  }

  lemma RunThree(v: nat, rest: seq<Byte>)
    requires 0x800 <= v < 0x10000 && !(0xD800 <= v < 0xE000)
    ensures Run([0xE0 + v / 4096, 0x80 + v / 64 % 64, 0x80 + v % 64] + rest, START) == [CharOf(v)] + Run(rest, START)
  {
    hide Run, CharOf, Extended;
    Digits(v);
    var a, b, c := 0xE0 + v / 4096, 0x80 + v / 64 % 64, 0x80 + v % 64;
    assert [a, b, c] + rest == [a] + ([b] + ([c] + rest));
    LeadStep(a, [b] + ([c] + rest));
    ContinueStep(b, [c] + rest, Lead(a));
    ExtendedBy(v / 4096, b);
    ExtendedBy(v / 64, c);
    ContinueStep(c, rest, State(1, v / 64, 0x80, 0xBF));
  }

  lemma RunFour(v: nat, rest: seq<Byte>)
    requires 0x10000 <= v < 0x110000
    ensures Run([0xF0 + v / 262144, 0x80 + v / 4096 % 64, 0x80 + v / 64 % 64, 0x80 + v % 64] + rest, START)
         == [CharOf(v)] + Run(rest, START)
  {
    hide Run, CharOf, Extended;
    Digits(v);
    var a, b, c, d := 0xF0 + v / 262144, 0x80 + v / 4096 % 64, 0x80 + v / 64 % 64, 0x80 + v % 64;
    assert [a, b, c, d] + rest == [a] + ([b] + ([c] + ([d] + rest)));
    LeadStep(a, [b] + ([c] + ([d] + rest)));
    ContinueStep(b, [c] + ([d] + rest), Lead(a));
    ExtendedBy(v / 262144, b);
    ExtendedBy(v / 4096, c);
    ExtendedBy(v / 64, d);
    ContinueStep(c, [d] + rest, State(2, v / 4096, 0x80, 0xBF));
    ContinueStep(d, rest, State(1, v / 64, 0x80, 0xBF));
  }

  lemma RunChar(c: char, rest: seq<Byte>)
    ensures Run(EncodeChar(c) + rest, START) == [c] + Run(rest, START)
  {
    var v := c as int;
    if v < 0x80 {
      assert ([v] + rest)[1..] == rest;
    } else {
      hide Run;
      if v < 0x800 {
        RunTwo(v, rest);
      } else if v < 0x10000 {
        RunThree(v, rest);
      } else {
        RunFour(v, rest);
      }
    }
  }

  // ---- Whole texts --------------------------------------------------------------

  lemma {:induction false} RunText(t: Text)
    ensures Run(Encode(t), START) == t
  {
    if t != [] {
      hide Run;
      RunText(t[1..]);
      RunChar(t[0], Encode(t[1..]));
      assert t == [t[0]] + t[1..];
    }
  }

  lemma MarkBytes(c: char, rest: seq<Byte>)
    ensures [0xEF, 0xBB, 0xBF] <= EncodeChar(c) + rest <==> c == MARK
  {
    var v := c as int;
    var mark: seq<Byte> := [0xEF, 0xBB, 0xBF];
    var b := EncodeChar(c) + rest;
    if mark <= b {
      assert b[0] == 0xEF && b[1] == 0xBB && b[2] == 0xBF;
      assert EncodeChar(c)[0] == 0xEF;
      assert b[1] == EncodeChar(c)[1] && b[2] == EncodeChar(c)[2];
      Digits(v);
    }
  }

  /** Decoding an encoded text loses at most one leading mark, and loses that always. */
  lemma RoundTrip(t: Text)
    ensures Decode(Encode(t)) == if Marked(t) then t[1..] else t
  {
    hide Run;
    if t == [] {
      RunText(t);
    } else {
      MarkBytes(t[0], Encode(t[1..]));
      if Marked(t) {
        assert Encode(t)[3..] == Encode(t[1..]);
        RunText(t[1..]);
      } else {
        RunText(t);
      }
    }
  }

  // ---- Only encodings decode without replacement --------------------------------------------

  /** A continuation byte that leads to no replacement is in range. */
  lemma Continued(b: seq<Byte>, s: State)
    requires s.needed > 0 && REPLACEMENT !in Run(b, s)
    ensures b != [] && s.lower <= b[0] <= s.upper
    ensures Run(b, s) == if s.needed == 1 then [CharOf(Extended(s.point, b[0]))] + Run(b[1..], START)
                         else Run(b[1..], State(s.needed - 1, Extended(s.point, b[0]), 0x80, 0xBF))
  {
    hide Extended, CharOf;
  }

  lemma Led(b: seq<Byte>)
    requires b != [] && b[0] >= 0x80 && REPLACEMENT !in Run(b, START)
    ensures Lead(b[0]).needed > 0 && Run(b, START) == Run(b[1..], Lead(b[0]))
  {
    hide Extended, CharOf;
  }

  lemma TwoBytes(a: Byte, b: Byte)
    requires 0xC2 <= a <= 0xDF && 0x80 <= b <= 0xBF
    ensures EncodeChar(CharOf(Extended(a - 0xC0, b))) == [a, b]
  {
    ExtendedBy(a - 0xC0, b);
  }

  lemma SixMore(q: nat, r: nat)
    requires r < 64
    ensures (64 * q + r) / 64 == q && (64 * q + r) % 64 == r
  {
  }

  lemma ThreeBytes(a: Byte, b: Byte, c: Byte)
    requires 0xE0 <= a <= 0xEF && (if a == 0xE0 then 0xA0 else 0x80) <= b <= (if a == 0xED then 0x9F else 0xBF) && 0x80 <= c <= 0xBF
    ensures EncodeChar(CharOf(Extended(Extended(a - 0xE0, b), c))) == [a, b, c]
  {
    hide Extended;
    var u := Extended(a - 0xE0, b);
    var v := Extended(u, c);
    ExtendedBy(a - 0xE0, b);
    ExtendedBy(u, c);
    SixMore(a - 0xE0, b - 0x80);
    SixMore(u, c - 0x80);
    Digits(v);
    assert v / 64 == u && v % 64 == c - 0x80 && u / 64 == a - 0xE0 && u % 64 == b - 0x80;
    assert v / 4096 == a - 0xE0;
    assert 0x800 <= v < 0x10000 && !(0xD800 <= v < 0xE000);
  }

  lemma FourBytes(a: Byte, b: Byte, c: Byte, d: Byte)
    requires 0xF0 <= a <= 0xF4 && (if a == 0xF0 then 0x90 else 0x80) <= b <= (if a == 0xF4 then 0x8F else 0xBF)
    requires 0x80 <= c <= 0xBF && 0x80 <= d <= 0xBF
    ensures EncodeChar(CharOf(Extended(Extended(Extended(a - 0xF0, b), c), d))) == [a, b, c, d]
  {
    hide Extended;
    var t := Extended(a - 0xF0, b);
    var u := Extended(t, c);
    var v := Extended(u, d);
    ExtendedBy(a - 0xF0, b);
    ExtendedBy(t, c);
    ExtendedBy(u, d);
    SixMore(a - 0xF0, b - 0x80);
    SixMore(t, c - 0x80);
    SixMore(u, d - 0x80);
    Digits(v);
    Digits(u);
    assert v / 64 == u && u / 64 == t && t / 64 == a - 0xF0;
    assert v / 4096 == t && v / 262144 == a - 0xF0;
    assert 0x10000 <= v < 0x110000;
  }

  /** Bytes that decode without a replacement character are the encoding of what they decode to. */
  lemma {:induction false} RunSound(b: seq<Byte>)
    requires REPLACEMENT !in Run(b, START)
    ensures Encode(Run(b, START)) == b
    decreases |b|, 1
  {
    if b != [] {
      hide EncodeChar, Extended, CharOf;
      if b[0] < 0x80 {
        RunSound(b[1..]);
        OneByte(b[0]);
        assert Run(b, START) == [CharOf(b[0])] + Run(b[1..], START);
        assert b == [b[0]] + b[1..];
      } else {
        Led(b);
        var s := Lead(b[0]);
        Continued(b[1..], s);
        if s.needed == 1 {
          TwoBytes(b[0], b[1]);
          EncodedFirst(b, 2, CharOf(Extended(s.point, b[1])));
        } else {
          var s2 := State(s.needed - 1, Extended(s.point, b[1]), 0x80, 0xBF);
          assert b[1..][1..] == b[2..];
          Continued(b[2..], s2);
          assert b[2..][1..] == b[3..];
          if s.needed == 2 {
            ThreeBytes(b[0], b[1], b[2]);
            EncodedFirst(b, 3, CharOf(Extended(s2.point, b[2])));
          } else {
            var s3 := State(1, Extended(s2.point, b[2]), 0x80, 0xBF);
            Continued(b[3..], s3);
            assert b[3..][1..] == b[4..];
            FourBytes(b[0], b[1], b[2], b[3]);
            EncodedFirst(b, 4, CharOf(Extended(s3.point, b[3])));
          }
        }
      }
    }
  }

  lemma OneByte(a: Byte)
    requires a < 0x80
    ensures EncodeChar(CharOf(a)) == [a]
  {
  }

  lemma EncodedFirst(b: seq<Byte>, n: nat, c: char)
    requires 0 < n <= |b| && EncodeChar(c) == b[..n] && Run(b, START) == [c] + Run(b[n..], START)
    requires REPLACEMENT !in Run(b, START)
    ensures Encode(Run(b, START)) == b
    decreases |b|, 0
  {
    RunSound(b[n..]);
    assert b == b[..n] + b[n..];
  }

  /** Hence a text decoded without replacement comes from its own encoding, with or without a mark before it. */
  lemma DecodedFrom(b: seq<Byte>)
    requires REPLACEMENT !in Decode(b)
    ensures b == Encode(Decode(b)) || b == [0xEF, 0xBB, 0xBF] + Encode(Decode(b))
  {
    if [0xEF, 0xBB, 0xBF] <= b { RunSound(b[3..]); } else { RunSound(b); }
  }
}
