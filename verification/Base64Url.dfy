/** Unpadded base64url (section 5 of RFC 4648), with a decoder that accepts only canonical texts. */
module Base64Url {
  import opened Bits
  import opened Wrappers

  function CharOf(v: nat): char
    requires v < 64
  {
    if v < 26 then 'A' + v as char
    else if v < 52 then 'a' + (v - 26) as char
    else if v < 62 then '0' + (v - 52) as char
    else if v == 62 then '-' else '_'
  }

  predicate InAlphabet(c: char) {
    'A' <= c <= 'Z' || 'a' <= c <= 'z' || '0' <= c <= '9' || c == '-' || c == '_'
  }

  function SextetOf(c: char): (v: nat)
    requires InAlphabet(c)
    ensures v < 64 && CharOf(v) == c
  {
    if 'A' <= c <= 'Z' then c as int - 'A' as int
    else if 'a' <= c <= 'z' then c as int - 'a' as int + 26
    else if '0' <= c <= '9' then c as int - '0' as int + 52
    else if c == '-' then 62 else 63
  }

  lemma SextetOfChar(v: nat)
    requires v < 64
    ensures InAlphabet(CharOf(v)) && SextetOf(CharOf(v)) == v
  {
  }

  /** The sextets of a byte string; the last group may be short. */
  function Sextets(b: seq<Byte>): (s: seq<nat>)
    ensures forall i :: 0 <= i < |s| ==> s[i] < 64
  {
    if b == [] then []
    else if |b| == 1 then [b[0] / 4, b[0] % 4 * 16]
    else if |b| == 2 then [b[0] / 4, b[0] % 4 * 16 + b[1] / 16, b[1] % 16 * 4]
    else [b[0] / 4, b[0] % 4 * 16 + b[1] / 16, b[1] % 16 * 4 + b[2] / 64, b[2] % 64] + Sextets(b[3..])
  }

  /** The bytes of a sextet string, leftover bits dropped. */
  function Bytes(s: seq<nat>): seq<Byte>
    requires forall i :: 0 <= i < |s| ==> s[i] < 64
  {
    if |s| < 2 then []
    else if |s| == 2 then [First(s[0], s[1])]
    else if |s| == 3 then [First(s[0], s[1]), Second(s[1], s[2])]
    else [First(s[0], s[1]), Second(s[1], s[2]), Third(s[2], s[3])] + Bytes(s[4..])
  }

  function First(a: nat, b: nat): Byte requires a < 64 && b < 64 { 4 * a + b / 16 }
  function Second(b: nat, c: nat): Byte requires b < 64 && c < 64 { 16 * (b % 16) + c / 4 }
  function Third(c: nat, d: nat): Byte requires c < 64 && d < 64 { 64 * (c % 4) + d }

  lemma GroupBack(x: Byte, y: Byte, z: Byte)
    ensures First(x / 4, x % 4 * 16 + y / 16) == x
    ensures Second(x % 4 * 16 + y / 16, y % 16 * 4 + z / 64) == y
    ensures Third(y % 16 * 4 + z / 64, z % 64) == z
  {
  }

  lemma {:induction false} BytesOfSextets(b: seq<Byte>)
    ensures Bytes(Sextets(b)) == b
  {
    if |b| >= 3 {
      hide First, Second, Third;
      GroupBack(b[0], b[1], b[2]);
      BytesOfSextets(b[3..]);
      var s := Sextets(b);
      assert s[4..] == Sextets(b[3..]);
      assert b == [b[0], b[1], b[2]] + b[3..];
    } else if |b| == 2 {
      hide First, Second, Third;
      GroupBack(b[0], b[1], 0);
    } else if |b| == 1 {
      hide First, Second, Third;
      GroupBack(b[0], 0, 0);
    }
  }

  function Letters(s: seq<nat>): (t: string)
    requires forall i :: 0 <= i < |s| ==> s[i] < 64
    ensures |t| == |s| && forall i :: 0 <= i < |s| ==> t[i] == CharOf(s[i])
  {
    if s == [] then [] else [CharOf(s[0])] + Letters(s[1..])
  }

  function Encode(b: seq<Byte>): string {
    Letters(Sextets(b))
  }

  predicate AllInAlphabet(t: string) {
    forall i :: 0 <= i < |t| ==> InAlphabet(t[i])
  }

  function SextetsOfText(t: string): (s: seq<nat>)
    requires AllInAlphabet(t)
    ensures |s| == |t| && forall i :: 0 <= i < |s| ==> s[i] < 64 && s[i] == SextetOf(t[i])
  {
    if t == [] then [] else [SextetOf(t[0])] + SextetsOfText(t[1..])
  }

  /** Refuses the empty text, foreign characters and anything that encodes differently. */
  function Decode(t: string): Option<seq<Byte>> {
    if t == [] || !AllInAlphabet(t) then None
    else
      var b := Bytes(SextetsOfText(t));
      if Encode(b) != t then None else Some(b)
  }

  /** Encoding is undone by decoding, for all but the empty byte string, and the text that
      decodes to some bytes is the one they encode to. */
  lemma DecodeExactly(t: string, b: seq<Byte>)
    ensures Decode(t) == Some(b) <==> b != [] && t == Encode(b)
  {
    hide Sextets, Bytes, Letters, CharOf, SextetOf, InAlphabet, SextetsOfText;
    EmptyText(b);
    if b != [] && t == Encode(b) {
      var s := Sextets(b);
      forall i | 0 <= i < |t| ensures InAlphabet(t[i]) && SextetOf(t[i]) == s[i] { SextetOfChar(s[i]); }
      assert SextetsOfText(t) == s;
      BytesOfSextets(b);
    }
  }

  lemma EmptyText(b: seq<Byte>)
    ensures Encode(b) == [] <==> b == []
  {
  }

  // ---- The code of section 5 of RFC 4648 -------------------------------------------------

  const CAPITALS := "ABCDEFGHIJKLMNOPQRSTUVWXYZ"
  const SMALL := "abcdefghijklmnopqrstuvwxyz"
  const OTHERS := "0123456789-_"
  const ALPHABET := CAPITALS + SMALL + OTHERS

  /** Each value is written by the letter at its place in the alphabet. */
  lemma AlphabetAt(v: nat)
    requires v < 64
    ensures |ALPHABET| == 64 && CharOf(v) == ALPHABET[v]
  {
    Sizes();
    if v < 26 {
      CapitalAt(v);
    } else if v < 52 {
      SmallAt(v - 26);
    } else {
      OtherAt(v - 52);
    }
    hide CAPITALS, SMALL, OTHERS;
    assert ALPHABET[v] == if v < 26 then CAPITALS[v] else if v < 52 then SMALL[v - 26] else OTHERS[v - 52];
  }

  lemma Sizes()
    ensures |CAPITALS| == 26 && |SMALL| == 26 && |OTHERS| == 12
  {
  }

  lemma CapitalAt(v: nat)
    requires v < 26
    ensures |CAPITALS| == 26 && CAPITALS[v] as int == 'A' as int + v
  {
  }

  lemma SmallAt(v: nat)
    requires v < 26
    ensures |SMALL| == 26 && SMALL[v] as int == 'a' as int + v
  {
  }

  lemma OtherAt(v: nat)
    requires v < 12
    ensures |OTHERS| == 12 && OTHERS[v] == CharOf(52 + v)
  {
  }

  lemma AlphabetIs(c: char)
    ensures InAlphabet(c) <==> c in ALPHABET
  {
    hide ALPHABET;
    if InAlphabet(c) { AlphabetAt(SextetOf(c)); }
    if c in ALPHABET {
      AlphabetAt(0);
      var v :| 0 <= v < 64 && ALPHABET[v] == c;
      AlphabetAt(v);
    }
  }

  /** Three bytes are one 24-bit number, written as four base-64 digits, most significant first. */
  lemma GroupValue(x: Byte, y: Byte, z: Byte, b: seq<Byte>)
    requires b == [x, y, z]
    ensures var s := Sextets(b);
      |s| == 4 && 262144 * s[0] + 4096 * s[1] + 64 * s[2] + s[3] == 65536 * x + 256 * y + z
  {
    assert b[3..] == [];
    assert Sextets(b) == [x / 4, x % 4 * 16 + y / 16, y % 16 * 4 + z / 64, z % 64];
  }

  /** A short last group is filled with zero bits, to two digits for one byte and to three for two. */
  lemma ShortGroups(x: Byte, y: Byte)
    ensures var s := Sextets([x]); |s| == 2 && 64 * s[0] + s[1] == 16 * x
    ensures var s := Sextets([x, y]); |s| == 3 && 4096 * s[0] + 64 * s[1] + s[2] == 4 * (256 * x + y)
  {
    var one, two := [x], [x, y];
    assert Sextets(one) == [x / 4, x % 4 * 16];
    assert Sextets(two) == [x / 4, x % 4 * 16 + y / 16, y % 16 * 4];
  }
}
