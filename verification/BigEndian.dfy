/** Numbers as big-endian byte strings: of a fixed width, and of the least width. */
module BigEndian {
  import opened Bits

  function Pow256(n: nat): (p: nat)
    ensures p > 0
  {
    if n == 0 then 1 else 256 * Pow256(n - 1)
  }

  /** The number a byte string writes, most significant byte first. */
  function Value(b: seq<Byte>): nat {
    if b == [] then 0 else 256 * Value(b[..|b| - 1]) + b[|b| - 1]
  }

  /** The width-byte string of v. */
  function Fixed(v: nat, width: nat): (b: seq<Byte>)
    ensures |b| == width
  {
    if width == 0 then [] else Fixed(v / 256, width - 1) + [v % 256]
  }

  /** The shortest string of v; a single zero byte for 0. */
  function Minimal(v: nat): (b: seq<Byte>)
    ensures |b| > 0 && (v > 0 ==> b[0] != 0)
  {
    if v < 256 then [v] else Minimal(v / 256) + [v % 256]
  }

  lemma {:induction false} ValueBound(b: seq<Byte>)
    ensures Value(b) < Pow256(|b|)
  {
    if b != [] { ValueBound(b[..|b| - 1]); }
  }

  lemma SplitByte(q: nat, r: Byte)
    ensures (256 * q + r) / 256 == q && (256 * q + r) % 256 == r
  {
  }

  lemma {:induction false} FixedOfValue(b: seq<Byte>)
    ensures Fixed(Value(b), |b|) == b
  {
    if b != [] {
      var init, last := b[..|b| - 1], b[|b| - 1];
      SplitByte(Value(init), last);
      FixedOfValue(init);
    }
  }

  lemma {:induction false} ValueOfFixed(v: nat, width: nat)
    requires v < Pow256(width)
    ensures Value(Fixed(v, width)) == v
  {
    if width > 0 {
      ValueOfFixed(v / 256, width - 1);
      assert Fixed(v, width)[..width - 1] == Fixed(v / 256, width - 1);
    }
  }

  lemma {:induction false} ValueOfMinimal(v: nat)
    ensures Value(Minimal(v)) == v
  {
    if v >= 256 {
      ValueOfMinimal(v / 256);
      var b := Minimal(v);
      assert b[..|b| - 1] == Minimal(v / 256);
    } else {
      assert Minimal(v)[..0] == [];
    }
  }

  lemma {:induction false} MinimalOfValue(b: seq<Byte>)
    requires b != [] && b[0] != 0
    ensures Value(b) > 0 && Minimal(Value(b)) == b
  {
    var init, last := b[..|b| - 1], b[|b| - 1];
    if init == [] {
      assert Value(init) == 0;
      assert b == [last];
    } else {
      MinimalOfValue(init);
      SplitByte(Value(init), last);
      assert b == init + [last];
    }
  }

  lemma {:induction false} MinimalLength(v: nat, width: nat)
    requires width > 0 && v < Pow256(width)
    ensures |Minimal(v)| <= width
  {
    if v >= 256 {
      assert Pow256(1) == 256;
      MinimalLength(v / 256, width - 1);
    }
  }

  lemma {:induction false} LeadingZero(b: seq<Byte>)
    ensures Value([0] + b) == Value(b)
  {
    var z := [0] + b;
    if b == [] {
      assert z[..0] == [];
    } else {
      LeadingZero(b[..|b| - 1]);
      assert z[..|z| - 1] == [0] + b[..|b| - 1];
    }
  }

  lemma {:induction false} LeadingZeros(n: nat, b: seq<Byte>)
    ensures Value(Zeros(n) + b) == Value(b)
  {
    if n == 0 {
      assert Zeros(0) + b == b;
    } else {
      LeadingZeros(n - 1, b);
      LeadingZero(Zeros(n - 1) + b);
      assert Zeros(n) + b == [0] + (Zeros(n - 1) + b);
    }
  }

  lemma ValueOfTwo(b: seq<Byte>)
    requires |b| == 2
    ensures Value(b) == 256 * (b[0] as int) + b[1]
  {
    assert Value(b[..1]) == b[0] by { assert b[..1][..0] == []; assert Value(b[..1][..0]) == 0; }
  }

  lemma ValueOfFour(b: seq<Byte>)
    requires |b| == 4
    ensures Value(b) == 0x100_0000 * (b[0] as int) + 0x1_0000 * (b[1] as int) + 0x100 * (b[2] as int) + b[3]
  {
    ValueOfTwo(b[..2]);
    assert b[..3][..2] == b[..2];
  }
}
