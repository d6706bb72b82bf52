/**
 * What the lenient DER reader of the WebAuthn adapter accepts, as a grammar of its inputs, and
 * which of them the strict reader accepts too.
 *
 * Against the distinguished encodings the grammar allows longer length forms than needed,
 * contents that are empty, padded or have their top bit set, any scalar below 2^256, a second
 * integer cut off by the end of the input, and bytes after the sequence.
 */
module P256Lenient {
  import opened Bits
  import opened BigEndian
  import opened Buffers
  import opened Wrappers
  import opened P256Der

  /** How a length is written; the long forms may be longer than needed. */
  datatype Form = Short | LongOne | LongTwo {
    predicate Fits(n: nat) {
      match this case Short => n < 0x80 case LongOne => n < 0x100 case LongTwo => n < 0x1_0000
    }
    function Octets(n: nat): (b: seq<Byte>)
      requires Fits(n)
      ensures 1 <= |b| <= 3
    {
      match this case Short => [n] case LongOne => [0x81, n] case LongTwo => [0x82, n / 256, n % 256]
    }
  }

  /** The parts of an input.  The second integer declares a length, of whose octets the first
      `octets` are there, and has the contents `s` of it; the tail follows. */
  datatype Spelling = Spelling(
    sequence: Form, first: Form, r: seq<Byte>, second: Form, declared: nat, octets: nat, s: seq<Byte>, tail: seq<Byte>)

  predicate Fitting(x: Spelling) {
    x.first.Fits(|x.r|) && x.second.Fits(x.declared) && x.sequence.Fits(DeclaredLength(x))
  }

  /** The length the sequence declares: both integers as they declare themselves. */
  function DeclaredLength(x: Spelling): nat
    requires x.first.Fits(|x.r|) && x.second.Fits(x.declared)
  {
    1 + |x.first.Octets(|x.r|)| + |x.r| + 1 + |x.second.Octets(x.declared)| + x.declared
  }

  /** Only the end of the input cuts something off: contents, or length octets, which then
      count as zero. */
  predicate CutAtEnd(x: Spelling)
    requires x.second.Fits(x.declared)
  {
    var o := x.second.Octets(x.declared);
    1 <= x.octets <= |o| && |x.s| <= x.declared
    && (|x.s| < x.declared ==> x.tail == [])
    && (x.octets < |o| ==> x.s == [] && x.tail == [] && forall i :: x.octets <= i < |o| ==> o[i] == 0)
  }

  predicate Valid(x: Spelling) {
    Fitting(x) && CutAtEnd(x) && Value(x.r) < Pow256(32) && Value(x.s) < Pow256(32)
  }

  function FirstInteger(x: Spelling): seq<Byte>
    requires Fitting(x)
  {
    [0x02] + (x.first.Octets(|x.r|) + x.r)
  }

  function SecondInteger(x: Spelling): seq<Byte>
    requires Fitting(x) && CutAtEnd(x)
  {
    [0x02] + (x.second.Octets(x.declared)[..x.octets] + x.s)
  }

  function Text(x: Spelling): seq<Byte>
    requires Valid(x)
  {
    [0x30] + (x.sequence.Octets(DeclaredLength(x)) + (FirstInteger(x) + (SecondInteger(x) + x.tail)))
  }

  function Raw(x: Spelling): seq<Byte> {
    Fixed(Value(x.r), 32) + Fixed(Value(x.s), 32)
  }

  // ---- Lengths --------------------------------------------------------------------

  /** The first k octets of a length stand at the offset, and nothing but the end cuts it. */
  predicate HeadAt(b: seq<Byte>, offset: nat, form: Form, n: nat, k: nat) {
    form.Fits(n)
    && var o := form.Octets(n);
       1 <= k <= |o| && Reads(b, offset, o[..k])
       && (k < |o| ==> offset + k == |b| && forall i :: k <= i < |o| ==> o[i] == 0)
  }

  lemma OctetBytes(b: seq<Byte>, offset: nat, form: Form, n: nat, k: nat)
    requires HeadAt(b, offset, form, n, k)
    ensures offset < |b| && forall i :: 0 <= i < |form.Octets(n)| ==> ByteAt(b, offset + i) == form.Octets(n)[i]
  {
    var o := form.Octets(n);
    forall i | 0 <= i < k ensures offset + i < |b| && b[offset + i] == o[i] {
      ReadsByte(b, offset, o[..k], i);
    }
  }

  lemma HeadComplete(b: seq<Byte>, offset: nat, form: Form, n: nat, k: nat)
    requires HeadAt(b, offset, form, n, k)
    ensures LenientLengthAt(b, offset) == Some(Head(n, offset + |form.Octets(n)|))
  {
    OctetBytes(b, offset, form, n, k);
    hide HeadAt, Reads;
    var o := form.Octets(n);
    assert ByteAt(b, offset + 0) == o[0];
    match form {
      case Short =>
      case LongOne => assert ByteAt(b, offset + 1) == o[1];
      case LongTwo => assert ByteAt(b, offset + 1) == o[1] && ByteAt(b, offset + 2) == o[2];
    }
  }

  lemma HeadSound(b: seq<Byte>, offset: nat) returns (form: Form, n: nat, k: nat)
    requires LenientLengthAt(b, offset).Some?
    ensures HeadAt(b, offset, form, n, k) && LenientLengthAt(b, offset) == Some(Head(n, offset + |form.Octets(n)|))
  {
    n := LenientLengthAt(b, offset).value.length;
    form := if b[offset] < 0x80 then Short else if b[offset] == 0x81 then LongOne else LongTwo;
    var o := form.Octets(n);
    k := if |b| - offset < |o| then |b| - offset else |o|;
    assert forall i :: 0 <= i < |o| ==> o[i] == ByteAt(b, offset + i);
    assert b[offset..offset + k] == o[..k];
  }

  lemma WholeHead(b: seq<Byte>, offset: nat, form: Form, n: nat)
    requires form.Fits(n) && Reads(b, offset, form.Octets(n))
    ensures HeadAt(b, offset, form, n, |form.Octets(n)|)
  {
    var o := form.Octets(n);
    assert o[..|o|] == o;
  }

  // ---- Every spelling is read -------------------------------------------------------

  /** Where the two integers start. */
  function FirstAt(x: Spelling): nat
    requires Fitting(x)
  {
    1 + |x.sequence.Octets(DeclaredLength(x))|
  }

  function SecondAt(x: Spelling): nat
    requires Fitting(x)
  {
    FirstAt(x) + |FirstInteger(x)|
  }

  /** The parts of an input at their places. */
  predicate PartsAt(b: seq<Byte>, x: Spelling)
    requires Fitting(x) && CutAtEnd(x)
  {
    Reads(b, 0, [0x30]) && Reads(b, 1, x.sequence.Octets(DeclaredLength(x))) && Reads(b, FirstAt(x), FirstInteger(x))
    && Reads(b, SecondAt(x), SecondInteger(x)) && Reads(b, SecondAt(x) + |SecondInteger(x)|, x.tail)
    && SecondAt(x) + |SecondInteger(x)| + |x.tail| == |b|
  }

  lemma FiveParts(b: seq<Byte>, p: seq<Byte>, q: seq<Byte>, r: seq<Byte>, s: seq<Byte>, t: seq<Byte>)
    ensures b == p + (q + (r + (s + t)))
       <==> Reads(b, 0, p) && Reads(b, |p|, q) && Reads(b, |p| + |q|, r) && Reads(b, |p| + |q| + |r|, s)
            && Reads(b, |p| + |q| + |r| + |s|, t) && |p| + |q| + |r| + |s| + |t| == |b|
  {
    hide Reads;
    var text := p + (q + (r + (s + t)));
    ReadsWhole(b, text);
    if b == text {
      ReadsAfter(b, 0, p, q + (r + (s + t)));
      ReadsAfter(b, |p|, q, r + (s + t));
      ReadsAfter(b, |p| + |q|, r, s + t);
      ReadsAfter(b, |p| + |q| + |r|, s, t);
    }
    if Reads(b, 0, p) && Reads(b, |p|, q) && Reads(b, |p| + |q|, r) && Reads(b, |p| + |q| + |r|, s)
       && Reads(b, |p| + |q| + |r| + |s|, t)
    {
      ReadsJoin(b, |p| + |q| + |r|, s, t);
      ReadsJoin(b, |p| + |q|, r, s + t);
      ReadsJoin(b, |p|, q, r + (s + t));
      ReadsJoin(b, 0, p, q + (r + (s + t)));
    }
  }

  /** An input is the text of a spelling exactly when its parts stand at their places. */
  lemma TextExactly(b: seq<Byte>, x: Spelling)
    requires Valid(x)
    ensures b == Text(x) <==> PartsAt(b, x)
  {
    hide Form.Octets, Reads, FirstInteger, SecondInteger, Value, Pow256, Form.Fits, CutAtEnd, DeclaredLength;
    FiveParts(b, [0x30], x.sequence.Octets(DeclaredLength(x)), FirstInteger(x), SecondInteger(x), x.tail);
  }

  lemma LenientOfSpelling(x: Spelling)
    requires Valid(x)
    ensures LenientParse(Text(x)) == Some(Raw(x))
  {
    hide Form.Octets, Reads, HeadAt, LenientLengthAt, Clamped, Value, Fixed, Pow256, ToFixed32;
    hide FirstInteger, SecondInteger, Text, LenientIntegerAt, CutAtEnd;
    var b := Text(x);
    TextExactly(b, x);
    ReadsByte(b, 0, [0x30], 0);
    WholeHead(b, 1, x.sequence, DeclaredLength(x));
    HeadComplete(b, 1, x.sequence, DeclaredLength(x), |x.sequence.Octets(DeclaredLength(x))|);
    FirstRead(b, FirstAt(x), x);
    SecondRead(b, SecondAt(x), x);
    FirstSize(x);
    ToFixed32Exactly(x.r);
    ToFixed32Exactly(x.s);
  }

  lemma FirstSize(x: Spelling)
    requires Fitting(x)
    ensures |FirstInteger(x)| == 1 + |x.first.Octets(|x.r|)| + |x.r|
  {
    hide Form.Octets;
  }

  lemma SecondRead(b: seq<Byte>, offset: nat, x: Spelling)
    requires Fitting(x) && CutAtEnd(x) && Reads(b, offset, SecondInteger(x)) && offset + |SecondInteger(x)| + |x.tail| == |b|
    ensures LenientIntegerAt(b, offset) == Some(Slice(x.s, offset + 1 + |x.second.Octets(x.declared)| + x.declared))
  {
    hide Form.Octets, Reads, HeadAt, LenientLengthAt, Clamped, CutAtEnd;
    CutSizes(x);
    var cut := x.second.Octets(x.declared)[..x.octets];
    ReadsAfter(b, offset, [0x02], cut + x.s);
    ReadsAfter(b, offset + 1, cut, x.s);
    ReadsByte(b, offset, [0x02], 0);
    CutHead(b, offset + 1, x);
    HeadComplete(b, offset + 1, x.second, x.declared, x.octets);
    CutContents(b, offset + 1, x);
  }

  lemma CutSizes(x: Spelling)
    requires Fitting(x) && CutAtEnd(x)
    ensures 1 <= x.octets <= |x.second.Octets(x.declared)| && |SecondInteger(x)| == 1 + x.octets + |x.s|
  {
    hide Form.Octets;
  }

  lemma FirstRead(b: seq<Byte>, offset: nat, x: Spelling)
    requires Fitting(x) && Reads(b, offset, FirstInteger(x))
    ensures LenientIntegerAt(b, offset) == Some(Slice(x.r, offset + |FirstInteger(x)|))
  {
    hide Form.Octets, Reads, HeadAt, LenientLengthAt, Clamped;
    var o := x.first.Octets(|x.r|);
    ReadsAfter(b, offset, [0x02], o + x.r);
    ReadsAfter(b, offset + 1, o, x.r);
    ReadsByte(b, offset, [0x02], 0);
    WholeHead(b, offset + 1, x.first, |x.r|);
    HeadComplete(b, offset + 1, x.first, |x.r|, |o|);
    ClampedReads(b, offset + 1 + |o|, x.r);
  }

  lemma CutHead(b: seq<Byte>, offset: nat, x: Spelling)
    requires Fitting(x) && CutAtEnd(x) && offset + x.octets + |x.s| + |x.tail| == |b|
    requires Reads(b, offset, x.second.Octets(x.declared)[..x.octets])
    ensures HeadAt(b, offset, x.second, x.declared, x.octets)
  {
    hide Form.Octets, Reads;
  }

  /** The clamped slice is what is there of the contents. */
  lemma CutContents(b: seq<Byte>, offset: nat, x: Spelling)
    requires Fitting(x) && CutAtEnd(x) && offset + x.octets + |x.s| + |x.tail| == |b|
    requires Reads(b, offset + x.octets, x.s)
    ensures var from := offset + |x.second.Octets(x.declared)|; Clamped(b, from, from + x.declared) == x.s
  {
    hide Form.Octets;
  }

  // ---- Whatever is read is a spelling ---------------------------------------------------

  /** The first integer, which the tag of the second follows. */
  lemma FirstSound(b: seq<Byte>, offset: nat) returns (form: Form, r: seq<Byte>)
    requires LenientIntegerAt(b, offset).Some? && LenientIntegerAt(b, offset).value.next < |b|
    ensures form.Fits(|r|) && LenientIntegerAt(b, offset) == Some(Slice(r, offset + 1 + |form.Octets(|r|)| + |r|))
    ensures Reads(b, offset, [0x02] + (form.Octets(|r|) + r))
  {
    hide Form.Octets, Reads, HeadAt, LenientLengthAt, Clamped;
    var n, k;
    form, n, k := HeadSound(b, offset + 1);
    HeadFits(b, offset + 1, form, n, k);
    var from := offset + 1 + |form.Octets(n)|;
    r := Clamped(b, from, from + n);
    WholeInside(b, offset + 1, form, n, k);
    InsideContents(b, from, n);
    ReadsTag(b, offset, 0x02);
    ReadsJoin(b, offset + 1, form.Octets(n), r);
    ReadsJoin(b, offset, [0x02], form.Octets(n) + r);
  }

  /** The second integer and what follows it. */
  lemma SecondSound(b: seq<Byte>, offset: nat) returns (form: Form, n: nat, k: nat, s: seq<Byte>, tail: seq<Byte>)
    requires LenientIntegerAt(b, offset).Some?
    ensures form.Fits(n) && LenientIntegerAt(b, offset) == Some(Slice(s, offset + 1 + |form.Octets(n)| + n))
    ensures 1 <= k <= |form.Octets(n)| && |s| <= n && (|s| < n ==> tail == [])
    ensures k < |form.Octets(n)| ==> s == [] && tail == [] && forall i :: k <= i < |form.Octets(n)| ==> form.Octets(n)[i] == 0
    ensures Reads(b, offset, [0x02] + (form.Octets(n)[..k] + s)) && Reads(b, offset + 1 + k + |s|, tail)
    ensures offset + 1 + k + |s| + |tail| == |b|
  {
    hide Form.Octets, Reads, HeadAt, LenientLengthAt, Clamped;
    form, n, k := HeadSound(b, offset + 1);
    HeadFits(b, offset + 1, form, n, k);
    var o := form.Octets(n);
    var from := offset + 1 + |o|;
    s := Clamped(b, from, from + n);
    tail := if from + n <= |b| then b[from + n..] else [];
    EndContents(b, offset + 1, form, n, k);
    ReadsTag(b, offset, 0x02);
    ReadsJoin(b, offset + 1, o[..k], s);
    ReadsJoin(b, offset, [0x02], o[..k] + s);
  }

  lemma LenientSound(b: seq<Byte>) returns (x: Spelling)
    requires LenientParse(b).Some?
    ensures Valid(x) && b == Text(x) && LenientParse(b) == Some(Raw(x))
  {
    hide Form.Octets, Reads, HeadAt, LenientLengthAt, LenientIntegerAt, Clamped, Value, Fixed, Pow256, ToFixed32, Text;
    var f0, n0, k0 := HeadSound(b, 1);
    HeadFits(b, 1, f0, n0, k0);
    var at1 := 1 + |f0.Octets(n0)|;
    Tagged(b, at1);
    var at2 := LenientIntegerAt(b, at1).value.next;
    Tagged(b, at2);
    var f1, r := FirstSound(b, at1);
    var f2, n2, k2, s, tail := SecondSound(b, at2);
    x := Spelling(f0, f1, r, f2, n2, k2, s, tail);
    WholeInside(b, 1, f0, n0, k0);
    ToFixed32Exactly(r);
    ToFixed32Exactly(s);
    assert n0 == DeclaredLength(x);
    assert CutAtEnd(x);
    ReadsTag(b, 0, 0x30);
    FirstSize(x);
    CutSizes(x);
    TextExactly(b, x);
  }

  lemma Tagged(b: seq<Byte>, offset: nat)
    requires LenientIntegerAt(b, offset).Some?
    ensures offset < |b|
  {
    hide LenientLengthAt, Clamped;
  }

  lemma ReadsTag(b: seq<Byte>, offset: nat, tag: Byte)
    requires offset < |b| && b[offset] == tag
    ensures Reads(b, offset, [tag])
  {
  }

  lemma HeadFits(b: seq<Byte>, offset: nat, form: Form, n: nat, k: nat)
    requires HeadAt(b, offset, form, n, k)
    ensures form.Fits(n) && 1 <= k <= |form.Octets(n)| && Reads(b, offset, form.Octets(n)[..k])
  {
    hide Form.Octets;
  }

  /** A length that something inside the input follows is there as a whole. */
  lemma WholeInside(b: seq<Byte>, offset: nat, form: Form, n: nat, k: nat)
    requires HeadAt(b, offset, form, n, k) && offset + |form.Octets(n)| < |b|
    ensures form.Fits(n) && Reads(b, offset, form.Octets(n))
  {
    hide Form.Octets;
    var o := form.Octets(n);
    assert o[..|o|] == o;
  }

  lemma InsideContents(b: seq<Byte>, offset: nat, n: nat)
    requires offset + n < |b|
    ensures Reads(b, offset, Clamped(b, offset, offset + n)) && |Clamped(b, offset, offset + n)| == n
  {
  }

  /** What there is of the contents behind a length, and what follows it. */
  lemma EndContents(b: seq<Byte>, offset: nat, form: Form, n: nat, k: nat)
    requires HeadAt(b, offset, form, n, k)
    ensures var from := offset + |form.Octets(n)|;
      var s := Clamped(b, from, from + n);
      var rest := if from + n <= |b| then b[from + n..] else [];
      |s| <= n && Reads(b, offset + k, s) && Reads(b, offset + k + |s|, rest) && offset + k + |s| + |rest| == |b|
      && (|s| < n ==> rest == [])
      && (k < |form.Octets(n)| ==> s == [] && rest == [] && forall i :: k <= i < |form.Octets(n)| ==> form.Octets(n)[i] == 0)
  {
    hide Form.Octets;
  }

  /** The lenient reader, exactly: which inputs, and what it returns for each. */
  lemma LenientExactly(b: seq<Byte>, raw: seq<Byte>)
    ensures LenientParse(b) == Some(raw) <==> exists x :: Valid(x) && b == Text(x) && raw == Raw(x)
  {
    hide LenientParse, Valid, Text, Raw;
    if LenientParse(b) == Some(raw) { var x := LenientSound(b); }
    if x :| Valid(x) && b == Text(x) && raw == Raw(x) { LenientOfSpelling(x); }
  }

  // ---- Which of them the strict reader accepts ---------------------------------------------

  /** Nothing left of the reader's leniency. */
  predicate Distinguished(x: Spelling) {
    x.sequence.Short? && x.first.Short? && x.second.Short? && x.tail == [] && |x.s| == x.declared
    && MinimalSigned(x.r) && MinimalSigned(x.s) && InRange(Value(x.r)) && InRange(Value(x.s))
  }

  lemma DistinguishedText(x: Spelling)
    requires Valid(x) && Distinguished(x)
    ensures Text(x) == DerSignature(Value(x.r), Value(x.s))
  {
    hide Value, Pow256, MinimalSigned, IntegerContents;
    ContentsUnique(x.r);
    ContentsUnique(x.s);
    ContentsBound(Value(x.r));
    ContentsBound(Value(x.s));
    assert x.second.Octets(x.declared)[..x.octets] == [|x.s|];
    ShortText(x);
  }

  lemma ShortText(x: Spelling)
    requires Fitting(x) && CutAtEnd(x) && x.sequence.Short? && x.first.Short? && x.second.Short? && x.tail == [] && |x.s| == x.declared
    ensures [0x30] + (x.sequence.Octets(DeclaredLength(x)) + (FirstInteger(x) + (SecondInteger(x) + x.tail)))
         == [0x30, |FirstInteger(x)| + |SecondInteger(x)|] + (FirstInteger(x) + SecondInteger(x))
    ensures FirstInteger(x) == [0x02, |x.r|] + x.r && SecondInteger(x) == [0x02, |x.s|] + x.s
  {
    assert x.second.Octets(x.declared)[..x.octets] == [|x.s|];
  }

  /** A form is told by its first octet. */
  lemma FormOf(form: Form, n: nat)
    requires form.Fits(n)
    ensures form.Octets(n)[0] < 0x80 <==> form.Short?
    ensures form.Short? ==> form.Octets(n) == [n]
  {
  }

  /** A spelling of a distinguished encoding has its form and its contents. */
  lemma SpellingOfDer(x: Spelling, r: nat, s: nat)
    requires Valid(x) && InRange(r) && InRange(s) && Text(x) == DerSignature(r, s)
    ensures Distinguished(x) && Value(x.r) == r && Value(x.s) == s
  {
    hide Form.Octets, Form.Fits, Reads, Value, Pow256, InRange, IntegerContents, MinimalSigned, Text, FirstInteger, SecondInteger;
    ContentsBound(r);
    ContentsBound(s);
    ContentsAccepted(r);
    ContentsAccepted(s);
    var b, dr, ds := Text(x), DerInteger(r), DerInteger(s);
    TextExactly(b, x);
    FiveParts(b, [0x30], [|dr| + |ds|], dr, ds, []);
    assert [0x30] + ([|dr| + |ds|] + (dr + (ds + []))) == b;
    SameHead(b, 1, x.sequence, DeclaredLength(x), |dr| + |ds|);
    FirstSize(x);
    SameFirst(b, 2, x, r);
    CutSizes(x);
    SameSecond(b, 2 + |dr|, x, s);
  }

  lemma SameHead(b: seq<Byte>, offset: nat, form: Form, n: nat, m: nat)
    requires form.Fits(n) && m < 0x80 && Reads(b, offset, form.Octets(n)) && Reads(b, offset, [m])
    ensures form.Short? && n == m && form.Octets(n) == [m]
  {
    hide Form.Octets, Reads;
    FormOf(form, n);
    ReadsByte(b, offset, form.Octets(n), 0);
    ReadsByte(b, offset, [m], 0);
  }

  lemma SameBytes(b: seq<Byte>, offset: nat, x: seq<Byte>, y: seq<Byte>)
    requires Reads(b, offset, x) && Reads(b, offset, y) && |x| == |y|
    ensures x == y
  {
  }

  lemma SameFirst(b: seq<Byte>, offset: nat, x: Spelling, v: nat)
    requires Fitting(x) && InRange(v) && |IntegerContents(v)| <= 33
    requires Reads(b, offset, FirstInteger(x)) && Reads(b, offset, DerInteger(v))
    ensures x.first.Short? && x.r == IntegerContents(v) && FirstInteger(x) == DerInteger(v)
  {
    hide Form.Octets, Reads, IntegerContents, InRange;
    var c := IntegerContents(v);
    var o := x.first.Octets(|x.r|);
    ReadsAfter(b, offset, [0x02], o + x.r);
    ReadsAfter(b, offset + 1, o, x.r);
    ReadsAfter(b, offset, [0x02, |c|], c);
    assert [0x02, |c|] == [0x02] + [|c|];
    ReadsAfter(b, offset, [0x02], [|c|]);
    SameHead(b, offset + 1, x.first, |x.r|, |c|);
    FormOf(x.first, |x.r|);
    SameBytes(b, offset + 2, x.r, c);
  }

  /** The second integer of a distinguished encoding fills the input, so nothing is cut off
      and nothing follows. */
  lemma SameSecond(b: seq<Byte>, offset: nat, x: Spelling, v: nat)
    requires Fitting(x) && CutAtEnd(x) && InRange(v) && |IntegerContents(v)| <= 33
    requires Reads(b, offset, SecondInteger(x)) && Reads(b, offset, DerInteger(v))
    requires offset + |SecondInteger(x)| + |x.tail| == |b| == offset + |DerInteger(v)|
    ensures x.second.Short? && x.s == IntegerContents(v) && |x.s| == x.declared && x.tail == []
  {
    hide Form.Octets, Reads, IntegerContents, InRange;
    var c := IntegerContents(v);
    var o := x.second.Octets(x.declared)[..x.octets];
    CutSizes(x);
    ReadsAfter(b, offset, [0x02], o + x.s);
    ReadsAfter(b, offset + 1, o, x.s);
    ReadsAfter(b, offset, [0x02, |c|], c);
    assert [0x02, |c|] == [0x02] + [|c|];
    ReadsAfter(b, offset, [0x02], [|c|]);
    FormOf(x.second, x.declared);
    ReadsByte(b, offset + 1, o, 0);
    ReadsByte(b, offset + 1, [|c|], 0);
    assert o[0] == x.second.Octets(x.declared)[0];
    assert x.second.Short? && x.declared == |c| && |o| == 1;
    SameBytes(b, offset + 2, x.s, c);
  }

  /** Of the inputs the lenient reader accepts, the strict one accepts exactly those that use
      none of its liberties: short lengths, minimal positive contents, both scalars in range,
      nothing cut off and nothing appended. */
  lemma StrictOfSpelling(x: Spelling)
    requires Valid(x)
    ensures ParseSignature(Text(x)).Ok? <==> Distinguished(x)
  {
    hide ParseSignature, Valid, Text, Distinguished, DerSignature, Value;
    if ParseSignature(Text(x)).Ok? {
      var r, s := ParseSound(Text(x));
      SpellingOfDer(x, r, s);
    }
    if Distinguished(x) {
      DistinguishedText(x);
      InRangeOf(x);
      ParseOfDer(Value(x.r), Value(x.s));
    }
  }

  lemma InRangeOf(x: Spelling)
    requires Distinguished(x)
    ensures InRange(Value(x.r)) && InRange(Value(x.s))
  {
  }

  /** The same by the answer: the strict reader accepts exactly when the answered scalars are
      in range and the input is their distinguished encoding. */
  lemma StrictOfLenient(b: seq<Byte>)
    requires LenientParse(b).Some?
    ensures |LenientParse(b).value| == 64
    ensures var raw := LenientParse(b).value;
      var r, s := Value(raw[..32]), Value(raw[32..]);
      ParseSignature(b).Ok? <==> InRange(r) && InRange(s) && b == DerSignature(r, s)
  {
    hide ParseSignature, LenientParse, DerSignature, Fixed, Value, Pow256, InRange;
    var x := LenientSound(b);
    var raw := LenientParse(b).value;
    assert |raw| == 64;
    if ParseSignature(b).Ok? {
      var r, s := ParseSound(b);
      LenientOfDer(r, s, []);
      assert b + [] == b;
      assert raw[..32] == Fixed(r, 32) && raw[32..] == Fixed(s, 32);
      RangeValues(r);
      RangeValues(s);
    }
    if InRange(Value(raw[..32])) && InRange(Value(raw[32..])) && b == DerSignature(Value(raw[..32]), Value(raw[32..])) {
      ParseOfDer(Value(raw[..32]), Value(raw[32..]));
    }
  }

  lemma RangeValues(v: nat)
    requires InRange(v)
    ensures Value(Fixed(v, 32)) == v
  {
    hide Fixed, Value, Pow256;
    OrderFits();
    ValueOfFixed(v, 32);
  }
}
