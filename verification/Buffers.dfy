/** Reading byte buffers the way typed arrays are read. */
module Buffers {
  import opened Bits

  /** The slice at an offset reads as b. */
  predicate Reads(input: seq<Byte>, offset: nat, b: seq<Byte>) {
    offset + |b| <= |input| && input[offset..offset + |b|] == b
  }

  /** A byte read past the end is undefined, which bitwise operators take as zero. */
  function ByteAt(b: seq<Byte>, i: nat): Byte {
    if i < |b| then b[i] else 0
  }

  /** A slice, which stops at the end of the buffer. */
  function Clamped(b: seq<Byte>, from: nat, to: nat): seq<Byte>
    requires from <= to
  {
    if from >= |b| then [] else if to >= |b| then b[from..] else b[from..to]
  }

  lemma ClampedReads(b: seq<Byte>, offset: nat, c: seq<Byte>)
    requires Reads(b, offset, c)
    ensures Clamped(b, offset, offset + |c|) == c
  {
  }

  lemma ReadsAfter(b: seq<Byte>, offset: nat, x: seq<Byte>, y: seq<Byte>)
    requires Reads(b, offset, x + y)
    ensures Reads(b, offset, x) && Reads(b, offset + |x|, y)
  {
    var at := b[offset..offset + |x + y|];
    assert at[..|x|] == x && at[|x|..] == y;
  }

  lemma ReadsJoin(b: seq<Byte>, offset: nat, x: seq<Byte>, y: seq<Byte>)
    requires Reads(b, offset, x) && Reads(b, offset + |x|, y)
    ensures Reads(b, offset, x + y)
  {
  }

  lemma ReadsWhole(b: seq<Byte>, x: seq<Byte>)
    ensures Reads(b, 0, x) && |x| == |b| <==> b == x
  {
  }

  lemma ReadsByte(b: seq<Byte>, offset: nat, x: seq<Byte>, i: nat)
    requires Reads(b, offset, x) && i < |x|
    ensures offset + i < |b| && b[offset + i] == x[i]
  {
    assert b[offset..offset + |x|][i] == x[i];
  }

  lemma ReadsInside(before: seq<Byte>, x: seq<Byte>, after: seq<Byte>)
    ensures Reads(before + x + after, |before|, x)
  {
  }
}
