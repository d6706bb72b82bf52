/**
 * The decoder inverts every encoding of a supported item, at any offset of any buffer,
 * up to what a script record and TextDecoder cannot hold; and exactly which items lose
 * nothing.
 */
module CborRoundTrip {
  import opened Bits
  import opened BigEndian
  import opened Buffers
  import Utf8
  import opened Cbor

  // ---- What the decoder keeps of an item -------------------------------------------

  function StoredText(t: Text): Text {
    if Utf8.Marked(t) then t[1..] else t
  }

  function StoredKey(key: Item): Text
    requires IsKey(key)
  {
    match key
    case Unsigned(_, n) => NumberText(n)
    case Negative(_, n) => NumberText(-1 - n)
    case Chars(_, t) => StoredText(t)
  }

  /** Later entries overwrite earlier ones, as property assignment does. */
  function Stored(i: Item): Value
    requires Supported(i)
  {
    match i
    case Unsigned(_, n) => Number(n)
    case Negative(_, n) => Number(-1 - n)
    case Bytes(_, b) => ByteString(b)
    case Chars(_, t) => String(StoredText(t))
    case List(_, items) => Array(StoredItems(items))
    case Dict(_, es) => Record(StoredEntries(es, map[]))
    case False => Bool(false)
    case True => Bool(true)
    case Null => Nothing
  }

  function StoredItems(items: seq<Item>): (vs: seq<Value>)
    requires SupportedItems(items)
    ensures |vs| == |items|
  {
    if items == [] then [] else [Stored(items[0])] + StoredItems(items[1..])
  }

  function StoredEntry(e: Entry): Value
    requires SupportedEntry(e)
  {
    Stored(e.value)
  }

  function StoredEntries(es: seq<Entry>, m: map<Text, Value>): map<Text, Value>
    requires SupportedEntries(es)
  {
    if es == [] then m
    else StoredEntries(es[1..], Assign(m, StoredKey(es[0].key), StoredEntry(es[0])))
  }

  // ---- Heads --------------------------------------------------------------------

  lemma HeadReads(b: seq<Byte>, offset: nat, major: nat, form: Form, n: nat)
    requires major < 8 && form.Fits(n) && Reads(b, offset, Head(major, form, n))
    ensures offset < |b| && b[offset] / 32 == major && b[offset] % 32 == Additional(form, n)
    ensures LengthAt(b, offset + 1, Additional(form, n)) == Decoded(n, offset + |Head(major, form, n)|)
  {
    var arg := Argument(form, n);
    ReadsAfter(b, offset, [32 * major + Additional(form, n)], arg);
    ReadsByte(b, offset, [32 * major + Additional(form, n)], 0);
    match form {
      case Direct =>
      case One =>
        ReadsByte(b, offset + 1, arg, 0);
      case Two =>
        ReadsByte(b, offset + 1, arg, 0);
        ReadsByte(b, offset + 1, arg, 1);
        assert Pow256(2) == 0x1_0000;
        ValueOfFixed(n, 2);
        ValueOfTwo(arg);
      case Four =>
        hide Fixed, BigEndian.Value;
        ReadsByte(b, offset + 1, arg, 0);
        ReadsByte(b, offset + 1, arg, 1);
        ReadsByte(b, offset + 1, arg, 2);
        ReadsByte(b, offset + 1, arg, 3);
        assert Pow256(4) == 0x1_0000_0000;
        ValueOfFixed(n, 4);
        ValueOfFour(arg);
    }
  }

  // ---- The round trip -------------------------------------------------------------

  lemma LeafReads(b: seq<Byte>, offset: nat, i: Item)
    requires Supported(i) && !i.List? && !i.Dict? && Reads(b, offset, Encode(i))
    ensures DecodeAt(b, offset) == Decoded(Stored(i), offset + |Encode(i)|)
  {
    hide LengthAt, Head, Utf8.Encode, Utf8.Decode, Clamped, Reads, ItemsAt, EntriesAt;
    match i {
      case Unsigned(f, n) => HeadReads(b, offset, 0, f, n);
      case Negative(f, n) => HeadReads(b, offset, 1, f, n);
      case Bytes(f, bytes) =>
        ReadsAfter(b, offset, Head(2, f, |bytes|), bytes);
        HeadReads(b, offset, 2, f, |bytes|);
        ClampedReads(b, offset + |Head(2, f, |bytes|)|, bytes);
      case Chars(f, t) =>
        var bytes := Utf8.Encode(t);
        ReadsAfter(b, offset, Head(3, f, |bytes|), bytes);
        HeadReads(b, offset, 3, f, |bytes|);
        ClampedReads(b, offset + |Head(3, f, |bytes|)|, bytes);
        Utf8.RoundTrip(t);
      case False => ReadsByte(b, offset, [0xF4], 0);
      case True => ReadsByte(b, offset, [0xF5], 0);
      case Null => ReadsByte(b, offset, [0xF6], 0);
    }
  }

  lemma {:induction false} DecodeReads(b: seq<Byte>, offset: nat, i: Item)
    requires Supported(i) && Reads(b, offset, Encode(i))
    ensures DecodeAt(b, offset) == Decoded(Stored(i), offset + |Encode(i)|)
    decreases i, 0
  {
    hide LengthAt, Head, Reads, ItemsAt, EntriesAt, EncodeItems, EncodeEntries, StoredItems;
    match i {
      case List(f, items) =>
        ReadsAfter(b, offset, Head(4, f, |items|), EncodeItems(items));
        HeadReads(b, offset, 4, f, |items|);
        ItemsRead(b, offset + |Head(4, f, |items|)|, items, []);
        assert [] + StoredItems(items) == StoredItems(items);
      case Dict(f, es) =>
        ReadsAfter(b, offset, Head(5, f, |es|), EncodeEntries(es));
        HeadReads(b, offset, 5, f, |es|);
        EntriesRead(b, offset + |Head(5, f, |es|)|, es, map[]);
      case _ => LeafReads(b, offset, i);
    }
  }

  lemma Append(done: seq<Value>, v: Value, rest: seq<Value>)
    ensures done + [v] + rest == done + ([v] + rest)
  {
  }

  lemma {:induction false} ItemsRead(b: seq<Byte>, offset: nat, items: seq<Item>, done: seq<Value>)
    requires SupportedItems(items) && Reads(b, offset, EncodeItems(items))
    ensures ItemsAt(b, offset, |items|, done) == Decoded(done + StoredItems(items), offset + |EncodeItems(items)|)
    decreases items, 1
  {
    hide Reads, Encode, Stored, DecodeAt;
    if items == [] {
      assert done + [] == done;
    } else {
      ReadsAfter(b, offset, Encode(items[0]), EncodeItems(items[1..]));
      DecodeReads(b, offset, items[0]);
      ItemsRead(b, offset + |Encode(items[0])|, items[1..], done + [Stored(items[0])]);
      Append(done, Stored(items[0]), StoredItems(items[1..]));
    }
  }

  lemma {:induction false} EntryReads(b: seq<Byte>, offset: nat, e: Entry)
    requires SupportedEntry(e) && Reads(b, offset, EncodeEntry(e))
    ensures var k := DecodeAt(b, offset);
      k.Decoded? && k.value == Stored(e.key) && KeyText(k.value) == Decoded(StoredKey(e.key), 0)
      && DecodeAt(b, k.next) == Decoded(StoredEntry(e), offset + |EncodeEntry(e)|)
    decreases e, 1
  {
    hide Reads, Encode, DecodeAt, NumberText;
    ReadsAfter(b, offset, Encode(e.key), Encode(e.value));
    DecodeReads(b, offset, e.key);
    DecodeReads(b, offset + |Encode(e.key)|, e.value);
  }

  lemma {:induction false} EntriesRead(b: seq<Byte>, offset: nat, es: seq<Entry>, done: map<Text, Value>)
    requires SupportedEntries(es) && Reads(b, offset, EncodeEntries(es))
    ensures EntriesAt(b, offset, |es|, done) == Decoded(StoredEntries(es, done), offset + |EncodeEntries(es)|)
    decreases es, 1
  {
    hide Reads, EncodeEntry, StoredEntry, DecodeAt, Assign, KeyText, StoredKey;
    if es != [] {
      ReadsAfter(b, offset, EncodeEntry(es[0]), EncodeEntries(es[1..]));
      EntryReads(b, offset, es[0]);
      EntriesRead(b, offset + |EncodeEntry(es[0])|, es[1..], Assign(done, StoredKey(es[0].key), StoredEntry(es[0])));
    }
  }

  /** Whatever surrounds the encoding, decoding at its start gives what the item stores
      and the offset just after it. */
  lemma RoundTrip(before: seq<Byte>, i: Item, after: seq<Byte>)
    requires Supported(i)
    ensures DecodeAt(before + Encode(i) + after, |before|) == Decoded(Stored(i), |before| + |Encode(i)|)
  {
    hide Encode, DecodeAt, Stored;
    ReadsInside(before, Encode(i), after);
    DecodeReads(before + Encode(i) + after, |before|, i);
  }
}
