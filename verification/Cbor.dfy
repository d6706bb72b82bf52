/**
 * The CBOR decoder of the WebAuthn adapter, on the definite-length subset of section 3 of
 * RFC 8949 that it supports, and the encodings it is proved to invert at any offset.
 */
module Cbor {
  import opened Bits
  import opened BigEndian
  import opened Buffers
  import Utf8

  type Text = seq<char>

  // ---- What is encoded -----------------------------------------------------------

  /** The four ways a head can carry its argument; a larger one than needed is allowed. */
  datatype Form = Direct | One | Two | Four {
    predicate Fits(n: nat) {
      match this case Direct => n < 24 case One => n < 0x100 case Two => n < 0x1_0000 case Four => n < 0x1_0000_0000
    }
  }

  datatype Item =
    | Unsigned(form: Form, n: nat)
    | Negative(form: Form, n: nat)
    | Bytes(form: Form, bytes: seq<Byte>)
    | Chars(form: Form, text: Text)
    | List(form: Form, items: seq<Item>)
    | Dict(form: Form, entries: seq<Entry>)
    | False | True | Null

  datatype Entry = Entry(key: Item, value: Item)

  function Additional(form: Form, n: nat): (a: nat)
    requires form.Fits(n)
    ensures a < 27
  {
    match form case Direct => n case One => 24 case Two => 25 case Four => 26
  }

  function Argument(form: Form, n: nat): (b: seq<Byte>)
    requires form.Fits(n)
  {
    match form case Direct => [] case One => Fixed(n, 1) case Two => Fixed(n, 2) case Four => Fixed(n, 4)
  }

  function Head(major: nat, form: Form, n: nat): (b: seq<Byte>)
    requires major < 8 && form.Fits(n)
    ensures |b| > 0
  {
    [32 * major + Additional(form, n)] + Argument(form, n)
  }

  predicate IsKey(i: Item) { i.Unsigned? || i.Negative? || i.Chars? }

  /** Every argument fits its head, and map keys are numbers or texts. */
  predicate Supported(i: Item) {
    match i
    case Unsigned(f, n) => f.Fits(n)
    case Negative(f, n) => f.Fits(n)
    case Bytes(f, b) => f.Fits(|b|)
    case Chars(f, t) => f.Fits(|Utf8.Encode(t)|)
    case List(f, items) => f.Fits(|items|) && forall k :: 0 <= k < |items| ==> Supported(items[k])
    case Dict(f, es) => f.Fits(|es|) && forall k :: 0 <= k < |es| ==> SupportedEntry(es[k])
    case _ => true
  }

  predicate SupportedItems(items: seq<Item>) {
    forall k :: 0 <= k < |items| ==> Supported(items[k])
  }

  predicate SupportedEntries(es: seq<Entry>) {
    forall k :: 0 <= k < |es| ==> SupportedEntry(es[k])
  }

  function Encode(i: Item): (b: seq<Byte>)
    requires Supported(i)
    ensures |b| > 0
  {
    match i
    case Unsigned(f, n) => Head(0, f, n)
    case Negative(f, n) => Head(1, f, n)
    case Bytes(f, b) => Head(2, f, |b|) + b
    case Chars(f, t) => Head(3, f, |Utf8.Encode(t)|) + Utf8.Encode(t)
    case List(f, items) => Head(4, f, |items|) + EncodeItems(items)
    case Dict(f, es) => Head(5, f, |es|) + EncodeEntries(es)
    case False => [0xF4]
    case True => [0xF5]
    case Null => [0xF6]
  }

  function EncodeItems(items: seq<Item>): seq<Byte>
    requires SupportedItems(items)
  {
    if items == [] then [] else Encode(items[0]) + EncodeItems(items[1..])
  }

  function EncodeEntries(es: seq<Entry>): seq<Byte>
    requires SupportedEntries(es)
  {
    if es == [] then [] else EncodeEntry(es[0]) + EncodeEntries(es[1..])
  }

  predicate SupportedEntry(e: Entry) {
    IsKey(e.key) && Supported(e.key) && Supported(e.value)
  }

  function EncodeEntry(e: Entry): seq<Byte>
    requires SupportedEntry(e)
  {
    Encode(e.key) + Encode(e.value)
  }

  // ---- What is decoded -----------------------------------------------------------

  /** The script values the decoder builds; a record is its own properties. */
  datatype Value =
    | Number(n: int)
    | ByteString(bytes: seq<Byte>)
    | String(text: Text)
    | Array(items: seq<Value>)
    | Record(properties: map<Text, Value>)
    | Bool(b: bool)
    | Nothing

  /** PastEnd: an argument byte was missing and the source goes on with no length. */
  datatype Outcome<T> = Decoded(value: T, next: nat) | Throws | PastEnd

  /** The argument of a head whose initial byte stands just before offset. */
  function LengthAt(b: seq<Byte>, offset: nat, additional: nat): (r: Outcome<nat>)
    ensures r.Decoded? ==> r.next >= offset
  {
    if additional < 24 then Decoded(additional, offset)
    else if additional == 24 then (if offset < |b| then Decoded(b[offset], offset + 1) else PastEnd)
    else if additional == 25 then Decoded(256 * (ByteAt(b, offset) as int) + ByteAt(b, offset + 1), offset + 2)
    else if additional == 26 then
      if offset + 4 > |b| then PastEnd
      else Decoded(0x100_0000 * (b[offset] as int) + 0x1_0000 * (b[offset + 1] as int)
                   + 0x100 * (b[offset + 2] as int) + b[offset + 3], offset + 4)
    else Throws
  }

  function DigitsText(n: nat): (t: Text)
    ensures |t| > 0 && t[0] != '-'
  {
    if n < 10 then ['0' + n as char] else DigitsText(n / 10) + ['0' + (n % 10) as char]
  }

  /** String() of an integer. */
  function NumberText(n: int): Text {
    if n < 0 then "-" + DigitsText(-n) else DigitsText(n)
  }

  function KeyText(v: Value): Outcome<Text> {
    match v
    case Number(n) => Decoded(NumberText(n), 0)
    case String(t) => Decoded(t, 0)
    case _ => Throws
  }

  const PROTO: Text := "__proto__"

  /** Assignment to a property of an object literal: one name is an accessor of every
      object and never becomes a property. */
  function Assign(m: map<Text, Value>, key: Text, v: Value): map<Text, Value> {
    if key == PROTO then m else m[key := v]
  }

  function Left(b: seq<Byte>, offset: nat): nat {
    if offset < |b| then |b| - offset else 0
  }

  function DecodeAt(b: seq<Byte>, offset: nat): (r: Outcome<Value>)
    ensures r.Decoded? ==> r.next > offset
    decreases Left(b, offset), 0, 0
  {
    if offset >= |b| then Throws
    else
      var major := b[offset] / 32;
      var additional := b[offset] % 32;
      if major == 7 && 20 <= additional <= 22 then
        Decoded(if additional == 20 then Bool(false) else if additional == 21 then Bool(true) else Nothing, offset + 1)
      else if major >= 6 then Throws
      else
        match LengthAt(b, offset + 1, additional)
        case Throws => Throws
        case PastEnd => PastEnd
        case Decoded(n, next) =>
          if major == 0 then Decoded(Number(n), next)
          else if major == 1 then Decoded(Number(-1 - n), next)
          else if major == 2 then Decoded(ByteString(Clamped(b, next, next + n)), next + n)
          else if major == 3 then Decoded(String(Utf8.Decode(Clamped(b, next, next + n))), next + n)
          else if major == 4 then
            (match ItemsAt(b, next, n, [])
             case Decoded(items, end) => Decoded(Array(items), end)
             case Throws => Throws
             case PastEnd => PastEnd)
          else
            match EntriesAt(b, next, n, map[])
            case Decoded(m, end) => Decoded(Record(m), end)
            case Throws => Throws
            case PastEnd => PastEnd
  }

  function ItemsAt(b: seq<Byte>, offset: nat, count: nat, done: seq<Value>): (r: Outcome<seq<Value>>)
    ensures r.Decoded? ==> r.next >= offset
    decreases Left(b, offset), 1, count
  {
    if count == 0 then Decoded(done, offset)
    else
      match DecodeAt(b, offset)
      case Throws => Throws
      case PastEnd => PastEnd
      case Decoded(v, next) => ItemsAt(b, next, count - 1, done + [v])
  }

  function EntriesAt(b: seq<Byte>, offset: nat, count: nat, done: map<Text, Value>): (r: Outcome<map<Text, Value>>)
    ensures r.Decoded? ==> r.next >= offset
    decreases Left(b, offset), 1, count
  {
    if count == 0 then Decoded(done, offset)
    else
      match DecodeAt(b, offset)
      case Throws => Throws
      case PastEnd => PastEnd
      case Decoded(k, afterKey) =>
        match DecodeAt(b, afterKey)
        case Throws => Throws
        case PastEnd => PastEnd
        case Decoded(v, next) =>
          match KeyText(k)
          case Decoded(key, _) => EntriesAt(b, next, count - 1, Assign(done, key, v))
          case _ => Throws
  }

  // ---- The decoder's loops ---------------------------------------------------------

  method DecodeCbor(b: seq<Byte>, offset: nat) returns (r: Outcome<Value>)
    ensures r == DecodeAt(b, offset)
    decreases Left(b, offset)
  {
    hide Utf8.Decode, NumberText, LengthAt;
    if offset >= |b| { return Throws; }
    var major := b[offset] / 32;
    var additional := b[offset] % 32;
    if major == 7 && 20 <= additional <= 22 {
      return Decoded(if additional == 20 then Bool(false) else if additional == 21 then Bool(true) else Nothing, offset + 1);
    }
    if major >= 6 { return Throws; }
    var length := LengthAt(b, offset + 1, additional);
    if length.Throws? { return Throws; }
    if length.PastEnd? { return PastEnd; }
    var n, next := length.value, length.next;
    if major == 0 { return Decoded(Number(n), next); }
    if major == 1 { return Decoded(Number(-1 - n), next); }
    if major == 2 { return Decoded(ByteString(Clamped(b, next, next + n)), next + n); }
    if major == 3 { return Decoded(String(Utf8.Decode(Clamped(b, next, next + n))), next + n); }
    if major == 4 {
      var out: seq<Value> := [];
      for index := 0 to n
        invariant next > offset
        invariant ItemsAt(b, next, n - index, out) == ItemsAt(b, length.next, n, [])
      {
        var decoded := DecodeCbor(b, next);
        if !decoded.Decoded? { return if decoded.Throws? then Throws else PastEnd; }
        out := out + [decoded.value];
        next := decoded.next;
      }
      return Decoded(Array(out), next);
    }
    var out: map<Text, Value> := map[];
    for index := 0 to n
      invariant next > offset
      invariant EntriesAt(b, next, n - index, out) == EntriesAt(b, length.next, n, map[])
    {
      var key := DecodeCbor(b, next);
      if !key.Decoded? { return if key.Throws? then Throws else PastEnd; }
      var value := DecodeCbor(b, key.next);
      if !value.Decoded? { return if value.Throws? then Throws else PastEnd; }
      var name := KeyText(key.value);
      if !name.Decoded? { return Throws; }
      out := Assign(out, name.value, value.value);
      next := value.next;
    }
    return Decoded(Record(out), next);
  }
}
