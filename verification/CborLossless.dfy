/**
 * When decoding loses nothing: a record has room for one value per property name, one name
 * is never a property, and a leading byte order mark of a text is dropped.
 */
module CborLossless {
  import opened Cbor
  import opened CborRoundTrip
  import Utf8

  /** The property name an entry asks for. */
  function KeyName(key: Item): Text
    requires IsKey(key)
  {
    match key
    case Unsigned(_, n) => NumberText(n)
    case Negative(_, n) => NumberText(-1 - n)
    case Chars(_, t) => t
  }

  predicate MarkedKey(key: Item) { key.Chars? && Utf8.Marked(key.text) }

  /** The value holds all of the item: every element in its place, and every entry under
      its own name with no other property beside them. */
  ghost predicate Represents(v: Value, i: Item)
    requires Supported(i)
    decreases i
  {
    match i
    case Unsigned(_, n) => v == Number(n)
    case Negative(_, n) => v == Number(-1 - n)
    case Bytes(_, b) => v == ByteString(b)
    case Chars(_, t) => v == String(t)
    case List(_, items) =>
      v.Array? && |v.items| == |items| && forall k :: 0 <= k < |items| ==> Represents(v.items[k], items[k])
    case Dict(_, es) =>
      v.Record? && |v.properties| == |es|
      && forall k :: 0 <= k < |es| ==> RepresentsEntry(v.properties, es[k])
    case False => v == Bool(false)
    case True => v == Bool(true)
    case Null => v == Nothing
  }

  ghost predicate RepresentsEntry(m: map<Text, Value>, e: Entry)
    requires SupportedEntry(e)
    decreases e
  {
    KeyName(e.key) in m && Represents(m[KeyName(e.key)], e.value)
  }

  /** What a caller can check beforehand: no text opens with the mark, and the names of
      each map are distinct and none of them is the accessor's. */
  ghost predicate Clean(i: Item)
    requires Supported(i)
    decreases i
  {
    match i
    case Chars(_, t) => !Utf8.Marked(t)
    case List(_, items) => forall k :: 0 <= k < |items| ==> Clean(items[k])
    case Dict(_, es) => CleanNames(es) && forall k :: 0 <= k < |es| ==> CleanEntry(es[k])
    case _ => true
  }

  ghost predicate CleanEntry(e: Entry)
    requires SupportedEntry(e)
    decreases e
  {
    Clean(e.value)
  }

  ghost predicate CleanNames(es: seq<Entry>)
    requires SupportedEntries(es)
  {
    (forall k :: 0 <= k < |es| ==> KeyName(es[k].key) != PROTO && !MarkedKey(es[k].key))
    && forall j, k :: 0 <= j < k < |es| ==> KeyName(es[j].key) != KeyName(es[k].key)
  }

  // ---- The stored record, by its last entries ------------------------------------------

  /** The names under which the entries are stored. */
  ghost function Names(es: seq<Entry>): (ns: set<Text>)
    requires SupportedEntries(es)
  {
    set k | 0 <= k < |es| :: StoredKey(es[k].key)
  }

  lemma SplitLast(es: seq<Entry>)
    requires es != []
    ensures es == es[..|es| - 1] + [es[|es| - 1]]
  {
  }

  /** Storing a list is storing all but the last entry, then assigning that one. */
  lemma {:induction false} StoredLast(es: seq<Entry>, e: Entry, m: map<Text, Value>)
    requires SupportedEntries(es) && SupportedEntry(e) && SupportedEntries(es + [e])
    ensures StoredEntries(es + [e], m) == Assign(StoredEntries(es, m), StoredKey(e.key), StoredEntry(e))
    decreases |es|
  {
    hide Assign, StoredKey, StoredEntry;
    if es == [] {
      assert ([] + [e])[1..] == [];
    } else {
      assert (es + [e])[1..] == es[1..] + [e];
      StoredLast(es[1..], e, Assign(m, StoredKey(es[0].key), StoredEntry(es[0])));
    }
  }

  /** The stored properties are among the entries' names; the accessor is never one. */
  lemma {:induction false} StoredNames(es: seq<Entry>)
    requires SupportedEntries(es)
    ensures StoredEntries(es, map[]).Keys <= Names(es) - {PROTO}
  {
    hide StoredKey, StoredEntry, SupportedEntry;
    if es != [] {
      var init, last := es[..|es| - 1], es[|es| - 1];
      SplitLast(es);
      StoredNames(init);
      StoredLast(init, last, map[]);
    }
  }

  // ---- Clean names: every entry has its own property -------------------------------------

  lemma Unmarked(key: Item)
    requires IsKey(key) && !MarkedKey(key)
    ensures StoredKey(key) == KeyName(key)
  {
  }

  lemma LastIsNew(es: seq<Entry>)
    requires SupportedEntries(es) && CleanNames(es) && es != []
    ensures var init, name := es[..|es| - 1], KeyName(es[|es| - 1].key);
      CleanNames(init) && name !in Names(init) && name != PROTO && name == StoredKey(es[|es| - 1].key)
      && forall k :: 0 <= k < |init| ==> KeyName(es[k].key) != name
  {
    hide PROTO, KeyName, StoredKey, Supported, IsKey, MarkedKey;
    var init, last := es[..|es| - 1], es[|es| - 1];
    Unmarked(last.key);
    forall k | 0 <= k < |init| ensures StoredKey(init[k].key) != KeyName(last.key) && KeyName(es[k].key) != KeyName(last.key) {
      assert !MarkedKey(es[k].key);
      Unmarked(es[k].key);
      assert KeyName(es[k].key) != KeyName(es[|es| - 1].key);
    }
  }

  lemma {:induction false} CleanStored(es: seq<Entry>)
    requires SupportedEntries(es) && CleanNames(es)
    ensures var m := StoredEntries(es, map[]);
      |m| == |es| && forall k :: 0 <= k < |es| ==> KeyName(es[k].key) in m && m[KeyName(es[k].key)] == StoredEntry(es[k])
  {
    if es != [] {
      hide PROTO, KeyName, StoredKey, StoredEntry, Supported, IsKey, CleanNames, StoredEntries, Names;
      var init, last := es[..|es| - 1], es[|es| - 1];
      SplitLast(es);
      LastIsNew(es);
      CleanStored(init);
      StoredLast(init, last, map[]);
      StoredNames(init);
      OneMore(StoredEntries(init, map[]), KeyName(last.key), StoredEntry(last));
      var m := StoredEntries(es, map[]);
      forall k | 0 <= k < |es| ensures KeyName(es[k].key) in m && m[KeyName(es[k].key)] == StoredEntry(es[k]) {
        if k < |init| { assert es[k] == init[k]; }
      }
    }
  }

  lemma OneMore(m: map<Text, Value>, name: Text, v: Value)
    requires name !in m
    ensures |m[name := v]| == |m| + 1
  {
    assert m[name := v].Keys == m.Keys + {name};
  }

  // ---- Full records: their entries have clean names ---------------------------------------

  lemma {:induction false} ElementsOf(ks: seq<Text>)
    ensures var all := set t | t in ks;
      |all| <= |ks| && (|all| == |ks| ==> forall j, k :: 0 <= j < k < |ks| ==> ks[j] != ks[k])
  {
    var all := set t | t in ks;
    if ks != [] {
      var init, last := ks[..|ks| - 1], ks[|ks| - 1];
      var before := set t | t in init;
      ElementsOf(init);
      assert ks == init + [last];
      assert all == before + {last};
      if |all| == |ks| {
        assert last !in before;
        forall j, k | 0 <= j < k < |ks| ensures ks[j] != ks[k] {
          if k == |ks| - 1 { assert ks[j] in before; } else { assert init[j] != init[k]; }
        }
      }
    }
  }

  lemma NamesBound(es: seq<Entry>)
    requires SupportedEntries(es)
    ensures |Names(es)| <= |es|
    ensures |Names(es)| == |es| ==> forall j, k :: 0 <= j < k < |es| ==> StoredKey(es[j].key) != StoredKey(es[k].key)
  {
    hide StoredKey;
    var ks := seq(|es|, k requires 0 <= k < |es| => StoredKey(es[k].key));
    ElementsOf(ks);
    assert Names(es) == set t | t in ks by {
      forall t | t in Names(es) ensures t in ks {
        var k :| 0 <= k < |es| && StoredKey(es[k].key) == t;
        assert ks[k] == t;
      }
      forall t | t in ks ensures t in Names(es) {
        var k :| 0 <= k < |ks| && ks[k] == t;
        assert StoredKey(es[k].key) == t;
      }
    }
    if |Names(es)| == |es| {
      forall j, k | 0 <= j < k < |es| ensures StoredKey(es[j].key) != StoredKey(es[k].key) {
        assert ks[j] != ks[k];
      }
    }
  }

  lemma SubsetSize(a: set<Text>, b: set<Text>)
    requires a <= b
    ensures |a| <= |b| && (|a| == |b| ==> a == b)
  {
    assert b == a + (b - a);
  }

  /** A mark on one name needs a longer marked name, so there is none. */
  lemma {:induction false} NoMark(es: seq<Entry>, k: nat, longest: nat)
    requires SupportedEntries(es) && k < |es|
    requires forall j :: 0 <= j < |es| ==> KeyName(es[j].key) in Names(es) && |KeyName(es[j].key)| <= longest
    ensures !MarkedKey(es[k].key)
    decreases longest - |KeyName(es[k].key)|
  {
    hide NumberText;
    if MarkedKey(es[k].key) {
      var name := KeyName(es[k].key);
      assert name in Names(es);
      var j :| 0 <= j < |es| && StoredKey(es[j].key) == name;
      NumbersUnmarked(es[j].key);
      assert MarkedKey(es[j].key);
      NoMark(es, j, longest);
    }
  }

  /** A stored name with a mark comes from a text with two. */
  lemma NumbersUnmarked(key: Item)
    requires IsKey(key) && Utf8.Marked(StoredKey(key))
    ensures MarkedKey(key) && |KeyName(key)| == |StoredKey(key)| + 1
  {
    match key {
      case Unsigned(_, n) => DigitsUnmarked(n);
      case Negative(_, n) =>
      case Chars(_, t) =>
    }
  }

  lemma {:induction false} DigitsUnmarked(n: nat)
    ensures '0' <= DigitsText(n)[0] <= '9'
  {
    if n >= 10 { DigitsUnmarked(n / 10); }
  }

  lemma {:induction false} Longest(es: seq<Entry>) returns (longest: nat)
    requires SupportedEntries(es)
    ensures forall j :: 0 <= j < |es| ==> |KeyName(es[j].key)| <= longest
  {
    hide KeyName;
    longest := 0;
    if es != [] {
      var rest := Longest(es[1..]);
      var first := |KeyName(es[0].key)|;
      longest := if first > rest then first else rest;
      forall j | 0 <= j < |es| ensures |KeyName(es[j].key)| <= longest {
        if j > 0 { assert es[j] == es[1..][j - 1]; }
      }
    }
  }

  lemma FullNames(es: seq<Entry>)
    requires SupportedEntries(es)
    requires |StoredEntries(es, map[])| == |es|
    ensures StoredEntries(es, map[]).Keys == Names(es) && PROTO !in Names(es)
    ensures forall j, k :: 0 <= j < k < |es| ==> StoredKey(es[j].key) != StoredKey(es[k].key)
  {
    hide StoredEntries, StoredKey, PROTO, Names, SupportedEntry;
    var m := StoredEntries(es, map[]);
    StoredNames(es);
    NamesBound(es);
    assert |m.Keys| == |m|;
    SubsetSize(m.Keys, Names(es) - {PROTO});
    SubsetSize(Names(es) - {PROTO}, Names(es));
  }

  lemma FullIsClean(es: seq<Entry>)
    requires SupportedEntries(es)
    requires |StoredEntries(es, map[])| == |es|
    requires forall k :: 0 <= k < |es| ==> KeyName(es[k].key) in StoredEntries(es, map[])
    ensures CleanNames(es)
  {
    hide StoredEntries, StoredKey, PROTO, Names, Supported, IsKey, MarkedKey, KeyName;
    FullNames(es);
    var longest := Longest(es);
    forall k | 0 <= k < |es| ensures !MarkedKey(es[k].key) && StoredKey(es[k].key) == KeyName(es[k].key) {
      NoMark(es, k, longest);
      Unmarked(es[k].key);
    }
  }

  // ---- The exact condition ------------------------------------------------------------

  /** Decoding keeps the whole item exactly when the item is clean. */
  lemma {:induction false} LosslessExactly(i: Item)
    requires Supported(i)
    ensures Represents(Stored(i), i) <==> Clean(i)
    decreases i, 0
  {
    match i {
      case List(_, items) => ItemsLossless(items);
      case Dict(_, es) =>
        var m := StoredEntries(es, map[]);
        assert Stored(i) == Record(m);
        if Represents(Stored(i), i) {
          assert forall k :: 0 <= k < |es| ==> RepresentsEntry(m, es[k]);
          FullIsClean(es);
        }
        if CleanNames(es) {
          CleanStored(es);
          forall k | 0 <= k < |es| ensures RepresentsEntry(m, es[k]) <==> CleanEntry(es[k]) {
            EntryLossless(es[k], m);
          }
        }
      case _ =>
    }
  }

  lemma {:induction false} EntryLossless(e: Entry, m: map<Text, Value>)
    requires SupportedEntry(e) && KeyName(e.key) in m && m[KeyName(e.key)] == StoredEntry(e)
    ensures RepresentsEntry(m, e) <==> CleanEntry(e)
    decreases e, 0
  {
    LosslessExactly(e.value);
  }

  lemma {:induction false} ItemsLossless(items: seq<Item>)
    requires SupportedItems(items)
    ensures forall k :: 0 <= k < |items| ==> (Represents(StoredItems(items)[k], items[k]) <==> Clean(items[k]))
    decreases items, 0
  {
    if items != [] {
      LosslessExactly(items[0]);
      ItemsLossless(items[1..]);
      forall k | 1 <= k < |items| ensures Represents(StoredItems(items)[k], items[k]) <==> Clean(items[k]) {
        assert StoredItems(items)[k] == StoredItems(items[1..])[k - 1] && items[k] == items[1..][k - 1];
      }
    }
  }

  // ---- Integer keys, as in a COSE key -----------------------------------------------------

  lemma {:induction false} DigitsInjective(m: nat, n: nat)
    requires DigitsText(m) == DigitsText(n)
    ensures m == n
  {
    var t := DigitsText(m);
    if m >= 10 && n >= 10 {
      assert t[..|t| - 1] == DigitsText(m / 10) && t[..|t| - 1] == DigitsText(n / 10);
      DigitsInjective(m / 10, n / 10);
      assert t[|t| - 1] == '0' + (m % 10) as char && t[|t| - 1] == '0' + (n % 10) as char;
    } else if m < 10 && n < 10 {
      assert t[0] == '0' + m as char && t[0] == '0' + n as char;
    }
  }

  lemma NumberTextInjective(m: int, n: int)
    requires NumberText(m) == NumberText(n)
    ensures m == n
  {
    if m < 0 && n < 0 {
      assert NumberText(m)[1..] == DigitsText(-m) && NumberText(n)[1..] == DigitsText(-n);
      DigitsInjective(-m, -n);
    } else if m >= 0 && n >= 0 {
      DigitsInjective(m, n);
    }
  }

  function NumberOf(key: Item): int
    requires key.Unsigned? || key.Negative?
  {
    if key.Unsigned? then key.n else -1 - key.n
  }

  /** Maps keyed by distinct integers always have clean names. */
  lemma IntegerKeysClean(es: seq<Entry>)
    requires SupportedEntries(es)
    requires forall k :: 0 <= k < |es| ==> es[k].key.Unsigned? || es[k].key.Negative?
    requires forall j, k :: 0 <= j < k < |es| ==> NumberOf(es[j].key) != NumberOf(es[k].key)
    ensures CleanNames(es)
  {
    hide NumberText, Supported;
    forall k | 0 <= k < |es| ensures KeyName(es[k].key) != PROTO && !MarkedKey(es[k].key) {
      NumberOpens(NumberOf(es[k].key));
      assert PROTO[0] == '_';
    }
    forall j, k | 0 <= j < k < |es| ensures KeyName(es[j].key) != KeyName(es[k].key) {
      if KeyName(es[j].key) == KeyName(es[k].key) {
        NumberTextInjective(NumberOf(es[j].key), NumberOf(es[k].key));
      }
    }
  }

  lemma NumberOpens(n: int)
    ensures NumberText(n) != [] && NumberText(n)[0] <= '9'
  {
    if n >= 0 { DigitsUnmarked(n); }
  }

  // ---- What a number's name says -----------------------------------------------------------

  ghost function DigitsValue(t: Text): int {
    if t == [] then 0 else 10 * DigitsValue(t[..|t| - 1]) + (t[|t| - 1] as int - '0' as int)
  }

  ghost predicate DecimalDigits(t: Text) {
    t != [] && (forall i :: 0 <= i < |t| ==> '0' <= t[i] <= '9') && (t[0] == '0' ==> |t| == 1)
  }

  /** The name of a natural number is its decimal digits without a leading zero. */
  lemma {:induction false} DigitsRead(n: nat)
    ensures DecimalDigits(DigitsText(n)) && DigitsValue(DigitsText(n)) == n
    ensures DigitsText(n)[0] == '0' ==> n == 0
  {
    var t := DigitsText(n);
    if n >= 10 {
      DigitsRead(n / 10);
      assert t[..|t| - 1] == DigitsText(n / 10);
    } else {
      assert t[..0] == [];
    }
  }

  /** The name of an integer: a minus sign for a negative one, then the digits of its absolute value. */
  lemma NumberRead(n: int)
    ensures var t := NumberText(n);
      if n < 0 then t != [] && t[0] == '-' && DecimalDigits(t[1..]) && DigitsValue(t[1..]) == -n
      else DecimalDigits(t) && DigitsValue(t) == n
  {
    if n < 0 { DigitsRead(-n); } else { DigitsRead(n); }
  }
}
