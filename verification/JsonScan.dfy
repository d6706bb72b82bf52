/**
 * What the duplicate-key scanner computes, as functions from the unread text to the text
 * left unread, and the theorem that it accepts exactly the texts of the grammar whose
 * objects have pairwise distinct decoded names.
 */
module JsonScan {
  import opened Wrappers
  import opened JsonGrammar

  datatype Failure = InvalidJson | DuplicateKey

  datatype Scan = Rest(rest: Text) | Failed(failure: Failure)

  /** A member name or string: what it spells and what follows it. */
  datatype Token = Token(items: seq<Item>, rest: Text) | NoToken

  // ---- Concatenation ----------------------------------------------------------

  lemma DropPrefix(a: Text, b: Text)
    ensures (a + b)[|a|..] == b
  {
  }

  lemma Regroup(a: Text, b: Text, c: Text)
    ensures (a + b) + c == a + (b + c)
  {
  }

  // ---- Gaps -------------------------------------------------------------------

  function SkipGap(s: Text): (r: Text)
    ensures |r| <= |s|
  {
    if s != [] && ScriptSpace(s[0]) then SkipGap(s[1..]) else s
  }

  /** A text that does not open with white space. */
  predicate Tight(s: Text) {
    s == [] || !ScriptSpace(s[0])
  }

  lemma {:induction false} SkipGapSplits(s: Text) returns (gap: Text)
    ensures Script.Gap(gap) && s == gap + SkipGap(s) && Tight(SkipGap(s))
  {
    hide ScriptSpace;
    if s != [] && ScriptSpace(s[0]) {
      var tail := SkipGapSplits(s[1..]);
      gap := [s[0]] + tail;
      assert s == [s[0]] + s[1..];
      Regroup([s[0]], tail, SkipGap(s));
    } else {
      gap := [];
    }
  }

  lemma {:induction false} SkipGapOver(gap: Text, s: Text)
    requires Script.Gap(gap) && Tight(s)
    ensures SkipGap(gap + s) == s
    decreases |gap|
  {
    if gap == [] {
      assert gap + s == s;
    } else {
      assert (gap + s)[1..] == gap[1..] + s;
      SkipGapOver(gap[1..], s);
    }
  }

  // ---- Strings ----------------------------------------------------------------

  /** The number of code units before the closing quote, a backslash shielding its successor. */
  function BodyLength(s: Text): (n: Option<nat>)
    ensures n.Some? ==> n.value < |s| && s[n.value] == QUOTE
  {
    if s == [] then None
    else if s[0] == BACKSLASH then
      if |s| < 2 then None
      else (match BodyLength(s[2..]) case None => None case Some(n) => Some(n + 2))
    else if s[0] == QUOTE then Some(0)
    else if s[0] < 0x20 then None
    else (match BodyLength(s[1..]) case None => None case Some(n) => Some(n + 1))
  }

  /** The item at the head of a string body. */
  function ParseItem(s: Text): (i: Option<Item>)
    requires s != []
    ensures i.Some? ==> ValidItem(i.value) && ItemText(i.value) <= s
  {
    if s[0] != BACKSLASH then (if IsPlain(s[0]) then Some(Plain(s[0])) else None)
    else if |s| >= 2 && IsShort(s[1]) then Some(Short(s[1]))
    else if |s| >= 6 && s[1] == 0x75 && IsHex(s[2]) && IsHex(s[3]) && IsHex(s[4]) && IsHex(s[5]) then
      Some(Hex(s[2], s[3], s[4], s[5]))
    else None
  }

  /** JSON.parse of a quoted slice, given what stands between its quotes. */
  function ParseItems(s: Text): (r: Option<seq<Item>>)
    ensures r.Some? ==> ValidItems(r.value) && ItemsText(r.value) == s
  {
    if s == [] then Some([])
    else
      match ParseItem(s)
      case None => None
      case Some(i) =>
        match ParseItems(s[|ItemText(i)|..])
        case None => None
        case Some(more) =>
          assert s == ItemText(i) + s[|ItemText(i)|..];
          Some([i] + more)
  }

  function ScanString(s: Text): (t: Token)
    ensures t.Token? ==> ValidItems(t.items) && s == StringText(t.items) + t.rest
  {
    if s == [] || s[0] != QUOTE then NoToken
    else
      match BodyLength(s[1..])
      case None => NoToken
      case Some(n) =>
        match ParseItems(s[1..][..n])
        case None => NoToken
        case Some(items) =>
          assert s == [QUOTE] + s[1..][..n] + [QUOTE] + s[n + 2..];
          Token(items, s[n + 2..])
  }

  lemma {:induction false} ParseItemsText(items: seq<Item>)
    requires ValidItems(items)
    ensures ParseItems(ItemsText(items)) == Some(items)
  {
    if items != [] {
      var s, i := ItemsText(items), items[0];
      assert ParseItem(s) == Some(i);
      assert s[|ItemText(i)|..] == ItemsText(items[1..]);
      ParseItemsText(items[1..]);
      assert [i] + items[1..] == items;
    }
  }

  lemma BodyLengthStep(u: CodeUnit, s: Text, n: nat)
    requires IsPlain(u) && BodyLength(s) == Some(n)
    ensures BodyLength([u] + s) == Some(n + 1)
  {
    assert ([u] + s)[1..] == s;
  }

  lemma BodyLengthShielded(e: CodeUnit, s: Text, n: nat)
    requires BodyLength(s) == Some(n)
    ensures BodyLength([BACKSLASH, e] + s) == Some(n + 2)
  {
    assert ([BACKSLASH, e] + s)[2..] == s;
  }

  lemma BodyLengthOverItem(i: Item, s: Text, n: nat)
    requires ValidItem(i) && BodyLength(s) == Some(n)
    ensures BodyLength(ItemText(i) + s) == Some(n + |ItemText(i)|)
  {
    hide BodyLength;
    match i {
      case Plain(u) => BodyLengthStep(u, s, n);
      case Short(e) => BodyLengthShielded(e, s, n);
      case Hex(a, b, c, d) =>
        BodyLengthStep(d, s, n);
        BodyLengthStep(c, [d] + s, n + 1);
        BodyLengthStep(b, [c] + ([d] + s), n + 2);
        BodyLengthStep(a, [b] + ([c] + ([d] + s)), n + 3);
        var t := [a] + ([b] + ([c] + ([d] + s)));
        BodyLengthShielded(0x75, t, n + 4);
        assert ItemText(i) + s == [BACKSLASH, 0x75] + t;
    }
  }

  lemma BodyEnds(rest: Text)
    ensures BodyLength([QUOTE] + rest) == Some(0)
  {
  }

  lemma {:induction false} BodyLengthOverItems(items: seq<Item>, rest: Text)
    requires ValidItems(items)
    ensures BodyLength(ItemsText(items) + ([QUOTE] + rest)) == Some(|ItemsText(items)|)
  {
    hide BodyLength, ItemText;
    if items == [] {
      BodyEnds(rest);
      assert ItemsText(items) + ([QUOTE] + rest) == [QUOTE] + rest;
    } else {
      BodyLengthOverItems(items[1..], rest);
      BodyLengthOverItem(items[0], ItemsText(items[1..]) + ([QUOTE] + rest), |ItemsText(items[1..])|);
      Regroup(ItemText(items[0]), ItemsText(items[1..]), [QUOTE] + rest);
    }
  }

  lemma ScanStringText(items: seq<Item>, rest: Text)
    requires ValidItems(items)
    ensures ScanString(StringText(items) + rest) == Token(items, rest)
  {
    var s := StringText(items) + rest;
    assert s[1..] == ItemsText(items) + ([QUOTE] + rest);
    BodyLengthOverItems(items, rest);
    assert s[1..][..|ItemsText(items)|] == ItemsText(items);
    ParseItemsText(items);
  }

  // ---- Scalars ----------------------------------------------------------------

  /** How many digits the text opens with. */
  function DigitCount(s: Text): (n: nat)
    ensures n <= |s| && AllDigits(s[..n])
  {
    if s != [] && IsDigit(s[0]) then 1 + DigitCount(s[1..]) else 0
  }

  /** The optional fraction: taken when a digit follows the point. */
  function TakeFraction(s: Text): (f: Option<Text>)
    ensures f.Some? ==> AllDigits(f.value) && |f.value| > 0
    ensures FractionText(f) <= s
  {
    if s != [] && s[0] == 0x2E && DigitCount(s[1..]) > 0 then Some(s[1..][..DigitCount(s[1..])]) else None
  }

  /** The optional sign of an exponent. */
  function TakeSign(s: Text): (sign: Text)
    ensures sign <= s && (sign == [] || sign == [0x2B] || sign == [0x2D])
  {
    if s != [] && (s[0] == 0x2B || s[0] == 0x2D) then [s[0]] else []
  }

  /** The optional exponent: taken when it has a digit. */
  function TakeExponent(s: Text): (e: Option<Exponent>)
    ensures e.Some? ==> ValidExponent(e.value)
    ensures ExponentText(e) <= s
  {
    if s == [] || (s[0] != 0x65 && s[0] != 0x45) then None
    else
      var t := s[1..];
      var sign := TakeSign(t);
      var u := t[|sign|..];
      var n := DigitCount(u);
      PrefixJoin(sign, u[..n], t);
      PrefixJoin([s[0]], sign + u[..n], s);
      if n > 0 then Some(Exponent(s[0], sign, u[..n])) else None
  }

  /** The integer part: a lone zero, or all the digits. */
  function TakeWhole(s: Text): (w: Option<Text>)
    ensures w.Some? ==> ValidWhole(w.value) && w.value <= s
  {
    if s == [] || !IsDigit(s[0]) then None
    else if s[0] == 0x30 then Some([s[0]])
    else
      PrefixJoin([s[0]], s[1..][..DigitCount(s[1..])], s);
      Some([s[0]] + s[1..][..DigitCount(s[1..])])
  }

  lemma PrefixJoin(a: Text, b: Text, s: Text)
    requires a <= s && b <= s[|a|..]
    ensures a + b <= s && s[|a|..][|b|..] == s[|a + b|..]
  {
  }

  /** The number the regular expression matches at the head of the text. */
  function MatchNumber(s: Text): (r: Option<Scalar>)
    ensures r.Some? ==> r.value.Number? && ValidScalar(r.value) && ScalarText(r.value) <= s
  {
    hide TakeWhole, TakeFraction, TakeExponent, FractionText, ExponentText;
    var minus := s != [] && s[0] == 0x2D;
    var s1 := s[|MinusText(minus)|..];
    match TakeWhole(s1)
    case None => None
    case Some(whole) =>
      var s2 := s1[|whole|..];
      var fraction := TakeFraction(s2);
      var s3 := s2[|FractionText(fraction)|..];
      var exponent := TakeExponent(s3);
      PrefixJoin(FractionText(fraction), ExponentText(exponent), s2);
      PrefixJoin(whole, FractionText(fraction) + ExponentText(exponent), s1);
      PrefixJoin(MinusText(minus), whole + (FractionText(fraction) + ExponentText(exponent)), s);
      Some(Number(minus, whole, fraction, exponent))
  }

  function MatchScalar(s: Text): (r: Option<Scalar>)
    ensures r.Some? ==> ValidScalar(r.value) && ScalarText(r.value) <= s && |ScalarText(r.value)| > 0
  {
    if TRUE_TEXT <= s then Some(True)
    else if FALSE_TEXT <= s then Some(False)
    else if NULL_TEXT <= s then Some(Null)
    else MatchNumber(s)
  }

  /** What may follow a value inside a JSON text. */
  predicate Follows(s: Text) {
    s == [] || ScriptSpace(s[0]) || s[0] == COMMA || s[0] == CLOSE_BRACKET || s[0] == CLOSE_BRACE
  }

  /** A text that cannot continue a run of digits. */
  predicate NoDigit(s: Text) {
    s == [] || !IsDigit(s[0])
  }

  lemma {:induction false} DigitCountOver(digits: Text, s: Text)
    requires AllDigits(digits) && NoDigit(s)
    ensures DigitCount(digits + s) == |digits|
    decreases |digits|
  {
    if digits == [] {
      assert digits + s == s;
    } else {
      assert (digits + s)[1..] == digits[1..] + s;
      DigitCountOver(digits[1..], s);
    }
  }

  lemma SignOver(sign: Text, s: Text)
    requires sign == [] || sign == [0x2B] || sign == [0x2D]
    requires s != [] && IsDigit(s[0])
    ensures TakeSign(sign + s) == sign
  {
    assert sign == [] ==> sign + s == s;
  }

  lemma ExponentOver(e: Option<Exponent>, s: Text)
    requires e.Some? ==> ValidExponent(e.value)
    requires Follows(s)
    ensures TakeExponent(ExponentText(e) + s) == e
  {
    hide DigitCount, TakeSign, ScriptSpace;
    if e.None? {
      FollowsIsNoMark(s);
      assert ExponentText(e) + s == s;
    } else {
      hide Follows;
      var x := e.value;
      var u := x.digits + s;
      Regroup([x.mark], x.sign + x.digits, s);
      Regroup(x.sign, x.digits, s);
      DropPrefix([x.mark], x.sign + u);
      SignOver(x.sign, u);
      DropPrefix(x.sign, u);
      FollowsIsNoDigit(s);
      DigitCountOver(x.digits, s);
      assert u[..|x.digits|] == x.digits;
    }
  }

  lemma FollowsIsNoMark(s: Text)
    requires Follows(s)
    ensures s == [] || (s[0] != 0x65 && s[0] != 0x45)
  {
  }

  lemma FollowsIsNoDigit(s: Text)
    requires Follows(s)
    ensures NoDigit(s)
  {
  }

  lemma FractionOver(f: Option<Text>, s: Text)
    requires f.Some? ==> AllDigits(f.value) && |f.value| > 0
    requires NoDigit(s) && (s == [] || s[0] != 0x2E)
    ensures TakeFraction(FractionText(f) + s) == f
  {
    var t := FractionText(f) + s;
    if f.None? {
      assert t == s;
    } else {
      assert t[1..] == f.value + s;
      DigitCountOver(f.value, s);
    }
  }

  lemma WholeOver(w: Text, s: Text)
    requires ValidWhole(w) && NoDigit(s)
    ensures TakeWhole(w + s) == Some(w)
  {
    if w[0] != 0x30 {
      assert (w + s)[1..] == w[1..] + s;
      DigitCountOver(w[1..], s);
      assert w == [w[0]] + w[1..];
    } else {
      assert w == [w[0]];
    }
  }

  lemma NumberTail(n: Scalar, s: Text)
    requires n.Number? && ValidScalar(n) && Follows(s)
    ensures var t := ExponentText(n.exponent) + s; NoDigit(t) && (t == [] || t[0] != 0x2E)
    ensures NoDigit(FractionText(n.fraction) + (ExponentText(n.exponent) + s))
  {
    if n.exponent.None? { assert ExponentText(n.exponent) + s == s; }
  }

  /** The match is the whole number, whatever allowed text follows it. */
  lemma NumberOver(n: Scalar, s: Text)
    requires n.Number? && ValidScalar(n) && Follows(s)
    ensures MatchNumber(ScalarText(n) + s) == Some(n)
  {
    hide TakeWhole, TakeFraction, TakeExponent, FractionText, ExponentText, Follows;
    var e := ExponentText(n.exponent);
    var f := FractionText(n.fraction);
    var m := MinusText(n.minus);
    Regroup(m, n.whole + (f + e), s);
    Regroup(n.whole, f + e, s);
    Regroup(f, e, s);
    NumberTail(n, s);
    var s2 := f + (e + s);
    var s1 := n.whole + s2;
    assert s1[0] == n.whole[0];
    DropPrefix(m, s1);
    assert (m + s1)[0] == if n.minus then 0x2D else s1[0];
    WholeOver(n.whole, s2);
    DropPrefix(n.whole, s2);
    FractionOver(n.fraction, e + s);
    DropPrefix(f, e + s);
    ExponentOver(n.exponent, s);
  }

  lemma ScalarOver(a: Scalar, s: Text)
    requires ValidScalar(a) && Follows(s)
    ensures MatchScalar(ScalarText(a) + s) == Some(a)
  {
    hide MatchNumber;
    if a.Number? {
      assert (ScalarText(a) + s)[0] == ScalarText(a)[0];
      assert ScalarText(a)[0] == 0x2D || IsDigit(ScalarText(a)[0]);
      NumberOver(a, s);
    } else {
      assert (ScalarText(a) + s)[0] == ScalarText(a)[0];
    }
  }

  // ---- Values -----------------------------------------------------------------

  function ScanValue(text: Text): (r: Scan)
    ensures r.Rest? ==> |r.rest| < |text|
    decreases |text|, 0
  {
    var s := SkipGap(text);
    if s == [] then Failed(InvalidJson)
    else if s[0] == OPEN_BRACE then
      var t := SkipGap(s[1..]);
      if t != [] && t[0] == CLOSE_BRACE then Rest(t[1..]) else ScanMembers(t, {})
    else if s[0] == OPEN_BRACKET then
      var t := SkipGap(s[1..]);
      if t != [] && t[0] == CLOSE_BRACKET then Rest(t[1..]) else ScanElements(t)
    else if s[0] == QUOTE then
      match ScanString(s)
      case NoToken => Failed(InvalidJson)
      case Token(_, rest) => Rest(rest)
    else
      match MatchScalar(s)
      case None => Failed(InvalidJson)
      case Some(a) => Rest(s[|ScalarText(a)|..])
  }

  /** Elements up to and including the closing bracket. */
  function ScanElements(text: Text): (r: Scan)
    ensures r.Rest? ==> |r.rest| < |text|
    decreases |text|, 1
  {
    match ScanValue(text)
    case Failed(f) => Failed(f)
    case Rest(rest) =>
      var s := SkipGap(rest);
      if s == [] then Failed(InvalidJson)
      else if s[0] == CLOSE_BRACKET then Rest(s[1..])
      else if s[0] != COMMA then Failed(InvalidJson)
      else ScanElements(s[1..])
  }

  /** Members up to and including the closing brace, after those whose names are `keys`. */
  function ScanMembers(text: Text, keys: set<Text>): (r: Scan)
    ensures r.Rest? ==> |r.rest| < |text|
    decreases |text|, 1
  {
    match ScanString(SkipGap(text))
    case NoToken => Failed(InvalidJson)
    case Token(items, afterName) =>
      if Decoded(items) in keys then Failed(DuplicateKey)
      else
        var s := SkipGap(afterName);
        if s == [] || s[0] != COLON then Failed(InvalidJson)
        else
          match ScanValue(s[1..])
          case Failed(f) => Failed(f)
          case Rest(rest) =>
            var t := SkipGap(rest);
            if t == [] then Failed(InvalidJson)
            else if t[0] == CLOSE_BRACE then Rest(t[1..])
            else if t[0] != COMMA then Failed(InvalidJson)
            else ScanMembers(t[1..], keys + {Decoded(items)})
  }

  /** The whole text: one value and white space. */
  function ScanText(text: Text): (r: Scan) {
    match ScanValue(text)
    case Failed(f) => Failed(f)
    case Rest(rest) => if SkipGap(rest) == [] then Rest([]) else Failed(InvalidJson)
  }

  // ---- Completeness: the scan of a tree's text ------------------------------------

  /** The members' names are new, with respect to `keys` and to each other. */
  ghost predicate NewNames(ms: Members, keys: set<Text>)
    requires ValidMembers(Script, ms)
  {
    Decoded(ms.name) !in keys
    && (ms.MoreMembers? ==> NewNames(ms.rest, keys + {Decoded(ms.name)}))
  }

  ghost predicate Avoids(ns: seq<Text>, keys: set<Text>) {
    forall i :: 0 <= i < |ns| ==> ns[i] !in keys
  }

  lemma DistinctFrom(name: Text, ns: seq<Text>, keys: set<Text>)
    ensures Distinct([name] + ns) && Avoids([name] + ns, keys)
       <==> name !in keys && Distinct(ns) && Avoids(ns, keys + {name})
  {
    var all := [name] + ns;
    assert all[0] == name;
    assert forall i :: 0 <= i < |ns| ==> ns[i] == all[i + 1];
    if Distinct(all) && Avoids(all, keys) {
      forall i, j | 0 <= i < j < |ns| ensures ns[i] != ns[j] {
        assert all[i + 1] != all[j + 1];
      }
    }
  }

  lemma {:induction false} NewNamesAreDistinct(ms: Members, keys: set<Text>)
    requires ValidMembers(Script, ms)
    ensures NewNames(ms, keys) <==> Distinct(Names(ms)) && Avoids(Names(ms), keys)
  {
    hide Distinct, Avoids, Decoded;
    var name := Decoded(ms.name);
    if ms.MoreMembers? {
      NewNamesAreDistinct(ms.rest, keys + {name});
      DistinctFrom(name, Names(ms.rest), keys);
    } else {
      DistinctFrom(name, [], keys);
      NoNames(keys + {name});
    }
  }

  lemma NoNames(keys: set<Text>)
    ensures Distinct([]) && Avoids([], keys)
  {
  }

  /** Refused with DuplicateKey exactly when some object repeats a name. */
  ghost predicate Outcome(distinct: bool, rest: Text, r: Scan) {
    r == if distinct then Rest(rest) else Failed(DuplicateKey)
  }

  /** The first code unit of a value's text. */
  lemma ValueOpens(v: Value)
    requires ValidValue(Script, v)
    ensures |ValueText(v)| > 0 && !ScriptSpace(ValueText(v)[0])
    ensures var u := ValueText(v)[0];
      u != CLOSE_BRACE && u != CLOSE_BRACKET
      && (u == OPEN_BRACE <==> v.EmptyObj? || v.Obj?)
      && (u == OPEN_BRACKET <==> v.EmptyArr? || v.Arr?)
      && (u == QUOTE <==> v.Str?)
  {
    match v {
      case Atom(s) =>
        if s.Number? { assert ScalarText(s)[0] == 0x2D || IsDigit(ScalarText(s)[0]); }
      case _ =>
    }
  }

  lemma ScanAfterGap(before: Text, s: Text)
    requires Script.Gap(before) && Tight(s)
    ensures ScanValue(before + s) == ScanValue(s)
  {
    hide SkipGap, ScanString, MatchScalar, ScanElements, ScanMembers, ScriptSpace;
    SkipGapOver(before, s);
    SkipGapOver([], s);
    assert [] + s == s;
  }

  /** The two ways on from an opening brace or bracket. */
  lemma ScanOpened(u: CodeUnit, s: Text)
    requires u == OPEN_BRACE || u == OPEN_BRACKET
    ensures var t, close := SkipGap(s), if u == OPEN_BRACE then CLOSE_BRACE else CLOSE_BRACKET;
      ScanValue([u] + s)
      == if t != [] && t[0] == close then Rest(t[1..])
         else if u == OPEN_BRACE then ScanMembers(t, {}) else ScanElements(t)
  {
    hide SkipGap, ScanString, MatchScalar, ScanElements, ScanMembers;
    var all := [u] + s;
    assert [] + all == all && all[1..] == s;
    SkipGapOver([], all);
  }

  lemma ScanLeafText(v: Value, rest: Text)
    requires (v.Str? || v.Atom?) && ValidValue(Script, v) && Follows(rest)
    ensures ScanValue(ValueText(v) + rest) == Rest(rest)
  {
    hide SkipGap, ScanString, MatchScalar, ScanElements, ScanMembers, ScriptSpace, Follows;
    var s := ValueText(v) + rest;
    ValueOpens(v);
    assert s[0] == ValueText(v)[0];
    SkipGapOver([], s);
    assert [] + s == s;
    if v.Str? {
      ScanStringText(v.items, rest);
    } else {
      ScalarOver(v.scalar, rest);
      DropPrefix(ScalarText(v.scalar), rest);
    }
  }

  lemma {:induction false} ScanValueText(before: Text, v: Value, rest: Text)
    requires Script.Gap(before) && ValidValue(Script, v) && Follows(rest)
    ensures Outcome(DistinctNames(v), rest, ScanValue(before + (ValueText(v) + rest)))
    decreases v, 0
  {
    hide SkipGap, ScanValue, ScanElements, ScanMembers, ScriptSpace, Follows, ScalarText, StringText, ElementsText, MembersText;
    ValueOpens(v);
    assert (ValueText(v) + rest)[0] == ValueText(v)[0];
    ScanAfterGap(before, ValueText(v) + rest);
    match v {
      case Str(_) => ScanLeafText(v, rest);
      case Atom(_) => ScanLeafText(v, rest);
      case EmptyArr(g) =>
        Regroup([OPEN_BRACKET], g + [CLOSE_BRACKET], rest);
        Regroup(g, [CLOSE_BRACKET], rest);
        ScanOpened(OPEN_BRACKET, g + ([CLOSE_BRACKET] + rest));
        CloserIsTight(CLOSE_BRACKET, rest);
        SkipGapOver(g, [CLOSE_BRACKET] + rest);
      case EmptyObj(g) =>
        Regroup([OPEN_BRACE], g + [CLOSE_BRACE], rest);
        Regroup(g, [CLOSE_BRACE], rest);
        ScanOpened(OPEN_BRACE, g + ([CLOSE_BRACE] + rest));
        CloserIsTight(CLOSE_BRACE, rest);
        SkipGapOver(g, [CLOSE_BRACE] + rest);
      case Arr(es) =>
        Regroup([OPEN_BRACKET], ElementsText(es), rest);
        ScanOpened(OPEN_BRACKET, ElementsText(es) + rest);
        ElementsOpen(es, rest);
        SkippedElements(ElementsText(es) + rest);
        ScanElementsText(es, rest);
      case Obj(ms) =>
        Regroup([OPEN_BRACE], MembersText(ms), rest);
        ScanOpened(OPEN_BRACE, MembersText(ms) + rest);
        MembersOpen(ms, rest);
        SkippedMembers(MembersText(ms) + rest, {});
        ScanMembersText(ms, rest, {});
        NewNamesAreDistinct(ms, {});
        assert Avoids(Names(ms), {});
    }
  }

  lemma CloserIsTight(u: CodeUnit, rest: Text)
    requires u == COMMA || u == COLON || u == CLOSE_BRACE || u == CLOSE_BRACKET || u == QUOTE
    ensures Tight([u] + rest)
    ensures ([u] + rest)[0] == u && ([u] + rest)[1..] == rest
    ensures u == COMMA || u == CLOSE_BRACE || u == CLOSE_BRACKET ==> Follows([u] + rest)
  {
  }

  lemma FollowsAfterGap(gap: Text, s: Text)
    requires Script.Gap(gap) && Follows(s)
    ensures Follows(gap + s)
  {
    if gap == [] { assert gap + s == s; }
  }

  /** The first visible code unit of an element list is not the closing bracket. */
  lemma ElementsOpen(es: Elements, rest: Text)
    requires ValidElements(Script, es)
    ensures var t := SkipGap(ElementsText(es) + rest); t != [] && t[0] != CLOSE_BRACKET
  {
    hide SkipGap, ScriptSpace;
    ValueOpens(es.element);
    var tail := ElementsText(es)[|es.before|..] + rest;
    assert ElementsText(es) + rest == es.before + tail;
    assert tail[0] == ValueText(es.element)[0];
    SkipGapOver(es.before, tail);
  }

  /** The text after the last gap of a member. */
  ghost function MemberTail(ms: Members): Text {
    if ms.MoreMembers? then [COMMA] + MembersText(ms.rest) else [CLOSE_BRACE]
  }

  lemma MemberRegroup(l: Text, n: Text, m: Text, b: Text, v: Text, a: Text, tail: Text, rest: Text)
    ensures MemberText(l, n, m, b, v, a, tail) + rest == MemberText(l, n, m, b, v, a, tail + rest)
  {
    Regroup(l, n + (m + ([COLON] + (b + (v + (a + tail))))), rest);
    Regroup(n, m + ([COLON] + (b + (v + (a + tail)))), rest);
    Regroup(m, [COLON] + (b + (v + (a + tail))), rest);
    Regroup([COLON], b + (v + (a + tail)), rest);
    Regroup(b, v + (a + tail), rest);
    Regroup(v, a + tail, rest);
    Regroup(a, tail, rest);
  }

  /** A member list followed by more text, read up to its first name. */
  lemma MembersRegroup(ms: Members, rest: Text)
    ensures MembersText(ms) + rest
         == MemberText(ms.lead, StringText(ms.name), ms.mid, ms.before, ValueText(ms.value), ms.after, MemberTail(ms) + rest)
  {
    hide MemberText;
    MemberRegroup(ms.lead, StringText(ms.name), ms.mid, ms.before, ValueText(ms.value), ms.after, MemberTail(ms), rest);
  }

  lemma NameIsTight(items: seq<Item>, s: Text)
    ensures Tight(StringText(items) + s) && (StringText(items) + s)[0] == QUOTE
  {
  }

  lemma MembersOpen(ms: Members, rest: Text)
    requires ValidMembers(Script, ms)
    ensures var t := SkipGap(MembersText(ms) + rest); t != [] && t[0] != CLOSE_BRACE
  {
    hide SkipGap, ScriptSpace, StringText;
    MembersRegroup(ms, rest);
    var tail := ms.mid + ([COLON] + (ms.before + (ValueText(ms.value) + (ms.after + (MemberTail(ms) + rest)))));
    NameIsTight(ms.name, tail);
    SkipGapOver(ms.lead, StringText(ms.name) + tail);
  }

  lemma SkipTwice(s: Text)
    ensures SkipGap(SkipGap(s)) == SkipGap(s)
  {
    var _ := SkipGapSplits(s);
  }

  lemma SkippedElements(s: Text)
    ensures ScanElements(SkipGap(s)) == ScanElements(s)
  {
    hide SkipGap, ScanString, MatchScalar;
    SkipTwice(s);
    assert ScanValue(SkipGap(s)) == ScanValue(s);
  }

  lemma SkippedMembers(s: Text, keys: set<Text>)
    ensures ScanMembers(SkipGap(s), keys) == ScanMembers(s, keys)
  {
    hide SkipGap, ScanString, MatchScalar, ScanValue;
    SkipTwice(s);
  }

  lemma {:induction false} ScanElementsText(es: Elements, rest: Text)
    requires ValidElements(Script, es)
    ensures Outcome(DistinctInElements(es), rest, ScanElements(ElementsText(es) + rest))
    decreases es, 1
  {
    hide SkipGap, ScanValue, ScriptSpace, Follows;
    var more := if es.MoreElements? then [COMMA] + (ElementsText(es.rest) + rest) else [CLOSE_BRACKET] + rest;
    var after := es.after + more;
    assert ElementsText(es) + rest == es.before + (ValueText(es.element) + after);
    if es.MoreElements? {
      CloserIsTight(COMMA, ElementsText(es.rest) + rest);
      ScanElementsText(es.rest, rest);
    } else {
      CloserIsTight(CLOSE_BRACKET, rest);
    }
    FollowsAfterGap(es.after, more);
    ScanValueText(es.before, es.element, after);
    SkipGapOver(es.after, more);
  }

  lemma {:induction false} ScanMembersText(ms: Members, rest: Text, keys: set<Text>)
    requires ValidMembers(Script, ms)
    ensures Outcome(NewNames(ms, keys) && DistinctInMembers(ms), rest, ScanMembers(MembersText(ms) + rest, keys))
    decreases ms, 1
  {
    hide SkipGap, ScanValue, ScanString, ScriptSpace, Follows, StringText, ValueText;
    MembersRegroup(ms, rest);
    var more := MemberTail(ms) + rest;
    var after := ms.after + more;
    var inner := ms.before + (ValueText(ms.value) + after);
    var named := StringText(ms.name) + (ms.mid + ([COLON] + inner));
    NameIsTight(ms.name, ms.mid + ([COLON] + inner));
    SkipGapOver(ms.lead, named);
    ScanStringText(ms.name, ms.mid + ([COLON] + inner));
    if Decoded(ms.name) !in keys {
      CloserIsTight(COLON, inner);
      SkipGapOver(ms.mid, [COLON] + inner);
      if ms.MoreMembers? {
        Regroup([COMMA], MembersText(ms.rest), rest);
        CloserIsTight(COMMA, MembersText(ms.rest) + rest);
        ScanMembersText(ms.rest, rest, keys + {Decoded(ms.name)});
      } else {
        CloserIsTight(CLOSE_BRACE, rest);
      }
      FollowsAfterGap(ms.after, more);
      ScanValueText(ms.before, ms.value, after);
      SkipGapOver(ms.after, more);
    }
  }

  // ---- Soundness: every accepted text is the text of a tree ---------------------

  lemma {:induction false} ScanValueSound(text: Text) returns (before: Text, v: Value)
    requires ScanValue(text).Rest?
    ensures Script.Gap(before) && ValidValue(Script, v)
    ensures text == before + (ValueText(v) + ScanValue(text).rest)
    decreases |text|, 0
  {
    hide ScriptSpace, ScanMembers, ScanElements, ScanString, MatchScalar, SkipGap;
    hide MembersText, ElementsText, StringText, ScalarText;
    var rest := ScanValue(text).rest;
    before := SkipGapSplits(text);
    var s := SkipGap(text);
    assert s == [s[0]] + s[1..];
    if s[0] == OPEN_BRACE {
      var t := SkipGap(s[1..]);
      var gap := SkipGapSplits(s[1..]);
      if t != [] && t[0] == CLOSE_BRACE {
        v := EmptyObj(gap);
        assert t == [CLOSE_BRACE] + rest;
        Regroup(gap, [CLOSE_BRACE], rest);
        Regroup([OPEN_BRACE], gap + [CLOSE_BRACE], rest);
      } else {
        SkippedMembers(s[1..], {});
        var ms := ScanMembersSound(s[1..], {});
        v := Obj(ms);
        Regroup([OPEN_BRACE], MembersText(ms), rest);
      }
    } else if s[0] == OPEN_BRACKET {
      var t := SkipGap(s[1..]);
      var gap := SkipGapSplits(s[1..]);
      if t != [] && t[0] == CLOSE_BRACKET {
        v := EmptyArr(gap);
        assert t == [CLOSE_BRACKET] + rest;
        Regroup(gap, [CLOSE_BRACKET], rest);
        Regroup([OPEN_BRACKET], gap + [CLOSE_BRACKET], rest);
      } else {
        SkippedElements(s[1..]);
        var es := ScanElementsSound(s[1..]);
        v := Arr(es);
        Regroup([OPEN_BRACKET], ElementsText(es), rest);
      }
    } else if s[0] == QUOTE {
      v := Str(ScanString(s).items);
    } else {
      v := Atom(MatchScalar(s).value);
    }
  }

  lemma {:induction false} ScanElementsSound(text: Text) returns (es: Elements)
    requires ScanElements(text).Rest?
    ensures ValidElements(Script, es) && text == ElementsText(es) + ScanElements(text).rest
    decreases |text|, 1
  {
    hide ScriptSpace, ScanValue, SkipGap;
    var before, v := ScanValueSound(text);
    var after := SkipGapSplits(ScanValue(text).rest);
    var s := SkipGap(ScanValue(text).rest);
    assert s == [s[0]] + s[1..];
    if s[0] == CLOSE_BRACKET {
      es := LastElement(before, v, after);
    } else {
      var rest := ScanElementsSound(s[1..]);
      es := MoreElements(before, v, after, rest);
    }
  }

  lemma {:induction false} ScanMembersSound(text: Text, keys: set<Text>) returns (ms: Members)
    requires ScanMembers(text, keys).Rest?
    ensures ValidMembers(Script, ms) && text == MembersText(ms) + ScanMembers(text, keys).rest
    decreases |text|, 1
  {
    hide ScriptSpace, ScanValue, SkipGap, ScanString, StringText, ValueText;
    var lead := SkipGapSplits(text);
    var token := ScanString(SkipGap(text));
    var mid := SkipGapSplits(token.rest);
    var s := SkipGap(token.rest);
    assert s == [COLON] + s[1..];
    var before, v := ScanValueSound(s[1..]);
    var after := SkipGapSplits(ScanValue(s[1..]).rest);
    var t := SkipGap(ScanValue(s[1..]).rest);
    assert t == [t[0]] + t[1..];
    assert text == MemberText(lead, StringText(token.items), mid, before, ValueText(v), after, t);
    var rest := ScanMembers(text, keys).rest;
    if t[0] == CLOSE_BRACE {
      ms := LastMember(lead, token.items, mid, before, v, after);
      MembersRegroup(ms, rest);
    } else {
      var others := ScanMembersSound(t[1..], keys + {Decoded(token.items)});
      ms := MoreMembers(lead, token.items, mid, before, v, after, others);
      MembersRegroup(ms, rest);
      Regroup([COMMA], MembersText(others), rest);
    }
  }

  // ---- The theorems -----------------------------------------------------------

  /** On the text of a tree the verdict is that of its names, and nothing is left over. */
  lemma DocumentVerdict(doc: Document)
    requires ValidDocument(Script, doc)
    ensures Outcome(DistinctNames(doc.value), [], ScanText(DocumentText(doc)))
  {
    hide SkipGap, ScanValue, ScriptSpace;
    if doc.after != [] { assert Follows(doc.after); }
    ScanValueText(doc.before, doc.value, doc.after);
    SkipGapOver(doc.after, []);
    assert doc.after + [] == doc.after;
  }

  /** The scanner accepts exactly the texts of trees with distinct names. */
  lemma AcceptsExactly(text: Text)
    ensures ScanText(text).Rest?
       <==> exists doc :: ValidDocument(Script, doc) && text == DocumentText(doc) && DistinctNames(doc.value)
  {
    hide SkipGap, ScanValue, ScriptSpace;
    if ScanText(text).Rest? {
      var before, v := ScanValueSound(text);
      var after := SkipGapSplits(ScanValue(text).rest);
      var doc := Document(before, v, after);
      assert text == DocumentText(doc);
      DocumentVerdict(doc);
    }
    if doc :| ValidDocument(Script, doc) && text == DocumentText(doc) && DistinctNames(doc.value) {
      DocumentVerdict(doc);
    }
  }

  /** Every text of RFC 8259 is accepted if its names are distinct and refused as a
      duplicate otherwise; so all its trees agree on which it is. */
  lemma RfcVerdict(doc: Document)
    requires ValidDocument(Rfc, doc)
    ensures ValidDocument(Script, doc)
    ensures Outcome(DistinctNames(doc.value), [], ScanText(DocumentText(doc)))
  {
    RfcIsScript(doc.value);
    DocumentVerdict(doc);
  }

  const BYTE_ORDER_MARK: CodeUnit := 0xFEFF

  /** What a strict JSON object text passes: no byte order mark, the scan, JSON.parse (that
      is, being a text of the RFC), and an object at the root. */
  ghost predicate StrictObject(text: Text) {
    !(text != [] && text[0] == BYTE_ORDER_MARK)
    && ScanText(text).Rest?
    && exists doc :: ValidDocument(Rfc, doc) && text == DocumentText(doc) && (doc.value.Obj? || doc.value.EmptyObj?)
  }

  /** The strict reader accepts exactly the RFC's object texts without repeated names. */
  lemma StrictObjectExactly(text: Text)
    ensures StrictObject(text)
       <==> exists doc :: ValidDocument(Rfc, doc) && ValidDocument(Script, doc) && text == DocumentText(doc)
                          && (doc.value.Obj? || doc.value.EmptyObj?) && DistinctNames(doc.value)
  {
    hide ScanText, ScanValue, ValidValue, ValueText, DistinctNames;
    if StrictObject(text) {
      var doc :| ValidDocument(Rfc, doc) && text == DocumentText(doc) && (doc.value.Obj? || doc.value.EmptyObj?);
      RfcVerdict(doc);
    }
    if doc :| ValidDocument(Rfc, doc) && ValidDocument(Script, doc) && text == DocumentText(doc)
              && (doc.value.Obj? || doc.value.EmptyObj?) && DistinctNames(doc.value) {
      RfcVerdict(doc);
      ValueOpens(doc.value);
      assert ValueText(doc.value)[0] == OPEN_BRACE;
      assert text[0] == if doc.before == [] then OPEN_BRACE else doc.before[0];
    }
  }

  /** A repeated name is caught whatever its spelling: only the decoded name matters. */
  lemma RepeatedNameRefused(doc: Document, i: nat, j: nat)
    requires ValidDocument(Script, doc) && doc.value.Obj?
    requires i < j < |Names(doc.value.members)| && Names(doc.value.members)[i] == Names(doc.value.members)[j]
    ensures ScanText(DocumentText(doc)) == Failed(DuplicateKey)
  {
    hide ScanText, ScanValue;
    DocumentVerdict(doc);
  }
}
