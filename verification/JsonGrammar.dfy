/**
 * The JSON texts of sections 2 to 7 of RFC 8259, as concrete syntax trees together with
 * the text each tree stands for.  A text is a sequence of UTF-16 code units, which is
 * what the scanner indexes.
 *
 * A tree keeps everything its text shows: every gap of white space, and for every
 * character of a string whether it is spelled out or escaped.  Which gaps are allowed is
 * a parameter, because the scanner skips a larger class of characters than section 2 of
 * the RFC allows.
 */
module JsonGrammar {
  import opened Wrappers

  type CodeUnit = x: int | 0 <= x < 0x10000
  type Text = seq<CodeUnit>

  const QUOTE: CodeUnit := 0x22
  const BACKSLASH: CodeUnit := 0x5C
  const COLON: CodeUnit := 0x3A
  const COMMA: CodeUnit := 0x2C
  const OPEN_BRACE: CodeUnit := 0x7B
  const CLOSE_BRACE: CodeUnit := 0x7D
  const OPEN_BRACKET: CodeUnit := 0x5B
  const CLOSE_BRACKET: CodeUnit := 0x5D

  // ---- White space ----------------------------------------------------------

  /** Section 2 of RFC 8259. */
  predicate RfcSpace(u: CodeUnit) {
    u == 0x20 || u == 0x09 || u == 0x0A || u == 0x0D
  }

  /** The class \s of ECMAScript regular expressions. */
  predicate ScriptSpace(u: CodeUnit) {
    0x09 <= u <= 0x0D || u == 0x20 || u == 0xA0 || u == 0x1680 || 0x2000 <= u <= 0x200A
    || u == 0x2028 || u == 0x2029 || u == 0x202F || u == 0x205F || u == 0x3000 || u == 0xFEFF
  }

  /** The two dialects a text can be judged by. */
  datatype Dialect = Rfc | Script {
    predicate Space(u: CodeUnit) {
      match this case Rfc => RfcSpace(u) case Script => ScriptSpace(u)
    }
    ghost predicate Gap(g: Text) {
      forall i :: 0 <= i < |g| ==> Space(g[i])
    }
  }

  // ---- Strings --------------------------------------------------------------

  /** One character of a string (section 7). */
  datatype Item =
    | Plain(unit: CodeUnit)
    | Short(escape: CodeUnit)
    | Hex(a: CodeUnit, b: CodeUnit, c: CodeUnit, d: CodeUnit)

  predicate IsPlain(u: CodeUnit) { u >= 0x20 && u != QUOTE && u != BACKSLASH }

  predicate IsShort(u: CodeUnit) {
    u == 0x22 || u == 0x5C || u == 0x2F || u == 0x62 || u == 0x66 || u == 0x6E || u == 0x72 || u == 0x74
  }

  predicate IsDigit(u: CodeUnit) { 0x30 <= u <= 0x39 }

  predicate IsHex(u: CodeUnit) { IsDigit(u) || 0x41 <= u <= 0x46 || 0x61 <= u <= 0x66 }

  predicate ValidItem(i: Item) {
    match i
    case Plain(u) => IsPlain(u)
    case Short(e) => IsShort(e)
    case Hex(a, b, c, d) => IsHex(a) && IsHex(b) && IsHex(c) && IsHex(d)
  }

  function HexValue(u: CodeUnit): (v: nat)
    requires IsHex(u)
    ensures v < 16
  {
    if u <= 0x39 then u - 0x30 else if u <= 0x46 then u - 0x41 + 10 else u - 0x61 + 10
  }

  /** The code unit an item stands for. */
  function ItemUnit(i: Item): CodeUnit
    requires ValidItem(i)
  {
    match i
    case Plain(u) => u
    case Short(e) =>
      if e == 0x62 then 0x08 else if e == 0x66 then 0x0C else if e == 0x6E then 0x0A
      else if e == 0x72 then 0x0D else if e == 0x74 then 0x09 else e
    case Hex(a, b, c, d) => 4096 * HexValue(a) + 256 * HexValue(b) + 16 * HexValue(c) + HexValue(d)
  }

  function ItemText(i: Item): (t: Text)
    ensures |t| > 0
  {
    match i
    case Plain(u) => [u]
    case Short(e) => [BACKSLASH, e]
    case Hex(a, b, c, d) => [BACKSLASH, 0x75, a, b, c, d]
  }

  ghost predicate ValidItems(items: seq<Item>) {
    forall k :: 0 <= k < |items| ==> ValidItem(items[k])
  }

  function ItemsText(items: seq<Item>): Text {
    if items == [] then [] else ItemText(items[0]) + ItemsText(items[1..])
  }

  /** The string value spelled by a list of items. */
  function Decoded(items: seq<Item>): Text
    requires ValidItems(items)
  {
    if items == [] then [] else [ItemUnit(items[0])] + Decoded(items[1..])
  }

  function StringText(items: seq<Item>): Text {
    [QUOTE] + ItemsText(items) + [QUOTE]
  }

  // ---- Scalars --------------------------------------------------------------

  datatype Exponent = Exponent(mark: CodeUnit, sign: Text, digits: Text)

  /** A literal name (section 3) or a number (section 6). */
  datatype Scalar =
    | True | False | Null
    | Number(minus: bool, whole: Text, fraction: Option<Text>, exponent: Option<Exponent>)

  predicate AllDigits(t: Text) {
    forall i :: 0 <= i < |t| ==> IsDigit(t[i])
  }

  predicate ValidWhole(w: Text) {
    AllDigits(w) && |w| > 0 && (w[0] == 0x30 ==> |w| == 1)
  }

  predicate ValidExponent(e: Exponent) {
    (e.mark == 0x65 || e.mark == 0x45) && (e.sign == [] || e.sign == [0x2B] || e.sign == [0x2D])
    && AllDigits(e.digits) && |e.digits| > 0
  }

  predicate ValidScalar(s: Scalar) {
    s.Number? ==>
      ValidWhole(s.whole)
      && (s.fraction.Some? ==> AllDigits(s.fraction.value) && |s.fraction.value| > 0)
      && (s.exponent.Some? ==> ValidExponent(s.exponent.value))
  }

  const TRUE_TEXT: Text := [0x74, 0x72, 0x75, 0x65]
  const FALSE_TEXT: Text := [0x66, 0x61, 0x6C, 0x73, 0x65]
  const NULL_TEXT: Text := [0x6E, 0x75, 0x6C, 0x6C]

  function MinusText(minus: bool): Text { if minus then [0x2D] else [] }

  function FractionText(f: Option<Text>): Text { if f.Some? then [0x2E] + f.value else [] }

  function ExponentText(e: Option<Exponent>): Text {
    if e.Some? then [e.value.mark] + (e.value.sign + e.value.digits) else []
  }

  function ScalarText(s: Scalar): Text {
    match s
    case True => TRUE_TEXT
    case False => FALSE_TEXT
    case Null => NULL_TEXT
    case Number(m, w, f, e) => MinusText(m) + (w + (FractionText(f) + ExponentText(e)))
  }

  // ---- Values ---------------------------------------------------------------

  datatype Value =
    | Str(items: seq<Item>)
    | Atom(scalar: Scalar)
    | EmptyArr(gap: Text)
    | Arr(elements: Elements)
    | EmptyObj(gap: Text)
    | Obj(members: Members)

  /** The elements between the brackets, each with the gaps around it. */
  datatype Elements =
    | LastElement(before: Text, element: Value, after: Text)
    | MoreElements(before: Text, element: Value, after: Text, rest: Elements)

  /** The members between the braces: gap, name, gap, colon, gap, value, gap. */
  datatype Members =
    | LastMember(lead: Text, name: seq<Item>, mid: Text, before: Text, value: Value, after: Text)
    | MoreMembers(lead: Text, name: seq<Item>, mid: Text, before: Text, value: Value, after: Text, rest: Members)

  function ValueText(v: Value): Text {
    match v
    case Str(items) => StringText(items)
    case Atom(s) => ScalarText(s)
    case EmptyArr(g) => [OPEN_BRACKET] + (g + [CLOSE_BRACKET])
    case Arr(es) => [OPEN_BRACKET] + ElementsText(es)
    case EmptyObj(g) => [OPEN_BRACE] + (g + [CLOSE_BRACE])
    case Obj(ms) => [OPEN_BRACE] + MembersText(ms)
  }

  /** The elements and the closing bracket. */
  function ElementsText(es: Elements): Text {
    match es
    case LastElement(b, v, a) => b + (ValueText(v) + (a + [CLOSE_BRACKET]))
    case MoreElements(b, v, a, rest) => b + (ValueText(v) + (a + ([COMMA] + ElementsText(rest))))
  }

  /** One member and what follows it: gap, name, gap, colon, gap, value, gap. */
  function MemberText(lead: Text, name: Text, mid: Text, before: Text, value: Text, after: Text, tail: Text): Text {
    lead + (name + (mid + ([COLON] + (before + (value + (after + tail))))))
  }

  /** The members and the closing brace. */
  function MembersText(ms: Members): Text {
    MemberText(ms.lead, StringText(ms.name), ms.mid, ms.before, ValueText(ms.value), ms.after,
      if ms.MoreMembers? then [COMMA] + MembersText(ms.rest) else [CLOSE_BRACE])
  }

  ghost predicate ValidValue(d: Dialect, v: Value) {
    match v
    case Str(items) => ValidItems(items)
    case Atom(s) => ValidScalar(s)
    case EmptyArr(g) => d.Gap(g)
    case Arr(es) => ValidElements(d, es)
    case EmptyObj(g) => d.Gap(g)
    case Obj(ms) => ValidMembers(d, ms)
  }

  ghost predicate ValidElements(d: Dialect, es: Elements) {
    d.Gap(es.before) && ValidValue(d, es.element) && d.Gap(es.after)
    && (es.MoreElements? ==> ValidElements(d, es.rest))
  }

  ghost predicate ValidMembers(d: Dialect, ms: Members) {
    d.Gap(ms.lead) && ValidItems(ms.name) && d.Gap(ms.mid) && d.Gap(ms.before)
    && ValidValue(d, ms.value) && d.Gap(ms.after)
    && (ms.MoreMembers? ==> ValidMembers(d, ms.rest))
  }

  /** A JSON text (section 2): one value with white space around it. */
  datatype Document = Document(before: Text, value: Value, after: Text)

  function DocumentText(doc: Document): Text {
    doc.before + (ValueText(doc.value) + doc.after)
  }

  ghost predicate ValidDocument(d: Dialect, doc: Document) {
    d.Gap(doc.before) && ValidValue(d, doc.value) && d.Gap(doc.after)
  }

  // ---- Distinct member names --------------------------------------------------

  /** The decoded member names of one object, in order. */
  ghost function Names(ms: Members): (ns: seq<Text>)
    requires ValidMembers(Script, ms)
  {
    [Decoded(ms.name)] + (if ms.MoreMembers? then Names(ms.rest) else [])
  }

  ghost predicate Distinct(ns: seq<Text>) {
    forall i, j :: 0 <= i < j < |ns| ==> ns[i] != ns[j]
  }

  /** At every depth the decoded member names of each object are pairwise distinct. */
  ghost predicate DistinctNames(v: Value)
    requires ValidValue(Script, v)
  {
    match v
    case Arr(es) => DistinctInElements(es)
    case Obj(ms) => Distinct(Names(ms)) && DistinctInMembers(ms)
    case _ => true
  }

  ghost predicate DistinctInElements(es: Elements)
    requires ValidElements(Script, es)
  {
    DistinctNames(es.element) && (es.MoreElements? ==> DistinctInElements(es.rest))
  }

  ghost predicate DistinctInMembers(ms: Members)
    requires ValidMembers(Script, ms)
  {
    DistinctNames(ms.value) && (ms.MoreMembers? ==> DistinctInMembers(ms.rest))
  }

  // ---- Every RFC tree is a tree of the scanner's dialect ------------------------

  lemma {:induction false} RfcIsScript(v: Value)
    requires ValidValue(Rfc, v)
    ensures ValidValue(Script, v)
  {
    match v {
      case Arr(es) => RfcElementsAreScript(es);
      case Obj(ms) => RfcMembersAreScript(ms);
      case _ =>
    }
  }

  lemma {:induction false} RfcElementsAreScript(es: Elements)
    requires ValidElements(Rfc, es)
    ensures ValidElements(Script, es)
  {
    RfcIsScript(es.element);
    if es.MoreElements? { RfcElementsAreScript(es.rest); }
  }

  lemma {:induction false} RfcMembersAreScript(ms: Members)
    requires ValidMembers(Rfc, ms)
    ensures ValidMembers(Script, ms)
  {
    RfcIsScript(ms.value);
    if ms.MoreMembers? { RfcMembersAreScript(ms.rest); }
  }
}
