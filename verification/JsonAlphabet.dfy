/**
 * The characters behind the code units of the grammar: white space of both dialects, structural characters,
 * literal names, digits and escapes, each against its spelling in RFC 8259 and ECMA-262.
 */
module JsonAlphabet {
  import opened JsonGrammar
  import opened Wrappers

  /** The code units of a text below U+10000. */
  function Units(t: string): (u: Text)
    requires forall i :: 0 <= i < |t| ==> t[i] as int < 0x10000
    ensures |u| == |t| && forall i :: 0 <= i < |t| ==> u[i] == t[i] as int
  {
    seq(|t|, i requires 0 <= i < |t| => t[i] as int)
  }

  const HEX_LOWER := "0123456789abcdef"
  const HEX_UPPER := "0123456789ABCDEF"

  lemma Structure()
    ensures QUOTE == '"' as int && BACKSLASH == '\\' as int && COLON == ':' as int && COMMA == ',' as int
    ensures OPEN_BRACE == '{' as int && CLOSE_BRACE == '}' as int && OPEN_BRACKET == '[' as int && CLOSE_BRACKET == ']' as int
  {
  }

  /** Section 2 of RFC 8259: space, horizontal tab, line feed and carriage return. */
  lemma RfcSpaces(u: CodeUnit)
    ensures RfcSpace(u) <==> u == ' ' as int || u == '\t' as int || u == '\n' as int || u == '\r' as int
    ensures RfcSpace(u) ==> ScriptSpace(u)
  {
  }

  /** WhiteSpace and LineTerminator of ECMA-262: tab, vertical tab, form feed, the byte order mark and the space
      separators of Unicode; line feed, carriage return, line separator and paragraph separator. */
  lemma ScriptSpaces(u: CodeUnit)
    ensures ScriptSpace(u)
       <==> u in {9, 11, 12, 0xFEFF}
            || u in {32, 160, 5760, 8192, 8193, 8194, 8195, 8196, 8197, 8198, 8199, 8200, 8201, 8202, 8239, 8287, 12288}
            || u in {10, 13, 8232, 8233}
  {
  }

  lemma LiteralNames()
    ensures ScalarText(True) == Units("true") && ScalarText(False) == Units("false") && ScalarText(Null) == Units("null")
  {
  }

  /** Section 6: a minus sign, digits, a fraction after a point, and an exponent after e or E with an optional sign. */
  lemma NumberParts(n: Scalar)
    requires n.Number? && ValidScalar(n)
    ensures ScalarText(n)
         == (if n.minus then Units("-") else []) + n.whole
            + (if n.fraction.Some? then Units(".") + n.fraction.value else [])
            + (if n.exponent.Some? then [n.exponent.value.mark] + n.exponent.value.sign + n.exponent.value.digits else [])
    ensures n.exponent.Some? ==>
      ([n.exponent.value.mark] == Units("e") || [n.exponent.value.mark] == Units("E"))
      && (n.exponent.value.sign == [] || n.exponent.value.sign == Units("+") || n.exponent.value.sign == Units("-"))
    ensures n.whole == Units("0") || (n.whole != [] && n.whole[0] != '0' as int)
  {
    assert Units("-") == [0x2D] && Units(".") == [0x2E];
  }

  lemma DigitsAre(u: CodeUnit)
    ensures IsDigit(u) <==> exists k :: 0 <= k < 10 && "0123456789"[k] as int == u
  {
    if IsDigit(u) { assert "0123456789"[u - 0x30] as int == u; }
  }

  /** A hexadecimal digit stands for its place in the list of digits, in either case. */
  lemma HexDigits(k: nat)
    requires k < 16
    ensures |HEX_LOWER| == |HEX_UPPER| == 16
    ensures HEX_LOWER[k] as int < 0x10000 && IsHex(HEX_LOWER[k] as int) && HexValue(HEX_LOWER[k] as int) == k
    ensures HEX_UPPER[k] as int < 0x10000 && IsHex(HEX_UPPER[k] as int) && HexValue(HEX_UPPER[k] as int) == k
  {
  }

  lemma HexAre(u: CodeUnit)
    ensures IsHex(u) <==> exists k :: 0 <= k < 16 && (HEX_LOWER[k] as int == u || HEX_UPPER[k] as int == u)
  {
    if IsHex(u) {
      HexDigits(HexValue(u));
      assert HEX_LOWER[HexValue(u)] as int == u || HEX_UPPER[HexValue(u)] as int == u;
    }
    if k :| 0 <= k < 16 && (HEX_LOWER[k] as int == u || HEX_UPPER[k] as int == u) { HexDigits(k); }
  }

  function HexDigit(k: nat): CodeUnit
    requires k < 16
  {
    HexDigits(k);
    HEX_LOWER[k] as int
  }

  lemma HexDigitValue(k: nat)
    requires k < 16
    ensures IsHex(HexDigit(k)) && HexValue(HexDigit(k)) == k
  {
    HexDigits(k);
  }

  lemma Sixteens(u: CodeUnit)
    ensures u == 4096 * (u / 4096) + 256 * (u / 256 % 16) + 16 * (u / 16 % 16) + u % 16
  {
    assert u / 16 / 16 == u / 256 && u / 256 / 16 == u / 4096;
  }

  /** Four hexadecimal digits spell every code unit, most significant digit first. */
  lemma HexSpells(u: CodeUnit)
    ensures var i := Hex(HexDigit(u / 4096), HexDigit(u / 256 % 16), HexDigit(u / 16 % 16), HexDigit(u % 16));
      ValidItem(i) && ItemUnit(i) == u
  {
    hide HexValue, HexDigit, IsHex;
    HexDigitValue(u / 4096);
    HexDigitValue(u / 256 % 16);
    HexDigitValue(u / 16 % 16);
    HexDigitValue(u % 16);
    Sixteens(u);
  }

  /** The two-character escapes of section 7, and no others. */
  lemma Escapes(e: CodeUnit)
    ensures ValidItem(Short(e)) <==> exists k :: 0 <= k < 8 && "\"\\/bfnrt"[k] as int == e
    ensures ValidItem(Short('"' as int)) && ItemUnit(Short('"' as int)) == '"' as int
    ensures ValidItem(Short('\\' as int)) && ItemUnit(Short('\\' as int)) == '\\' as int
    ensures ValidItem(Short('/' as int)) && ItemUnit(Short('/' as int)) == '/' as int
    ensures ValidItem(Short('b' as int)) && ItemUnit(Short('b' as int)) == 8
    ensures ValidItem(Short('f' as int)) && ItemUnit(Short('f' as int)) == 12
    ensures ValidItem(Short('n' as int)) && ItemUnit(Short('n' as int)) == '\n' as int
    ensures ValidItem(Short('r' as int)) && ItemUnit(Short('r' as int)) == '\r' as int
    ensures ValidItem(Short('t' as int)) && ItemUnit(Short('t' as int)) == '\t' as int
  {
    var all := "\"\\/bfnrt";
    assert all[0] == '"' && all[1] == '\\' && all[2] == '/' && all[3] == 'b' && all[4] == 'f' && all[5] == 'n'
        && all[6] == 'r' && all[7] == 't';
  }

  /** Every other character stands for itself; the quotation mark, the backslash and control characters must be escaped. */
  lemma PlainCharacters(u: CodeUnit)
    ensures ValidItem(Plain(u)) <==> 32 <= u && u != '"' as int && u != '\\' as int
    ensures ValidItem(Plain(u)) ==> ItemUnit(Plain(u)) == u && ItemText(Plain(u)) == [u]
  {
  }
}
