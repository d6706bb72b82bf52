/**
 * The scanner itself: one offset into the text, moved by the routines that read gaps,
 * strings and values, and a set of names per object.  Each routine is proved to leave
 * unread exactly what the corresponding function of JsonScan leaves.
 */
module JsonScanner {
  import opened Wrappers
  import opened JsonGrammar
  import opened JsonScan

  datatype Read<T> = Done(value: T) | Refused(failure: Failure)

  class Scanner {
    const text: Text
    var offset: nat

    ghost predicate Valid()
      reads this
    {
      offset <= |text|
    }

    ghost function Unread(): Text
      reads this
      requires Valid()
    {
      text[offset..]
    }

    constructor (input: Text)
      ensures Valid() && text == input && Unread() == input
    {
      text := input;
      offset := 0;
      new;
      assert text[0..] == text;
    }

    /** Whether the unread text opens with u; past the end nothing does. */
    predicate At(u: CodeUnit)
      reads this
    {
      offset < |text| && text[offset] == u
    }

    /** One step over the first unread code unit. */
    method Advance()
      requires Valid() && Unread() != []
      modifies this`offset
      ensures Valid() && Unread() == old(Unread())[1..] && offset == old(offset) + 1
    {
      offset := offset + 1;
      assert text[offset..] == old(text[offset..])[1..];
    }

    method Whitespace()
      requires Valid()
      modifies this`offset
      ensures Valid() && Unread() == SkipGap(old(Unread())) && offset >= old(offset)
    {
      hide ScriptSpace;
      while offset < |text| && ScriptSpace(text[offset])
        invariant Valid() && offset >= old(offset)
        invariant SkipGap(Unread()) == SkipGap(old(Unread()))
      {
        Advance();
      }
    }

    /** Reads a quoted string and returns what it spells. */
    method StringToken() returns (r: Read<Text>)
      requires Valid()
      modifies this`offset
      ensures r.Refused? ==> ScanString(old(Unread())).NoToken? && r.failure == InvalidJson
      ensures r.Done? ==>
        Valid() && offset > old(offset)
        && var t := ScanString(old(Unread())); t.Token? && Unread() == t.rest && r.value == Decoded(t.items)
    {
      hide BodyLength, ParseItems, ScanString, Decoded;
      TokenAt(offset);
      if !At(QUOTE) { return Refused(InvalidJson); }
      var start := offset;
      offset := offset + 1;
      var closed := CloseQuote();
      if !closed { return Refused(InvalidJson); }
      match ParseItems(text[start + 1..offset - 1]) {
        case None => return Refused(InvalidJson);
        case Some(items) => return Done(Decoded(items));
      }
    }

    /** The loop that looks for the closing quote and steps over it. */
    method CloseQuote() returns (closed: bool)
      requires Valid()
      modifies this`offset
      ensures closed <==> BodyLength(old(Unread())).Some?
      ensures closed ==> Valid() && offset == old(offset) + BodyLength(old(Unread())).value + 1
    {
      hide BodyLength;
      var start := offset;
      while offset < |text|
        invariant start <= offset
        invariant offset <= |text| ==> BodyFrom(start, offset)
        invariant offset > |text| ==> BodyLength(text[start..]).None?
      {
        var character := text[offset];
        BodyStep(start, offset);
        offset := offset + 1;
        if character == BACKSLASH {
          offset := offset + 1;
          continue;
        }
        if character == QUOTE { return true; }
        if character < 0x20 { return false; }
      }
      if offset == |text| { NoBodyAtEnd(start); }
      return false;
    }

    lemma NoBodyAtEnd(start: nat)
      requires start <= |text| && BodyFrom(start, |text|)
      ensures BodyLength(text[start..]).None?
    {
    }

    /** The string at an offset, by the length of its body. */
    lemma TokenAt(start: nat)
      requires start <= |text|
      ensures start == |text| || text[start] != QUOTE ==> ScanString(text[start..]).NoToken?
      ensures start < |text| && text[start] == QUOTE ==>
        var n := BodyLength(text[start + 1..]);
        ScanString(text[start..])
        == if n.None? then NoToken
           else match ParseItems(text[start + 1..start + 1 + n.value])
                case None => NoToken
                case Some(items) => Token(items, text[start + 2 + n.value..])
    {
      hide BodyLength, ParseItems;
      var s := text[start..];
      if start < |text| && text[start] == QUOTE {
        assert s[1..] == text[start + 1..];
        var n := BodyLength(s[1..]);
        if n.Some? {
          assert s[1..][..n.value] == text[start + 1..start + 1 + n.value];
          assert s[n.value + 2..] == text[start + 2 + n.value..];
        }
      }
    }

    /** The body that opens at `start` goes on as the one read from `at` does. */
    ghost predicate BodyFrom(start: nat, at: nat)
      requires start <= at <= |text|
    {
      var n := BodyLength(text[at..]);
      BodyLength(text[start..]) == if n.None? then None else Some(at - start + n.value)
    }

    lemma BodyStep(start: nat, at: nat)
      requires start <= at < |text| && BodyFrom(start, at)
      ensures text[at] == BACKSLASH ==>
        if at + 2 <= |text| then BodyFrom(start, at + 2) else BodyLength(text[start..]).None?
      ensures text[at] == QUOTE ==> BodyLength(text[start..]) == Some(at - start)
      ensures text[at] != BACKSLASH && text[at] != QUOTE ==>
        if text[at] < 0x20 then BodyLength(text[start..]).None? else BodyFrom(start, at + 1)
    {
      var s := text[at..];
      assert s[1..] == text[at + 1..];
      assert at + 2 <= |text| ==> s[2..] == text[at + 2..];
    }

    /** The delimiter after a member or element; past the end it is no code unit at all. */
    method Delimiter() returns (u: Option<CodeUnit>)
      requires Valid()
      modifies this`offset
      ensures old(Unread()) == [] ==> u == None
      ensures old(Unread()) != [] ==> Valid() && u == Some(old(Unread())[0]) && Unread() == old(Unread())[1..]
      ensures offset > old(offset)
    {
      if offset < |text| {
        u := Some(text[offset]);
        Advance();
      } else {
        u := None;
        offset := offset + 1;
      }
    }

    method ReadValue() returns (r: Read<()>)
      requires Valid()
      modifies this`offset
      ensures Agrees(ScanValue(old(Unread())), r)
      ensures r.Done? ==> offset > old(offset)
      decreases |text| - offset, 0
    {
      hide ScanString, MatchScalar, ScanMembers, ScanElements, SkipGap;
      Whitespace();
      if At(OPEN_BRACE) {
        Advance();
        Whitespace();
        if At(CLOSE_BRACE) { Advance(); return Done(()); }
        r := ReadMembers();
      } else if At(OPEN_BRACKET) {
        Advance();
        Whitespace();
        if At(CLOSE_BRACKET) { Advance(); return Done(()); }
        r := ReadElements();
      } else if At(QUOTE) {
        var t := StringToken();
        r := if t.Done? then Done(()) else Refused(t.failure);
      } else {
        match MatchScalar(text[offset..]) {
          case None => r := Refused(InvalidJson);
          case Some(a) =>
            ghost var s := Unread();
            offset := offset + |ScalarText(a)|;
            assert Unread() == s[|ScalarText(a)|..];
            r := Done(());
        }
      }
    }

    /** A routine's end agrees with a scan of the text it started from. */
    ghost predicate Agrees(s: Scan, r: Read<()>)
      reads this
    {
      match s
      case Failed(f) => r == Refused(f)
      case Rest(rest) => r == Done(()) && Valid() && Unread() == rest
    }

    /** The loop over the members of an object, with the names read so far. */
    method ReadMembers() returns (r: Read<()>)
      requires Valid()
      modifies this`offset
      ensures Agrees(ScanMembers(old(Unread()), {}), r)
      ensures r.Done? ==> offset > old(offset)
      decreases |text| - offset, 1
    {
      hide ScanString, SkipGap, ScanValue;
      var keys: set<Text> := {};
      while true
        invariant Valid() && offset >= old(offset)
        invariant ScanMembers(Unread(), keys) == ScanMembers(old(Unread()), {})
        decreases |text| - offset
      {
        Whitespace();
        var key := StringToken();
        if key.Refused? { return Refused(key.failure); }
        if key.value in keys { return Refused(DuplicateKey); }
        keys := keys + {key.value};
        Whitespace();
        var colon := Delimiter();
        if colon != Some(COLON) { return Refused(InvalidJson); }
        var v := ReadValue();
        if v.Refused? { return v; }
        Whitespace();
        var delimiter := Delimiter();
        if delimiter == Some(CLOSE_BRACE) { return Done(()); }
        if delimiter != Some(COMMA) { return Refused(InvalidJson); }
      }
    }

    method ReadElements() returns (r: Read<()>)
      requires Valid()
      modifies this`offset
      ensures Agrees(ScanElements(old(Unread())), r)
      ensures r.Done? ==> offset > old(offset)
      decreases |text| - offset, 1
    {
      hide ScanString, SkipGap, ScanValue;
      while true
        invariant Valid() && offset >= old(offset)
        invariant ScanElements(Unread()) == ScanElements(old(Unread()))
        decreases |text| - offset
      {
        var v := ReadValue();
        if v.Refused? { return v; }
        Whitespace();
        var delimiter := Delimiter();
        if delimiter == Some(CLOSE_BRACKET) { return Done(()); }
        if delimiter != Some(COMMA) { return Refused(InvalidJson); }
      }
    }

    /** Reads the whole text. */
    method RejectDuplicateKeys() returns (r: Read<()>)
      requires Valid() && offset == 0
      modifies this`offset
      ensures Agrees(ScanText(text), r)
    {
      hide SkipGap, ScanValue;
      assert text[0..] == text;
      r := ReadValue();
      if r.Done? {
        Whitespace();
        if offset != |text| { r := Refused(InvalidJson); }
      }
    }
  }

  /** The entry point, on a fresh offset: its verdict is decided by the text's trees. */
  method RejectDuplicateJsonKeys(text: Text) returns (r: Read<()>)
    ensures r.Done?
       <==> exists doc :: ValidDocument(Script, doc) && text == DocumentText(doc) && DistinctNames(doc.value)
    ensures forall doc :: ValidDocument(Script, doc) && text == DocumentText(doc) && !DistinctNames(doc.value)
                          ==> r == Refused(DuplicateKey)
  {
    hide ScanText, ScanValue, DistinctNames, ValueText, ValidValue;
    var scanner := new Scanner(text);
    r := scanner.RejectDuplicateKeys();
    AcceptsExactly(text);
    forall doc | ValidDocument(Script, doc) && text == DocumentText(doc) && !DistinctNames(doc.value)
      ensures r == Refused(DuplicateKey)
    {
      DocumentVerdict(doc);
    }
  }
}
