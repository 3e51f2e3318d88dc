/**
 * The letters of a record file: the exact text a record is written as, and what the reader takes from
 * texts the store did not write itself (RFC 8259, sections 2 and 7).
 */
module Spelling {
  import opened Wrappers
  import opened Json
  import opened Metadata

  // ---------------------------------------------------------------------------------------------
  // Writing
  // ---------------------------------------------------------------------------------------------

  /** The characters Go writes as `\u00xx`: they would end a line or a tag where the text is embedded. */
  predicate Unsafe(c: char) {
    c as int < 0x20 || c in {'<', '>', '&'} || c as int in {0x2028, 0x2029}
  }

  predicate Ordinary(w: string) {
    forall i :: 0 <= i < |w| ==> !Unsafe(w[i]) && w[i] != '"' && w[i] != '\\'
  }

  /** Line breaks and tabs have short escapes, as the quote and the backslash have; the other unsafe ones have six characters. */
  lemma EscapeExactly(c: char)
    ensures forall i :: 0 <= i < |Escape(c)| ==> !Unsafe(Escape(c)[i])
    ensures Escape(c) == [c] <==> Ordinary([c])
    ensures |Escape(c)| == if Ordinary([c]) then 1 else if c in "\"\\\n\r\t" then 2 else 6
    ensures |Escape(c)| == 6 ==> Escape(c)[..2] == "\\u" && LowerHex(Escape(c)[2..])
  {
    assert [c][0] == c;
    if |Escape(c)| == 6 {
      UnicodeExactly(c as int);
    }
  }

  predicate LowerHex(s: string) {
    forall i :: 0 <= i < |s| ==> s[i] in "0123456789abcdef"
  }

  lemma UnicodeExactly(n: nat)
    requires n < 0x10000
    ensures var s := UnicodeEscape(n);
      s[..2] == "\\u" && LowerHex(s[2..]) && forall i :: 0 <= i < |s| ==> !Unsafe(s[i])
  {
    HexLower(n / 0x1000);
    HexLower(n / 0x100 % 16);
    HexLower(n / 16 % 16);
    HexLower(n % 16);
    hide HexDigit;
  }

  lemma HexLower(n: nat)
    requires n < 16
    ensures HexDigit(n) == "0123456789abcdef"[n] && !Unsafe(HexDigit(n))
  {
  }

  /** No written text holds an unsafe character, and one of ordinary characters stands between its quotes as it is. */
  lemma {:induction false} QuoteExactly(w: string)
    ensures forall i :: 0 <= i < |EscapeAll(w)| ==> !Unsafe(EscapeAll(w)[i])
    ensures EscapeAll(w) == w <==> Ordinary(w)
    ensures Ordinary(w) ==> Quote(w) == "\"" + w + "\""
    ensures |EscapeAll(w)| >= |w|
  {
    if w != "" {
      EscapeExactly(w[0]);
      QuoteExactly(w[1..]);
      assert w == [w[0]] + w[1..];
      if EscapeAll(w) == w {
        assert |Escape(w[0])| == 1;
        assert EscapeAll(w)[1..] == EscapeAll(w[1..]);
      }
    }
  }

  /** One member of an object, with its value's text. */
  function Pair(key: string, text: string): string {
    Quoted(key) + (":" + text)
  }

  function Quoted(w: string): string {
    "\"" + w + "\""
  }

  /** The parts with commas between them. */
  function Joined(parts: seq<string>): string {
    if parts == [] then "" else if |parts| == 1 then parts[0] else parts[0] + ("," + Joined(parts[1..]))
  }

  /** An object's members, each as its name and its value's text. */
  function Parts(m: Members): seq<string> {
    match m
    case NoMembers => []
    case Member(key, j, rest) => [Pair(key, Write(j))] + Parts(rest)
  }

  predicate OrdinaryKeys(m: Members) {
    m.Member? ==> Ordinary(m.key) && OrdinaryKeys(m.rest)
  }

  lemma {:induction false} MembersJoined(m: Members)
    requires m.Member? && OrdinaryKeys(m)
    ensures WriteMembers(m) == Joined(Parts(m)) + "}"
  {
    QuoteExactly(m.key);
    assert Parts(m)[1..] == Parts(m.rest);
    if m.rest.Member? {
      MembersJoined(m.rest);
      MemberText(Quote(m.key), Write(m.value), Joined(Parts(m.rest)));
    } else {
      assert Quote(m.key) + (":" + (Write(m.value) + "}")) == Quote(m.key) + (":" + Write(m.value)) + "}";
    }
  }

  lemma MemberText(key: string, text: string, more: string)
    ensures key + (":" + (text + ("," + (more + "}")))) == key + (":" + text) + ("," + more) + "}"
  {
    Regroup(",", more, "}");
    Regroup(":", text, "," + more + "}");
    Regroup(key, ":" + text, "," + more + "}");
    Regroup(key + (":" + text), "," + more, "}");
  }

  /** The text of a record, name for name and in this order. */
  lemma RecordText(vg: string, name: string, size: UInt64)
    requires Ordinary(vg) && Ordinary(name)
    ensures Encode(Record(vg, name, size)) == "{" + (Joined([
      Pair("Name", Quoted(name)), Pair("Size", Decimal(size)), Pair("Tags", "null"), Pair("VGName", Quoted(vg)),
      Pair("Status", Quoted("ok")), Pair("SnapshotName", Quoted("")), Pair("CloneName", Quoted(""))]) + "}")
  {
    var v := Record(vg, name, size);
    PartsOfRecord(v);
    RecordTextOf(v);
    hide Pair, Decimal, Joined, Parts, ToMembers, Encode;
    assert Quote(name) == Quoted(name) && Quote(vg) == Quoted(vg) && Quote("ok") == Quoted("ok") && Quote("") == Quoted("") by {
      QuoteExactly(vg);
      QuoteExactly(name);
      QuoteExactly("ok");
      QuoteExactly("");
    }
  }

  lemma RecordTextOf(v: Vol)
    ensures Encode(v) == "{" + (Joined(Parts(ToMembers(v))) + "}")
  {
    RecordKeys(v);
    MembersJoined(ToMembers(v));
    hide Joined, Parts, WriteMembers;
  }

  lemma RecordKeys(v: Vol)
    ensures OrdinaryKeys(ToMembers(v))
  {
    var m := LastMembers(v);
    RecordKeysOrdinary();
    hide Ordinary;
    assert OrdinaryKeys(m.rest.rest.rest);
    assert OrdinaryKeys(m.rest.rest);
    assert OrdinaryKeys(m.rest);
    assert OrdinaryKeys(m);
    assert OrdinaryKeys(ToMembers(v).rest.rest);
    assert OrdinaryKeys(ToMembers(v).rest);
  }

  lemma RecordKeysOrdinary()
    ensures Ordinary("Name") && Ordinary("Size") && Ordinary("Tags") && Ordinary("VGName")
    ensures Ordinary("Status") && Ordinary("SnapshotName") && Ordinary("CloneName")
  {
  }

  lemma PartsOfRecord(v: Vol)
    ensures Parts(ToMembers(v)) == [
      Pair("Name", Quote(v.name)), Pair("Size", Decimal(v.size)), Pair("Tags", Write(TagsJson(v.tags))),
      Pair("VGName", Quote(v.vgName)), Pair("Status", Quote(v.status)), Pair("SnapshotName", Quote(v.snapshotName)),
      Pair("CloneName", Quote(v.cloneName))]
  {
    var m := LastMembers(v);
    hide Pair, Quote, Decimal;
    assert Parts(m.rest.rest.rest) == [Pair("CloneName", Quote(v.cloneName))];
    assert Parts(m.rest) == [Pair("Status", Quote(v.status)), Pair("SnapshotName", Quote(v.snapshotName)),
                             Pair("CloneName", Quote(v.cloneName))];
    var n := ToMembers(v);
    assert Parts(n.rest.rest) == [Pair("Tags", Write(TagsJson(v.tags)))] + Parts(m);
  }

  // ---------------------------------------------------------------------------------------------
  // Reading
  // ---------------------------------------------------------------------------------------------

  /** Blank is exactly spaces, tabs, line feeds and carriage returns. */
  lemma {:induction false} BlankExactly(s: string)
    ensures Blank(s) <==> forall i :: 0 <= i < |s| ==> s[i] in " \t\n\r"
  {
    if s != "" {
      BlankExactly(s[1..]);
      assert forall i :: 1 <= i < |s| ==> s[i] == s[1..][i - 1];
      assert forall i :: 0 <= i < |s| - 1 ==> s[1..][i] == s[i + 1];
    }
  }

  predicate HexOf(c: char, n: nat) {
    n < 16 && (c == "0123456789abcdef"[n] || c == "0123456789ABCDEF"[n])
  }

  /** The four hexadecimal digits of a number, small or capital. */
  predicate Hex4Of(s: string, n: nat) {
    && |s| == 4 && n < 0x10000
    && HexOf(s[0], n / 0x1000) && HexOf(s[1], n / 0x100 % 16) && HexOf(s[2], n / 16 % 16) && HexOf(s[3], n % 16)
  }

  lemma HexRead(c: char, n: nat)
    requires HexOf(c, n)
    ensures HexValue(c) == Some(n)
  {
  }

  lemma Hex4Read(s: string, t: string, n: nat)
    requires Hex4Of(s, n)
    ensures Hex4(s + t) == Some(n)
  {
    hide Hex4Of;
    var a, b, c, d := Hex4Parts(s, n);
    DigitsRead(s, t, a, b, c, d);
  }

  lemma Hex4Parts(s: string, n: nat) returns (a: nat, b: nat, c: nat, d: nat)
    requires Hex4Of(s, n)
    ensures |s| == 4 && HexOf(s[0], a) && HexOf(s[1], b) && HexOf(s[2], c) && HexOf(s[3], d)
    ensures n == ((a * 16 + b) * 16 + c) * 16 + d
  {
    hide HexOf;
    a, b, c, d := n / 0x1000, n / 0x100 % 16, n / 16 % 16, n % 16;
    HexParts(n);
  }

  lemma DigitsRead(s: string, t: string, a: nat, b: nat, c: nat, d: nat)
    requires |s| == 4 && HexOf(s[0], a) && HexOf(s[1], b) && HexOf(s[2], c) && HexOf(s[3], d)
    ensures Hex4(s + t) == Some(((a * 16 + b) * 16 + c) * 16 + d)
  {
    HexRead(s[0], a);
    HexRead(s[1], b);
    HexRead(s[2], c);
    HexRead(s[3], d);
    hide HexOf, HexValue;
  }

  /** A character as it is: any but the quote, the backslash and the control characters. */
  predicate SpelledRaw(text: string, c: char) {
    text == [c] && c != '"' && c != '\\' && c as int >= 0x20
  }

  /** The two-character escapes. */
  predicate SpelledShort(text: string, c: char) {
    (text, c) in {("\\\"", '"'), ("\\\\", '\\'), ("\\/", '/'), ("\\n", '\n'), ("\\r", '\r'), ("\\t", '\t'),
                  ("\\b", 8 as char), ("\\f", 12 as char)}
  }

  predicate SpelledUnicode(text: string, c: char) {
    |text| == 6 && text[..2] == "\\u" && Hex4Of(text[2..], c as int)
  }

  /** A character beyond the first plane, as its pair of surrogates. */
  predicate SpelledPair(text: string, c: char) {
    && |text| == 12 && c as int >= 0x10000 && text[..2] == "\\u" && text[6..8] == "\\u"
    && Hex4Of(text[2..6], 0xD800 + (c as int - 0x10000) / 0x400)
    && Hex4Of(text[8..], 0xDC00 + (c as int - 0x10000) % 0x400)
  }

  predicate Spells(text: string, c: char) {
    SpelledRaw(text, c) || SpelledShort(text, c) || SpelledUnicode(text, c) || SpelledPair(text, c)
  }

  /** However a character is spelled, it is read as that character. */
  lemma CharacterRead(text: string, c: char, t: string)
    requires Spells(text, c) && ReadText(t).Got?
    ensures ReadText(text + t) == Got([c] + ReadText(t).value, ReadText(t).left)
  {
    hide SpelledRaw, SpelledShort, SpelledUnicode, SpelledPair, Unescape, ReadText;
    if SpelledRaw(text, c) {
      RawRead(text, c, t);
    } else {
      if SpelledShort(text, c) {
        ShortRead(text, c, t);
      } else if SpelledUnicode(text, c) {
        UnicodeRead(text, c, t);
      } else {
        PairRead(text, c, t);
      }
      EscapeRead(text, c, t);
    }
  }

  lemma RawRead(text: string, c: char, t: string)
    requires SpelledRaw(text, c) && ReadText(t).Got?
    ensures ReadText(text + t) == Got([c] + ReadText(t).value, ReadText(t).left)
  {
    assert (text + t)[1..] == t;
  }

  lemma EscapeRead(text: string, c: char, t: string)
    requires text != "" && text[0] == '\\' && Unescape((text + t)[1..]) == Got(c, t) && ReadText(t).Got?
    ensures ReadText(text + t) == Got([c] + ReadText(t).value, ReadText(t).left)
  {
    hide Unescape;
  }

  lemma ShortRead(text: string, c: char, t: string)
    requires SpelledShort(text, c)
    ensures text != "" && text[0] == '\\' && Unescape((text + t)[1..]) == Got(c, t)
  {
    assert |text| == 2 && text[0] == '\\';
    assert (text + t)[1] == text[1] && (text + t)[1..][1..] == t;
  }

  lemma UnicodeRead(text: string, c: char, t: string)
    requires SpelledUnicode(text, c)
    ensures text != "" && text[0] == '\\' && Unescape((text + t)[1..]) == Got(c, t)
  {
    var s := (text + t)[1..];
    Hex4Read(text[2..], t, c as int);
    hide Hex4, Hex4Of;
    assert text[0] == text[..2][0] && text[1] == text[..2][1];
    assert s[0] == text[1] && s[1..] == text[2..] + t && s[5..] == t;
  }

  lemma PairRead(text: string, c: char, t: string)
    requires SpelledPair(text, c)
    ensures text != "" && text[0] == '\\' && Unescape((text + t)[1..]) == Got(c, t)
  {
    PairReadAs(text, c, t, 0xD800 + (c as int - 0x10000) / 0x400, 0xDC00 + (c as int - 0x10000) % 0x400);
  }

  lemma PairReadAs(text: string, c: char, t: string, high: nat, low: nat)
    requires |text| == 12 && c as int >= 0x10000 && text[..2] == "\\u" && text[6..8] == "\\u"
    requires high == 0xD800 + (c as int - 0x10000) / 0x400 && low == 0xDC00 + (c as int - 0x10000) % 0x400
    requires Hex4Of(text[2..6], high) && Hex4Of(text[8..], low)
    ensures text[0] == '\\' && Unescape((text + t)[1..]) == Got(c, t)
  {
    var s := (text + t)[1..];
    Hex4Read(text[2..6], text[6..] + t, high);
    Hex4Read(text[8..], t, low);
    hide Hex4, Hex4Of, LowSurrogate, Unescape;
    assert text[0] == text[..2][0] && text[1] == text[..2][1];
    assert s[0] == text[1] && s[1..] == text[2..6] + (text[6..] + t);
    LowRead(text, c, t, s[5..], high, low);
    HighRead(s, high);
  }

  lemma HighRead(s: string, high: nat)
    requires |s| >= 5 && s[0] == 'u' && Hex4(s[1..]) == Some(high) && 0xD800 <= high < 0xE000
    ensures Unescape(s) == LowSurrogate(high, s[5..])
  {
    hide Hex4, LowSurrogate;
  }

  lemma LowRead(text: string, c: char, t: string, s: string, high: nat, low: nat)
    requires |text| == 12 && c as int >= 0x10000 && text[6..8] == "\\u" && s == (text + t)[6..]
    requires high == 0xD800 + (c as int - 0x10000) / 0x400 && low == 0xDC00 + (c as int - 0x10000) % 0x400
    requires Hex4(text[8..] + t) == Some(low)
    ensures 0xD800 <= high < 0xE000 && LowSurrogate(high, s) == Got(c, t)
  {
    hide Hex4;
    assert s[2..] == text[8..] + t && s[6..] == t;
    assert s[0] == text[6..8][0] && s[1] == text[6..8][1];
  }

  function Concat(texts: seq<string>): string {
    if texts == [] then "" else texts[0] + Concat(texts[1..])
  }

  /** Each text spells the character at its place. */
  predicate SpellsAll(texts: seq<string>, w: string) {
    |texts| == |w| && forall i :: 0 <= i < |w| ==> Spells(texts[i], w[i])
  }

  /** A text in quotes is read as the text it spells, however its characters are spelled, and the rest is left over. */
  lemma {:induction false} SpelledTextRead(texts: seq<string>, w: string, t: string)
    requires SpellsAll(texts, w)
    ensures ReadValue("\"" + (Concat(texts) + ("\"" + t))) == Got(Text(w), t)
  {
    var s := "\"" + (Concat(texts) + ("\"" + t));
    SpelledRead(texts, w, t);
    SkipNothing(s);
    assert s[1..] == Concat(texts) + ("\"" + t);
  }

  lemma {:induction false} SpelledRead(texts: seq<string>, w: string, t: string)
    requires SpellsAll(texts, w)
    ensures ReadText(Concat(texts) + ("\"" + t)) == Got(w, t)
  {
    hide Spells;
    if w == "" {
      assert Concat(texts) + ("\"" + t) == "\"" + t;
      assert ("\"" + t)[1..] == t;
    } else {
      SpelledRead(texts[1..], w[1..], t);
      CharacterRead(texts[0], w[0], Concat(texts[1..]) + ("\"" + t));
      Regroup(texts[0], Concat(texts[1..]), "\"" + t);
      assert w == [w[0]] + w[1..];
    }
  }

  /** Half of a pair of surrogates on its own, which is read as the replacement character. */
  predicate SpelledLone(text: string, c: char) {
    && |text| == 6 && text[..2] == "\\u" && c as int == 0xFFFD
    && Hex4(text[2..]).Some? && 0xD800 <= Hex4(text[2..]).value < 0xE000
  }

  /** The text that was taken for one character spells it, whatever follows. */
  ghost predicate Taken(s: string, c: char, left: string) {
    exists text :: TakenAs(s, text, c, left)
  }

  predicate TakenAs(s: string, text: string, c: char, left: string) {
    s == text + left && (Spells(text, c) || SpelledLone(text, c))
  }

  lemma HexOnly(c: char)
    ensures HexValue(c).Some? ==> HexOf(c, HexValue(c).value)
  {
  }

  lemma Hex4Only(s: string)
    requires Hex4(s).Some?
    ensures |s| >= 4 && Hex4Of(s[..4], Hex4(s).value) && Hex4(s[..4]) == Hex4(s)
  {
    hide HexValue, HexOf, Hex4Of;
    var a, b, c, d := HexValue(s[0]).value, HexValue(s[1]).value, HexValue(s[2]).value, HexValue(s[3]).value;
    HexOnly(s[0]);
    HexOnly(s[1]);
    HexOnly(s[2]);
    HexOnly(s[3]);
    assert Hex4(s) == Some(((a * 16 + b) * 16 + c) * 16 + d);
    Hex4OfDigits(s[..4], a, b, c, d);
  }

  lemma Hex4OfDigits(s: string, a: nat, b: nat, c: nat, d: nat)
    requires |s| == 4 && HexOf(s[0], a) && HexOf(s[1], b) && HexOf(s[2], c) && HexOf(s[3], d)
    ensures Hex4Of(s, ((a * 16 + b) * 16 + c) * 16 + d)
  {
    assert a < 16 && b < 16 && c < 16 && d < 16;
    hide HexOf;
    DigitsOf(a, b, c, d);
  }

  lemma DigitsOf(a: nat, b: nat, c: nat, d: nat)
    requires a < 16 && b < 16 && c < 16 && d < 16
    ensures var n := ((a * 16 + b) * 16 + c) * 16 + d;
      n / 0x1000 == a && n / 0x100 % 16 == b && n / 16 % 16 == c && n % 16 == d
  {
  }

  /** The first character of the text read from `s` was taken, and the others are read from `left`. */
  ghost predicate FirstTaken(s: string, c: char, left: string) {
    && Taken(s, c, left) && ReadText(left).Got?
    && ReadText(s) == Got([c] + ReadText(left).value, ReadText(left).left)
  }

  /** A character is taken from the text only by one of its spellings. */
  lemma OnlySpelled(s: string)
    requires ReadText(s).Got? && ReadText(s).value != ""
    ensures exists left :: FirstTaken(s, ReadText(s).value[0], left)
  {
    if s[0] == '\\' {
      var c, left := Unescape(s[1..]).value, Unescape(s[1..]).left;
      OnlyEscaped(s);
      assert ReadText(s).value[0] == c;
      assert FirstTaken(s, c, left);
    } else {
      assert TakenAs(s, [s[0]], s[0], s[1..]);
      assert ReadText(s).value[0] == s[0];
      assert FirstTaken(s, s[0], s[1..]);
    }
  }

  lemma OnlyEscaped(s: string)
    requires s != "" && s[0] == '\\' && Unescape(s[1..]).Got?
    ensures Taken(s, Unescape(s[1..]).value, Unescape(s[1..]).left)
  {
    var e := s[1..];
    var c, left := Unescape(e).value, Unescape(e).left;
    if e[0] != 'u' {
      assert SpelledShort(s[..2], c) by {
        assert s[..2] == ['\\', e[0]];
      }
      assert s == s[..2] + left;
      assert TakenAs(s, s[..2], c, left);
    } else {
      OnlyUnicode(s, c, left);
    }
  }

  lemma OnlyUnicode(s: string, c: char, left: string)
    requires |s| > 1 && s[0] == '\\' && s[1] == 'u' && Unescape(s[1..]) == Got(c, left)
    ensures Taken(s, c, left)
  {
    var e := s[1..];
    assert e[1..] == s[2..];
    Hex4Only(s[2..]);
    hide Hex4Of;
    var n := Hex4(s[2..]).value;
    assert s[2..][..4] == s[2..6] && e[5..] == s[6..] && s[..2] == "\\u";
    if n < 0xD800 || n >= 0xE000 {
      assert s[..6][..2] == s[..2] && s[..6][2..] == s[2..6];
      assert TakenAs(s, s[..6], c, left);
    } else {
      OnlySurrogate(s, n, c, left);
    }
  }

  lemma OnlySurrogate(s: string, n: nat, c: char, left: string)
    requires |s| >= 6 && s[..2] == "\\u" && Hex4(s[2..6]) == Some(n) && Hex4Of(s[2..6], n)
    requires 0xD800 <= n < 0xE000 && LowSurrogate(n, s[6..]) == Got(c, left)
    ensures Taken(s, c, left)
  {
    var rest := s[6..];
    hide Hex4Of, Hex4;
    if c as int >= 0x10000 {
      assert rest[2..] == s[8..] && rest[6..] == s[12..];
      assert s[6..8] == [rest[0], rest[1]];
      OnlyPair(s, n, Hex4(s[8..]).value, c);
    } else {
      assert s[..6][..2] == s[..2] && s[..6][2..] == s[2..6];
      assert TakenAs(s, s[..6], c, left);
    }
  }

  lemma OnlyPair(s: string, high: nat, low: nat, c: char)
    requires |s| >= 12 && s[..2] == "\\u" && s[6..8] == "\\u" && Hex4Of(s[2..6], high) && Hex4(s[8..]) == Some(low)
    requires 0xD800 <= high < 0xDC00 && 0xDC00 <= low < 0xE000
    requires c as int == 0x10000 + (high - 0xD800) * 0x400 + (low - 0xDC00)
    ensures Taken(s, c, s[12..])
  {
    Hex4Only(s[8..]);
    hide Hex4Of, Hex4;
    var text := s[..12];
    assert text[..2] == s[..2] && text[2..6] == s[2..6] && text[6..8] == s[6..8] && text[8..] == s[8..][..4];
    PairTaken(s, text, high, low, c);
  }

  lemma PairTaken(s: string, text: string, high: nat, low: nat, c: char)
    requires |s| >= 12 && text == s[..12] && text[..2] == "\\u" && text[6..8] == "\\u"
    requires Hex4Of(text[2..6], high) && Hex4Of(text[8..], low)
    requires 0xD800 <= high < 0xDC00 && 0xDC00 <= low < 0xE000
    requires c as int == 0x10000 + (high - 0xD800) * 0x400 + (low - 0xDC00)
    ensures Taken(s, c, s[12..])
  {
    PairParts(high, low, c);
    hide Hex4Of, SpelledRaw, SpelledShort, SpelledUnicode, SpelledLone;
    assert SpelledPair(text, c);
    hide SpelledPair;
    assert TakenAs(s, text, c, s[12..]);
  }

  lemma PairParts(high: nat, low: nat, c: char)
    requires 0xD800 <= high < 0xDC00 && 0xDC00 <= low < 0xE000
    requires c as int == 0x10000 + (high - 0xD800) * 0x400 + (low - 0xDC00)
    ensures high == 0xD800 + (c as int - 0x10000) / 0x400 && low == 0xDC00 + (c as int - 0x10000) % 0x400
  {
  }

  /** Between the quotes of a text that is read stands a spelling of each of its characters, and nothing else. */
  lemma {:induction false} TextOnlySpelled(s: string) returns (texts: seq<string>)
    requires ReadText(s).Got?
    ensures var w := ReadText(s).value;
      && |texts| == |w| && (forall i :: 0 <= i < |w| ==> Spells(texts[i], w[i]) || SpelledLone(texts[i], w[i]))
      && s == Concat(texts) + ("\"" + ReadText(s).left)
    decreases |s|
  {
    hide Spells, SpelledLone;
    var w := ReadText(s).value;
    if w == "" {
      texts := [];
      NothingRead(s);
      assert Concat([]) + ("\"" + ReadText(s).left) == "\"" + ReadText(s).left;
    } else {
      OnlySpelled(s);
      var left :| FirstTaken(s, w[0], left);
      hide ReadText;
      var text :| TakenAs(s, text, w[0], left);
      Shorter(s, text, w[0], left);
      var more := TextOnlySpelled(left);
      texts := [text] + more;
      assert w[1..] == ReadText(left).value;
      Regroup(text, Concat(more), "\"" + ReadText(left).left);
    }
  }

  lemma NothingRead(s: string)
    requires ReadText(s).Got? && ReadText(s).value == ""
    ensures s == "\"" + ReadText(s).left
  {
  }

  lemma Shorter(s: string, text: string, c: char, left: string)
    requires TakenAs(s, text, c, left)
    ensures |left| < |s|
  {
  }

  // ---- Numbers ----

  /** A whole part without leading zeros, then perhaps a fraction, then perhaps a power of ten. */
  predicate NumberParts(sign: string, whole: string, fraction: string, power: string) {
    && (sign == "" || sign == "-") && whole != "" && AllDigits(whole) && (whole[0] == '0' ==> |whole| == 1)
    && (fraction != "" ==> fraction[0] == '.' && |fraction| > 1 && AllDigits(fraction[1..]))
    && (power != "" ==> IsPower(power))
  }

  predicate IsPower(power: string) {
    && |power| > 1 && (power[0] == 'e' || power[0] == 'E')
    && if power[1] == '+' || power[1] == '-' then |power| > 2 && AllDigits(power[2..]) else AllDigits(power[1..])
  }

  /** Any number is read whole, whatever its form, when what follows does not go on with it. */
  lemma NumberRead(sign: string, whole: string, fraction: string, power: string, t: string)
    requires NumberParts(sign, whole, fraction, power) && EndsNumber(t)
    ensures NumberLength(sign + (whole + (fraction + (power + t)))) == |sign| + |whole| + |fraction| + |power|
  {
    var tail := power + t;
    var rest := fraction + tail;
    hide NumberLength, AllDigits, IsPower, EndsNumber, IsDigit;
    PartsApart(fraction, power, t);
    NumberStart(sign, whole, rest);
    NumberCuts(sign, whole, fraction, tail);
    NumberReadAs(sign + (whole + rest), |sign|, whole, fraction, power, t, rest, tail);
  }

  lemma NumberReadAs(s: string, a: nat, whole: string, fraction: string, power: string, t: string, rest: string, tail: string)
    requires a + |whole| + |fraction| <= |s| && a <= 1 && whole != "" && (a == 1 <==> s[0] == '-')
    requires AllDigits(whole) && (whole[0] == '0' ==> |whole| == 1)
    requires fraction != "" ==> fraction[0] == '.' && |fraction| > 1 && AllDigits(fraction[1..])
    requires (power != "" ==> IsPower(power)) && EndsNumber(t)
    requires rest == fraction + tail && tail == power + t
    requires s[a..] == whole + rest && s[a + |whole|..] == rest && s[a + |whole| + |fraction|..] == tail
    requires (tail == "" || !(IsDigit(tail[0]) || tail[0] == '.')) && (rest == "" || !IsDigit(rest[0]))
    ensures NumberLength(s) == a + |whole| + |fraction| + |power|
  {
    var b, c := a + |whole|, a + |whole| + |fraction|;
    assert c + |power| <= |s|;
    assert s[a] == s[a..][0] == whole[0];
    DigitsAre(whole, rest);
    FractionRead(s, b, fraction, tail);
    PowerRead(s, c, power, t);
    hide DigitCount, NumberLength, AllDigits, IsPower, EndsNumber, IsDigit;
    NumberAt(s, a, b, c, c + |power|);
  }

  lemma NumberStart(sign: string, whole: string, rest: string)
    requires (sign == "" || sign == "-") && whole != "" && AllDigits(whole)
    ensures |sign| == 1 <==> (sign + (whole + rest))[0] == '-'
  {
  }

  /** No part of a number begins with what the part before it goes on with. */
  lemma PartsApart(fraction: string, power: string, t: string)
    requires (fraction != "" ==> fraction[0] == '.') && (power != "" ==> IsPower(power)) && EndsNumber(t)
    ensures var tail := power + t;
      && (tail == "" || !(IsDigit(tail[0]) || tail[0] == '.'))
      && (fraction + tail == "" || !IsDigit((fraction + tail)[0]))
  {
  }

  lemma NumberCuts(sign: string, whole: string, fraction: string, tail: string)
    ensures var s, a := sign + (whole + (fraction + tail)), |sign|;
      && s[a..] == whole + (fraction + tail) && s[a + |whole|..] == fraction + tail && s[a + |whole| + |fraction|..] == tail
  {
    Regroup(sign, whole, fraction + tail);
    Regroup(sign + whole, fraction, tail);
    Cut(sign, whole + (fraction + tail));
    Cut(sign + whole, fraction + tail);
    Cut(sign + whole + fraction, tail);
  }

  lemma Cut(front: string, back: string)
    ensures (front + back)[|front|..] == back
  {
  }

  lemma FractionRead(s: string, b: nat, fraction: string, tail: string)
    requires b <= |s| && s[b..] == fraction + tail
    requires fraction != "" ==> fraction[0] == '.' && |fraction| > 1 && AllDigits(fraction[1..])
    requires tail == "" || !(IsDigit(tail[0]) || tail[0] == '.')
    ensures if fraction == "" then b == |s| || s[b] != '.'
            else b < |s| && s[b] == '.' && DigitCount(s[b + 1..]) == |fraction| - 1
  {
    if fraction != "" {
      assert s[b] == s[b..][0] && s[b + 1..] == s[b..][1..] == fraction[1..] + tail;
      DigitsAre(fraction[1..], tail);
    } else if b < |s| {
      assert s[b] == s[b..][0] == tail[0];
    }
  }

  lemma PowerRead(s: string, c: nat, power: string, t: string)
    requires c <= |s| && s[c..] == power + t && (power != "" ==> IsPower(power)) && EndsNumber(t)
    ensures if power == "" then c == |s| || (s[c] != 'e' && s[c] != 'E')
            else
              && c + 1 < |s| && (s[c] == 'e' || s[c] == 'E')
              && var plus := if s[c + 1] == '+' || s[c + 1] == '-' then 1 else 0;
                 |power| > 1 + plus && c + 1 + plus <= |s| && DigitCount(s[c + 1 + plus..]) == |power| - 1 - plus
  {
    if power != "" {
      var plus := if power[1] == '+' || power[1] == '-' then 1 else 0;
      assert s[c] == s[c..][0] && s[c + 1] == s[c..][1] == power[1];
      assert s[c + 1 + plus..] == s[c..][1 + plus..] == power[1 + plus..] + t;
      DigitsAre(power[1 + plus..], t);
    } else if c < |s| {
      assert s[c] == s[c..][0] == t[0];
    }
  }

  /** The reader of numbers, by where the parts end. */
  lemma NumberAt(s: string, a: nat, b: nat, c: nat, d: nat)
    requires a <= 1 && a < b <= c <= d <= |s| && (a == 1 <==> s[0] == '-')
    requires DigitCount(s[a..]) == b - a && (s[a] == '0' ==> b == a + 1)
    requires if b == c then b == |s| || s[b] != '.' else s[b] == '.' && c > b + 1 && DigitCount(s[b + 1..]) == c - b - 1
    requires if c == d then c == |s| || (s[c] != 'e' && s[c] != 'E')
             else
               && c + 1 < |s| && (s[c] == 'e' || s[c] == 'E')
               && var plus := if s[c + 1] == '+' || s[c + 1] == '-' then 1 else 0;
                  d > c + 1 + plus && DigitCount(s[c + 1 + plus..]) == d - c - 1 - plus
    ensures NumberLength(s) == d
  {
    hide DigitCount;
  }

  lemma DigitsAre(digits: string, t: string)
    requires AllDigits(digits) && (t == "" || !IsDigit(t[0]))
    ensures DigitCount(digits + t) == |digits|
  {
    CountAllDigits(digits);
    DigitsThen(digits, t);
  }

  // ---------------------------------------------------------------------------------------------
  // Storing into a record
  // ---------------------------------------------------------------------------------------------

  /** The same letter but for its case; the long s and the Kelvin sign are forms of s and k. */
  predicate SameLetter(c: char, small: char) {
    || c == small || ('a' <= small <= 'z' && c as int == small as int - 32)
    || (small == 's' && c as int == 0x17F) || (small == 'k' && c as int == 0x212A)
  }

  predicate SameName(key: string, name: string) {
    |key| == |name| && forall i :: 0 <= i < |key| ==> SameLetter(key[i], name[i])
  }

  predicate SmallLetters(name: string) {
    forall i :: 0 <= i < |name| ==> 'a' <= name[i] <= 'z'
  }

  /** A member's name is taken for a field's exactly when the two differ in the case of letters at most. */
  lemma FoldExactly(key: string, name: string)
    requires SmallLetters(name)
    ensures Fold(key) == name <==> SameName(key, name)
  {
    if Fold(key) == name {
      forall i | 0 <= i < |key|
        ensures SameLetter(key[i], name[i])
      {
        assert FoldChar(key[i]) == Fold(key)[i];
      }
    }
    if SameName(key, name) {
      assert forall i :: 0 <= i < |key| ==> SameLetter(key[i], name[i]) && FoldChar(key[i]) == name[i];
    }
  }

  /** What a value does to a field that holds a text: a text replaces it, null leaves it, anything else is an error. */
  predicate StoresText(r: Option<Vol>, v: Vol, store: string -> Vol, j: Json) {
    r == match j case Text(s) => Some(store(s)) case Null => Some(v) case _ => None
  }

  /** A member goes to the field of its name, whatever the case of its letters. */
  lemma TextStored(v: Vol, key: string, j: Json)
    ensures SameName(key, "name") ==> StoresText(Assign(v, key, j), v, s => v.(name := s), j)
    ensures SameName(key, "vgname") ==> StoresText(Assign(v, key, j), v, s => v.(vgName := s), j)
    ensures SameName(key, "status") ==> StoresText(Assign(v, key, j), v, s => v.(status := s), j)
    ensures SameName(key, "snapshotname") ==> StoresText(Assign(v, key, j), v, s => v.(snapshotName := s), j)
    ensures SameName(key, "clonename") ==> StoresText(Assign(v, key, j), v, s => v.(cloneName := s), j)
  {
    FoldsToField(key);
    hide Fold, SameName;
  }

  /** A size must be a number or null, and tags a list or null. */
  lemma SizeAndTagsStored(v: Vol, key: string, j: Json, n: UInt64, tags: Option<seq<string>>)
    ensures SameName(key, "size") ==>
      && (j == Number(Decimal(n)) ==> Assign(v, key, j) == Some(v.(size := n)))
      && (j.Null? ==> Assign(v, key, j) == Some(v))
      && (!j.Number? && !j.Null? ==> Assign(v, key, j) == None)
    ensures SameName(key, "tags") ==>
      && (j == TagsJson(tags) ==> Assign(v, key, j) == Some(v.(tags := tags)))
      && (!j.Array? && !j.Null? ==> Assign(v, key, j) == None)
  {
    FoldsToField(key);
    hide Fold, SameName;
    DecimalRoundTrip(n);
    if tags.Some? {
      TagsRoundTrip(tags.value);
    }
  }

  /** A member of any other name is ignored. */
  lemma OtherIgnored(v: Vol, key: string, j: Json)
    requires !SameName(key, "name") && !SameName(key, "size") && !SameName(key, "tags") && !SameName(key, "vgname")
    requires !SameName(key, "status") && !SameName(key, "snapshotname") && !SameName(key, "clonename")
    ensures Assign(v, key, j) == Some(v)
  {
    FoldsToField(key);
    hide Fold, SameName;
  }

  lemma FoldsToField(key: string)
    ensures Fold(key) == "name" <==> SameName(key, "name")
    ensures Fold(key) == "size" <==> SameName(key, "size")
    ensures Fold(key) == "tags" <==> SameName(key, "tags")
    ensures Fold(key) == "vgname" <==> SameName(key, "vgname")
    ensures Fold(key) == "status" <==> SameName(key, "status")
    ensures Fold(key) == "snapshotname" <==> SameName(key, "snapshotname")
    ensures Fold(key) == "clonename" <==> SameName(key, "clonename")
  {
    hide Fold, SameName;
    FoldExactly(key, "name");
    FoldExactly(key, "size");
    FoldExactly(key, "tags");
    FoldExactly(key, "vgname");
    FoldExactly(key, "status");
    FoldExactly(key, "snapshotname");
    FoldExactly(key, "clonename");
  }

  /** A file that holds the word null is read as the record of nothing. */
  lemma NullRecord()
    ensures Decode("null") == Some(Vol("", 0, None, "", "", "", ""))
  {
    ReadLiteral("null", "");
    assert "null" + "" == "null";
  }
}
