/**
 * JSON text as Go's `encoding/json` reads and writes it (RFC 8259, sections 2 to 7): a recursive
 * descent parser for every JSON value, and the compact writer with Go's string escapes. Texts are
 * sequences of characters; UTF-8 is not modelled. A number is kept as the text it was written with.
 */
module Json {
  import opened Wrappers

  datatype Json =
    | Null
    | Bool(b: bool)
    | Number(text: string)
    | Text(s: string)
    | Array(elements: Elements)
    | Object(members: Members)

  datatype Elements = NoElements | Element(first: Json, others: Elements)
  datatype Members = NoMembers | Member(key: string, value: Json, rest: Members)

  // ---------------------------------------------------------------------------------------------
  // Characters
  // ---------------------------------------------------------------------------------------------

  predicate IsSpace(c: char) { c == ' ' || c == '\t' || c == '\n' || c == '\r' }

  predicate IsDigit(c: char) { '0' <= c <= '9' }

  function SkipSpace(s: string): (r: string)
    ensures |r| <= |s|
    ensures r != "" ==> !IsSpace(r[0])
  {
    if s != "" && IsSpace(s[0]) then SkipSpace(s[1..]) else s
  }

  predicate Blank(s: string) {
    SkipSpace(s) == ""
  }

  function HexDigit(n: nat): char
    requires n < 16
  {
    if n < 10 then ('0' as int + n) as char else ('a' as int + n - 10) as char
  }

  function HexValue(c: char): (r: Option<nat>)
    ensures r.Some? ==> r.value < 16
  {
    if '0' <= c <= '9' then Some(c as int - '0' as int)
    else if 'a' <= c <= 'f' then Some(c as int - 'a' as int + 10)
    else if 'A' <= c <= 'F' then Some(c as int - 'A' as int + 10)
    else None
  }

  /** The value of four hexadecimal digits at the front of the text. */
  function Hex4(s: string): (r: Option<nat>)
    ensures r.Some? ==> |s| >= 4 && r.value < 0x10000
  {
    if |s| < 4 then None
    else
      match (HexValue(s[0]), HexValue(s[1]), HexValue(s[2]), HexValue(s[3]))
      case (Some(a), Some(b), Some(c), Some(d)) => Some(((a * 16 + b) * 16 + c) * 16 + d)
      case _ => None
  }

  /** `\u00XY`. */
  function UnicodeEscape(n: nat): string
    requires n < 0x10000
  {
    ['\\', 'u', HexDigit(n / 0x1000), HexDigit(n / 0x100 % 16), HexDigit(n / 16 % 16), HexDigit(n % 16)]
  }

  /** What the writer puts for one character, with Go's HTML-safe escapes. */
  function Escape(c: char): string {
    if c == '"' then "\\\""
    else if c == '\\' then "\\\\"
    else if c == '\n' then "\\n"
    else if c == '\r' then "\\r"
    else if c == '\t' then "\\t"
    else if c as int < 0x20 || c == '<' || c == '>' || c == '&' || c as int == 0x2028 || c as int == 0x2029
    then UnicodeEscape(c as int)
    else [c]
  }

  function EscapeAll(w: string): string {
    if w == "" then "" else Escape(w[0]) + EscapeAll(w[1..])
  }

  function Quote(w: string): string {
    "\"" + (EscapeAll(w) + "\"")
  }

  // ---------------------------------------------------------------------------------------------
  // The reader. Each function takes the remaining text and gives back what is left after the item.
  // ---------------------------------------------------------------------------------------------

  datatype Parsed<+T> = Bad | Got(value: T, left: string)

  /** The character an escape denotes, and the text after it; `s` starts after the backslash. */
  function Unescape(s: string): (r: Parsed<char>)
    ensures r.Got? ==> |r.left| < |s|
  {
    if s == "" then Bad
    else if s[0] == '"' || s[0] == '\\' || s[0] == '/' then Got(s[0], s[1..])
    else if s[0] == 'b' then Got(8 as char, s[1..])
    else if s[0] == 'f' then Got(12 as char, s[1..])
    else if s[0] == 'n' then Got('\n', s[1..])
    else if s[0] == 'r' then Got('\r', s[1..])
    else if s[0] == 't' then Got('\t', s[1..])
    else if s[0] != 'u' then Bad
    else
      match Hex4(s[1..])
      case None => Bad
      case Some(n) =>
        if n < 0xD800 || n >= 0xE000 then Got(n as char, s[5..])
        else LowSurrogate(n, s[5..])
  }

  /** A surrogate pair is one character; a surrogate on its own is the replacement character. */
  function LowSurrogate(high: nat, s: string): (r: Parsed<char>)
    requires 0xD800 <= high < 0xE000
    ensures r.Got? ==> |r.left| <= |s|
  {
    if |s| >= 6 && s[0] == '\\' && s[1] == 'u' && high < 0xDC00 && Hex4(s[2..]).Some?
       && 0xDC00 <= Hex4(s[2..]).value < 0xE000
    then Got((0x10000 + (high - 0xD800) * 0x400 + (Hex4(s[2..]).value - 0xDC00)) as char, s[6..])
    else Got(0xFFFD as char, s)
  }

  /** The rest of a string literal, after the opening quote. */
  function ReadText(s: string): (r: Parsed<string>)
    ensures r.Got? ==> |r.left| < |s|
    decreases |s|
  {
    if s == "" then Bad
    else if s[0] == '"' then Got("", s[1..])
    else if s[0] == '\\' then
      match Unescape(s[1..])
      case Bad => Bad
      case Got(c, left) =>
        (match ReadText(left)
         case Bad => Bad
         case Got(w, left') => Got([c] + w, left'))
    else if s[0] as int < 0x20 then Bad
    else
      match ReadText(s[1..])
      case Bad => Bad
      case Got(w, left) => Got([s[0]] + w, left)
  }

  /** How many digits the text starts with. */
  function DigitCount(s: string): (n: nat)
    ensures n <= |s|
  {
    if s != "" && IsDigit(s[0]) then 1 + DigitCount(s[1..]) else 0
  }

  /** The length of the number the text starts with, 0 when there is none. */
  function NumberLength(s: string): (n: nat)
    ensures n <= |s|
  {
    var sign := if s != "" && s[0] == '-' then 1 else 0;
    var digits := DigitCount(s[sign..]);
    if digits == 0 then 0
    else
      var whole := sign + (if s[sign] == '0' then 1 else digits);
      var fraction := if whole < |s| && s[whole] == '.' then 1 + DigitCount(s[whole + 1..]) else 0;
      if fraction == 1 then 0
      else
        var mantissa := whole + fraction;
        if mantissa < |s| && (s[mantissa] == 'e' || s[mantissa] == 'E') then
          var mark := mantissa + 1;
          var plus := if mark < |s| && (s[mark] == '+' || s[mark] == '-') then 1 else 0;
          var power := DigitCount(s[mark + plus..]);
          if power == 0 then 0 else mark + plus + power
        else mantissa
  }

  function ReadValue(s0: string): (r: Parsed<Json>)
    ensures r.Got? ==> |r.left| < |s0|
    decreases |s0|, 0
  {
    var s := SkipSpace(s0);
    if s == "" then Bad
    else if s[0] == '{' then
      var t := SkipSpace(s[1..]);
      if t != "" && t[0] == '}' then Got(Object(NoMembers), t[1..])
      else
        match ReadMembers(t)
        case Bad => Bad
        case Got(m, left) => Got(Object(m), left)
    else if s[0] == '[' then
      var t := SkipSpace(s[1..]);
      if t != "" && t[0] == ']' then Got(Array(NoElements), t[1..])
      else
        match ReadElements(t)
        case Bad => Bad
        case Got(e, left) => Got(Array(e), left)
    else if s[0] == '"' then
      match ReadText(s[1..])
      case Bad => Bad
      case Got(w, left) => Got(Text(w), left)
    else if "null" <= s then Got(Null, s[4..])
    else if "true" <= s then Got(Bool(true), s[4..])
    else if "false" <= s then Got(Bool(false), s[5..])
    else
      var n := NumberLength(s);
      if n == 0 then Bad else Got(Number(s[..n]), s[n..])
  }

  /** The members of an object, up to and with its closing brace. */
  function ReadMembers(s0: string): (r: Parsed<Members>)
    ensures r.Got? ==> |r.left| < |s0|
    decreases |s0|, 1
  {
    var s := SkipSpace(s0);
    if s == "" || s[0] != '"' then Bad
    else
      match ReadText(s[1..])
      case Bad => Bad
      case Got(key, colon) =>
        var t := SkipSpace(colon);
        if t == "" || t[0] != ':' then Bad
        else
          match ReadValue(t[1..])
          case Bad => Bad
          case Got(value, after) =>
            var u := SkipSpace(after);
            if u == "" then Bad
            else if u[0] == '}' then Got(Member(key, value, NoMembers), u[1..])
            else if u[0] != ',' then Bad
            else
              match ReadMembers(u[1..])
              case Bad => Bad
              case Got(more, left) => Got(Member(key, value, more), left)
  }

  /** The elements of an array, up to and with its closing bracket. */
  function ReadElements(s: string): (r: Parsed<Elements>)
    ensures r.Got? ==> |r.left| < |s|
    decreases |s|, 1
  {
    match ReadValue(s)
    case Bad => Bad
    case Got(first, after) =>
      var u := SkipSpace(after);
      if u == "" then Bad
      else if u[0] == ']' then Got(Element(first, NoElements), u[1..])
      else if u[0] != ',' then Bad
      else
        match ReadElements(u[1..])
        case Bad => Bad
        case Got(others, left) => Got(Element(first, others), left)
  }

  /** A whole document: one value with nothing but white space around it. */
  function Parse(s: string): Option<Json> {
    match ReadValue(s)
    case Bad => None
    case Got(j, left) => if Blank(left) then Some(j) else None
  }

  // ---------------------------------------------------------------------------------------------
  // The writer
  // ---------------------------------------------------------------------------------------------

  function Write(j: Json): string {
    match j
    case Null => "null"
    case Bool(b) => if b then "true" else "false"
    case Number(text) => text
    case Text(s) => Quote(s)
    case Array(e) => if e.NoElements? then "[]" else "[" + WriteElements(e)
    case Object(m) => if m.NoMembers? then "{}" else "{" + WriteMembers(m)
  }

  function WriteMembers(m: Members): string
    requires m.Member?
  {
    Quote(m.key) + (":" + (Write(m.value) +
      (if m.rest.NoMembers? then "}" else "," + WriteMembers(m.rest))))
  }

  function WriteElements(e: Elements): string
    requires e.Element?
  {
    Write(e.first) + (if e.others.NoElements? then "]" else "," + WriteElements(e.others))
  }

  /** The values the writer is given: every number in them is a plain natural number's digits. */
  predicate Plain(j: Json) {
    match j
    case Number(text) => PlainNumber(text)
    case Array(e) => PlainElements(e)
    case Object(m) => PlainMembers(m)
    case _ => true
  }

  predicate PlainElements(e: Elements) {
    e.Element? ==> Plain(e.first) && PlainElements(e.others)
  }

  predicate PlainMembers(m: Members) {
    m.Member? ==> Plain(m.value) && PlainMembers(m.rest)
  }

  /** Digits only, and no leading zero but in "0". */
  predicate PlainNumber(text: string) {
    text != "" && DigitCount(text) == |text| && (text[0] == '0' ==> text == "0")
  }

  // ---------------------------------------------------------------------------------------------
  // Reading what was written
  // ---------------------------------------------------------------------------------------------

  lemma HexDigits(n: nat)
    requires n < 16
    ensures HexValue(HexDigit(n)) == Some(n)
  {
  }

  lemma HexParts(n: nat)
    requires n < 0x10000
    ensures ((n / 0x1000 * 16 + n / 0x100 % 16) * 16 + n / 16 % 16) * 16 + n % 16 == n
  {
    assert n / 0x100 == n / 16 / 16 && n / 0x1000 == n / 0x100 / 16;
  }

  lemma UnescapeUnicode(n: nat, t: string)
    requires n < 0xD800
    ensures UnicodeEscape(n) + t != "" && (UnicodeEscape(n) + t)[0] == '\\'
    ensures Unescape((UnicodeEscape(n) + t)[1..]) == Got(n as char, t)
  {
    var a, b, c, d := n / 0x1000, n / 0x100 % 16, n / 16 % 16, n % 16;
    HexDigits(a);
    HexDigits(b);
    HexDigits(c);
    HexDigits(d);
    var s := (UnicodeEscape(n) + t)[1..];
    assert s == ['u', HexDigit(a), HexDigit(b), HexDigit(c), HexDigit(d)] + t;
    assert s[1..] == [HexDigit(a), HexDigit(b), HexDigit(c), HexDigit(d)] + t;
    assert Hex4(s[1..]) == Some(((a * 16 + b) * 16 + c) * 16 + d);
    HexParts(n);
    assert s[5..] == t;
  }

  /** One written character followed by a readable text reads as that character and the text. */
  lemma ReadEscape(c: char, t: string)
    requires ReadText(t).Got?
    ensures ReadText(Escape(c) + t) == Got([c] + ReadText(t).value, ReadText(t).left)
  {
    if |Escape(c)| == 1 {
      assert (Escape(c) + t)[1..] == t;
    } else if |Escape(c)| == 2 {
      ReadShortEscape(c, t);
    } else {
      UnescapeUnicode(c as int, t);
    }
  }

  lemma ReadShortEscape(c: char, t: string)
    requires |Escape(c)| == 2
    ensures (Escape(c) + t)[0] == '\\' && Unescape((Escape(c) + t)[1..]) == Got(c, t)
  {
    var s := (Escape(c) + t)[1..];
    assert s == [Escape(c)[1]] + t;
    assert s[1..] == t;
  }

  lemma Regroup(a: string, b: string, c: string)
    ensures (a + b) + c == a + (b + c)
  {
  }

  lemma {:induction false} ReadQuoted(w: string, t: string)
    ensures ReadText(EscapeAll(w) + ("\"" + t)) == Got(w, t)
  {
    if w == "" {
      assert EscapeAll(w) + ("\"" + t) == "\"" + t;
      assert ("\"" + t)[1..] == t;
    } else {
      ReadQuoted(w[1..], t);
      ReadEscape(w[0], EscapeAll(w[1..]) + ("\"" + t));
      Regroup(Escape(w[0]), EscapeAll(w[1..]), "\"" + t);
      assert w == [w[0]] + w[1..];
    }
  }

  lemma QuoteShape(w: string, t: string)
    ensures Quote(w) + t == "\"" + (EscapeAll(w) + ("\"" + t))
    ensures (Quote(w) + t)[0] == '"'
    ensures ReadText((Quote(w) + t)[1..]) == Got(w, t)
  {
    ReadQuoted(w, t);
    assert ("\"" + (EscapeAll(w) + ("\"" + t)))[1..] == EscapeAll(w) + ("\"" + t);
  }

  /** What may follow a number without becoming part of it. */
  predicate EndsNumber(t: string) {
    t == "" || !(IsDigit(t[0]) || t[0] == '.' || t[0] == 'e' || t[0] == 'E')
  }

  lemma {:induction false} DigitsThen(text: string, t: string)
    requires DigitCount(text) == |text|
    requires t == "" || !IsDigit(t[0])
    ensures DigitCount(text + t) == |text|
  {
    if text == "" {
      assert text + t == t;
    } else {
      assert (text + t)[1..] == text[1..] + t;
      DigitsThen(text[1..], t);
    }
  }

  lemma ReadNumber(text: string, t: string)
    requires PlainNumber(text) && EndsNumber(t)
    ensures NumberLength(text + t) == |text|
    ensures IsDigit((text + t)[0])
  {
    var s := text + t;
    assert s[0] == text[0] && IsDigit(text[0]);
    assert s[0..] == s;
    DigitsThen(text, t);
  }

  lemma SkipNothing(s: string)
    requires s != "" && !IsSpace(s[0])
    ensures SkipSpace(s) == s
  {
  }

  /** A comma, colon or closing bracket is read where it stands. */
  lemma Mark(c: char, t: string)
    requires !IsSpace(c)
    ensures SkipSpace([c] + t) == [c] + t && ([c] + t)[0] == c && ([c] + t)[1..] == t
  {
  }

  lemma WriteStart(j: Json, t: string)
    requires Plain(j)
    ensures Write(j) != "" && !IsSpace(Write(j)[0]) && Write(j)[0] != ']'
    ensures SkipSpace(Write(j) + t) == Write(j) + t
  {
    if j.Text? {
      QuoteShape(j.s, "");
    }
    SkipNothing(Write(j) + t);
  }

  /**
   * A written value followed by any text reads back as that value, and leaves exactly that text. Only
   * a bare number needs the text not to go on with the number.
   */
  lemma {:induction false} ReadWritten(j: Json, t: string)
    requires Plain(j)
    requires j.Number? ==> EndsNumber(t)
    ensures ReadValue(Write(j) + t) == Got(j, t)
    decreases j
  {
    match j
    case Text(w) =>
      QuoteShape(w, t);
      SkipNothing(Write(j) + t);
    case Array(e) =>
      if e.Element? {
        ReadWrittenElements(e, t);
        Mark('[', WriteElements(e) + t);
        Regroup("[", WriteElements(e), t);
      } else {
        Mark('[', "]" + t);
        Mark(']', t);
        Regroup("[", "]", t);
        assert Write(j) == "[" + "]";
      }
    case Object(m) =>
      if m.Member? {
        ReadWrittenMembers(m, t);
        Mark('{', WriteMembers(m) + t);
        Regroup("{", WriteMembers(m), t);
        SkipNothing(WriteMembers(m) + t);
      } else {
        Mark('{', "}" + t);
        Mark('}', t);
        Regroup("{", "}", t);
        assert Write(j) == "{" + "}";
      }
    case _ =>
      ReadWord(j, t);
  }

  lemma ReadWord(j: Json, t: string)
    requires j.Null? || j.Bool? || (j.Number? && PlainNumber(j.text) && EndsNumber(t))
    ensures ReadValue(Write(j) + t) == Got(j, t)
  {
    match j
    case Null => ReadLiteral("null", t);
    case Bool(b) => ReadLiteral(if b then "true" else "false", t);
    case Number(text) => ReadWrittenNumber(text, t);
  }

  lemma ReadLiteral(word: string, t: string)
    requires word == "null" || word == "true" || word == "false"
    ensures ReadValue(word + t) == Got(if word == "null" then Null else Bool(word == "true"), t)
  {
    var s := word + t;
    assert s[0] == word[0] && word <= s && s[|word|..] == t;
  }

  lemma ReadWrittenNumber(text: string, t: string)
    requires PlainNumber(text) && EndsNumber(t)
    ensures ReadValue(text + t) == Got(Number(text), t)
  {
    hide NumberLength, ReadValue, SkipSpace, DigitCount;
    var s := text + t;
    ReadNumber(text, t);
    SkipNothing(s);
    assert s[|text|..] == t && s[..|text|] == text;
    StartsWithDigit(s);
  }

  lemma StartsWithDigit(s: string)
    requires s != "" && IsDigit(s[0]) && SkipSpace(s) == s
    ensures var n := NumberLength(s);
      ReadValue(s) == if n == 0 then Bad else Got(Number(s[..n]), s[n..])
  {
    hide NumberLength, SkipSpace;
  }

  lemma {:induction false} ReadWrittenMembers(m: Members, t: string)
    requires m.Member? && PlainMembers(m)
    ensures WriteMembers(m) + t != "" && (WriteMembers(m) + t)[0] == '"'
    ensures ReadMembers(WriteMembers(m) + t) == Got(m, t)
    decreases m
  {
    var tail := AfterValue(m, t);
    var afterKey := ":" + (Write(m.value) + tail);
    MemberShape(m, t);
    QuoteShape(m.key, afterKey);
    Mark(':', Write(m.value) + tail);
    TailShape(m, t);
    ReadWritten(m.value, tail);
    if m.rest.Member? {
      ReadWrittenMembers(m.rest, t);
    }
    ReadMember(m.key, m.value, Quote(m.key) + afterKey, Write(m.value) + tail, tail);
  }

  /** What follows the first member's value in the written text. */
  function AfterValue(m: Members, t: string): string
    requires m.Member?
  {
    (if m.rest.NoMembers? then "}" else "," + WriteMembers(m.rest)) + t
  }

  lemma TailShape(m: Members, t: string)
    requires m.Member?
    ensures var tail := AfterValue(m, t);
      && tail != "" && EndsNumber(tail) && SkipSpace(tail) == tail
      && tail[0] == (if m.rest.NoMembers? then '}' else ',')
      && tail[1..] == (if m.rest.NoMembers? then t else WriteMembers(m.rest) + t)
  {
    if m.rest.NoMembers? {
      Mark('}', t);
    } else {
      Mark(',', WriteMembers(m.rest) + t);
      assert AfterValue(m, t) == "," + (WriteMembers(m.rest) + t);
    }
  }

  lemma MemberShape(m: Members, t: string)
    requires m.Member?
    ensures WriteMembers(m) + t == Quote(m.key) + (":" + (Write(m.value) + AfterValue(m, t)))
  {
    var a, b, c := Quote(m.key), Write(m.value), if m.rest.NoMembers? then "}" else "," + WriteMembers(m.rest);
    assert a + (":" + (b + c)) + t == a + (":" + (b + (c + t)));
  }

  /** One member and what is read after it. */
  lemma ReadMember(key: string, value: Json, s: string, written: string, tail: string)
    requires s != "" && s[0] == '"' && ReadText(s[1..]) == Got(key, ":" + written)
    requires SkipSpace(":" + written) == ":" + written && (":" + written)[1..] == written
    requires ReadValue(written) == Got(value, tail)
    requires tail != "" && SkipSpace(tail) == tail
    ensures tail[0] == '}' ==> ReadMembers(s) == Got(Member(key, value, NoMembers), tail[1..])
    ensures tail[0] == ',' && ReadMembers(tail[1..]).Got?
        ==> ReadMembers(s) == Got(Member(key, value, ReadMembers(tail[1..]).value), ReadMembers(tail[1..]).left)
  {
    SkipNothing(s);
  }

  lemma {:induction false} ReadWrittenElements(e: Elements, t: string)
    requires e.Element? && PlainElements(e)
    ensures SkipSpace(WriteElements(e) + t) == WriteElements(e) + t
    ensures WriteElements(e) + t != "" && (WriteElements(e) + t)[0] != ']'
    ensures ReadElements(WriteElements(e) + t) == Got(e, t)
    decreases e
  {
    var tail := (if e.others.NoElements? then "]" else "," + WriteElements(e.others)) + t;
    ElementShape(e, t);
    assert tail == (if e.others.NoElements? then "]" + t else "," + (WriteElements(e.others) + t));
    assert EndsNumber(tail);
    WriteStart(e.first, tail);
    ReadWritten(e.first, tail);
    if e.others.NoElements? {
      Mark(']', t);
    } else {
      Mark(',', WriteElements(e.others) + t);
      ReadWrittenElements(e.others, t);
    }
    ReadElement(e.first, Write(e.first) + tail, tail);
  }

  lemma ElementShape(e: Elements, t: string)
    requires e.Element?
    ensures WriteElements(e) + t
         == Write(e.first) + ((if e.others.NoElements? then "]" else "," + WriteElements(e.others)) + t)
  {
  }

  /** One element and what is read after it. */
  lemma ReadElement(first: Json, s: string, tail: string)
    requires ReadValue(s) == Got(first, tail)
    requires tail != "" && SkipSpace(tail) == tail
    ensures tail[0] == ']' ==> ReadElements(s) == Got(Element(first, NoElements), tail[1..])
    ensures tail[0] == ',' && ReadElements(tail[1..]).Got?
        ==> ReadElements(s) == Got(Element(first, ReadElements(tail[1..]).value), ReadElements(tail[1..]).left)
  {
  }

  /** A written object reads back, and followed by anything but white space it is no document. */
  lemma ParseWritten(m: Members, t: string)
    requires PlainMembers(m)
    ensures Parse(Write(Object(m)) + t) == if Blank(t) then Some(Object(m)) else None
  {
    ReadWritten(Object(m), t);
  }

  lemma {:induction false} NotBlank(s: string)
    requires s != "" && !IsSpace(s[|s| - 1])
    ensures !Blank(s)
  {
    if IsSpace(s[0]) {
      NotBlank(s[1..]);
    }
  }

  lemma {:induction false} WriteMembersEnd(m: Members)
    requires m.Member?
    ensures WriteMembers(m) != "" && WriteMembers(m)[|WriteMembers(m)| - 1] == '}'
    decreases m
  {
    if m.rest.Member? {
      WriteMembersEnd(m.rest);
    }
  }

  lemma WriteObjectEnd(m: Members)
    requires m.Member?
    ensures Write(Object(m)) != "" && Write(Object(m))[|Write(Object(m))| - 1] == '}'
  {
    hide WriteMembers;
    WriteMembersEnd(m);
  }
}
