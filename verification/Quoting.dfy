/** Quoting as JSON does it, read as the native syntax reads quoted text ("Quoted Template
    Expressions" of the HCL Native Syntax Specification). */
module Quoting {
  import opened Wrappers
  import opened Escaping
  import T = Templates

  function HexDigit(n: nat): char
    requires n < 16
  {
    "0123456789abcdef"[n]
  }

  /** One character between JSON quotes: short escapes, `\u` escapes for the other control
      characters, everything else as it is. */
  function QuoteChar(c: char): string {
    if c == '"' then "\\\""
    else if c == '\\' then "\\\\"
    else if c == '\n' then "\\n"
    else if c == '\r' then "\\r"
    else if c == '\t' then "\\t"
    else if c == '\U{08}' then "\\b"
    else if c == '\U{0C}' then "\\f"
    else if c < ' ' then "\\u00" + [HexDigit(c as int / 16), HexDigit(c as int % 16)]
    else [c]
  }

  /** The text between the quotes. */
  function Quote(s: string): string {
    if s == "" then "" else QuoteChar(s[0]) + Quote(s[1..])
  }

  function HexValue(c: char): Option<nat> {
    if '0' <= c <= '9' then Some(c as int - '0' as int)
    else if 'a' <= c <= 'f' then Some(c as int - 'a' as int + 10)
    else if 'A' <= c <= 'F' then Some(c as int - 'A' as int + 10)
    else None
  }

  function HexNumber(digits: string): Option<nat> {
    if digits == "" then Some(0)
    else match HexNumber(digits[..|digits| - 1])
      case None => None
      case Some(high) =>
        match HexValue(digits[|digits| - 1])
        case None => None
        case Some(low) => Some(16 * high + low)
  }

  /** A code point, if the number is one. */
  function CodePoint(digits: string): Option<char> {
    match HexNumber(digits)
    case None => None
    case Some(n) => if n < 0xD800 || 0xE000 <= n < 0x11_0000 then Some(n as char) else None
  }

  function Then(first: Option<char>, rest: Option<string>): Option<string> {
    if first.Some? && rest.Some? then Some([first.value] + rest.value) else None
  }

  /** The text a quoted literal stands for. An unescaped quote or newline ends it, and an escape
      other than the specification's own is an error. */
  function Unquote(s: string): Option<string>
    decreases |s|
  {
    if s == "" then Some("")
    else if s[0] == '"' || s[0] == '\n' then None
    else if s[0] != '\\' then Then(Some(s[0]), Unquote(s[1..]))
    else if |s| < 2 then None
    else if s[1] == 'n' then Then(Some('\n'), Unquote(s[2..]))
    else if s[1] == 'r' then Then(Some('\r'), Unquote(s[2..]))
    else if s[1] == 't' then Then(Some('\t'), Unquote(s[2..]))
    else if s[1] == '"' || s[1] == '\\' then Then(Some(s[1]), Unquote(s[2..]))
    else if s[1] == 'u' && |s| >= 6 then Then(CodePoint(s[2..6]), Unquote(s[6..]))
    else if s[1] == 'U' && |s| >= 10 then Then(CodePoint(s[2..10]), Unquote(s[10..]))
    else None
  }

  /** Neither a backspace nor a form feed. */
  ghost predicate Plain(s: string) {
    forall c :: c in s ==> c != '\U{08}' && c != '\U{0C}'
  }

  lemma PlainAppend(a: string, b: string)
    ensures Plain(a + b) <==> Plain(a) && Plain(b)
  {
    assert forall c :: c in a + b <==> c in a || c in b;
  }

  lemma SmallHex(n: nat)
    requires n < 32
    ensures CodePoint("00" + [HexDigit(n / 16), HexDigit(n % 16)]) == Some(n as char)
  {
    var digits := "00" + [HexDigit(n / 16), HexDigit(n % 16)];
    assert digits[..3] == "00" + [HexDigit(n / 16)] && digits[..3][..2] == "00";
    assert "00"[..1] == "0" && "0"[..0] == "";
    HexDigitValue(n / 16);
    HexDigitValue(n % 16);
    assert HexNumber("0") == Some(0);
    assert HexNumber("00") == Some(0);
    assert HexNumber(digits[..3]) == Some(n / 16);
  }

  lemma HexDigitValue(n: nat)
    requires n < 16
    ensures HexValue(HexDigit(n)) == Some(n)
  {
  }

  lemma CharReads(c: char, rest: string)
    ensures Unquote(QuoteChar(c) + rest) ==
            if c == '\U{08}' || c == '\U{0C}' then None else Then(Some(c), Unquote(rest))
  {
    var s := QuoteChar(c) + rest;
    if |QuoteChar(c)| == 1 {
      assert s[1..] == rest;
    } else if |QuoteChar(c)| == 2 {
      assert s[2..] == rest;
    } else {
      SmallHex(c as int);
      assert s[6..] == rest;
      assert s[2..6] == "00" + [HexDigit(c as int / 16), HexDigit(c as int % 16)];
    }
  }

  /** Quoted text reads back as itself if and only if it holds neither a backspace nor a form feed;
      otherwise it does not read at all. */
  lemma {:induction false} QuotedReads(s: string)
    ensures Unquote(Quote(s)) == if Plain(s) then Some(s) else None
  {
    if s != "" {
      var first, rest := s[0], s[1..];
      assert s == [first] + rest;
      QuotedReads(rest);
      CharReads(first, Quote(rest));
      PlainAppend([first], rest);
      assert first in [first];
    }
  }

  /** Escaping adds and drops no control character. */
  lemma {:induction false} EscapedPlain(s: string)
    ensures Plain(Escape(s)) <==> Plain(s)
    decreases |s|
  {
    if s == "" {
    } else if MarksAt(s, '$') || MarksAt(s, '%') {
      EscapedPlain(s[2..]);
      assert s == [s[0], '{'] + s[2..];
      PlainAppend([s[0], '{'], s[2..]);
      PlainAppend([s[0], s[0], '{'], Escape(s[2..]));
    } else {
      EscapedPlain(s[1..]);
      assert s == [s[0]] + s[1..];
      PlainAppend([s[0]], s[1..]);
      PlainAppend([s[0]], Escape(s[1..]));
    }
  }

  /** A literal text printed inside an interpolation, escaped and quoted, reads as the text if and
      only if it holds neither a backspace nor a form feed. */
  lemma LiteralTextReads(text: string)
    ensures (match Unquote(Quote(EscapeTemplate(text)))
             case None => false
             case Some(template) => T.Decode(T.Chars<bool>(template)) == Some(T.Chrs(text)))
            <==> Plain(text)
  {
    EscapeIsOnePass(text);
    EscapedPlain(text);
    QuotedReads(Escape(text));
    T.EscapeDecodes<bool>(text);
  }
}
