/** Escaping literal text for a syntax that reads every string as a template. */
module Escaping {
  /** Every occurrence of `from`, left to right and without overlap, replaced by `to`. */
  function Replace(s: string, from: string, to: string): string
    requires from != ""
    decreases |s|
  {
    if |s| < |from| then s
    else if s[..|from|] == from then to + Replace(s[|from|..], from, to)
    else [s[0]] + Replace(s[1..], from, to)
  }

  function EscapeTemplate(text: string): string {
    Replace(Replace(text, "${", "$${"), "%{", "%%{")
  }

  predicate MarksAt(s: string, c: char) {
    |s| >= 2 && s[0] == c && s[1] == '{'
  }

  /** The same in one pass. */
  function Escape(s: string): string
    decreases |s|
  {
    if s == "" then ""
    else if MarksAt(s, '$') then "$${" + Escape(s[2..])
    else if MarksAt(s, '%') then "%%{" + Escape(s[2..])
    else [s[0]] + Escape(s[1..])
  }

  lemma {:induction false} FirstPassStep(s: string)
    requires s != ""
    ensures Replace(s, "${", "$${")
         == if MarksAt(s, '$') then "$${" + Replace(s[2..], "${", "$${") else [s[0]] + Replace(s[1..], "${", "$${")
  {
    if |s| >= 2 {
      assert s[..2] == [s[0], s[1]];
    } else {
      assert s == [s[0]] && s[1..] == "";
    }
  }

  lemma {:induction false} SecondPassStep(s: string)
    requires s != ""
    ensures Replace(s, "%{", "%%{")
         == if MarksAt(s, '%') then "%%{" + Replace(s[2..], "%{", "%%{") else [s[0]] + Replace(s[1..], "%{", "%%{")
  {
    if |s| >= 2 {
      assert s[..2] == [s[0], s[1]];
    } else {
      assert s == [s[0]] && s[1..] == "";
    }
  }

  lemma SecondPassChar(c: char, rest: string)
    requires !(c == '%' && rest != "" && rest[0] == '{')
    ensures Replace([c] + rest, "%{", "%%{") == [c] + Replace(rest, "%{", "%%{")
  {
    SecondPassStep([c] + rest);
    assert ([c] + rest)[1..] == rest;
  }

  lemma SecondPassMarker(rest: string)
    ensures Replace("%{" + rest, "%{", "%%{") == "%%{" + Replace(rest, "%{", "%%{")
  {
    SecondPassStep("%{" + rest);
    assert ("%{" + rest)[2..] == rest;
  }

  lemma FirstPassHead(s: string)
    ensures s != "" ==> Replace(s, "${", "$${") != "" && Replace(s, "${", "$${")[0] == s[0]
    ensures s == "" ==> Replace(s, "${", "$${") == ""
  {
    if s != "" {
      FirstPassStep(s);
    }
  }

  lemma SecondPassEscape(rest: string)
    ensures Replace("$${" + rest, "%{", "%%{") == "$${" + Replace(rest, "%{", "%%{")
  {
    SecondPassChar('{', rest);
    SecondPassChar('$', "{" + rest);
    SecondPassChar('$', "${" + rest);
    assert "$" + ("${" + rest) == "$${" + rest;
    assert "$" + ("{" + rest) == "${" + rest;
  }

  lemma FirstPassDirective(s: string)
    requires MarksAt(s, '%')
    ensures Replace(s, "${", "$${") == "%{" + Replace(s[2..], "${", "$${")
  {
    FirstPassStep(s);
    FirstPassStep(s[1..]);
    assert s[1..][1..] == s[2..];
  }

  /** The first pass neither makes nor breaks a marker of the second. */
  lemma {:induction false} EscapeIsOnePass(s: string)
    ensures EscapeTemplate(s) == Escape(s)
    decreases |s|
  {
    if s == "" {
    } else if MarksAt(s, '$') {
      EscapeIsOnePass(s[2..]);
      FirstPassStep(s);
      SecondPassEscape(Replace(s[2..], "${", "$${"));
    } else if MarksAt(s, '%') {
      EscapeIsOnePass(s[2..]);
      FirstPassDirective(s);
      SecondPassMarker(Replace(s[2..], "${", "$${"));
    } else {
      EscapeIsOnePass(s[1..]);
      FirstPassStep(s);
      FirstPassHead(s[1..]);
      SecondPassChar(s[0], Replace(s[1..], "${", "$${"));
    }
  }

  lemma EscapeHead(s: string)
    ensures Escape(s) == "" <==> s == ""
    ensures s != "" ==> Escape(s)[0] == s[0]
  {
  }

  lemma EscapeNeverOpens(s: string)
    ensures !MarksAt(Escape(s), '$') && !MarksAt(Escape(s), '%')
  {
    if |s| >= 2 {
      EscapeHead(s[1..]);
    }
  }

  predicate Marker(c: char) {
    c == '$' || c == '%'
  }

  lemma EscapeMarker(c: char, rest: string)
    requires Marker(c)
    ensures Escape([c, '{'] + rest) == [c, c, '{'] + Escape(rest)
  {
    assert ([c, '{'] + rest)[2..] == rest;
  }

  lemma EscapeOther(c: char, rest: string)
    requires !(Marker(c) && rest != "" && rest[0] == '{')
    ensures Escape([c] + rest) == [c] + Escape(rest)
  {
    assert ([c] + rest)[1..] == rest;
  }

  /** A text that starts with a marker, or with any other character. */
  lemma MarkedOrNot(s: string)
    requires s != ""
    ensures s == [s[0]] + s[1..]
    ensures MarksAt(s, '$') || MarksAt(s, '%') ==> Marker(s[0]) && s == [s[0], '{'] + s[2..]
    ensures !MarksAt(s, '$') && !MarksAt(s, '%') ==> !(Marker(s[0]) && s[1..] != "" && s[1..][0] == '{')
  {
  }

  /** Escaping keeps the last character. */
  lemma {:induction false} EscapeEnds(s: string)
    requires s != ""
    ensures Escape(s) != "" && Escape(s)[|Escape(s)| - 1] == s[|s| - 1]
    decreases |s|
  {
    MarkedOrNot(s);
    if MarksAt(s, '$') || MarksAt(s, '%') {
      EscapeMarker(s[0], s[2..]);
      if s[2..] != "" {
        EscapeEnds(s[2..]);
      }
    } else {
      EscapeOther(s[0], s[1..]);
      if s[1..] != "" {
        EscapeEnds(s[1..]);
      }
    }
  }
}
