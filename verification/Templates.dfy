/** Templates as symbols: building them from parts, decoding them leftmost. `C` is the code of an
    interpolation. */
module Templates {
  import opened Wrappers
  import opened Escaping

  datatype Symbol<+C> = Ch(c: char) | Code(code: C)

  datatype Part<+C> = Verbatim(text: string) | Interpolation(code: C)

  /** What a reader makes of a template: characters, interpolations, and code that stands where
      no interpolation was opened. */
  datatype Decoded<+C> = Chr(c: char) | Hole(code: C) | Raw(code: C)

  function Chars<C>(s: string): seq<Symbol<C>> {
    seq(|s|, i requires 0 <= i < |s| => Ch(s[i]))
  }

  function Chrs<C>(s: string): seq<Decoded<C>> {
    seq(|s|, i requires 0 <= i < |s| => Chr(s[i]))
  }

  function PrintPart<C>(part: Part<C>): seq<Symbol<C>> {
    match part
    case Verbatim(text) => Chars(EscapeTemplate(text))
    case Interpolation(code) => [Ch('$'), Ch('{'), Code(code), Ch('}')]
  }

  function Print<C>(parts: seq<Part<C>>): seq<Symbol<C>> {
    if parts == [] then [] else PrintPart(parts[0]) + Print(parts[1..])
  }

  function FlattenPart<C>(part: Part<C>): seq<Decoded<C>> {
    match part
    case Verbatim(text) => Chrs(text)
    case Interpolation(code) => [Hole(code)]
  }

  /** The parts in order, literal text joined. */
  function Flatten<C>(parts: seq<Part<C>>): seq<Decoded<C>> {
    if parts == [] then [] else FlattenPart(parts[0]) + Flatten(parts[1..])
  }

  lemma {:induction false} PrintSnoc<C>(parts: seq<Part<C>>, last: Part<C>)
    ensures Print(parts + [last]) == Print(parts) + PrintPart(last)
  {
    if parts == [] {
      assert Print([last]) == PrintPart(last) + Print<C>([last][1..]);
    } else {
      var first, rest := parts[0], parts[1..];
      PrintSnoc(rest, last);
      var longer := parts + [last];
      assert longer[0] == first && longer[1..] == rest + [last];
      var a, b, c := PrintPart(first), Print(rest), PrintPart(last);
      assert a + (b + c) == (a + b) + c;
    }
  }

  /** Building the template part by part. */
  method LowerTemplate<C>(parts: seq<Part<C>>) returns (template: seq<Symbol<C>>)
    ensures template == Print(parts)
  {
    template := [];
    for i := 0 to |parts|
      invariant template == Print(parts[..i])
    {
      PrintSnoc(parts[..i], parts[i]);
      assert parts[..i + 1] == parts[..i] + [parts[i]];
      match parts[i] {
        case Verbatim(text) =>
          template := template + Chars(EscapeTemplate(text));
        case Interpolation(code) =>
          template := template + [Ch('$'), Ch('{')];
          template := template + [Code(code)];
          template := template + [Ch('}')];
      }
    }
    assert parts[..|parts|] == parts;
  }

  predicate Opens<C(==)>(s: seq<Symbol<C>>, c: char) {
    |s| >= 2 && s[0] == Ch(c) && s[1] == Ch('{')
  }

  predicate Escapes<C(==)>(s: seq<Symbol<C>>, c: char) {
    |s| >= 3 && s[0] == Ch(c) && s[1] == Ch(c) && s[2] == Ch('{')
  }

  predicate Interpolates<C(==)>(s: seq<Symbol<C>>) {
    Opens(s, '$') && |s| >= 4 && s[2].Code? && s[3] == Ch('}')
  }

  function Prepend<C>(head: seq<Decoded<C>>, tail: Option<seq<Decoded<C>>>): Option<seq<Decoded<C>>> {
    match tail
    case Some(rest) => Some(head + rest)
    case None => None
  }

  /** Leftmost decoding; an opened marker without code to read is an error. */
  function Decode<C(==)>(s: seq<Symbol<C>>): Option<seq<Decoded<C>>>
    decreases |s|
  {
    if s == [] then Some([])
    else if Escapes(s, '$') then Prepend([Chr('$'), Chr('{')], Decode(s[3..]))
    else if Escapes(s, '%') then Prepend([Chr('%'), Chr('{')], Decode(s[3..]))
    else if Interpolates(s) then Prepend([Hole(s[2].code)], Decode(s[4..]))
    else if Opens(s, '$') || Opens(s, '%') then None
    else Prepend([if s[0].Ch? then Chr(s[0].c) else Raw(s[0].code)], Decode(s[1..]))
  }

  lemma Associate<X>(a: seq<X>, b: seq<X>, c: seq<X>)
    ensures a + (b + c) == (a + b) + c
  {
  }

  lemma DecodeHoleStep<C>(code: C, rest: seq<Symbol<C>>)
    ensures Decode([Ch('$'), Ch('{'), Code(code), Ch('}')] + rest) == Prepend([Hole(code)], Decode(rest))
  {
    var s: seq<Symbol<C>> := [Ch('$'), Ch('{'), Code(code), Ch('}')] + rest;
    assert s[4..] == rest;
  }

  lemma DecodeCharStep<C>(c: char, rest: seq<Symbol<C>>)
    requires !(rest != [] && rest[0] == Ch('{') && (c == '$' || c == '%'))
    requires !((c == '$' || c == '%') && Opens(rest, c))
    ensures Decode([Ch(c)] + rest) == Prepend([Chr(c)], Decode(rest))
  {
    var s: seq<Symbol<C>> := [Ch(c)] + rest;
    assert s[1..] == rest;
    if |rest| >= 2 {
      assert s[1] == rest[0] && s[2] == rest[1];
    }
  }

  lemma DecodeEscapeStep<C>(c: char, rest: seq<Symbol<C>>)
    requires c == '$' || c == '%'
    ensures Decode([Ch(c), Ch(c), Ch('{')] + rest) == Prepend([Chr(c), Chr('{')], Decode(rest))
  {
    var s: seq<Symbol<C>> := [Ch(c), Ch(c), Ch('{')] + rest;
    assert s[3..] == rest;
  }

  lemma CharsAppend<C>(a: string, b: string)
    ensures Chars<C>(a + b) == Chars<C>(a) + Chars<C>(b)
    ensures Chrs<C>(a + b) == Chrs<C>(a) + Chrs<C>(b)
  {
  }

  lemma EscapedMarkerDecodes<C>(c: char, rest: string)
    requires Marker(c) && Decode<C>(Chars(Escape(rest))) == Some(Chrs(rest))
    ensures Decode<C>(Chars(Escape([c, '{'] + rest))) == Some(Chrs([c, '{'] + rest))
  {
    EscapeMarker(c, rest);
    CharsAppend<C>([c, c, '{'], Escape(rest));
    CharsAppend<C>([c, '{'], rest);
    assert Chars<C>([c, c, '{']) == [Ch(c), Ch(c), Ch('{')] && Chrs<C>([c, '{']) == [Chr(c), Chr('{')];
    DecodeEscapeStep(c, Chars<C>(Escape(rest)));
  }

  lemma EscapedCharDecodes<C>(c: char, rest: string)
    requires !(Marker(c) && rest != "" && rest[0] == '{')
    requires Decode<C>(Chars(Escape(rest))) == Some(Chrs(rest))
    ensures Decode<C>(Chars(Escape([c] + rest))) == Some(Chrs([c] + rest))
  {
    EscapeOther(c, rest);
    CharsAppend<C>([c], Escape(rest));
    CharsAppend<C>([c], rest);
    assert Chars<C>([c]) == [Ch(c)] && Chrs<C>([c]) == [Chr(c)];
    EscapeHead(rest);
    EscapeNeverOpens(rest);
    DecodeCharStep(c, Chars<C>(Escape(rest)));
  }

  /** Escaped text decodes to the text, whatever it is. */
  lemma {:induction false} EscapeDecodes<C>(s: string)
    ensures Decode<C>(Chars(Escape(s))) == Some(Chrs(s))
    decreases |s|
  {
    if s == "" {
      assert Chars<C>(s) == [] && Chrs<C>(s) == [];
    } else {
      MarkedOrNot(s);
      if MarksAt(s, '$') || MarksAt(s, '%') {
        EscapeDecodes<C>(s[2..]);
        EscapedMarkerDecodes<C>(s[0], s[2..]);
      } else {
        EscapeDecodes<C>(s[1..]);
        EscapedCharDecodes<C>(s[0], s[1..]);
      }
    }
  }

  /** Two texts never escape to the same one, so escaped object keys never meet. */
  lemma EscapeInjective(a: string, b: string)
    requires EscapeTemplate(a) == EscapeTemplate(b)
    ensures a == b
  {
    EscapeIsOnePass(a);
    EscapeIsOnePass(b);
    EscapeDecodes<bool>(a);
    EscapeDecodes<bool>(b);
    var left, right := Chrs<bool>(a), Chrs<bool>(b);
    assert left == right;
    assert |a| == |left| == |b|;
    forall i | 0 <= i < |a|
      ensures a[i] == b[i]
    {
      assert left[i] == Chr(a[i]) && right[i] == Chr(b[i]);
    }
  }

  /** What decodes holds no opened marker but those that are escaped or open an interpolation. */
  lemma {:induction false} DecodedOpenings<C>(s: seq<Symbol<C>>, i: nat)
    requires Decode(s).Some?
    requires i + 1 < |s| && s[i].Ch? && Marker(s[i].c) && s[i + 1] == Ch('{')
    ensures (i > 0 && s[i - 1] == s[i]) || (i + 2 < |s| && s[i + 2].Code?)
    decreases |s|
  {
    if Escapes(s, '$') || Escapes(s, '%') {
      if i >= 3 {
        DecodedOpenings(s[3..], i - 3);
      }
    } else if Interpolates(s) {
      if i >= 4 {
        DecodedOpenings(s[4..], i - 4);
      }
    } else if i >= 1 {
      DecodedOpenings(s[1..], i - 1);
    }
  }

  /** No marker in an escaped text opens anything: each stands behind a second one. */
  lemma EscapeLeavesNothingLive(s: string, i: nat)
    requires i + 1 < |EscapeTemplate(s)| && Marker(EscapeTemplate(s)[i]) && EscapeTemplate(s)[i + 1] == '{'
    ensures i > 0 && EscapeTemplate(s)[i - 1] == EscapeTemplate(s)[i]
  {
    EscapeIsOnePass(s);
    EscapeDecodes<()>(s);
    DecodedOpenings(Chars<()>(Escape(s)), i);
  }
}
