/** When a built template reads back as its parts. */
module TemplateSafety {
  import opened Wrappers
  import opened Escaping
  import opened Templates

  /** No text boundary falls inside a marker and no interpolation follows a `$`. `prev` is the
      last character of the text just before, if what comes before is text. */
  predicate SafeAfter<C>(prev: Option<char>, parts: seq<Part<C>>)
    decreases |parts|
  {
    if parts == [] then true
    else match parts[0]
      case Verbatim(text) =>
        if text == "" then SafeAfter(prev, parts[1..])
        else
          && !(prev.Some? && Marker(prev.value) && text[0] == '{')
          && SafeAfter(Some(text[|text| - 1]), parts[1..])
      case Interpolation(_) => prev != Some('$') && SafeAfter(None, parts[1..])
  }

  predicate Safe<C>(parts: seq<Part<C>>) {
    SafeAfter(None, parts)
  }

  predicate SameText<C, D>(a: Part<C>, b: Part<D>) {
    if a.Verbatim? then b.Verbatim? && b.text == a.text else b.Interpolation?
  }

  /** Safety is a matter of the texts alone. */
  lemma {:induction false} SafetyOfTexts<C, D>(prev: Option<char>, a: seq<Part<C>>, b: seq<Part<D>>)
    requires |a| == |b| && forall i :: 0 <= i < |a| ==> SameText(a[i], b[i])
    ensures SafeAfter(prev, a) <==> SafeAfter(prev, b)
    decreases |a|
  {
    if a != [] {
      assert SameText(a[0], b[0]);
      var next := match a[0]
        case Verbatim(text) => if text == "" then prev else Some(text[|text| - 1])
        case Interpolation(_) => None;
      SafetyOfTexts(next, a[1..], b[1..]);
    }
  }

  /** The boundary of `a` and `b` makes or breaks a marker. */
  ghost predicate Crosses<C>(a: seq<Symbol<C>>, b: seq<Symbol<C>>) {
    && a != [] && a[|a| - 1].Ch? && Marker(a[|a| - 1].c)
    && b != [] && (b[0] == Ch('{') || Opens(b, a[|a| - 1].c))
  }

  /** Decoding a list in two pieces, where that is the same as decoding it whole. */
  ghost predicate DecodesApart<C>(a: seq<Symbol<C>>, b: seq<Symbol<C>>) {
    Decode(a).Some? && Decode(b).Some? && Decode(a + b) == Some(Decode(a).value + Decode(b).value)
  }

  /** Reading one more piece in front. */
  lemma PrependApart<C>(head: seq<Symbol<C>>, read: seq<Decoded<C>>, tail: seq<Symbol<C>>, b: seq<Symbol<C>>)
    requires DecodesApart(tail, b)
    requires Decode(head + tail) == Prepend(read, Decode(tail))
    requires Decode(head + (tail + b)) == Prepend(read, Decode(tail + b))
    ensures DecodesApart(head + tail, b)
  {
    Associate(head, tail, b);
    Associate(read, Decode(tail).value, Decode(b).value);
  }

  lemma AppendEscape<C>(c: char, tail: seq<Symbol<C>>, b: seq<Symbol<C>>)
    requires Marker(c) && DecodesApart(tail, b)
    ensures DecodesApart([Ch(c), Ch(c), Ch('{')] + tail, b)
  {
    DecodeEscapeStep(c, tail);
    DecodeEscapeStep(c, tail + b);
    PrependApart([Ch(c), Ch(c), Ch('{')], [Chr(c), Chr('{')], tail, b);
  }

  lemma AppendInterpolation<C>(code: C, tail: seq<Symbol<C>>, b: seq<Symbol<C>>)
    requires DecodesApart(tail, b)
    ensures DecodesApart([Ch('$'), Ch('{'), Code(code), Ch('}')] + tail, b)
  {
    DecodeHoleStep(code, tail);
    DecodeHoleStep(code, tail + b);
    PrependApart([Ch('$'), Ch('{'), Code(code), Ch('}')], [Hole(code)], tail, b);
  }

  /** Nothing is opened here. */
  predicate Plain<C(==)>(s: seq<Symbol<C>>) {
    !Escapes(s, '$') && !Escapes(s, '%') && !Opens(s, '$') && !Opens(s, '%')
  }

  /** What opens nothing still opens nothing with more behind it. */
  lemma StillPlain<C>(a: seq<Symbol<C>>, b: seq<Symbol<C>>)
    requires a != [] && Plain(a) && !Crosses(a, b)
    ensures Plain(a + b)
  {
    var both := a + b;
    if |a| == 1 {
      assert both[1..] == b;
    } else {
      assert both[1] == a[1];
      assert |a| > 2 ==> both[2] == a[2];
      assert |a| == 2 && b != [] ==> both[2] == b[0];
    }
  }

  lemma DecodePlainStep<C>(first: Symbol<C>, rest: seq<Symbol<C>>)
    requires Plain([first] + rest)
    ensures Decode([first] + rest) == Prepend([if first.Ch? then Chr(first.c) else Raw(first.code)], Decode(rest))
  {
    assert ([first] + rest)[1..] == rest;
  }

  lemma AppendPlain<C>(first: Symbol<C>, tail: seq<Symbol<C>>, b: seq<Symbol<C>>)
    requires DecodesApart(tail, b) && Plain([first] + tail) && Plain([first] + (tail + b))
    ensures DecodesApart([first] + tail, b)
  {
    DecodePlainStep(first, tail);
    DecodePlainStep(first, tail + b);
    PrependApart([first], [if first.Ch? then Chr(first.c) else Raw(first.code)], tail, b);
  }

  lemma CrossesLater<C>(head: seq<Symbol<C>>, tail: seq<Symbol<C>>, b: seq<Symbol<C>>)
    requires !Crosses(head + tail, b)
    ensures !Crosses(tail, b)
  {
    if tail != [] {
      assert (head + tail)[|head + tail| - 1] == tail[|tail| - 1];
    }
  }

  /** The piece a list starts with, and what decoding the rest says about the whole. */
  lemma {:induction false} DecodeAppend<C>(a: seq<Symbol<C>>, b: seq<Symbol<C>>)
    requires Decode(a).Some? && Decode(b).Some? && !Crosses(a, b)
    ensures DecodesApart(a, b)
    decreases |a|
  {
    if a == [] {
      assert a + b == b;
      assert Decode(a).value + Decode(b).value == Decode(b).value;
    } else if Escapes(a, '$') || Escapes(a, '%') {
      var c, tail := a[0].c, a[3..];
      assert a == [Ch(c), Ch(c), Ch('{')] + tail;
      CrossesLater([Ch(c), Ch(c), Ch('{')], tail, b);
      DecodeAppend(tail, b);
      AppendEscape(c, tail, b);
    } else if Interpolates(a) {
      var head, tail := [Ch('$'), Ch('{'), a[2], Ch('}')], a[4..];
      assert a == head + tail;
      CrossesLater(head, tail, b);
      DecodeAppend(tail, b);
      AppendInterpolation(a[2].code, tail, b);
    } else {
      var first, tail := a[0], a[1..];
      assert a == [first] + tail;
      CrossesLater([first], tail, b);
      DecodeAppend(tail, b);
      StillPlain(a, b);
      Associate([first], tail, b);
      AppendPlain(first, tail, b);
    }
  }

  /** What follows in a safe list never meets the text before it in a marker. */
  lemma {:induction false} SafeNeverCrosses<C>(last: char, parts: seq<Part<C>>, a: seq<Symbol<C>>)
    requires SafeAfter(Some(last), parts)
    requires a != [] && a[|a| - 1] == Ch(last)
    ensures !Crosses(a, Print(parts))
    decreases |parts|
  {
    if parts != [] {
      var rest := Print(parts[1..]);
      match parts[0]
      case Interpolation(_) =>
      case Verbatim(text) =>
        EscapeIsOnePass(text);
        if text == "" {
          assert Print(parts) == rest;
          SafeNeverCrosses(last, parts[1..], a);
        } else {
          EscapeHead(text);
          EscapeNeverOpens(text);
          var printed := Chars<C>(Escape(text));
          assert Print(parts) == printed + rest;
          assert printed[0] == Ch(text[0]);
          if |printed| == 1 {
            EscapeEnds(text);
            SafeNeverCrosses(text[|text| - 1], parts[1..], printed);
            assert Print(parts)[1..] == rest;
          } else {
            assert Print(parts)[1] == printed[1] == Ch(Escape(text)[1]);
          }
        }
    }
  }

  lemma TextDecodesBefore<C>(text: string, rest: seq<Symbol<C>>)
    requires Decode(rest).Some? && !Crosses(PrintPart<C>(Verbatim(text)), rest)
    ensures Decode(PrintPart<C>(Verbatim(text)) + rest) == Some(Chrs<C>(text) + Decode(rest).value)
  {
    EscapeIsOnePass(text);
    EscapeDecodes<C>(text);
    DecodeAppend(PrintPart<C>(Verbatim(text)), rest);
  }

  lemma EmptyText<C>()
    ensures PrintPart<C>(Verbatim("")) == [] && FlattenPart<C>(Verbatim("")) == []
  {
    EscapeIsOnePass("");
  }

  lemma {:induction false} SafeDecodes<C>(prev: Option<char>, parts: seq<Part<C>>)
    requires SafeAfter(prev, parts)
    ensures Decode(Print(parts)) == Some(Flatten(parts))
    decreases |parts|
  {
    if parts != [] {
      var head, rest := PrintPart(parts[0]), Print(parts[1..]);
      match parts[0]
      case Interpolation(code) =>
        SafeDecodes(None, parts[1..]);
        DecodeHoleStep(code, rest);
      case Verbatim(text) =>
        if text == "" {
          SafeDecodes(prev, parts[1..]);
          EmptyText<C>();
          assert [] + rest == rest && [] + Flatten(parts[1..]) == Flatten(parts[1..]);
        } else {
          SafeDecodes(Some(text[|text| - 1]), parts[1..]);
          TextEnds<C>(text);
          SafeNeverCrosses(text[|text| - 1], parts[1..], head);
          TextDecodesBefore(text, rest);
        }
    }
  }

  /** How many escaped markers a reader meets. */
  ghost function Escapees<C>(s: seq<Symbol<C>>): nat {
    if s == [] then 0
    else (if Escapes(s, '$') || Escapes(s, '%') then 1 else 0) + Escapees(s[1..])
  }

  ghost function Holes<C>(d: seq<Decoded<C>>): nat {
    if d == [] then 0 else (if d[0].Hole? then 1 else 0) + Holes(d[1..])
  }

  lemma {:induction false} HolesAppend<C>(a: seq<Decoded<C>>, b: seq<Decoded<C>>)
    ensures Holes(a + b) == Holes(a) + Holes(b)
  {
    if a == [] {
      assert a + b == b;
    } else {
      HolesAppend(a[1..], b);
      assert (a + b)[1..] == a[1..] + b;
    }
  }

  lemma {:induction false} NoHolesInText<C>(s: string)
    ensures Holes(Chrs<C>(s)) == 0
  {
    if s != "" {
      NoHolesInText<C>(s[1..]);
      assert Chrs<C>(s)[1..] == Chrs<C>(s[1..]);
    }
  }

  /** Decoding drops one symbol for each escape and three for each interpolation. */
  lemma {:induction false} DecodeLength<C>(s: seq<Symbol<C>>)
    requires Decode(s).Some?
    ensures |s| == |Decode(s).value| + Escapees(s) + 3 * Holes(Decode(s).value)
    decreases |s|
  {
    if s == [] {
    } else if Escapes(s, '$') || Escapes(s, '%') {
      DecodeLength(s[3..]);
      assert s[1..][1..] == s[2..] && s[2..][1..] == s[3..];
      assert Escapees(s[1..]) == Escapees(s[2..]) == Escapees(s[3..]);
      var head: seq<Decoded<C>> := [Chr(s[0].c), Chr('{')];
      HolesAppend(head, Decode(s[3..]).value);
      assert head[1..][1..] == [];
    } else if Interpolates(s) {
      DecodeLength(s[4..]);
      assert s[1..][1..] == s[2..] && s[2..][1..] == s[3..] && s[3..][1..] == s[4..];
      assert Escapees(s[1..]) == Escapees(s[2..]) == Escapees(s[3..]) == Escapees(s[4..]);
      HolesAppend([Hole(s[2].code)], Decode(s[4..]).value);
    } else {
      DecodeLength(s[1..]);
      HolesAppend([if s[0].Ch? then Chr(s[0].c) else Raw(s[0].code)], Decode(s[1..]).value);
    }
  }

  /** A boundary only adds escapes, and adds one when it completes a doubled marker. */
  lemma {:induction false} EscapeesAppend<C>(a: seq<Symbol<C>>, b: seq<Symbol<C>>)
    ensures Escapees(a + b) >= Escapees(a) + Escapees(b)
    ensures a != [] && a[|a| - 1].Ch? && Marker(a[|a| - 1].c) && Opens(b, a[|a| - 1].c)
            ==> Escapees(a + b) > Escapees(a) + Escapees(b)
    ensures |a| > 1 && a[|a| - 1].Ch? && Marker(a[|a| - 1].c) && a[|a| - 2] == a[|a| - 1] && b != [] && b[0] == Ch('{')
            ==> Escapees(a + b) > Escapees(a) + Escapees(b)
    decreases |a|
  {
    var both := a + b;
    if a == [] {
      assert both == b;
    } else {
      EscapeesAppend(a[1..], b);
      assert both[1..] == a[1..] + b;
      if |a| > 1 {
        assert a[1..][|a| - 2] == a[|a| - 1];
        if |a| > 2 {
          assert a[1..][|a| - 3] == a[|a| - 2];
        }
      } else {
        assert both[1..] == b;
      }
    }
  }

  ghost function Inserted<C>(parts: seq<Part<C>>): nat {
    if parts == [] then 0 else Escapees(PrintPart(parts[0])) + Inserted(parts[1..])
  }

  lemma {:induction false} PrintLength<C>(parts: seq<Part<C>>)
    ensures |Print(parts)| == |Flatten(parts)| + Inserted(parts) + 3 * Holes(Flatten(parts))
    ensures Escapees(Print(parts)) >= Inserted(parts)
  {
    if parts != [] {
      PrintLength(parts[1..]);
      EscapeesAppend(PrintPart(parts[0]), Print(parts[1..]));
      HolesAppend(FlattenPart(parts[0]), Flatten(parts[1..]));
      match parts[0]
      case Verbatim(text) =>
        EscapeIsOnePass(text);
        EscapeDecodes<C>(text);
        DecodeLength(Chars<C>(Escape(text)));
        NoHolesInText<C>(text);
      case Interpolation(code) =>
        InterpolationHasNoEscape(code);
    }
  }

  lemma InterpolationHasNoEscape<C>(code: C)
    ensures Escapees(PrintPart(Interpolation(code))) == 0
  {
    var s := PrintPart(Interpolation(code));
    var s1, s2, s3 := s[1..], s[2..], s[3..];
    assert s1[1..] == s2 && s2[1..] == s3 && s3[1..] == [];
    assert Escapees(s3) == 0;
    assert Escapees(s2) == 0;
    assert Escapees(s1) == 0;
  }

  /** Text that opens a brace right after a marker character. */
  lemma BraceAfterMarker<C>(before: seq<Symbol<C>>, text: string, parts: seq<Part<C>>)
    requires before != [] && before[|before| - 1].Ch? && Marker(before[|before| - 1].c)
    requires parts != [] && parts[0] == Verbatim(text) && text != "" && text[0] == '{'
    requires Decode(before + Print(parts)).Some?
    ensures Escapees(before + Print(parts)) > Escapees(before) + Escapees(Print(parts))
  {
    var head, printed := PrintPart(parts[0]), Print(parts);
    EscapeIsOnePass(text);
    EscapeHead(text);
    assert printed[0] == head[0] == Ch('{');
    TextThenNoCode(text, parts);
    var whole, i := before + printed, |before| - 1;
    assert whole[i] == before[i] && whole[i + 1] == Ch('{');
    DecodedOpenings(whole, i);
    assert i + 2 < |whole| ==> whole[i + 2] == printed[1];
    assert whole[i - 1] == before[i - 1];
    EscapeesAppend(before, printed);
  }

  /** An interpolation right after a `$`. */
  lemma InterpolationAfterDollar<C>(before: seq<Symbol<C>>, parts: seq<Part<C>>)
    requires before != [] && before[|before| - 1] == Ch('$')
    requires parts != [] && parts[0].Interpolation?
    ensures Escapees(before + Print(parts)) > Escapees(before) + Escapees(Print(parts))
  {
    EscapeesAppend(before, Print(parts));
  }

  /** An unsafe boundary either cannot be read or adds an escape nobody inserted. */
  lemma {:induction false} UnsafeAddsEscape<C>(before: seq<Symbol<C>>, prev: Option<char>, parts: seq<Part<C>>)
    requires prev.Some? ==> before != [] && before[|before| - 1] == Ch(prev.value)
    requires !SafeAfter(prev, parts)
    requires Decode(before + Print(parts)).Some?
    ensures Escapees(before + Print(parts)) > Escapees(before) + Inserted(parts)
    decreases |parts|
  {
    PrintLength(parts);
    if parts[0].Interpolation? && prev == Some('$') {
      InterpolationAfterDollar(before, parts);
    } else if parts[0].Verbatim? && prev.Some? && Marker(prev.value) && parts[0].text != "" && parts[0].text[0] == '{' {
      BraceAfterMarker(before, parts[0].text, parts);
    } else {
      UnsafeLater(before, prev, parts);
    }
  }

  /** The texts of the rest, read behind what was printed before them. */
  lemma PrintedBefore<C>(before: seq<Symbol<C>>, parts: seq<Part<C>>)
    requires parts != []
    ensures before + Print(parts) == (before + PrintPart(parts[0])) + Print(parts[1..])
  {
    Associate(before, PrintPart(parts[0]), Print(parts[1..]));
  }

  lemma LastBehind<X>(a: seq<X>, b: seq<X>)
    requires b != []
    ensures (a + b)[|a + b| - 1] == b[|b| - 1]
  {
  }

  lemma TextEnds<C>(text: string)
    requires text != ""
    ensures var printed := PrintPart<C>(Verbatim(text));
            printed != [] && printed[|printed| - 1] == Ch(text[|text| - 1])
  {
    EscapeIsOnePass(text);
    EscapeEnds(text);
  }

  lemma PrintedTextEnds<C>(before: seq<Symbol<C>>, text: string)
    requires text != ""
    ensures var printed := before + PrintPart<C>(Verbatim(text));
            printed != [] && printed[|printed| - 1] == Ch(text[|text| - 1])
  {
    TextEnds<C>(text);
    LastBehind(before, PrintPart<C>(Verbatim(text)));
  }

  lemma {:induction false} UnsafeLater<C>(before: seq<Symbol<C>>, prev: Option<char>, parts: seq<Part<C>>)
    requires prev.Some? ==> before != [] && before[|before| - 1] == Ch(prev.value)
    requires parts != []
    requires match parts[0]
             case Interpolation(_) => !SafeAfter(None, parts[1..])
             case Verbatim(text) =>
               !SafeAfter(if text == "" then prev else Some(text[|text| - 1]), parts[1..])
    requires Decode(before + Print(parts)).Some?
    ensures Escapees(before + Print(parts)) > Escapees(before) + Inserted(parts)
    decreases |parts|, 0
  {
    var head := PrintPart(parts[0]);
    PrintedBefore(before, parts);
    EscapeesAppend(before, head);
    match parts[0]
    case Interpolation(_) =>
      UnsafeAddsEscape(before + head, None, parts[1..]);
    case Verbatim(text) =>
      if text == "" {
        EscapeIsOnePass(text);
        assert before + head == before;
        UnsafeAddsEscape(before, prev, parts[1..]);
      } else {
        PrintedTextEnds(before, text);
        UnsafeAddsEscape(before + head, Some(text[|text| - 1]), parts[1..]);
      }
  }

  /** The second symbol of a template that starts with text is no code. */
  lemma TextThenNoCode<C>(text: string, parts: seq<Part<C>>)
    requires parts != [] && parts[0] == Verbatim(text) && text != ""
    ensures |Print(parts)| > 1 ==> Print(parts)[1].Ch?
  {
    var head, rest := PrintPart(parts[0]), Print(parts[1..]);
    EscapeIsOnePass(text);
    EscapeHead(text);
    PrintStartsWithChar(parts[1..]);
    if |head| == 1 && rest != [] {
      assert Print(parts)[1] == rest[0];
    } else if |head| > 1 {
      assert Print(parts)[1] == head[1];
    }
  }

  lemma {:induction false} PrintStartsWithChar<C>(parts: seq<Part<C>>)
    ensures Print(parts) != [] ==> Print(parts)[0].Ch?
  {
    if parts != [] {
      PrintStartsWithChar(parts[1..]);
      if PrintPart(parts[0]) == [] {
        assert Print(parts) == Print(parts[1..]);
      }
    }
  }

  /** A built template reads back as exactly its parts, literal text joined, if and only if no
      text boundary falls inside a marker and no interpolation follows a `$`. */
  lemma TemplateReadsBack<C>(parts: seq<Part<C>>)
    ensures Decode(Print(parts)) == Some(Flatten(parts)) <==> Safe(parts)
  {
    if Safe(parts) {
      SafeDecodes(None, parts);
    } else if Decode(Print(parts)).Some? {
      var printed := Print(parts);
      assert [] + printed == printed;
      UnsafeAddsEscape([], None, parts);
      PrintLength(parts);
      DecodeLength(printed);
    }
  }

  /** A `$` before an interpolation: the interpolation is read as text. */
  lemma DollarLosesInterpolation<C>(code: C)
    ensures Decode(Print([Verbatim("$"), Interpolation(code)]))
         == Some([Chr('$'), Chr('{'), Raw(code), Chr('}')])
  {
    var parts := [Verbatim("$"), Interpolation(code)];
    EscapeIsOnePass("$");
    assert Escape("$") == "$" by {
      assert "$"[1..] == "";
    }
    assert parts[1..] == [Interpolation(code)];
    assert Print(parts[1..]) == PrintPart(Interpolation(code)) by {
      assert Print(parts[1..]) == PrintPart(Interpolation(code)) + Print<C>([]);
    }
    var last: seq<Symbol<C>> := [Ch('}')];
    var rest: seq<Symbol<C>> := [Code(code)] + last;
    assert Print(parts) == [Ch('$'), Ch('$'), Ch('{')] + rest;
    assert last[1..] == [] && rest[1..] == last;
    var none: seq<Symbol<C>> := [];
    var nothing: seq<Decoded<C>> := [];
    DecodeCharStep('}', none);
    assert last == [Ch('}')] + none;
    assert [Chr('}')] + nothing == [Chr('}')];
    assert Decode(last) == Some([Chr('}')]);
    assert Decode(rest) == Prepend([Raw(code)], Decode(last));
    DecodeEscapeStep('$', rest);
    var tail: seq<Decoded<C>> := [Raw(code)] + [Chr('}')];
    assert Decode(rest) == Some(tail);
    assert [Chr('$'), Chr('{')] + tail == [Chr('$'), Chr('{'), Raw(code), Chr('}')];
  }
}
