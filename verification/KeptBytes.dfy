/** Compacting, byte by byte value: what it drops, and what it may add. */
module KeptBytes {
  import opened Compacting

  /** Where in a JSON text the bytes read so far end. */
  datatype Place = Outside | Inside | AfterBackslash

  ghost function PlaceAfter(bytes: seq<Byte>): Place {
    if bytes == [] then Outside
    else
      var before, b := PlaceAfter(bytes[..|bytes| - 1]), bytes[|bytes| - 1];
      match before
      case Outside => if b == 34 then Inside else Outside
      case Inside => if b == 34 then Outside else if b == 92 then AfterBackslash else Inside
      case AfterBackslash => Inside
  }

  /** The bytes without the spaces, tabs, line feeds and carriage returns outside strings. */
  ghost function Kept(bytes: seq<Byte>): seq<Byte> {
    if bytes == [] then []
    else
      var init, b := bytes[..|bytes| - 1], bytes[|bytes| - 1];
      if PlaceAfter(init) == Outside && b in {32, 9, 10, 13} then Kept(init) else Kept(init) + [b]
  }

  lemma Snoc(bytes: seq<Byte>, b: Byte)
    ensures PlaceAfter(bytes + [b]) ==
            match PlaceAfter(bytes)
            case Outside => if b == 34 then Inside else Outside
            case Inside => if b == 34 then Outside else if b == 92 then AfterBackslash else Inside
            case AfterBackslash => Inside
    ensures Kept(bytes + [b]) ==
            if PlaceAfter(bytes) == Outside && b in {32, 9, 10, 13} then Kept(bytes) else Kept(bytes) + [b]
  {
    assert (bytes + [b])[..|bytes|] == bytes;
  }

  /** The reader knows where it is, its output is at the same place, and holds every byte but the
      whitespace outside strings, in order; what it adds is such whitespace. */
  ghost predicate KeepsUp(p: Progress, bytes: seq<Byte>) {
    && p.mode.inString == (PlaceAfter(bytes) != Outside)
    && p.mode.escaped == (PlaceAfter(bytes) == AfterBackslash)
    && PlaceAfter(p.compact) == PlaceAfter(bytes)
    && Kept(p.compact) == Kept(bytes)
  }

  lemma StepInside(p: Progress, bytes: seq<Byte>, b: Byte)
    requires KeepsUp(p, bytes) && p.mode.inString
    ensures KeepsUp(Step(p, b), bytes + [b])
  {
    Snoc(bytes, b);
    Snoc(p.compact, b);
  }

  lemma StepOutside(p: Progress, bytes: seq<Byte>, b: Byte)
    requires KeepsUp(p, bytes) && !p.mode.inString
    ensures KeepsUp(Step(p, b), bytes + [b])
  {
    Snoc(bytes, b);
    if !IsWhitespace(b) {
      var separated := p.mode.pending && p.compact != [] && IsAtom(p.compact[|p.compact| - 1]) && IsAtom(b);
      var before := p.compact + (if separated then [SPACE] else []);
      Snoc(p.compact, SPACE);
      assert PlaceAfter(before) == PlaceAfter(bytes) && Kept(before) == Kept(bytes) by {
        assert !separated ==> before == p.compact;
      }
      Snoc(before, b);
      assert Step(p, b).compact == before + [b];
    }
  }

  /** Compacting keeps, in order, every byte of a text but the spaces, tabs, line feeds and
      carriage returns outside strings, and adds no other byte. */
  lemma {:induction false} CompactKeepsBytes(bytes: seq<Byte>)
    ensures KeepsUp(Run(Progress(START, []), bytes), bytes)
  {
    if bytes != [] {
      var init, b := bytes[..|bytes| - 1], bytes[|bytes| - 1];
      CompactKeepsBytes(init);
      var p := Run(Progress(START, []), init);
      if p.mode.inString {
        StepInside(p, init, b);
      } else {
        StepOutside(p, init, b);
      }
      assert bytes == init + [b];
    }
  }

  /** A digit, a letter, a sign or a point. */
  ghost predicate InLiteral(b: Byte) {
    48 <= b <= 57 || 65 <= b <= 90 || 97 <= b <= 122 || b == 43 || b == 45 || b == 46
  }

  /** A number, or one of the three names, is one token. */
  lemma {:induction false} LiteralIsOneToken(bytes: seq<Byte>)
    requires bytes != [] && forall b :: b in bytes ==> InLiteral(b)
    ensures LexRun(bytes) == LexState([], InAtom(bytes))
    ensures Tokens(bytes) == [Atom(bytes)]
  {
    var init, b := bytes[..|bytes| - 1], bytes[|bytes| - 1];
    assert bytes == init + [b];
    assert InLiteral(b);
    if init != [] {
      LiteralIsOneToken(init);
    } else {
      assert LexRun(init) == LexState([], Idle);
    }
  }
}
