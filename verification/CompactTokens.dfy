/** The compacted text is the tokens of the text it was read from, written one after another. */
module CompactTokens {
  import opened Wrappers
  import opened Compacting
  import opened KeptBytes

  // ----- the output and the tokens read so far -----

  function Closed(s: LexState): seq<Tok> {
    Flush(s).done
  }

  /** What ties the reader's state to the lexer's, on the same input. */
  ghost predicate InStep(p: Progress, s: LexState) {
    && p.compact == Emit(Closed(s))
    && ModeInStep(p.mode, s)
    && (forall t :: t in s.done ==> Shaped(t))
  }

  ghost predicate ModeInStep(m: ReaderMode, s: LexState) {
    && (m.inString <==> s.current.InStr?)
    && (s.current.InStr? ==> m.escaped == s.current.escaped && s.current.read != [] && !m.pending)
    && (!m.inString ==> !m.escaped)
    && (s.current.InAtom? ==> !m.pending && s.current.read != [] && forall b :: b in s.current.read ==> IsAtom(b))
    && (!s.current.InStr? && !m.pending && s.current.Idle? && s.done != [] ==> !s.done[|s.done| - 1].Atom?)
  }

  /** A finished token, as the lexer makes them: only atoms end in an atom byte. */
  ghost predicate Shaped(t: Tok) {
    match t
    case Atom(bytes) => bytes != [] && forall b :: b in bytes ==> IsAtom(b)
    case Str(bytes) => bytes != [] && bytes[|bytes| - 1] == QUOTE
    case Punct(bytes) => |bytes| == 1 && !IsAtom(bytes[0])
  }

  lemma EmitSnoc(init: seq<Tok>, last: Tok)
    ensures Emit(init + [last])
         == Emit(init) + (if init != [] && init[|init| - 1].Atom? && last.Atom? then [SPACE] else []) + last.bytes
  {
    assert (init + [last])[..|init|] == init;
  }

  /** The emitted text ends in an atom byte exactly when the last token is an atom. */
  lemma EmitEnds(tokens: seq<Tok>)
    requires forall t :: t in tokens ==> Shaped(t)
    ensures tokens == [] <==> Emit(tokens) == []
    ensures tokens != [] ==> (IsAtom(Emit(tokens)[|Emit(tokens)| - 1]) <==> tokens[|tokens| - 1].Atom?)
  {
    if tokens != [] {
      var last := tokens[|tokens| - 1];
      assert last in tokens && Shaped(last);
      var bytes := last.bytes;
      assert Emit(tokens)[|Emit(tokens)| - 1] == bytes[|bytes| - 1];
      assert bytes[|bytes| - 1] in bytes;
    }
  }

  /** A token that grows by one byte grows the text by it. */
  lemma EmitGrows(init: seq<Tok>, a: Tok, b: Tok, byte: Byte)
    requires b.bytes == a.bytes + [byte] && (a.Atom? <==> b.Atom?)
    ensures Emit(init + [b]) == Emit(init + [a]) + [byte]
  {
    EmitSnoc(init, a);
    EmitSnoc(init, b);
    var front := Emit(init) + (if init != [] && init[|init| - 1].Atom? && a.Atom? then [SPACE] else []);
    assert front + (a.bytes + [byte]) == (front + a.bytes) + [byte];
  }

  lemma StepInString(p: Progress, s: LexState, b: Byte)
    requires InStep(p, s) && s.current.InStr?
    ensures InStep(Step(p, b), LexStep(s, b))
  {
    var read := s.current.read;
    EmitGrows(s.done, Str(read), Str(read + [b]), b);
    assert Closed(s) == s.done + [Str(read)];
    assert Closed(LexStep(s, b)) == s.done + [Str(read + [b])];
  }

  lemma StepWhitespace(p: Progress, s: LexState, b: Byte)
    requires InStep(p, s) && !s.current.InStr? && IsWhitespace(b)
    ensures InStep(Step(p, b), LexStep(s, b))
  {
    assert s.current.InAtom? ==> Shaped(Atom(s.current.read));
  }

  lemma StepInAtom(p: Progress, s: LexState, b: Byte)
    requires InStep(p, s) && s.current.InAtom? && IsAtom(b)
    ensures InStep(Step(p, b), LexStep(s, b))
  {
    var read := s.current.read;
    EmitGrows(s.done, Atom(read), Atom(read + [b]), b);
    assert p.compact + [] + [b] == p.compact + [b];
  }

  /** The token a byte starts. */
  function NewToken(b: Byte): Tok {
    if b == QUOTE then Str([b]) else if IsAtom(b) then Atom([b]) else Punct([b])
  }

  lemma ClosedShaped(p: Progress, s: LexState)
    requires InStep(p, s) && !s.current.InStr?
    ensures forall t :: t in Closed(s) ==> Shaped(t)
  {
    assert s.current.InAtom? ==> Shaped(Atom(s.current.read));
  }

  lemma NewTokenRead(s: LexState, b: Byte)
    requires !s.current.InStr? && !IsWhitespace(b) && !(s.current.InAtom? && IsAtom(b))
    ensures Closed(LexStep(s, b)) == Closed(s) + [NewToken(b)]
    ensures LexStep(s, b).done == if b == QUOTE || IsAtom(b) then Closed(s) else Closed(s) + [NewToken(b)]
  {
  }

  lemma NewTokenWritten(p: Progress, s: LexState, b: Byte)
    requires InStep(p, s) && !s.current.InStr? && !IsWhitespace(b)
    requires !(s.current.InAtom? && IsAtom(b))
    ensures Step(p, b).compact == Emit(Closed(s) + [NewToken(b)])
  {
    ClosedShaped(p, s);
    EmitEnds(Closed(s));
    EmitSnoc(Closed(s), NewToken(b));
  }

  /** A byte that starts a new token. */
  lemma StepNewToken(p: Progress, s: LexState, b: Byte)
    requires InStep(p, s) && !s.current.InStr? && !IsWhitespace(b)
    requires !(s.current.InAtom? && IsAtom(b))
    ensures InStep(Step(p, b), LexStep(s, b))
  {
    NewTokenRead(s, b);
    NewTokenWritten(p, s, b);
    ClosedShaped(p, s);
    assert Shaped(NewToken(b));
  }

  /** At every byte the reader holds the tokens of what it read. */
  lemma {:induction false} ReadInStep(bytes: seq<Byte>)
    ensures InStep(Run(Progress(START, []), bytes), LexRun(bytes))
  {
    if bytes != [] {
      var init, b := bytes[..|bytes| - 1], bytes[|bytes| - 1];
      ReadInStep(init);
      var p, s := Run(Progress(START, []), init), LexRun(init);
      if s.current.InStr? {
        StepInString(p, s, b);
      } else if IsWhitespace(b) {
        StepWhitespace(p, s, b);
      } else if s.current.InAtom? && IsAtom(b) {
        StepInAtom(p, s, b);
      } else {
        StepNewToken(p, s, b);
      }
    }
  }

  function Compact(bytes: seq<Byte>): seq<Byte> {
    Run(Progress(START, []), bytes).compact
  }

  /** The compacted text is the tokens, with one space between two atoms and nothing else: texts
      with the same tokens compact alike. */
  lemma CompactEmitsTokens(bytes: seq<Byte>)
    ensures Compact(bytes) == Emit(Tokens(bytes))
  {
    ReadInStep(bytes);
  }

  // ----- the compacted text has the same tokens -----

  lemma {:induction false} LexAppend(a: seq<Byte>, b: Byte)
    ensures LexRun(a + [b]) == LexStep(LexRun(a), b)
  {
    assert (a + [b])[..|a|] == a;
  }

  /** The compacted text up to here lexes to the tokens read up to here: to the very same state,
      or, where whitespace is pending, to one that becomes it when its token is closed. */
  ghost predicate SameTokens(p: Progress, s: LexState) {
    if p.mode.pending then s.current.Idle? && Flush(LexRun(p.compact)) == s && !LexRun(p.compact).current.InStr?
    else LexRun(p.compact) == s
  }

  lemma SpaceThenByte(compact: seq<Byte>, b: Byte)
    requires !LexRun(compact).current.InStr?
    ensures LexRun(compact + [SPACE] + [b]) == LexStep(Flush(LexRun(compact)), b)
  {
    LexAppend(compact, SPACE);
    LexAppend(compact + [SPACE], b);
  }

  /** Without a space, a byte closes the token before it as whitespace would, unless both belong
      to one atom. */
  lemma NoSpaceNeeded(s: LexState, b: Byte)
    requires !s.current.InStr? && !IsWhitespace(b) && !(s.current.InAtom? && IsAtom(b))
    ensures LexStep(s, b) == LexStep(Flush(s), b)
  {
  }

  /** Outside strings the output ends in an atom byte exactly when an atom is open. */
  lemma LastByteTells(bytes: seq<Byte>)
    requires !LexRun(bytes).current.InStr?
    ensures bytes != [] && IsAtom(bytes[|bytes| - 1]) <==> LexRun(bytes).current.InAtom?
  {
    if bytes != [] {
      StepTells(LexRun(bytes[..|bytes| - 1]), bytes[|bytes| - 1]);
    }
  }

  lemma StepTells(s: LexState, b: Byte)
    ensures !LexStep(s, b).current.InStr? ==> (IsAtom(b) <==> LexStep(s, b).current.InAtom?)
  {
  }

  lemma StringByteKept(p: Progress, s: LexState, b: Byte)
    requires ModeInStep(p.mode, s) && SameTokens(p, s) && (p.mode.inString || IsWhitespace(b))
    ensures SameTokens(Step(p, b), LexStep(s, b))
  {
    if p.mode.inString {
      LexAppend(p.compact, b);
    }
  }

  lemma FirstByteKept(p: Progress, s: LexState, b: Byte)
    requires ModeInStep(p.mode, s) && SameTokens(p, s) && !p.mode.inString && !IsWhitespace(b) && p.mode.pending
    ensures LexRun(Step(p, b).compact) == LexStep(s, b)
  {
    LastByteTells(p.compact);
    if LexRun(p.compact).current.InAtom? && IsAtom(b) {
      SpaceThenByte(p.compact, b);
    } else {
      assert p.compact + [] + [b] == p.compact + [b];
      LexAppend(p.compact, b);
      NoSpaceNeeded(LexRun(p.compact), b);
    }
  }

  lemma ByteKept(p: Progress, s: LexState, b: Byte)
    requires ModeInStep(p.mode, s) && SameTokens(p, s)
    ensures SameTokens(Step(p, b), LexStep(s, b))
  {
    if p.mode.inString || IsWhitespace(b) {
      StringByteKept(p, s, b);
    } else if p.mode.pending {
      FirstByteKept(p, s, b);
    } else {
      assert p.compact + [] + [b] == p.compact + [b];
      LexAppend(p.compact, b);
    }
  }

  lemma {:induction false} CompactKeepsState(bytes: seq<Byte>)
    ensures SameTokens(Run(Progress(START, []), bytes), LexRun(bytes))
  {
    if bytes != [] {
      var init := bytes[..|bytes| - 1];
      CompactKeepsState(init);
      ReadInStep(init);
      ByteKept(Run(Progress(START, []), init), LexRun(init), bytes[|bytes| - 1]);
    }
  }

  /** Compacting keeps every token. */
  lemma CompactKeepsTokens(bytes: seq<Byte>)
    ensures Tokens(Compact(bytes)) == Tokens(bytes)
  {
    CompactKeepsState(bytes);
  }

  lemma CompactIsIdempotent(bytes: seq<Byte>)
    ensures Compact(Compact(bytes)) == Compact(bytes)
  {
    CompactKeepsTokens(bytes);
    CompactEmitsTokens(bytes);
    CompactEmitsTokens(Compact(bytes));
  }

  // ----- the whole reader -----

  /** What one call of the source returns: some bytes, an interruption to retry, or an error. */
  datatype Read = Data(bytes: seq<Byte>) | Interrupted | Failed

  /** The bytes read before the end or the first error. */
  function Delivered(calls: seq<Read>): seq<Byte> {
    if calls == [] || calls[0].Failed? then []
    else if calls[0].Interrupted? then Delivered(calls[1..])
    else calls[0].bytes + Delivered(calls[1..])
  }

  predicate Fails(calls: seq<Read>) {
    calls != [] && (calls[0].Failed? || Fails(calls[1..]))
  }

  lemma {:induction false} NothingDropped(bytes: seq<Byte>)
    ensures Run(Progress(START, []), bytes).mode.dropped == 0 ==> Compact(bytes) == bytes
    ensures Run(Progress(START, []), bytes).mode.pending ==> Run(Progress(START, []), bytes).mode.dropped > 0
  {
    if bytes != [] {
      NothingDropped(bytes[..|bytes| - 1]);
      assert bytes == bytes[..|bytes| - 1] + [bytes[|bytes| - 1]];
      assert Compact(bytes[..|bytes| - 1]) + [] + [bytes[|bytes| - 1]]
          == Compact(bytes[..|bytes| - 1]) + [bytes[|bytes| - 1]];
    }
  }

  lemma {:induction false} DeliveredStep(calls: seq<Read>, i: nat)
    requires i < |calls| && !Fails(calls[..i])
    ensures match calls[i]
            case Data(bytes) =>
              Delivered(calls[..i + 1]) == Delivered(calls[..i]) + bytes && !Fails(calls[..i + 1])
            case Interrupted => Delivered(calls[..i + 1]) == Delivered(calls[..i]) && !Fails(calls[..i + 1])
            case Failed => Fails(calls)
  {
    if i == 0 {
      assert calls[..0] == [];
      assert calls[..1][1..] == [];
    } else {
      assert calls[..i][1..] == calls[1..][..i - 1];
      assert calls[..i + 1][1..] == calls[1..][..i];
      DeliveredStep(calls[1..], i - 1);
      if calls[i].Data? && calls[0].Data? {
        assert calls[0].bytes + (Delivered(calls[1..][..i - 1]) + calls[i].bytes)
            == (calls[0].bytes + Delivered(calls[1..][..i - 1])) + calls[i].bytes;
      }
    }
  }

  /** Reads everything: fails exactly when the source does; otherwise returns a text with the
      tokens and the bytes of what was delivered, either compacted or, when its first chunk had
      nothing to drop, as it was. However the source cuts the text into chunks, these are the two
      results. */
  method ReadCompactJson(calls: seq<Read>) returns (result: Option<seq<Byte>>)
    requires forall r :: r in calls && r.Data? ==> r.bytes != []
    ensures result.None? <==> Fails(calls)
    ensures result.Some? ==> Tokens(result.value) == Tokens(Delivered(calls))
    ensures result.Some? ==> Kept(result.value) == Kept(Delivered(calls))
    ensures result.Some? ==> result.value == Compact(Delivered(calls)) || result.value == Delivered(calls)
  {
    var state := new Compacting();
    var compact: seq<Byte> := [];
    var copying, first := false, true;
    for i := 0 to |calls|
      invariant !Fails(calls[..i])
      invariant first ==> !copying && compact == []
      invariant copying ==> compact == Delivered(calls[..i])
      invariant !copying ==> Progress(state.Mode(), compact) == Run(Progress(START, []), Delivered(calls[..i]))
    {
      DeliveredStep(calls, i);
      match calls[i] {
        case Failed => return None;
        case Interrupted =>
        case Data(bytes) =>
          if copying {
            compact := compact + bytes;
          } else {
            RunAppend(Progress(START, []), Delivered(calls[..i]), bytes);
            compact := state.Push(bytes, compact);
            if first && state.dropped == 0 {
              NothingDropped(Delivered(calls[..i + 1]));
              copying := true;
            }
            first := false;
          }
      }
    }
    assert calls[..|calls|] == calls;
    CompactKeepsTokens(Delivered(calls));
    CompactKeepsBytes(Delivered(calls));
    return Some(compact);
  }
}
