/** Dropping the insignificant whitespace of a JSON text as it is read, chunk by chunk. */
module Compacting {
  import opened Wrappers

  type Byte = b: int | 0 <= b < 256

  const QUOTE: Byte := 34
  const BACKSLASH: Byte := 92
  const SPACE: Byte := 32

  predicate IsWhitespace(b: Byte) {
    b == 32 || b == 9 || b == 10 || b == 13
  }

  /** A byte of a number or of `true`, `false` or `null`. */
  predicate IsAtom(b: Byte) {
    48 <= b <= 57 || 65 <= b <= 90 || 97 <= b <= 122 || b == 45 || b == 43 || b == 46
  }

  // ----- the tokens of a text -----

  datatype Tok = Atom(bytes: seq<Byte>) | Str(bytes: seq<Byte>) | Punct(bytes: seq<Byte>)

  /** The token being read. */
  datatype Current = Idle | InAtom(read: seq<Byte>) | InStr(read: seq<Byte>, escaped: bool)

  datatype LexState = LexState(done: seq<Tok>, current: Current)

  function Flush(s: LexState): LexState {
    match s.current
    case Idle => s
    case InAtom(read) => LexState(s.done + [Atom(read)], Idle)
    case InStr(read, _) => LexState(s.done + [Str(read)], Idle)
  }

  /** One byte read: strings run to their closing quote (RFC 8259, section 7), whitespace ends
      an atom and is no token (section 2). */
  function LexStep(s: LexState, b: Byte): LexState {
    match s.current
    case InStr(read, escaped) =>
      if escaped then s.(current := InStr(read + [b], false))
      else if b == QUOTE then LexState(s.done + [Str(read + [b])], Idle)
      else s.(current := InStr(read + [b], b == BACKSLASH))
    case _ =>
      if IsWhitespace(b) then Flush(s)
      else if b == QUOTE then LexState(Flush(s).done, InStr([b], false))
      else if IsAtom(b) then s.(current := InAtom(if s.current.InAtom? then s.current.read + [b] else [b]))
      else LexState(Flush(s).done + [Punct([b])], Idle)
  }

  function LexRun(bytes: seq<Byte>): LexState {
    if bytes == [] then LexState([], Idle) else LexStep(LexRun(bytes[..|bytes| - 1]), bytes[|bytes| - 1])
  }

  function Tokens(bytes: seq<Byte>): seq<Tok> {
    Flush(LexRun(bytes)).done
  }

  /** The tokens written out, one space between two atoms. */
  function Emit(tokens: seq<Tok>): seq<Byte> {
    if tokens == [] then []
    else
      var init, last := tokens[..|tokens| - 1], tokens[|tokens| - 1];
      Emit(init) + (if init != [] && init[|init| - 1].Atom? && last.Atom? then [SPACE] else []) + last.bytes
  }

  // ----- the reader's state, byte by byte -----

  datatype ReaderMode = ReaderMode(inString: bool, escaped: bool, pending: bool, dropped: nat)

  const START := ReaderMode(false, false, false, 0)

  datatype Progress = Progress(mode: ReaderMode, compact: seq<Byte>)

  function Step(p: Progress, b: Byte): Progress {
    var m, compact := p.mode, p.compact;
    if m.inString then
      Progress(
        m.(escaped := !m.escaped && b == BACKSLASH, inString := m.escaped || b != QUOTE),
        compact + [b])
    else if IsWhitespace(b) then Progress(m.(pending := true, dropped := m.dropped + 1), compact)
    else
      var separated := m.pending && compact != [] && IsAtom(compact[|compact| - 1]) && IsAtom(b);
      Progress(
        m.(pending := false, inString := b == QUOTE),
        compact + (if separated then [SPACE] else []) + [b])
  }

  function Run(p: Progress, bytes: seq<Byte>): Progress {
    if bytes == [] then p else Step(Run(p, bytes[..|bytes| - 1]), bytes[|bytes| - 1])
  }

  /** Reading two chunks is reading their concatenation. */
  lemma {:induction false} RunAppend(p: Progress, a: seq<Byte>, b: seq<Byte>)
    ensures Run(p, a + b) == Run(Run(p, a), b)
  {
    if b == [] {
      assert a + b == a;
    } else {
      var init, last := b[..|b| - 1], b[|b| - 1];
      RunAppend(p, a, init);
      assert (a + b)[..|a + b| - 1] == a + init;
    }
  }

  lemma RunOne(p: Progress, b: Byte)
    ensures Run(p, [b]) == Step(p, b)
  {
    assert [b][..0] == [];
  }

  // ----- the chunk loop -----

  /** The length of the whitespace `bytes` start with, long runs of spaces eight at a time. */
  method WhitespaceRun(bytes: seq<Byte>) returns (run: nat)
    ensures run <= |bytes|
    ensures forall i :: 0 <= i < run ==> IsWhitespace(bytes[i])
    ensures run < |bytes| ==> !IsWhitespace(bytes[run])
  {
    run := 0;
    while true
      invariant run <= |bytes|
      invariant forall i :: 0 <= i < run ==> IsWhitespace(bytes[i])
      decreases |bytes| - run
    {
      if run + 8 <= |bytes| && bytes[run..run + 8] == [32, 32, 32, 32, 32, 32, 32, 32] {
        forall i | run <= i < run + 8
          ensures IsWhitespace(bytes[i])
        {
          assert bytes[i] == bytes[run..run + 8][i - run];
        }
        run := run + 8;
      } else if run < |bytes| && IsWhitespace(bytes[run]) {
        run := run + 1;
      } else {
        return;
      }
    }
  }

  /** The first quote or backslash. */
  method FindStringEnd(bytes: seq<Byte>) returns (offset: Option<nat>)
    ensures offset.None? ==> forall i :: 0 <= i < |bytes| ==> bytes[i] != QUOTE && bytes[i] != BACKSLASH
    ensures offset.Some? ==>
              && offset.value < |bytes|
              && (bytes[offset.value] == QUOTE || bytes[offset.value] == BACKSLASH)
              && forall i :: 0 <= i < offset.value ==> bytes[i] != QUOTE && bytes[i] != BACKSLASH
  {
    for i := 0 to |bytes|
      invariant forall j :: 0 <= j < i ==> bytes[j] != QUOTE && bytes[j] != BACKSLASH
    {
      if bytes[i] == QUOTE || bytes[i] == BACKSLASH {
        return Some(i);
      }
    }
    return None;
  }

  lemma {:induction false} RunOverText(p: Progress, bytes: seq<Byte>)
    requires p.mode.inString && !p.mode.escaped
    requires forall i :: 0 <= i < |bytes| ==> bytes[i] != QUOTE && bytes[i] != BACKSLASH
    ensures Run(p, bytes) == Progress(p.mode, p.compact + bytes)
  {
    if bytes == [] {
      assert p.compact + bytes == p.compact;
    } else {
      RunOverText(p, bytes[..|bytes| - 1]);
      assert p.compact + bytes == (p.compact + bytes[..|bytes| - 1]) + [bytes[|bytes| - 1]];
    }
  }

  lemma {:induction false} RunOverWhitespace(p: Progress, bytes: seq<Byte>)
    requires !p.mode.inString && bytes != []
    requires forall i :: 0 <= i < |bytes| ==> IsWhitespace(bytes[i])
    ensures Run(p, bytes) == Progress(p.mode.(pending := true, dropped := p.mode.dropped + |bytes|), p.compact)
  {
    if |bytes| > 1 {
      RunOverWhitespace(p, bytes[..|bytes| - 1]);
    } else {
      RunOne(p, bytes[0]);
      assert bytes == [bytes[0]];
    }
  }

  lemma RunOverEscaped(p: Progress, b: Byte)
    requires p.mode.inString && p.mode.escaped
    ensures Run(p, [b]) == Progress(p.mode.(escaped := false), p.compact + [b])
  {
    RunOne(p, b);
  }

  lemma RunToStringEnd(p: Progress, text: seq<Byte>, b: Byte)
    requires p.mode.inString && !p.mode.escaped
    requires forall i :: 0 <= i < |text| ==> text[i] != QUOTE && text[i] != BACKSLASH
    requires b == QUOTE || b == BACKSLASH
    ensures Run(p, text + [b])
         == Progress(p.mode.(inString := b != QUOTE, escaped := b == BACKSLASH), p.compact + (text + [b]))
  {
    RunOverText(p, text);
    RunAppend(p, text, [b]);
    RunOne(Progress(p.mode, p.compact + text), b);
    assert (p.compact + text) + [b] == p.compact + (text + [b]);
  }

  lemma RunOverByte(p: Progress, b: Byte)
    requires !p.mode.inString && !IsWhitespace(b)
    ensures var separated := p.mode.pending && p.compact != [] && IsAtom(p.compact[|p.compact| - 1]) && IsAtom(b);
            Run(p, [b]) == Progress(
              p.mode.(pending := false, inString := b == QUOTE),
              (if separated then p.compact + [SPACE] else p.compact) + [b])
  {
    RunOne(p, b);
    assert p.compact + [] == p.compact;
  }

  class Compacting {
    var inString: bool
    /** Inside a string, just after a backslash. */
    var escaped: bool
    /** Whitespace was dropped since the last byte kept. */
    var pending: bool
    /** How many bytes of whitespace were dropped. */
    var dropped: nat

    function Mode(): ReaderMode
      reads this
    {
      ReaderMode(inString, escaped, pending, dropped)
    }

    constructor ()
      ensures Mode() == START
    {
      inString, escaped, pending, dropped := false, false, false, 0;
    }

    /** One turn of the loop inside a string: the escaped byte, or everything through the next
        quote or backslash. */
    method PushInString(bytes: seq<Byte>, at: nat, before: seq<Byte>) returns (compact: seq<Byte>, next: nat)
      requires inString && at < |bytes|
      modifies this
      ensures at < next <= |bytes|
      ensures Progress(Mode(), compact) == Run(old(Progress(Mode(), before)), bytes[at..next])
    {
      ghost var here := Progress(Mode(), before);
      if escaped {
        RunOverEscaped(here, bytes[at]);
        assert bytes[at..at + 1] == [bytes[at]];
        escaped := false;
        return before + [bytes[at]], at + 1;
      }
      var offset := FindStringEnd(bytes[at..]);
      if offset.None? {
        RunOverText(here, bytes[at..]);
        assert bytes[at..|bytes|] == bytes[at..];
        return before + bytes[at..], |bytes|;
      }
      var end := at + offset.value;
      RunToStringEnd(here, bytes[at..end], bytes[end]);
      assert bytes[at..end] + [bytes[end]] == bytes[at..end + 1];
      if bytes[end] == QUOTE {
        inString := false;
      } else {
        escaped := true;
      }
      return before + bytes[at..end + 1], end + 1;
    }

    /** One turn outside strings: a run of whitespace, or one byte kept. */
    method PushOutside(bytes: seq<Byte>, at: nat, before: seq<Byte>) returns (compact: seq<Byte>, next: nat)
      requires !inString && at < |bytes|
      modifies this
      ensures at < next <= |bytes|
      ensures Progress(Mode(), compact) == Run(old(Progress(Mode(), before)), bytes[at..next])
    {
      ghost var here := Progress(Mode(), before);
      compact := before;
      var whitespace := WhitespaceRun(bytes[at..]);
      if whitespace > 0 {
        RunOverWhitespace(here, bytes[at..at + whitespace]);
        pending := true;
        dropped := dropped + whitespace;
        return compact, at + whitespace;
      }
      var byte := bytes[at];
      RunOverByte(here, byte);
      assert bytes[at..at + 1] == [byte];
      if pending && compact != [] && IsAtom(compact[|compact| - 1]) && IsAtom(byte) {
        compact := compact + [SPACE];
      }
      pending := false;
      compact := compact + [byte];
      inString := byte == QUOTE;
      return compact, at + 1;
    }

    /** Reads one chunk, appending what it keeps: exactly the bytewise reading of it. */
    method Push(bytes: seq<Byte>, before: seq<Byte>) returns (compact: seq<Byte>)
      modifies this
      ensures Progress(Mode(), compact) == Run(old(Progress(Mode(), before)), bytes)
    {
      compact := before;
      var at := 0;
      ghost var start := Progress(Mode(), before);
      while at < |bytes|
        invariant at <= |bytes|
        invariant Progress(Mode(), compact) == Run(start, bytes[..at])
      {
        var next;
        if inString {
          compact, next := PushInString(bytes, at, compact);
        } else {
          compact, next := PushOutside(bytes, at, compact);
        }
        Advance(start, bytes, at, next);
        at := next;
      }
      assert bytes[..at] == bytes;
    }
  }

  lemma Advance(start: Progress, bytes: seq<Byte>, at: nat, to: nat)
    requires at <= to <= |bytes|
    ensures Run(start, bytes[..to]) == Run(Run(start, bytes[..at]), bytes[at..to])
    ensures to == at + 1 ==> bytes[at..to] == [bytes[at]]
    ensures to == |bytes| ==> bytes[..to] == bytes && bytes[at..to] == bytes[at..]
  {
    RunAppend(start, bytes[..at], bytes[at..to]);
    assert bytes[..at] + bytes[at..to] == bytes[..to];
  }
}
