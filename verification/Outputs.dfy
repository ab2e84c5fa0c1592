/** The text of one generated file, collected in memory or streamed to a writer in chunks. */
module Outputs {
  import opened Wrappers

  /** One write call of a renderer. */
  datatype Piece = Str(text: string) | Chr(character: char)

  function Text(pieces: seq<Piece>): string {
    if pieces == [] then ""
    else
      Text(pieces[..|pieces| - 1]) +
      match pieces[|pieces| - 1]
      case Str(text) => text
      case Chr(character) => [character]
  }

  /** The bytes a string takes. */
  function Size(text: string): nat {
    if text == "" then 0
    else
      var last := text[|text| - 1] as int;
      Size(text[..|text| - 1]) + if last < 0x80 then 1 else if last < 0x800 then 2 else if last < 0x10000 then 3 else 4
  }

  /** A write that fails after part of its text. */
  datatype Failure = Failure(written: nat, error: string)

  /** A file being written: each write appends its text, or fails as the plan says. */
  class Sink {
    const plan: nat -> Option<Failure>
    var contents: string
    var calls: nat

    constructor (plan: nat -> Option<Failure>)
      ensures this.plan == plan && contents == "" && calls == 0
    {
      this.plan := plan;
      contents := "";
      calls := 0;
    }

    method WriteAll(text: string) returns (error: Option<string>)
      modifies this
      ensures calls == old(calls) + 1
      ensures match plan(old(calls))
              case None => error == None && contents == old(contents) + text
              case Some(failure) => error == Some(failure.error) && old(contents) <= contents <= old(contents) + text
    {
      var failure := plan(calls);
      calls := calls + 1;
      if failure.None? {
        contents := contents + text;
        return None;
      }
      contents := contents + if failure.value.written < |text| then text[..failure.value.written] else text;
      return Some(failure.value.error);
    }
  }

  class Output {
    const sink: Sink?
    /** How much text is held before it is handed to the sink. */
    const threshold: nat
    var buffer: string
    var error: Option<string>

    /** Everything written to this output. */
    ghost var text: string
    /** What the sink held, and the writes it had taken, when streaming began. */
    ghost const before: string
    ghost const callsBefore: nat

    /** The text is what reached the sink and what is still buffered; after an error, the error
        is the sink's first and the sink has not been called since. */
    ghost predicate Valid()
      reads this, sink
    {
      if sink == null then
        error == None && buffer == text
      else
        && callsBefore <= sink.calls
        && match error
           case None =>
             && sink.contents + buffer == before + text
             && (forall call :: callsBefore <= call < sink.calls ==> sink.plan(call) == None)
           case Some(e) =>
             && sink.calls > callsBefore
             && (forall call :: callsBefore <= call < sink.calls - 1 ==> sink.plan(call) == None)
             && sink.plan(sink.calls - 1).Some? && sink.plan(sink.calls - 1).value.error == e
             && sink.contents <= before + text
    }

    constructor InMemory(threshold: nat)
      ensures Valid() && sink == null && text == ""
    {
      sink := null;
      this.threshold := threshold;
      buffer := "";
      error := None;
      text := "";
      before := "";
      callsBefore := 0;
    }

    constructor Streaming(sink: Sink, threshold: nat)
      ensures Valid() && this.sink == sink && text == ""
      ensures before == sink.contents && callsBefore == sink.calls
    {
      this.sink := sink;
      this.threshold := threshold;
      buffer := "";
      error := None;
      text := "";
      before := sink.contents;
      callsBefore := sink.calls;
    }

    method PushStr(more: string)
      requires Valid()
      modifies this, sink
      ensures Valid() && text == old(text) + more
    {
      buffer := buffer + more;
      text := text + more;
      if sink != null {
        assert sink.contents + old(buffer) + more == sink.contents + buffer;
        assert before + old(text) + more == before + text;
      }
      if Size(buffer) >= threshold && sink != null {
        FlushBuffer();
      }
    }

    /** A single character never flushes. */
    method Push(character: char)
      requires Valid()
      modifies this
      ensures Valid() && text == old(text) + [character]
    {
      buffer := buffer + [character];
      text := text + [character];
      if sink != null {
        assert sink.contents + old(buffer) + [character] == sink.contents + buffer;
        assert before + old(text) + [character] == before + text;
      }
    }

    /** Hands the buffer to the sink unless an earlier write failed, and empties it either way. */
    method FlushBuffer()
      requires Valid()
      modifies this, sink
      ensures Valid() && text == old(text)
      ensures sink == null ==> buffer == old(buffer)
      ensures sink != null ==> buffer == ""
    {
      if sink != null {
        if error.None? {
          error := sink.WriteAll(buffer);
        }
        buffer := "";
      }
    }

    /** Writes what is still buffered and reports the first error: without one the sink got
        exactly the text, after what it held before. */
    method Finish() returns (result: Option<string>)
      requires Valid()
      modifies this, sink
      ensures Valid() && text == old(text) && result == error
      ensures sink != null && result == None ==> sink.contents == before + text
      ensures sink != null && result.Some? ==> sink.contents <= before + text
      ensures sink != null ==>
                (result == None <==> forall call :: callsBefore <= call < sink.calls ==> sink.plan(call) == None)
      ensures sink == null ==> result == None
    {
      FlushBuffer();
      result := error;
    }

    method Render(pieces: seq<Piece>)
      requires Valid() && text == ""
      modifies this, sink
      ensures Valid() && text == Text(pieces)
    {
      for i := 0 to |pieces|
        invariant Valid() && text == Text(pieces[..i])
      {
        assert pieces[..i + 1][..i] == pieces[..i];
        match pieces[i]
        case Str(more) => PushStr(more);
        case Chr(character) => Push(character);
      }
      assert pieces[..|pieces|] == pieces;
    }
  }

  /** Renders in memory. */
  method Collect(pieces: seq<Piece>, threshold: nat) returns (text: string)
    ensures text == Text(pieces)
  {
    var output := new Output.InMemory(threshold);
    output.Render(pieces);
    text := output.buffer;
  }

  /** Renders into a new file: without an error it ends up as the text rendered in memory, wherever
      the chunks fell, and with one as part of it. */
  method Stream(pieces: seq<Piece>, threshold: nat, plan: nat -> Option<Failure>)
    returns (file: Sink, result: Option<string>)
    ensures fresh(file)
    ensures result == None ==> file.contents == Text(pieces)
    ensures result.Some? ==> file.contents <= Text(pieces)
    ensures result == None <==> forall call :: 0 <= call < file.calls ==> plan(call) == None
  {
    file := new Sink(plan);
    var output := new Output.Streaming(file, threshold);
    output.Render(pieces);
    result := output.Finish();
    assert "" + output.text == output.text;
  }
}
