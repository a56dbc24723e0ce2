/** The incremental reader: chunks in, one verdict and a list of progress callbacks out. */
module OperationStreamReader {
  import opened Common
  import opened OperationStream
  import D = Decimal

  /** Byte counting over one chunk: the length of the unfinished record, or None once a record is too large. */
  method CountBytes(ghost before: string, pendingBytes: nat, chunk: string) returns (r: Option<nat>)
    requires Framed(before) && pendingBytes == |Tail(before)|
    ensures r.Some? <==> Framed(before + chunk)
    ensures r.Some? ==> r.value == |Tail(before + chunk)|
  {
    hide Lines, Tail;
    var bytes, segmentStart := pendingBytes, 0;
    assert before + chunk[..0] == before;
    for index := 0 to |chunk|
      invariant 0 <= segmentStart <= index
      invariant bytes + (index - segmentStart) == |Tail(before + chunk[..index])|
      invariant forall l :: l in Lines(before + chunk[..index]) ==> |l| <= MAX_RECORD_BYTES
    {
      FrameChar(before + chunk[..index], chunk[index]);
      assert before + chunk[..index] + [chunk[index]] == before + chunk[..index + 1];
      if chunk[index] != '\n' { continue; }
      bytes := bytes + (index - segmentStart);
      if bytes > MAX_RECORD_BYTES {
        TooLong(before, chunk, index);
        return None;
      }
      bytes := 0;
      segmentStart := index + 1;
    }
    assert chunk[..|chunk|] == chunk;
    bytes := bytes + (|chunk| - segmentStart);
    if bytes > MAX_RECORD_BYTES { return None; }
    return Some(bytes);
  }

  lemma TooLong(before: string, chunk: string, index: nat)
    requires index < |chunk| && chunk[index] == '\n' && |Tail(before + chunk[..index])| > MAX_RECORD_BYTES
    ensures !Framed(before + chunk)
  {
    hide Lines, Tail;
    if Framed(before + chunk) {
      var a := before + chunk[..index];
      assert before + chunk == a + chunk[index..];
      FramedPrefix(a, chunk[index..]);
    }
  }

  lemma EmptyFrame<P(!new), T(!new)>(parse: string -> Record<P, T>, chunks: seq<string>)
    ensures Concat(chunks[..0]) == "" && Lines("") == [] && Tail("") == "" && Framed("")
    ensures ConsumeAll(parse, []) == Some(Start())
  {
    NoNewline("");
  }

  lemma PendingFramed(a: string, b: string)
    requires Framed(a + b)
    ensures Framed(Tail(a) + b)
  {
    hide Lines, Tail;
    FrameSum(a, b);
    assert forall l :: l in Lines(Tail(a) + b) ==> l in Lines(a + b);
  }

  lemma ChunkStep(chunks: seq<string>, i: nat)
    requires i < |chunks|
    ensures Concat(chunks[..i + 1]) == Concat(chunks[..i]) + chunks[i]
  {
    assert chunks[..i + 1][..i] == chunks[..i];
  }

  /** The lines of an initial run of chunks are an initial part of the lines of the whole. */
  lemma EarlierLines(chunks: seq<string>, i: nat) returns (rest: string, lines: seq<string>)
    requires i <= |chunks|
    ensures Concat(chunks) == Concat(chunks[..i]) + rest
    ensures Lines(Concat(chunks)) == Lines(Concat(chunks[..i])) + lines
  {
    hide *;
    ConcatPrefix(chunks, i);
    var a := Concat(chunks[..i]);
    rest := Concat(chunks)[|a|..];
    lines := Lines(Tail(a) + rest);
    FrameSum(a, rest);
  }

  /** The verdict on a framed text, read off the state its lines lead to. */
  lemma VerdictOf<P(!new), T(!new)>(parse: string -> Record<P, T>, text: string, st: State<P, T>)
    requires Framed(text) && ConsumeAll(parse, Lines(text)) == Some(st)
    ensures !D.Blank(Tail(text)) || st.terminal.None? ==> WholeVerdict(parse, text) == Interrupted
    ensures D.Blank(Tail(text)) && st.terminal.Some? ==>
              WholeVerdict(parse, text) ==
              match st.terminal.value
              case Done(result) => Returned(result)
              case Failure(code, message) => Reported(code, message)
              case _ => Interrupted
  {
    hide ConsumeAll, Framed, Tail, Lines, D.Blank;
  }

  lemma TooLargeSoFar<P(!new), T(!new)>(parse: string -> Record<P, T>, chunks: seq<string>, i: nat)
    requires i <= |chunks| && !Framed(Concat(chunks[..i]))
    ensures WholeVerdict(parse, Concat(chunks)) == Interrupted
  {
    hide ConsumeAll, Framed, Tail, Lines, Concat, D.Blank;
    var rest, _ := EarlierLines(chunks, i);
    if Framed(Concat(chunks)) { FramedPrefix(Concat(chunks[..i]), rest); }
  }

  lemma BrokenSoFar<P(!new), T(!new)>(parse: string -> Record<P, T>, chunks: seq<string>, i: nat)
    requires i <= |chunks| && ConsumeAll(parse, Lines(Concat(chunks[..i]))).None?
    ensures WholeVerdict(parse, Concat(chunks)) == Interrupted
  {
    hide ConsumeAll, Framed, Tail, Lines, Concat, D.Blank;
    var _, lines := EarlierLines(chunks, i);
    ConsumeAllFails(parse, Lines(Concat(chunks[..i])), lines);
  }

  lemma CallbacksSoFar<P(!new), T(!new)>(parse: string -> Record<P, T>, chunks: seq<string>, i: nat)
    requires i <= |chunks|
    ensures Callbacks(parse, Lines(Concat(chunks[..i]))) <= Callbacks(parse, Lines(Concat(chunks)))
  {
    hide *;
    var _, lines := EarlierLines(chunks, i);
    ConsumeAllFails(parse, Lines(Concat(chunks[..i])), lines);
  }

  lemma CallbacksFinal<P(!new), T(!new)>(parse: string -> Record<P, T>, chunks: seq<string>, i: nat)
    requires i <= |chunks| && ConsumeAll(parse, Lines(Concat(chunks[..i]))).None?
    ensures Callbacks(parse, Lines(Concat(chunks[..i]))) == Callbacks(parse, Lines(Concat(chunks)))
  {
    hide *;
    var _, lines := EarlierLines(chunks, i);
    ConsumeAllFails(parse, Lines(Concat(chunks[..i])), lines);
  }

  /** A text with an initial part over the limit is over the limit. */
  lemma LargeSoFar(chunks: seq<string>, i: nat)
    requires i <= |chunks| && !Framed(Concat(chunks[..i]))
    ensures !Framed(Concat(chunks))
  {
    hide *;
    var rest, _ := EarlierLines(chunks, i);
    if Framed(Concat(chunks)) { FramedPrefix(Concat(chunks[..i]), rest); }
  }

  lemma LineStep<P(!new), T(!new)>(parse: string -> Record<P, T>, done: seq<string>, st: State<P, T>, pending: string)
    requires ConsumeAll(parse, done) == Some(st) && Newline(pending) < |pending|
    ensures var k := Newline(pending);
            && Lines(pending) == [pending[..k]] + Lines(pending[k + 1..])
            && Tail(pending) == Tail(pending[k + 1..])
            && ConsumeAll(parse, done + [pending[..k]]) == Consume(parse, st, pending[..k])
  {
    hide Newline, Consume;
    var line := pending[..Newline(pending)];
    assert (done + [line])[..|done|] == done;
  }

  lemma FramedTail(pending: string)
    requires Lines(pending) == [] && Tail(pending) == pending
    ensures Framed(pending) <==> |pending| <= MAX_RECORD_BYTES
  {
    hide Lines, Tail;
  }

  lemma FramedFirst(pending: string)
    requires Newline(pending) < |pending|
    ensures Framed(pending) <==> Newline(pending) <= MAX_RECORD_BYTES && Framed(pending[Newline(pending) + 1..])
  {
    hide Newline, Lines, Tail;
    var k := Newline(pending);
    FirstLine(pending);
    FramedCons(pending, pending[..k], pending[k + 1..]);
  }

  lemma FirstLine(pending: string)
    requires Newline(pending) < |pending|
    ensures var k := Newline(pending);
            Lines(pending) == [pending[..k]] + Lines(pending[k + 1..]) && Tail(pending) == Tail(pending[k + 1..])
  {
    hide Newline;
  }

  lemma FramedCons(text: string, line: string, rest: string)
    requires Lines(text) == [line] + Lines(rest) && Tail(text) == Tail(rest)
    ensures Framed(text) <==> |line| <= MAX_RECORD_BYTES && Framed(rest)
  {
    hide Lines, Tail;
    assert forall l :: l in Lines(text) <==> l == line || l in Lines(rest);
  }

  lemma LineFails<P(!new), T(!new)>(parse: string -> Record<P, T>, read: seq<string>, line: string)
    requires ConsumeAll(parse, read + [line]).None?
    ensures Callbacks(parse, read + [line]) == Callbacks(parse, read)
  {
    hide Consume, ConsumeAll;
    assert (read + [line])[..|read|] == read;
  }

  /** Reads the complete lines out of the pending text, checking the limit once more. */
  method ConsumeLines<P(!new), T(!new)>(
      parse: string -> Record<P, T>, ghost done: seq<string>, st0: State<P, T>, pending0: string)
    returns (st: State<P, T>, pending: string, ok: bool)
    requires ConsumeAll(parse, done) == Some(st0)
    ensures ok <==> Framed(pending0) && ConsumeAll(parse, done + Lines(pending0)).Some?
    ensures ok ==> ConsumeAll(parse, done + Lines(pending0)) == Some(st) && pending == Tail(pending0)
    ensures st.out <= Callbacks(parse, done + Lines(pending0))
    ensures Framed(pending0) ==> st.out == Callbacks(parse, done + Lines(pending0))
  {
    hide *;
    st, pending := st0, pending0;
    ghost var read: seq<string> := done;
    var newline := Newline(pending);
    while newline < |pending|
      invariant newline == Newline(pending)
      invariant ConsumeAll(parse, read) == Some(st)
      invariant read + Lines(pending) == done + Lines(pending0)
      invariant (Framed(pending) <==> Framed(pending0)) && Tail(pending) == Tail(pending0)
      decreases |pending|
    {
      LineStep(parse, read, st, pending);
      var line := pending[..newline];
      FramedFirst(pending);
      CallbacksAfter(parse, read);
      ConsumeAllFails(parse, read, Lines(pending));
      if newline > MAX_RECORD_BYTES { return st, pending, false; }
      ConsumeAllFails(parse, read + [line], Lines(pending[newline + 1..]));
      assert read + Lines(pending) == read + [line] + Lines(pending[newline + 1..]);
      var next := Consume(parse, st, line);
      if next.None? {
        LineFails(parse, read, line);
        return st, pending, false;
      }
      st, pending, read := next.value, pending[newline + 1..], read + [line];
      newline := Newline(pending);
    }
    NoNewline(pending);
    assert read + [] == read;
    CallbacksAfter(parse, read);
    FramedTail(pending);
    return st, pending, |pending| <= MAX_RECORD_BYTES;
  }

  /** Whatever the split into chunks, the verdict is that of the concatenated text, and as long as every record
      is within the limit so are the callbacks: those of the lines up to the first one that throws. With a
      record over the limit they are an initial part of these, since its chunk is not read any more. */
  method ReadBootstrapStream<P(!new), T(!new)>(parse: string -> Record<P, T>, body: Option<seq<string>>)
    returns (verdict: Verdict<T>, out: seq<P>)
    ensures verdict == if body.None? then NoOutput else WholeVerdict(parse, Concat(body.value))
    ensures body.None? ==> out == []
    ensures body.Some? ==> out <= Callbacks(parse, Lines(Concat(body.value)))
    ensures body.Some? && Framed(Concat(body.value)) ==> out == Callbacks(parse, Lines(Concat(body.value)))
    ensures verdict.Returned? || verdict.Reported? ==> out == Callbacks(parse, Lines(Concat(body.value)))
  {
    hide *;
    if body.None? { return NoOutput, []; }
    var chunks := body.value;
    ghost var text := Concat(chunks);
    var pending, pendingBytes := "", 0;
    var st: State<P, T> := Start();
    EmptyFrame(parse, chunks);
    var i := 0;
    while i < |chunks|
      invariant 0 <= i <= |chunks|
      invariant Framed(Concat(chunks[..i])) && pending == Tail(Concat(chunks[..i])) && pendingBytes == |pending|
      invariant ConsumeAll(parse, Lines(Concat(chunks[..i]))) == Some(st)
    {
      ghost var before := Concat(chunks[..i]);
      ghost var now := Concat(chunks[..i + 1]);
      ChunkStep(chunks, i);
      var counted := CountBytes(before, pendingBytes, chunks[i]);
      if counted.None? {
        TooLargeSoFar(parse, chunks, i + 1);
        LargeSoFar(chunks, i + 1);
        CallbacksAfter(parse, Lines(before));
        CallbacksSoFar(parse, chunks, i);
        return Interrupted, st.out;
      }
      pendingBytes := counted.value;
      pending := pending + chunks[i];
      FrameSum(before, chunks[i]);
      PendingFramed(before, chunks[i]);
      var ok;
      st, pending, ok := ConsumeLines(parse, Lines(before), st, pending);
      if !ok {
        BrokenSoFar(parse, chunks, i + 1);
        CallbacksSoFar(parse, chunks, i + 1);
        CallbacksFinal(parse, chunks, i + 1);
        return Interrupted, st.out;
      }
      i := i + 1;
    }
    assert chunks[..|chunks|] == chunks;
    CallbacksAfter(parse, Lines(text));
    out := st.out;
    VerdictOf(parse, text, st);
    if !D.Blank(pending) || st.terminal.None? { return Interrupted, out; }
    verdict := match st.terminal.value
      case Done(result) => Returned(result)
      case Failure(code, message) => Reported(code, message)
      case _ => Interrupted;
  }
}
