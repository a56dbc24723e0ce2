/** Newline framing of bootstrap output and the record state machine that reads it. */
module OperationStream {
  import opened Common
  import opened Sequences
  import D = Decimal

  const MAX_RECORD_BYTES := 96 * 1024 * 1024

  /** What one nonblank line decodes to. valid says whether every field of a progress record other
      than its sequence number is acceptable; Malformed covers anything that is no known record. */
  datatype Record<P, T> =
    | Progress(sequence: int, valid: bool, payload: P)
    | Done(result: T)
    | Failure(statusCode: int, message: string)
    | Malformed

  /** What the caller of the reader sees. */
  datatype Verdict<T> = Returned(result: T) | Reported(statusCode: int, message: string) | Interrupted | NoOutput

  datatype State<P, T> = State(sequence: int, terminal: Option<Record<P, T>>, out: seq<P>)

  function Start<P, T>(): State<P, T> { State(0, None, []) }

  /** One line; None is a throw. */
  function Consume<P, T>(parse: string -> Record<P, T>, st: State<P, T>, line: string): Option<State<P, T>> {
    if D.Blank(line) then Some(st)
    else if st.terminal.Some? then None
    else match parse(line)
      case Progress(n, valid, payload) =>
        if n != st.sequence + 1 || !valid then None
        else Some(st.(sequence := n, out := st.out + [payload]))
      case Done(_) => Some(st.(terminal := Some(parse(line))))
      case Failure(_, _) => Some(st.(terminal := Some(parse(line))))
      case Malformed => None
  }

  function ConsumeAll<P, T>(parse: string -> Record<P, T>, lines: seq<string>): Option<State<P, T>> {
    if lines == [] then Some(Start())
    else match ConsumeAll(parse, lines[..|lines| - 1])
      case None => None
      case Some(st) => Consume(parse, st, lines[|lines| - 1])
  }

  /** The callbacks made while reading the lines up to the first one that throws. */
  function Callbacks<P, T>(parse: string -> Record<P, T>, lines: seq<string>): seq<P> {
    if lines == [] then []
    else match ConsumeAll(parse, lines)
      case None => Callbacks(parse, lines[..|lines| - 1])
      case Some(st) => st.out
  }

  // ---------------------------------------------------------------- framing

  function Newline(text: string): (k: nat)
    ensures k <= |text| && (k < |text| ==> text[k] == '\n')
    ensures forall j :: 0 <= j < k ==> text[j] != '\n'
  {
    First(text, c => c == '\n')
  }

  /** Complete lines, without their delimiters. */
  function Lines(text: string): seq<string>
    decreases |text|
  {
    var k := Newline(text);
    if k == |text| then [] else [text[..k]] + Lines(text[k + 1..])
  }

  /** What follows the last delimiter. */
  function Tail(text: string): string
    decreases |text|
  {
    var k := Newline(text);
    if k == |text| then text else Tail(text[k + 1..])
  }

  predicate Framed(text: string) {
    |Tail(text)| <= MAX_RECORD_BYTES && forall l :: l in Lines(text) ==> |l| <= MAX_RECORD_BYTES
  }

  /** The verdict on a whole text, however it arrives. */
  function WholeVerdict<P, T>(parse: string -> Record<P, T>, text: string): Verdict<T> {
    if !Framed(text) || !D.Blank(Tail(text)) then Interrupted
    else match ConsumeAll(parse, Lines(text))
      case Some(State(_, Some(Done(result)), _)) => Returned(result)
      case Some(State(_, Some(Failure(code, message)), _)) => Reported(code, message)
      case _ => Interrupted
  }

  function Concat(chunks: seq<string>): string {
    if chunks == [] then "" else Concat(chunks[..|chunks| - 1]) + chunks[|chunks| - 1]
  }

  lemma NewlineOfSum(a: string, b: string)
    requires Newline(a) < |a|
    ensures Newline(a + b) == Newline(a)
  {
    hide Newline;
    var k, j := Newline(a), Newline(a + b);
    assert (a + b)[k] == '\n';
    assert j < |a| ==> (a + b)[j] == a[j];
  }

  lemma NoNewline(a: string)
    requires forall j :: 0 <= j < |a| ==> a[j] != '\n'
    ensures Newline(a) == |a| && Lines(a) == [] && Tail(a) == a
  {
    hide Newline;
  }

  /** Framing a text in two parts: only the tail of the first part meets the second. */
  lemma {:induction false} FrameSum(a: string, b: string)
    ensures Lines(a + b) == Lines(a) + Lines(Tail(a) + b)
    ensures Tail(a + b) == Tail(Tail(a) + b)
    decreases |a|
  {
    hide Newline;
    var k := Newline(a);
    if k < |a| {
      NewlineOfSum(a, b);
      assert (a + b)[k + 1..] == a[k + 1..] + b && (a + b)[..k] == a[..k];
      FrameSum(a[k + 1..], b);
    }
  }

  lemma {:induction false} TailHasNoNewline(a: string)
    ensures '\n' !in Tail(a)
    decreases |a|
  {
    hide Newline;
    var k := Newline(a);
    if k < |a| { TailHasNoNewline(a[k + 1..]); }
  }

  lemma FrameChar(a: string, c: char)
    ensures Lines(a + [c]) == if c == '\n' then Lines(a) + [Tail(a)] else Lines(a)
    ensures Tail(a + [c]) == if c == '\n' then "" else Tail(a) + [c]
  {
    FrameSum(a, [c]);
    TailHasNoNewline(a);
    var t := Tail(a) + [c];
    hide Newline;
    if c == '\n' {
      assert forall j :: 0 <= j < |t| - 1 ==> t[j] == Tail(a)[j] && Tail(a)[j] in Tail(a);
      assert t[|t| - 1] == '\n';
      assert Newline(t) == |t| - 1;
      assert t[..|t| - 1] == Tail(a) && t[|t| - 1 + 1..] == "";
      NoNewline("");
      assert Lines(t) == [Tail(a)] + Lines("");
    } else {
      NoNewline(t);
    }
  }

  /** A text that keeps the limit has prefixes that keep it. */
  lemma FramedPrefix(a: string, b: string)
    requires Framed(a + b)
    ensures Framed(a)
  {
    hide Lines, Tail;
    FrameSum(a, b);
    TailFits(Tail(a), b);
    assert forall l :: l in Lines(Tail(a) + b) ==> l in Lines(a + b);
    assert forall l :: l in Lines(a) ==> l in Lines(a + b);
    TailHasNoNewline(a);
  }

  lemma TailFits(t: string, b: string)
    requires '\n' !in t ==> |Tail(t + b)| <= MAX_RECORD_BYTES
    requires forall l :: l in Lines(t + b) ==> |l| <= MAX_RECORD_BYTES
    ensures '\n' !in t ==> |t| <= MAX_RECORD_BYTES
  {
    hide Newline;
    if '\n' !in t {
      var k := Newline(t + b);
      assert forall j :: 0 <= j < |t| ==> (t + b)[j] == t[j] && t[j] in t;
      assert k >= |t|;
      if k < |t + b| { assert (t + b)[..k] in Lines(t + b); }
    }
  }

  lemma {:induction false} ConcatPrefix(chunks: seq<string>, i: nat)
    requires i <= |chunks|
    ensures Concat(chunks[..i]) <= Concat(chunks)
    decreases |chunks| - i
  {
    if i == |chunks| {
      assert chunks[..i] == chunks;
    } else {
      ConcatPrefix(chunks, i + 1);
      assert chunks[..i + 1][..i] == chunks[..i];
    }
  }

  // ---------------------------------------------------------------- the record state machine

  lemma {:induction false} ConsumeAllFails<P, T>(parse: string -> Record<P, T>, a: seq<string>, b: seq<string>)
    ensures ConsumeAll(parse, a).None? ==> ConsumeAll(parse, a + b).None?
    ensures Callbacks(parse, a) <= Callbacks(parse, a + b)
    ensures ConsumeAll(parse, a).None? ==> Callbacks(parse, a) == Callbacks(parse, a + b)
  {
    if b == [] {
      assert a + b == a;
    } else {
      var n := |b| - 1;
      ConsumeAllFails(parse, a, b[..n]);
      assert (a + b)[..|a + b| - 1] == a + b[..n];
      CallbacksStep(parse, a + b);
    }
  }

  lemma CallbacksAfter<P, T>(parse: string -> Record<P, T>, lines: seq<string>)
    requires ConsumeAll(parse, lines).Some?
    ensures Callbacks(parse, lines) == ConsumeAll(parse, lines).value.out
  {
    hide Consume;
  }

  lemma ConsumeAppends<P, T>(parse: string -> Record<P, T>, st: State<P, T>, line: string)
    requires Consume(parse, st, line).Some?
    ensures st.out <= Consume(parse, st, line).value.out
  {
    hide D.Blank;
  }

  lemma CallbacksStep<P, T>(parse: string -> Record<P, T>, lines: seq<string>)
    requires lines != []
    ensures Callbacks(parse, lines[..|lines| - 1]) <= Callbacks(parse, lines)
    ensures ConsumeAll(parse, lines).Some? ==> Callbacks(parse, lines) == ConsumeAll(parse, lines).value.out
    ensures ConsumeAll(parse, lines).None? ==> Callbacks(parse, lines) == Callbacks(parse, lines[..|lines| - 1])
  {
    hide Consume;
    var before := lines[..|lines| - 1];
    if ConsumeAll(parse, lines).Some? {
      CallbacksAfter(parse, lines);
      CallbacksAfter(parse, before);
      ConsumeAppends(parse, ConsumeAll(parse, before).value, lines[|lines| - 1]);
    }
  }

  predicate Nonblank(line: string) { !D.Blank(line) }

  /** The first k of the lines are progress records numbered 1..k. */
  predicate Counted<P(!new), T(!new)>(parse: string -> Record<P, T>, lines: seq<string>, k: nat)
    requires k <= |lines|
  {
    forall i :: 0 <= i < k ==> parse(lines[i]).Progress? && parse(lines[i]).valid && parse(lines[i]).sequence == i + 1
  }

  function Payloads<P(!new), T(!new)>(parse: string -> Record<P, T>, lines: seq<string>, k: nat): (r: seq<P>)
    requires k <= |lines| && Counted(parse, lines, k)
    ensures |r| == k && forall i :: 0 <= i < k ==> r[i] == parse(lines[i]).payload
  {
    seq(k, i requires 0 <= i < k => parse(lines[i]).payload)
  }

  predicate Terminal<P, T>(r: Record<P, T>) { r.Done? || r.Failure? }

  /** Consuming succeeds in a state exactly when the nonblank lines are progress 1..sequence, with
      those payloads delivered, then the terminal record if there is one. */
  ghost predicate Describes<P(!new), T(!new)>(parse: string -> Record<P, T>, lines: seq<string>, st: State<P, T>) {
    var full := Filter(lines, Nonblank);
    var k := st.sequence;
    && 0 <= k <= |full|
    && Counted(parse, full, k)
    && st.out == Payloads(parse, full, k)
    && match st.terminal
       case None => |full| == k
       case Some(t) => |full| == k + 1 && t == parse(full[k]) && Terminal(t)
  }

  lemma FilterSnoc(lines: seq<string>, line: string)
    ensures Filter(lines + [line], Nonblank) ==
            if Nonblank(line) then Filter(lines, Nonblank) + [line] else Filter(lines, Nonblank)
  {
    assert (lines + [line])[..|lines|] == lines;
  }

  /** One more line keeps a description, or rules every description out. */
  lemma DescribesStep<P(!new), T(!new)>(
      parse: string -> Record<P, T>, lines: seq<string>, st: State<P, T>, line: string)
    requires Describes(parse, lines, st)
    ensures Consume(parse, st, line).Some? ==> Describes(parse, lines + [line], Consume(parse, st, line).value)
  {
    hide D.Blank, Filter, Counted, Payloads;
    FilterSnoc(lines, line);
    if Nonblank(line) && Consume(parse, st, line).Some? {
      CountedMore(parse, Filter(lines, Nonblank), line);
    }
  }

  /** A counted run stays counted when a line follows, and grows by it when it is the next progress record. */
  lemma CountedMore<P(!new), T(!new)>(parse: string -> Record<P, T>, full: seq<string>, line: string)
    requires Counted(parse, full, |full|)
    ensures var n, more := |full|, full + [line];
            && more[n] == line
            && Counted(parse, more, n) && Payloads(parse, more, n) == Payloads(parse, full, n)
            && (parse(line).Progress? && parse(line).valid && parse(line).sequence == n + 1 ==>
                  Counted(parse, more, n + 1)
                  && Payloads(parse, more, n + 1) == Payloads(parse, full, n) + [parse(line).payload])
  {
    var more := full + [line];
    assert forall i :: 0 <= i < |full| ==> more[i] == full[i];
  }

  lemma {:induction false} ConsumeAllDescribes<P(!new), T(!new)>(parse: string -> Record<P, T>, lines: seq<string>)
    ensures ConsumeAll(parse, lines).Some? ==> Describes(parse, lines, ConsumeAll(parse, lines).value)
  {
    if lines == [] {
      assert Filter(lines, Nonblank) == [];
    } else {
      var n := |lines| - 1;
      hide Describes, Consume;
      ConsumeAllDescribes(parse, lines[..n]);
      assert lines == lines[..n] + [lines[n]];
      if ConsumeAll(parse, lines[..n]).Some? {
        DescribesStep(parse, lines[..n], ConsumeAll(parse, lines[..n]).value, lines[n]);
      }
    }
  }

  /** Any description of the lines plus one restricts to a description of the lines, from which
      consuming the line succeeds. */
  lemma DescribesBack<P(!new), T(!new)>(
      parse: string -> Record<P, T>, lines: seq<string>, line: string, st: State<P, T>)
    returns (before: State<P, T>)
    requires Describes(parse, lines + [line], st)
    ensures Describes(parse, lines, before) && Consume(parse, before, line) == Some(st)
  {
    hide D.Blank, Filter, Counted, Payloads;
    FilterSnoc(lines, line);
    var full := Filter(lines, Nonblank);
    var k := st.sequence;
    if !Nonblank(line) {
      before := st;
    } else {
      var n := if st.terminal.Some? then k else k - 1;
      assert n == |full| && (full + [line])[n] == line;
      CountedPrefix(parse, full, line, k, n);
      before := State(n, None, Payloads(parse, full, n));
    }
  }

  /** What a counted run of lines says about the lines before the last one. */
  lemma CountedPrefix<P(!new), T(!new)>(parse: string -> Record<P, T>, full: seq<string>, line: string, k: nat, n: nat)
    requires n == |full| && n <= k <= n + 1 && Counted(parse, full + [line], k)
    ensures Counted(parse, full, n)
    ensures k > n ==> parse(line).Progress? && parse(line).valid && parse(line).sequence == n + 1
    ensures Payloads(parse, full + [line], k) ==
            if k > n then Payloads(parse, full, n) + [parse(line).payload] else Payloads(parse, full, n)
  {
    var more := full + [line];
    assert forall i :: 0 <= i < n ==> more[i] == full[i];
    assert more[n] == line;
  }

  lemma {:induction false} DescribedConsumes<P(!new), T(!new)>(
      parse: string -> Record<P, T>, lines: seq<string>, st: State<P, T>)
    requires Describes(parse, lines, st)
    ensures ConsumeAll(parse, lines) == Some(st)
    decreases |lines|
  {
    if lines == [] {
      assert Filter(lines, Nonblank) == [];
    } else {
      hide Describes, Consume;
      var n := |lines| - 1;
      assert lines == lines[..n] + [lines[n]];
      var before := DescribesBack(parse, lines[..n], lines[n], st);
      DescribedConsumes(parse, lines[..n], before);
    }
  }

  /** A result is returned exactly when every line is within the limit, nothing but white space follows
      the last delimiter, and the nonblank lines are progress 1..n followed by that result record. */
  lemma ReturnedExactly<P(!new), T(!new)>(parse: string -> Record<P, T>, text: string, result: T)
    ensures WholeVerdict(parse, text) == Returned(result) <==>
            && Framed(text) && D.Blank(Tail(text))
            && var full := Filter(Lines(text), Nonblank);
               full != [] && Counted(parse, full, |full| - 1) && parse(full[|full| - 1]) == Done(result)
  {
    hide D.Blank, Filter, Lines, Tail, Framed, Consume, ConsumeAll;
    var lines := Lines(text);
    var full := Filter(lines, Nonblank);
    ConsumeAllDescribes(parse, lines);
    if full != [] && Counted(parse, full, |full| - 1) && parse(full[|full| - 1]) == Done(result) {
      var n := |full| - 1;
      DescribedConsumes(parse, lines, State(n, Some(Done(result)), Payloads(parse, full, n)));
    }
  }

  /** On success the callbacks are the payloads of all progress records, in order. */
  lemma SuccessCallbacks<P(!new), T(!new)>(parse: string -> Record<P, T>, text: string)
    requires WholeVerdict(parse, text).Returned?
    ensures var full := Filter(Lines(text), Nonblank);
            && full != [] && Counted(parse, full, |full| - 1)
            && Callbacks(parse, Lines(text)) == Payloads(parse, full, |full| - 1)
  {
    hide D.Blank, Filter, Lines, Tail, Framed, Consume, ConsumeAll;
    ConsumeAllDescribes(parse, Lines(text));
    CallbacksAfter(parse, Lines(text));
  }

  /** A failure is reported exactly under the same framing, with a failure record in the last place. */
  lemma ReportedExactly<P(!new), T(!new)>(parse: string -> Record<P, T>, text: string, code: int, message: string)
    ensures WholeVerdict(parse, text) == Reported(code, message) <==>
            && Framed(text) && D.Blank(Tail(text))
            && var full := Filter(Lines(text), Nonblank);
               full != [] && Counted(parse, full, |full| - 1) && parse(full[|full| - 1]) == Failure(code, message)
  {
    hide D.Blank, Filter, Lines, Tail, Framed, Consume, ConsumeAll;
    var lines := Lines(text);
    var full := Filter(lines, Nonblank);
    ConsumeAllDescribes(parse, lines);
    if full != [] && Counted(parse, full, |full| - 1) && parse(full[|full| - 1]) == Failure(code, message) {
      var n := |full| - 1;
      DescribedConsumes(parse, lines, State(n, Some(Failure(code, message)), Payloads(parse, full, n)));
    }
  }
}
