/** Resumable binary search for the block at which a contract's code appears. */
module ContractDeployment {
  import opened Common

  /** A saved value of unknown shape. */
  datatype Saved = NotAnObject | Object(absentBlock: Field, presentBlock: Field)

  /** absent is known to lack code (-1 stands before genesis); present None: the upper block is unchecked. */
  datatype Progress = Progress(absent: int, present: Option<int>)

  predicate BlockNumber(n: int) { SafeInteger(n) && n >= 0 }

  function ParseProgress(value: Saved, upper: int): Option<Progress> {
    if !BlockNumber(upper) then None
    else match value
      case NotAnObject => None
      case Object(Integer(absent), present) =>
        if !SafeInteger(absent) || absent < -1 then None
        else (match present
              case Null => if absent == -1 then Some(Progress(absent, None)) else None
              case NotAnInteger => None
              case Integer(p) =>
                if !SafeInteger(p) || p < 0 || p > upper || absent >= p then None else Some(Progress(absent, Some(p))))
      case Object(_, _) => None
  }

  /** How a checkpoint is written: a null field may be dropped, which reads back the same. */
  function Save(p: Progress): Saved {
    Object(Integer(p.absent), if p.present.Some? then Integer(p.present.value) else Null)
  }

  const FRESH := Progress(-1, None)

  /** Block -1 is the boundary before genesis and never has code. */
  predicate HasCode(code: int -> bool, block: int) { block >= 0 && code(block) }

  function Middle(absent: int, present: int): int { absent + (present - absent) / 2 }

  /** The block the search settles on. */
  function Settle(code: int -> bool, absent: int, present: int): int
    decreases present - absent
  {
    if present - absent <= 1 then present
    else if code(Middle(absent, present)) then Settle(code, absent, Middle(absent, present))
    else Settle(code, Middle(absent, present), present)
  }

  /** How many blocks it reads on the way. */
  function Probes(code: int -> bool, absent: int, present: int): nat
    decreases present - absent
  {
    if present - absent <= 1 then 0
    else if code(Middle(absent, present)) then 1 + Probes(code, absent, Middle(absent, present))
    else 1 + Probes(code, Middle(absent, present), present)
  }

  /** The block a whole call answers with when started from progress p. */
  function Answer(code: int -> bool, p: Progress, upper: int): int {
    Settle(code, p.absent, if p.present.Some? then p.present.value else upper)
  }

  predicate Truthful(code: int -> bool, p: Progress) {
    !HasCode(code, p.absent) && (p.present.Some? ==> HasCode(code, p.present.value))
  }

  predicate ValidProgress(p: Progress, upper: int) {
    && BlockNumber(upper) && -1 <= p.absent
    && match p.present
       case None => p.absent == -1
       case Some(b) => p.absent < b <= upper
  }

  // ---------------------------------------------------------------- saved progress

  /** Exactly the valid boundaries are accepted, and what is saved reads back. */
  lemma ParseExactly(value: Saved, upper: int, p: Progress)
    ensures ParseProgress(value, upper) == Some(p) <==> ValidProgress(p, upper) && value == Save(p)
  {
  }

  // ---------------------------------------------------------------- the answer

  /** The answer is a block with code whose predecessor has none, inside the given bounds. */
  lemma {:induction false} SettleBoundary(code: int -> bool, absent: int, present: int)
    requires -1 <= absent < present && !HasCode(code, absent) && HasCode(code, present)
    ensures var b := Settle(code, absent, present);
            absent < b <= present && HasCode(code, b) && !HasCode(code, b - 1)
    decreases present - absent
  {
    if present - absent > 1 {
      var m := Middle(absent, present);
      if code(m) { SettleBoundary(code, absent, m); } else { SettleBoundary(code, m, present); }
    }
  }

  predicate Continuous(code: int -> bool, upper: int) {
    forall i, j :: 0 <= i <= j <= upper && code(i) ==> code(j)
  }

  /** From truthful saved progress the answer is a deployment boundary; when code never disappears
      it is the first block with code. */
  lemma AnswerIsDeployment(code: int -> bool, p: Progress, upper: int)
    requires ValidProgress(p, upper) && Truthful(code, p) && code(upper)
    ensures var b := Answer(code, p, upper);
            && 0 <= b <= upper && HasCode(code, b) && !HasCode(code, b - 1)
            && (Continuous(code, upper) ==> forall i | 0 <= i < b :: !code(i))
  {
    hide Settle;
    var present := if p.present.Some? then p.present.value else upper;
    SettleBoundary(code, p.absent, present);
    var b := Answer(code, p, upper);
    if Continuous(code, upper) {
      forall i | 0 <= i < b ensures !code(i) { assert i <= b - 1 <= upper; }
    }
  }

  // ---------------------------------------------------------------- logarithmic cost

  /** Starting from a distance d, the search reads at most ceil(log2 d) and at least floor(log2 d) blocks. */
  lemma {:induction false} ProbesLogarithmic(code: int -> bool, absent: int, present: int, m: nat)
    requires absent < present
    ensures present - absent <= Pow2(m) ==> Probes(code, absent, present) <= m
    ensures present - absent >= Pow2(m) ==> Probes(code, absent, present) >= m
    decreases m
  {
    if m > 0 && present - absent > 1 {
      var mid := Middle(absent, present);
      ProbesLogarithmic(code, absent, mid, m - 1);
      ProbesLogarithmic(code, mid, present, m - 1);
    }
  }

  // ---------------------------------------------------------------- the loop

  /** What a call without saved progress starts from. */
  function Given(saved: Option<Saved>): Saved { if saved.Some? then saved.value else Save(FRESH) }

  /** A valid saved progress is where the call starts; without one it starts before genesis, unchecked. */
  lemma GivenExactly(saved: Option<Saved>, upper: int, p: Progress)
    ensures ParseProgress(Given(saved), upper) == Some(p) <==>
            ValidProgress(p, upper) && (if saved.Some? then saved.value == Save(p) else p == Progress(-1, None))
  {
    ParseExactly(Given(saved), upper, p);
    hide ParseProgress;
  }

  function PresentOf(p: Progress, upper: int): int { if p.present.Some? then p.present.value else upper }

  /** The upper block is read only when no saved bound already shows code. */
  function AllProbes(code: int -> bool, p: Progress, upper: int): nat {
    (if p.present.None? then 1 else 0) + Probes(code, p.absent, PresentOf(p, upper))
  }

  /** A checkpoint a later call may start from: it reads back as itself, leads to the same answer and
      claims nothing false unless the start already did. */
  predicate Resumable(code: int -> bool, start: Progress, upper: int, c: Progress) {
    && ParseProgress(Save(c), upper) == Some(c)
    && Answer(code, c, upper) == Answer(code, start, upper)
    && (Truthful(code, start) ==> Truthful(code, c))
  }

  predicate InRange(blocks: seq<int>, upper: int) { forall i :: 0 <= i < |blocks| ==> 0 <= blocks[i] <= upper }

  predicate AllResumable(code: int -> bool, start: Progress, upper: int, cs: seq<Progress>) {
    forall i :: 0 <= i < |cs| ==> Resumable(code, start, upper, cs[i])
  }

  /** After each read the checkpoint is one read nearer to the answer. */
  predicate Shrinking(code: int -> bool, all: nat, cs: seq<Progress>) {
    forall i :: 0 <= i < |cs| ==>
      cs[i].present.Some? && Probes(code, cs[i].absent, cs[i].present.value) == all - (i + 1)
  }

  /** The bounds after the reads so far. */
  function Known(start: Progress, cs: seq<Progress>): Progress { if cs == [] then start else cs[|cs| - 1] }

  predicate LowerMiddle(p: Progress, block: int) {
    p.present.Some? ==> 2 * block <= p.absent + p.present.value <= 2 * block + 1
  }

  /** Every read from known bounds is at the lower middle of them. */
  predicate Bisecting(start: Progress, cs: seq<Progress>, probed: seq<int>) {
    |cs| <= |probed| <= |cs| + 1 &&
    forall i :: 0 <= i < |probed| ==> LowerMiddle(Known(start, cs[..i]), probed[i])
  }

  lemma BisectingNone(start: Progress)
    ensures Bisecting(start, [], [])
  {
  }

  lemma BisectingMore(start: Progress, cs: seq<Progress>, probed: seq<int>, block: int, c: Progress)
    requires Bisecting(start, cs, probed) && |cs| == |probed| && LowerMiddle(Known(start, cs), block)
    ensures Bisecting(start, cs, probed + [block]) && Bisecting(start, cs + [c], probed + [block])
  {
    hide LowerMiddle, Known;
    var more := probed + [block];
    assert cs[..|probed|] == cs && (cs + [c])[..|probed|] == cs;
    assert forall i :: 0 <= i < |probed| ==> (cs + [c])[..i] == cs[..i];
  }

  lemma CheckpointResumes(code: int -> bool, start: Progress, upper: int, absent: int, present: int)
    requires BlockNumber(upper) && -1 <= absent < present <= upper
    requires Settle(code, absent, present) == Answer(code, start, upper)
    requires Truthful(code, start) ==> !HasCode(code, absent) && HasCode(code, present)
    ensures Resumable(code, start, upper, Progress(absent, Some(present)))
  {
    hide Settle;
    var c := Progress(absent, Some(present));
    ParseExactly(Save(c), upper, c);
  }

  /** The k-th read fails exactly when fails(k). A call ends in an error only for invalid input, for an
      upper block without code or for a failed read. Every checkpoint can be resumed from, at the cost of
      exactly the reads still missing, and a call that ends normally returns the answer after exactly the
      reads that answer takes. */
  method FindContractDeploymentBlock(code: int -> bool, fails: nat -> bool, upper: int, saved: Option<Saved>)
    returns (r: Result<int>, checkpoints: seq<Progress>, probed: seq<int>)
    ensures ParseProgress(Given(saved), upper).None? ==> r.Thrown? && checkpoints == [] && probed == []
    ensures InRange(probed, upper)
    ensures ParseProgress(Given(saved), upper).Some? ==>
              var start := ParseProgress(Given(saved), upper).value;
              && AllResumable(code, start, upper, checkpoints)
              && Shrinking(code, AllProbes(code, start, upper), checkpoints)
              && (start.present.None? ==> probed != [] && probed[0] == upper)
              && Bisecting(start, checkpoints, probed)
              && (r.Ok? ==> r.value == Answer(code, start, upper))
              && (r.Ok? ==> |probed| == |checkpoints| == AllProbes(code, start, upper))
              && (r.Ok? && start.present.None? ==> code(upper))
              && (r.Thrown? ==> |probed| == |checkpoints| + 1 <= AllProbes(code, start, upper)
                                && (fails(|probed| - 1) || (start.present.None? && probed == [upper] && !code(upper))))
  {
    hide ParseProgress, Settle, Probes, Resumable, Truthful, Middle, Bisecting, AllResumable, Shrinking, InRange;
    checkpoints, probed := [], [];
    BadUpper(saved, upper);
    NothingYet(code, FRESH, upper, 0);
    if !BlockNumber(upper) { return Thrown, [], []; }
    var begun := ParseProgress(Given(saved), upper);
    if begun.None? { return Thrown, [], []; }
    var start := begun.value;
    ParseExactly(Given(saved), upper, start);
    var absent, present := start.absent, PresentOf(start, upper);
    TruthfulBounds(code, start, upper);
    BisectingNone(start);
    NothingYet(code, start, upper, AllProbes(code, start, upper));
    if start.present.None? {
      BisectingMore(start, [], [], present, Progress(absent, Some(present)));
      assert [] + [present] == [present];
      assert [] + [Progress(absent, Some(present))] == [Progress(absent, Some(present))];
      ReadMore([], present, upper);
      probed := [present];
      if fails(0) || !code(present) { return Thrown, checkpoints, probed; }
      CheckpointResumes(code, start, upper, absent, present);
      OneMore(code, start, upper, [], AllProbes(code, start, upper), Progress(absent, Some(present)));
      checkpoints := [Progress(absent, Some(present))];
    }
    while present - absent > 1
      invariant -1 <= absent < present <= upper
      invariant Settle(code, absent, present) == Answer(code, start, upper)
      invariant |probed| + Probes(code, absent, present) == AllProbes(code, start, upper)
      invariant Truthful(code, start) ==> !HasCode(code, absent) && HasCode(code, present)
      invariant |probed| == |checkpoints| && InRange(probed, upper)
      invariant AllResumable(code, start, upper, checkpoints)
      invariant Shrinking(code, AllProbes(code, start, upper), checkpoints)
      invariant start.present.None? ==> probed != [] && probed[0] == upper
      invariant Bisecting(start, checkpoints, probed)
      invariant checkpoints != [] || start.present.Some? ==>
                  Known(start, checkpoints) == Progress(absent, Some(present))
      invariant start.present.None? ==> code(upper)
    {
      var middle := Middle(absent, present);
      HalfStep(code, absent, present);
      ghost var half := if code(middle) then Progress(absent, Some(middle)) else Progress(middle, Some(present));
      BisectingMore(start, checkpoints, probed, middle, half);
      ReadMore(probed, middle, upper);
      probed := probed + [middle];
      if fails(|probed| - 1) { return Thrown, checkpoints, probed; }
      if code(middle) { present := middle; } else { absent := middle; }
      CheckpointResumes(code, start, upper, absent, present);
      OneMore(code, start, upper, checkpoints, AllProbes(code, start, upper), Progress(absent, Some(present)));
      checkpoints := checkpoints + [Progress(absent, Some(present))];
    }
    SettledAtOne(code, absent, present);
    return Ok(present), checkpoints, probed;
  }

  lemma NothingYet(code: int -> bool, start: Progress, upper: int, all: nat)
    ensures InRange([], upper) && AllResumable(code, start, upper, []) && Shrinking(code, all, [])
  {
  }

  lemma ReadMore(probed: seq<int>, block: int, upper: int)
    requires InRange(probed, upper) && 0 <= block <= upper
    ensures InRange(probed + [block], upper)
  {
  }

  lemma OneMore(code: int -> bool, start: Progress, upper: int, cs: seq<Progress>, all: nat, c: Progress)
    requires AllResumable(code, start, upper, cs) && Shrinking(code, all, cs) && Resumable(code, start, upper, c)
    requires c.present.Some? && Probes(code, c.absent, c.present.value) == all - (|cs| + 1)
    ensures AllResumable(code, start, upper, cs + [c]) && Shrinking(code, all, cs + [c])
  {
    hide Resumable, Probes;
  }

  lemma BadUpper(saved: Option<Saved>, upper: int)
    ensures !BlockNumber(upper) ==> ParseProgress(Given(saved), upper).None?
  {
  }

  lemma TruthfulBounds(code: int -> bool, p: Progress, upper: int)
    requires BlockNumber(upper)
    ensures Truthful(code, p) ==>
              !HasCode(code, p.absent) && (p.present.Some? || code(upper) ==> HasCode(code, PresentOf(p, upper)))
  {
  }

  lemma SettledAtOne(code: int -> bool, absent: int, present: int)
    requires present - absent <= 1
    ensures Settle(code, absent, present) == present && Probes(code, absent, present) == 0
  {
  }

  lemma HalfStep(code: int -> bool, absent: int, present: int)
    requires present - absent > 1
    ensures var m := Middle(absent, present);
            && absent < m < present && 2 * m <= absent + present <= 2 * m + 1
            && Settle(code, absent, present) == (if code(m) then Settle(code, absent, m) else Settle(code, m, present))
            && Probes(code, absent, present) ==
               1 + (if code(m) then Probes(code, absent, m) else Probes(code, m, present))
  {
  }
}
