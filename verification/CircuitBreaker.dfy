/** The circuit breaker of shared/evm/rpc-resilience.ts. A call is a Begin step and an End step, so that any
    number of calls may be in flight at once. */
module CircuitBreaker {
  import opened Common

  datatype Config = Config(failureThreshold: int, openMs: int, halfOpenMaxRequests: int)

  function Threshold(c: Config): int { Max(1, c.failureThreshold) }

  function CoolDown(c: Config): int { Max(1, c.openMs) }

  function ProbeLimit(c: Config): int { Max(1, c.halfOpenMaxRequests) }

  datatype Phase = Closed | Open | HalfOpen

  datatype Breaker = Breaker(phase: Phase, failures: int, openedAt: int, inFlight: int, successes: int)

  const INITIAL := Breaker(Closed, 0, 0, 0, 0)

  /** What an attempt came to; `shouldRecordFailure` decides between the two failures. */
  datatype Outcome = Success | Recorded | Unrecorded

  datatype Admission = Refused | Plain | Probe

  function Opened(now: int): Breaker { Breaker(Open, 0, now, 0, 0) }

  function Reclosed(b: Breaker): Breaker { Breaker(Closed, 0, b.openedAt, 0, 0) }

  function Awaken(b: Breaker, c: Config, now: int): Breaker {
    if b.phase.Open? && now - b.openedAt >= CoolDown(c) then b.(phase := HalfOpen, inFlight := 0, successes := 0) else b
  }

  function Admit(b: Breaker, c: Config): Admission {
    match b.phase
    case Open => Refused
    case HalfOpen => if b.inFlight >= ProbeLimit(c) then Refused else Probe
    case Closed => Plain
  }

  function Admitted(b: Breaker, c: Config, now: int): Admission { Admit(Awaken(b, c, now), c) }

  function Begin(b: Breaker, c: Config, now: int): Breaker {
    var t := Awaken(b, c, now);
    if Admit(t, c).Probe? then t.(inFlight := t.inFlight + 1) else t
  }

  function EndPlain(b: Breaker, c: Config, o: Outcome, now: int): Breaker {
    match o
    case Success => b.(failures := 0)
    case Unrecorded => b
    case Recorded => if b.failures + 1 >= Threshold(c) then Opened(now) else b.(failures := b.failures + 1)
  }

  function EndProbe(b: Breaker, c: Config, o: Outcome, now: int): Breaker {
    var t := if o.Recorded? then Opened(now) else b;
    var u := t.(inFlight := Max(0, t.inFlight - 1));
    if !o.Success? then u
    else if u.successes + 1 >= ProbeLimit(c) && u.inFlight == 0 then Reclosed(u)
    else u.(successes := u.successes + 1)
  }

  function End(b: Breaker, c: Config, a: Admission, o: Outcome, now: int): Breaker {
    match a
    case Refused => b
    case Plain => EndPlain(b, c, o, now)
    case Probe => EndProbe(b, c, o, now)
  }

  // ---------------------------------------------------------------- every interleaving

  /** Calls in flight, by an identity of their own, with the way each was admitted. */
  datatype System = System(breaker: Breaker, running: map<int, Admission>)

  datatype Step = Start(call: int, now: int) | Finish(call: int, outcome: Outcome, now: int)

  function Apply(s: System, c: Config, step: Step): System {
    match step
    case Start(call, now) =>
      var a := Admitted(s.breaker, c, now);
      System(Begin(s.breaker, c, now), if a.Refused? then s.running else s.running[call := a])
    case Finish(call, o, now) =>
      if call !in s.running then s
      else System(End(s.breaker, c, s.running[call], o, now), s.running - {call})
  }

  function Run(s: System, c: Config, steps: seq<Step>): System
    decreases |steps|
  {
    if steps == [] then s else Run(Apply(s, c, steps[0]), c, steps[1..])
  }

  ghost predicate Sound(b: Breaker, c: Config) {
    && 0 <= b.inFlight <= ProbeLimit(c)
    && (!b.phase.HalfOpen? ==> b.inFlight == 0)
    && 0 <= b.failures < Threshold(c)
    && b.successes >= 0
    && (!b.phase.HalfOpen? ==> b.successes < ProbeLimit(c))
  }

  /** The counters stay in range in every interleaving of overlapping calls, at every clock. */
  lemma {:induction false} CountersSound(s: System, c: Config, steps: seq<Step>)
    requires Sound(s.breaker, c)
    ensures Sound(Run(s, c, steps).breaker, c)
    decreases |steps|
  {
    if steps != [] {
      StepSound(s, c, steps[0]);
      CountersSound(Apply(s, c, steps[0]), c, steps[1..]);
    }
  }

  lemma StepSound(s: System, c: Config, step: Step)
    requires Sound(s.breaker, c)
    ensures Sound(Apply(s, c, step).breaker, c)
  {
  }

  /** A step inside the cool-down that follows an opening: calls that start do so before it has passed, and
      calls that finish are ordinary ones, at or after the opening. */
  ghost predicate InCoolDown(s: System, c: Config, at: int, step: Step) {
    match step
    case Start(_, now) => now - at < CoolDown(c)
    case Finish(call, _, now) => now >= at && (call in s.running ==> s.running[call].Plain?)
  }

  ghost predicate CoolingRun(s: System, c: Config, at: int, steps: seq<Step>)
    decreases |steps|
  {
    steps == [] || (InCoolDown(s, c, at, steps[0]) && CoolingRun(Apply(s, c, steps[0]), c, at, steps[1..]))
  }

  /** Whatever ordinary calls are still in flight and however they end, the circuit stays open and nothing
      is admitted before the cool-down has passed. */
  lemma {:induction false} NothingStartsInCoolDown(s: System, c: Config, at: int, steps: seq<Step>)
    requires s.breaker.phase.Open? && s.breaker.openedAt >= at && CoolingRun(s, c, at, steps)
    ensures var t := Run(s, c, steps);
            t.breaker.phase.Open? && t.breaker.openedAt >= at && t.running.Keys <= s.running.Keys
    decreases |steps|
  {
    if steps != [] { NothingStartsInCoolDown(Apply(s, c, steps[0]), c, at, steps[1..]); }
  }

  lemma RunCons(s: System, c: Config, step: Step, rest: seq<Step>)
    ensures Run(s, c, [step] + rest) == Run(Apply(s, c, step), c, rest)
  {
    assert ([step] + rest)[1..] == rest;
  }

  const LONE := Config(1, 1000, 1)

  /** Two ordinary calls overlap; the first fails and opens the circuit, a probe starts after the cool-down, then
      the second ordinary call fails late and re-opens the circuit under the running probe. */
  const LATE_FAILURE := [Start(1, 0), Start(2, 0), Finish(1, Recorded, 0), Start(3, 1000), Finish(2, Recorded, 1001)]

  lemma LateFailure()
    ensures Run(System(INITIAL, map[]), LONE, LATE_FAILURE) == System(Opened(1001), map[3 := Probe])
  {
    var s0 := System(INITIAL, map[]);
    var s1 := Apply(s0, LONE, Start(1, 0));
    var s2 := Apply(s1, LONE, Start(2, 0));
    var s3 := Apply(s2, LONE, Finish(1, Recorded, 0));
    var s4 := Apply(s3, LONE, Start(3, 1000));
    var s5 := Apply(s4, LONE, Finish(2, Recorded, 1001));
    assert s5 == System(Opened(1001), map[3 := Probe]);
    RunCons(s4, LONE, Finish(2, Recorded, 1001), []);
    RunCons(s3, LONE, Start(3, 1000), [Finish(2, Recorded, 1001)]);
    RunCons(s2, LONE, Finish(1, Recorded, 0), [Start(3, 1000), Finish(2, Recorded, 1001)]);
    RunCons(s1, LONE, Start(2, 0), [Finish(1, Recorded, 0), Start(3, 1000), Finish(2, Recorded, 1001)]);
    RunCons(s0, LONE, Start(1, 0), [Start(2, 0), Finish(1, Recorded, 0), Start(3, 1000), Finish(2, Recorded, 1001)]);
  }

  /** With overlapping calls an open circuit can close before its cool-down has passed. */
  lemma LateProbeClosesEarly()
    ensures
      var s := Run(System(INITIAL, map[]), LONE, LATE_FAILURE);
      && s.breaker == Opened(1001)
      && Apply(s, LONE, Finish(3, Success, 1002)).breaker.phase == Closed
  {
    LateFailure();
  }

  /** Exactly when a finishing call takes an open circuit to closed: it is a successful probe left over from an
      earlier half-open phase, and it supplies the last success needed. */
  lemma OpenClosesExactly(s: System, c: Config, step: Step)
    requires Sound(s.breaker, c) && s.breaker.phase.Open?
    ensures Apply(s, c, step).breaker.phase.Closed? <==>
      && step.Finish? && step.call in s.running && s.running[step.call].Probe?
      && step.outcome.Success? && s.breaker.successes + 1 >= ProbeLimit(c)
  {
  }

  /** Exactly when a half-open circuit closes: a successful probe finishes, it supplies the last success needed
      and no other probe is counted as in flight. An ordinary result never closes it. */
  lemma HalfOpenClosesExactly(s: System, c: Config, step: Step)
    requires s.breaker.phase.HalfOpen?
    ensures Apply(s, c, step).breaker.phase.Closed? <==>
      && step.Finish? && step.call in s.running && s.running[step.call].Probe?
      && step.outcome.Success? && s.breaker.successes + 1 >= Max(1, c.halfOpenMaxRequests) && s.breaker.inFlight <= 1
  {
  }

  /** The phase after every step of every interleaving. A call that starts can only wake an open circuit whose
      cool-down has passed; an ordinary result can only open it, and only as the last failure needed; a probe
      opens it on a recorded failure, closes it on the last success needed, and otherwise leaves it. */
  lemma PhaseExactly(s: System, c: Config, step: Step)
    ensures var b, phase := s.breaker, Apply(s, c, step).breaker.phase;
      match step
      case Start(_, now) => phase == if b.phase.Open? && now - b.openedAt >= Max(1, c.openMs) then HalfOpen else b.phase
      case Finish(call, outcome, _) =>
        if call !in s.running || s.running[call].Refused? then phase == b.phase
        else if s.running[call].Plain? then
          phase == if outcome.Recorded? && b.failures + 1 >= Max(1, c.failureThreshold) then Open else b.phase
        else
          phase ==
            if outcome.Recorded? then Open
            else if outcome.Success? && b.successes + 1 >= Max(1, c.halfOpenMaxRequests) && b.inFlight <= 1 then Closed
            else b.phase
  {
  }

  /** What happens to the counters in every interleaving. Waking starts a half-open phase with one probe in
      flight and no success; opening and closing clear everything; otherwise an ordinary result touches the
      failures alone and a probe gives back its slot, if any is counted, and counts its success. */
  lemma CountersExactly(s: System, c: Config, step: Step)
    requires Sound(s.breaker, c)
    ensures var b, t := s.breaker, Apply(s, c, step).breaker;
      match step
      case Start(_, now) =>
        if b.phase.Open? && t.phase.HalfOpen? then t == Breaker(HalfOpen, b.failures, b.openedAt, 1, 0)
        else if b.phase.HalfOpen? && b.inFlight < Max(1, c.halfOpenMaxRequests) then t == b.(inFlight := b.inFlight + 1)
        else t == b
      case Finish(call, outcome, now) =>
        if call !in s.running || s.running[call].Refused? then t == b
        else if s.running[call].Plain? then
          match outcome
          case Success => t == b.(failures := 0)
          case Unrecorded => t == b
          case Recorded =>
            if b.failures + 1 < Max(1, c.failureThreshold) then t == b.(failures := b.failures + 1)
            else t == Breaker(Open, 0, now, 0, 0)
        else
          var left := if b.inFlight == 0 then 0 else b.inFlight - 1;
          match outcome
          case Recorded => t == Breaker(Open, 0, now, 0, 0)
          case Unrecorded => t == b.(inFlight := left)
          case Success =>
            if t.phase.Closed? && left == 0 && b.successes + 1 >= Max(1, c.halfOpenMaxRequests)
            then t == Breaker(Closed, 0, b.openedAt, 0, 0)
            else t == b.(inFlight := left, successes := b.successes + 1)
  {
  }

  // ---------------------------------------------------------------- probe concurrency

  ghost function ProbesIn(s: System): set<int> { set k | k in s.running && s.running[k].Probe? }

  /** No probe has outlived the half-open phase that admitted it. */
  ghost predicate Tidy(s: System) { !s.breaker.phase.HalfOpen? ==> ProbesIn(s) == {} }

  ghost predicate Counted(s: System, c: Config) {
    && Sound(s.breaker, c) && Tidy(s)
    && (s.breaker.phase.HalfOpen? ==> s.breaker.inFlight == |ProbesIn(s)|)
  }

  ghost predicate TidyRun(s: System, c: Config, steps: seq<Step>)
    decreases |steps|
  {
    steps == [] ||
    (&& (steps[0].Start? ==> steps[0].call !in s.running)
     && Tidy(Apply(s, c, steps[0])) && TidyRun(Apply(s, c, steps[0]), c, steps[1..]))
  }

  lemma ProbesAfter(s: System, c: Config, step: Step)
    requires step.Start? ==> step.call !in s.running
    ensures step.Start? ==>
              (ProbesIn(Apply(s, c, step)) ==
               ProbesIn(s) + (if Admitted(s.breaker, c, step.now).Probe? then {step.call} else {}))
    ensures step.Finish? ==> ProbesIn(Apply(s, c, step)) == ProbesIn(s) - {step.call}
  {
    hide Admitted, Begin, End;
  }

  lemma StepCounted(s: System, c: Config, step: Step)
    requires Counted(s, c) && Tidy(Apply(s, c, step)) && (step.Start? ==> step.call !in s.running)
    ensures Counted(Apply(s, c, step), c)
  {
    hide ProbesIn;
    StepSound(s, c, step);
    ProbesAfter(s, c, step);
    if step.Start? { NotYetProbing(s, step.call); } else { ProbeRunning(s, step.call); }
  }

  lemma NotYetProbing(s: System, call: int)
    requires call !in s.running
    ensures |ProbesIn(s) + {call}| == |ProbesIn(s)| + 1 && ProbesIn(s) + {} == ProbesIn(s)
  {
  }

  lemma ProbeRunning(s: System, call: int)
    ensures |ProbesIn(s) - {call}| ==
              |ProbesIn(s)| - (if call in s.running && s.running[call].Probe? then 1 else 0)
  {
    if !(call in s.running && s.running[call].Probe?) { assert ProbesIn(s) - {call} == ProbesIn(s); }
  }

  /** As long as no probe outlives its phase, the counter is exactly the number of probes in flight, so at most
      the configured number of probes run at once. */
  lemma {:induction false} TidyWithinLimit(s: System, c: Config, steps: seq<Step>)
    requires Counted(s, c) && TidyRun(s, c, steps)
    ensures |ProbesIn(Run(s, c, steps))| <= ProbeLimit(c)
    decreases |steps|
  {
    if steps != [] {
      StepCounted(s, c, steps[0]);
      TidyWithinLimit(Apply(s, c, steps[0]), c, steps[1..]);
    }
  }

  ghost predicate FreshCalls(s: System, c: Config, steps: seq<Step>)
    decreases |steps|
  {
    steps == [] ||
    ((steps[0].Start? ==> steps[0].call !in s.running) && FreshCalls(Apply(s, c, steps[0]), c, steps[1..]))
  }

  /** The step starts a call while the probes in flight fill the limit, the circuit is half-open for that
      call, and the counter shows fewer probes than there are. */
  ghost predicate Overbooks(s: System, c: Config, step: Step) {
    && step.Start? && |ProbesIn(s)| == ProbeLimit(c)
    && var b := Awaken(s.breaker, c, step.now);
       b.phase.HalfOpen? && b.inFlight < |ProbesIn(s)|
  }

  /** One step takes the probes in flight over the limit exactly when it overbooks. */
  lemma ExceedsExactly(s: System, c: Config, step: Step)
    requires Sound(s.breaker, c) && |ProbesIn(s)| <= ProbeLimit(c) && (step.Start? ==> step.call !in s.running)
    ensures |ProbesIn(Apply(s, c, step))| > ProbeLimit(c) <==> Overbooks(s, c, step)
  {
    hide ProbesIn, End;
    ProbesAfter(s, c, step);
    if step.Start? { NotYetProbing(s, step.call); } else { ProbeRunning(s, step.call); }
  }

  /** Some step of the run overbooks. */
  ghost predicate OverbooksIn(s: System, c: Config, steps: seq<Step>)
    decreases |steps|
  {
    steps != [] && (Overbooks(s, c, steps[0]) || OverbooksIn(Apply(s, c, steps[0]), c, steps[1..]))
  }

  /** Every state along the run is within the limit. */
  ghost predicate LimitKept(s: System, c: Config, steps: seq<Step>)
    decreases |steps|
  {
    |ProbesIn(s)| <= ProbeLimit(c) && (steps == [] || LimitKept(Apply(s, c, steps[0]), c, steps[1..]))
  }

  /** A run of overlapping calls stays within the probe limit exactly when none of its steps overbooks. */
  lemma {:induction false} ProbesWithinLimit(s: System, c: Config, steps: seq<Step>)
    requires Sound(s.breaker, c) && |ProbesIn(s)| <= ProbeLimit(c) && FreshCalls(s, c, steps)
    ensures LimitKept(s, c, steps) <==> !OverbooksIn(s, c, steps)
    decreases |steps|
  {
    hide ProbesIn, Apply, Overbooks;
    if steps != [] {
      var t := Apply(s, c, steps[0]);
      ExceedsExactly(s, c, steps[0]);
      StepSound(s, c, steps[0]);
      if |ProbesIn(t)| <= ProbeLimit(c) { ProbesWithinLimit(t, c, steps[1..]); }
    }
  }

  /** Probes that were still in flight when the current half-open phase began: outside half-open, all that
      are in flight; during the phase, however many there were at its start. */
  ghost function LeftOver(s: System, left: nat): nat {
    if s.breaker.phase.HalfOpen? then left else |ProbesIn(s)|
  }

  ghost function LeftOverAfter(s: System, c: Config, steps: seq<Step>, left: nat): nat
    decreases |steps|
  {
    if steps == [] then LeftOver(s, left)
    else LeftOverAfter(Apply(s, c, steps[0]), c, steps[1..], LeftOver(Apply(s, c, steps[0]), LeftOver(s, left)))
  }

  /** The counter never shows more probes than there are, and misses at most the left-over ones. */
  ghost predicate Tallied(s: System, left: nat) {
    s.breaker.inFlight <= |ProbesIn(s)| <= s.breaker.inFlight + LeftOver(s, left)
  }

  lemma StartTallied(s: System, c: Config, step: Step, left: nat)
    requires Sound(s.breaker, c) && Tallied(s, left) && step.Start? && step.call !in s.running
    ensures Tallied(Apply(s, c, step), LeftOver(s, left))
  {
    hide ProbesIn, End;
    ProbesAfter(s, c, step);
    NotYetProbing(s, step.call);
  }

  lemma FinishTallied(s: System, c: Config, step: Step, left: nat)
    requires Sound(s.breaker, c) && Tallied(s, left) && step.Finish?
    ensures Tallied(Apply(s, c, step), LeftOver(s, left))
  {
    hide ProbesIn, Begin, Admitted, Threshold;
    ProbesAfter(s, c, step);
    ProbeRunning(s, step.call);
  }

  lemma StepTallied(s: System, c: Config, step: Step, left: nat)
    requires Sound(s.breaker, c) && Tallied(s, left) && (step.Start? ==> step.call !in s.running)
    ensures Tallied(Apply(s, c, step), LeftOver(s, left))
  {
    hide *;
    if step.Start? { StartTallied(s, c, step, left); } else { FinishTallied(s, c, step, left); }
  }

  /** In every interleaving the probes in flight number at least what the counter shows and at most the limit
      plus those left over from before the current half-open phase. */
  lemma {:induction false} ProbesBounded(s: System, c: Config, steps: seq<Step>, left: nat)
    requires Sound(s.breaker, c) && Tallied(s, left) && FreshCalls(s, c, steps)
    ensures var t := Run(s, c, steps);
            && t.breaker.inFlight <= |ProbesIn(t)| <= ProbeLimit(c) + LeftOverAfter(s, c, steps, left)
            && (t.breaker.phase.HalfOpen? ==> |ProbesIn(t)| <= t.breaker.inFlight + LeftOverAfter(s, c, steps, left))
    decreases |steps|
  {
    hide ProbesIn, Apply;
    if steps != [] {
      StepSound(s, c, steps[0]);
      StepTallied(s, c, steps[0], left);
      ProbesBounded(Apply(s, c, steps[0]), c, steps[1..], LeftOver(Apply(s, c, steps[0]), LeftOver(s, left)));
    }
  }

  /** From a fresh breaker nothing is left over to begin with. */
  lemma InitialTallied(c: Config)
    ensures Sound(INITIAL, c) && Tallied(System(INITIAL, map[]), 0)
  {
    assert ProbesIn(System(INITIAL, map[])) == {};
  }

  /** A probe that does outlive its phase gives back a slot it no longer holds: two probes then run under a
      limit of one. */
  lemma LateProbeFreesSlot()
    ensures
      var s := Run(System(INITIAL, map[]), LONE, LATE_FAILURE);
      var t := Apply(Apply(Apply(s, LONE, Start(4, 2001)), LONE, Finish(3, Unrecorded, 2002)), LONE, Start(5, 2003));
      ProbeLimit(LONE) == 1 && ProbesIn(t) == {4, 5}
  {
    LateFailure();
  }

  // ---------------------------------------------------------------- opening under overlap

  /** Outcomes of the calls that finish, in the order in which they finish. */
  function Results(s: System, c: Config, steps: seq<Step>): seq<Outcome>
    decreases |steps|
  {
    if steps == [] then []
    else
      (if steps[0].Finish? && steps[0].call in s.running then [steps[0].outcome] else [])
      + Results(Apply(s, c, steps[0]), c, steps[1..])
  }

  /** Recorded failures at the end of a list of results, since its last success. */
  function FailuresAtEnd(before: nat, results: seq<Outcome>): nat
    decreases |results|
  {
    if results == [] then before
    else
      var f := match results[0] case Success => 0 case Unrecorded => before case Recorded => before + 1;
      FailuresAtEnd(f, results[1..])
  }

  ghost predicate AllPlain(s: System) { forall k :: k in s.running ==> s.running[k].Plain? }

  /** A closed circuit with this many recorded failures, and only ordinary calls in flight. */
  ghost predicate ClosedWith(s: System, failures: nat) {
    s.breaker.phase.Closed? && s.breaker.failures == failures && AllPlain(s)
  }

  /** The results so far never reach the threshold. */
  predicate BelowThreshold(c: Config, before: nat, results: seq<Outcome>) {
    forall i :: 0 <= i <= |results| ==> FailuresAtEnd(before, results[..i]) < Threshold(c)
  }

  lemma ClosedStep(s: System, c: Config, step: Step, f: nat)
    requires ClosedWith(s, f) && f < Threshold(c)
    ensures var t := Apply(s, c, step);
            if step.Finish? && step.call in s.running then
              var g := FailuresAtEnd(f, [step.outcome]);
              if g < Threshold(c) then ClosedWith(t, g) else t.breaker == Opened(step.now)
            else ClosedWith(t, f)
  {
    if step.Finish? { assert [step.outcome][1..] == []; }
  }

  lemma BelowCons(c: Config, f: nat, o: Outcome, rest: seq<Outcome>)
    requires BelowThreshold(c, f, [o] + rest)
    ensures FailuresAtEnd(f, [o]) < Threshold(c) && BelowThreshold(c, FailuresAtEnd(f, [o]), rest)
    ensures FailuresAtEnd(f, [o] + rest) == FailuresAtEnd(FailuresAtEnd(f, [o]), rest)
  {
    hide FailuresAtEnd, Threshold;
    var all := [o] + rest;
    var g := FailuresAtEnd(f, [o]);
    FailuresCons(f, o, rest);
    assert all[..1] == [o];
    forall i | 0 <= i <= |rest| ensures FailuresAtEnd(g, rest[..i]) < Threshold(c) {
      FailuresCons(f, o, rest[..i]);
      assert all[..i + 1] == [o] + rest[..i];
    }
  }

  lemma FailuresCons(f: nat, o: Outcome, rest: seq<Outcome>)
    ensures FailuresAtEnd(f, [o] + rest) == FailuresAtEnd(FailuresAtEnd(f, [o]), rest)
  {
    var all := [o] + rest;
    assert all[0] == o && all[1..] == rest && [o][1..] == [];
    assert FailuresAtEnd(f, [o]) ==
      match o case Success => 0 case Unrecorded => f case Recorded => f + 1;
  }

  /** Overlap changes nothing about a closed circuit: as long as the results, in the order in which they come
      in, stay below the threshold, it stays closed, counts the recorded failures since the last success and
      admits every call as an ordinary one. */
  lemma {:induction false} StaysClosed(s: System, c: Config, steps: seq<Step>, f: nat)
    requires ClosedWith(s, f) && BelowThreshold(c, f, Results(s, c, steps))
    ensures ClosedWith(Run(s, c, steps), FailuresAtEnd(f, Results(s, c, steps)))
    decreases |steps|
  {
    if steps != [] {
      var step, t := steps[0], Apply(s, c, steps[0]);
      var rest := Results(t, c, steps[1..]);
      assert Results(s, c, steps)[..0] == [];
      assert f < Threshold(c);
      ClosedStep(s, c, step, f);
      hide Apply, ClosedWith, BelowThreshold, FailuresAtEnd;
      if step.Finish? && step.call in s.running {
        BelowCons(c, f, step.outcome, rest);
        StaysClosed(t, c, steps[1..], FailuresAtEnd(f, [step.outcome]));
      } else {
        assert [] + rest == rest;
        StaysClosed(t, c, steps[1..], f);
      }
    }
  }

  /** And it opens exactly on the result that brings the recorded failures since the last success to the
      threshold, at the reading of that result. */
  lemma OpensOnThreshold(s: System, c: Config, steps: seq<Step>, f: nat, step: Step)
    requires ClosedWith(s, f) && BelowThreshold(c, f, Results(s, c, steps))
    ensures var t := Run(s, c, steps);
            var g := FailuresAtEnd(f, Results(s, c, steps));
            var opens := step.Finish? && step.call in t.running && step.outcome.Recorded? && g + 1 >= Threshold(c);
            && (opens ==> Apply(t, c, step).breaker == Opened(step.now))
            && (!opens ==> Apply(t, c, step).breaker.phase.Closed?)
  {
    StaysClosed(s, c, steps, f);
    var t, g := Run(s, c, steps), FailuresAtEnd(f, Results(s, c, steps));
    var results := Results(s, c, steps);
    assert results[..|results|] == results;
    hide Run, Results;
    ClosedStep(t, c, step, g);
  }

  // ---------------------------------------------------------------- calls one after another

  datatype Call = Call(begin: int, end: int, outcome: Outcome)

  function One(b: Breaker, c: Config, k: Call): Breaker {
    End(Begin(b, c, k.begin), c, Admitted(b, c, k.begin), k.outcome, k.end)
  }

  function All(b: Breaker, c: Config, ks: seq<Call>): Breaker {
    if ks == [] then b else One(All(b, c, ks[..|ks| - 1]), c, ks[|ks| - 1])
  }

  /** Recorded failures since the last success. */
  function Trailing(ks: seq<Call>): nat {
    if ks == [] then 0
    else
      var n := |ks| - 1;
      match ks[n].outcome
      case Success => 0
      case Unrecorded => Trailing(ks[..n])
      case Recorded => Trailing(ks[..n]) + 1
  }

  function Successes(ks: seq<Call>): nat {
    if ks == [] then 0
    else Successes(ks[..|ks| - 1]) + (if ks[|ks| - 1].outcome.Success? then 1 else 0)
  }

  ghost predicate NoneRecorded(ks: seq<Call>) { forall i :: 0 <= i < |ks| ==> !ks[i].outcome.Recorded? }

  /** From closed, the circuit opens exactly on the threshold-th recorded failure since the last success. */
  lemma {:induction false} OpensExactly(b: Breaker, c: Config, ks: seq<Call>)
    requires b.phase.Closed? && b.failures == 0 && b.inFlight == 0
    requires forall i :: 0 <= i < |ks| ==> Trailing(ks[..i]) < Threshold(c)
    ensures Trailing(ks) < Threshold(c) ==> All(b, c, ks) == b.(failures := Trailing(ks))
    ensures Trailing(ks) >= Threshold(c) ==>
              ks != [] && Trailing(ks) == Threshold(c) && All(b, c, ks) == Opened(ks[|ks| - 1].end)
  {
    if ks != [] {
      var n := |ks| - 1;
      forall i | 0 <= i < n ensures ks[..n][..i] == ks[..i] {}
      OpensExactly(b, c, ks[..n]);
      assert Trailing(ks[..n]) < Threshold(c);
    }
  }

  /** Until it opens, every call runs. */
  lemma RunsUntilOpen(b: Breaker, c: Config, ks: seq<Call>, now: int)
    requires b.phase.Closed? && b.failures == 0 && b.inFlight == 0
    requires forall i :: 0 <= i <= |ks| ==> Trailing(ks[..i]) < Threshold(c)
    ensures Admitted(All(b, c, ks), c, now) == Plain
  {
    assert ks[..|ks|] == ks;
    OpensExactly(b, c, ks);
  }

  /** While the cool-down lasts nothing runs and nothing changes. */
  lemma {:induction false} CoolDownIsQuiet(c: Config, at: int, ks: seq<Call>)
    requires forall i :: 0 <= i < |ks| ==> ks[i].begin - at < CoolDown(c)
    ensures All(Opened(at), c, ks) == Opened(at)
  {
    if ks != [] { CoolDownIsQuiet(c, at, ks[..|ks| - 1]); }
  }

  /** Half-open, once the cool-down has passed. */
  function Probing(at: int, successes: int): Breaker { Breaker(HalfOpen, 0, at, 0, successes) }

  /** Calls from the end of the cool-down on find a breaker that is half-open with no success yet. */
  lemma {:induction false} AwakensAfterCoolDown(c: Config, at: int, ks: seq<Call>)
    requires ks != [] && ks[0].begin - at >= CoolDown(c)
    ensures All(Opened(at), c, ks) == All(Probing(at, 0), c, ks)
    ensures Admitted(Opened(at), c, ks[0].begin) == Probe
  {
    if |ks| > 1 { AwakensAfterCoolDown(c, at, ks[..|ks| - 1]); }
  }

  /** From half-open, the circuit closes exactly after the probe limit of successes with no recorded failure in
      between; a recorded failure before that re-opens it at once, and every call until then is a probe. */
  lemma {:induction false} ClosesExactly(c: Config, at: int, ks: seq<Call>)
    requires forall i :: 0 <= i < |ks| ==> Successes(ks[..i]) < ProbeLimit(c)
    requires ks != [] ==> NoneRecorded(ks[..|ks| - 1])
    ensures ks != [] && ks[|ks| - 1].outcome.Recorded? ==> All(Probing(at, 0), c, ks) == Opened(ks[|ks| - 1].end)
    ensures NoneRecorded(ks) && Successes(ks) < ProbeLimit(c) ==>
              All(Probing(at, 0), c, ks) == Probing(at, Successes(ks))
    ensures NoneRecorded(ks) && Successes(ks) >= ProbeLimit(c) ==>
              Successes(ks) == ProbeLimit(c) && All(Probing(at, 0), c, ks) == Reclosed(Probing(at, 0))
    ensures forall i :: 0 <= i < |ks| ==> Admitted(All(Probing(at, 0), c, ks[..i]), c, ks[i].begin) == Probe
  {
    if ks != [] {
      var n := |ks| - 1;
      forall i | 0 <= i < n ensures ks[..n][..i] == ks[..i] {}
      if n > 0 { assert ks[..n][..n - 1] == ks[..n - 1]; }
      ClosesExactly(c, at, ks[..n]);
      assert Successes(ks[..n]) < ProbeLimit(c);
      forall i | 0 <= i <= n ensures Admitted(All(Probing(at, 0), c, ks[..i]), c, ks[i].begin) == Probe {
        if i < n { assert ks[..n][..i] == ks[..i] && ks[..n][i] == ks[i]; }
      }
    }
  }
}
