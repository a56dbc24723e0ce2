/** Any number of migration runners over one shared database, as a state machine over their steps. */
module Migrations {
  import opened Common
  import opened Sequences

  const MAX_ATTEMPTS := 3

  /** Checking reads the table without a lock. InTransaction(n) is the n-th attempt to enter the write
      transaction that looks again and applies the file. */
  datatype Phase = Checking | InTransaction(attempt: nat) | Finished | Failed

  datatype Runner = Runner(index: nat, phase: Phase)

  /** table: committed names. log: files whose SQL took effect, in commit order. */
  datatype World = World(table: set<string>, log: seq<string>, runners: seq<Runner>)

  datatype Step =
    | Check(r: nat)                      // hasRun outside the transaction, or the end of the loop
    | Commit(r: nat)                     // the whole write transaction, atomically
    | Busy(r: nat, rolledBack: bool)     // the attempt met a busy database and left no effect
    | Abort(r: nat)                      // any other error, or the process dies: no effect

  predicate Enabled(w: World, step: Step) {
    step.r < |w.runners| &&
    match step
    case Check(r) => w.runners[r].phase.Checking?
    case Commit(r) => w.runners[r].phase.InTransaction?
    case Busy(r, _) => w.runners[r].phase.InTransaction?
    case Abort(r) => w.runners[r].phase.Checking? || w.runners[r].phase.InTransaction?
  }

  function NextFile(i: nat): Runner { Runner(i + 1, Checking) }

  /** One runner's own change; the file list is the same for every runner. */
  function Moved(files: seq<string>, table: set<string>, runner: Runner, step: Step): Runner {
    match step
    case Check(_) =>
      if runner.index >= |files| then runner.(phase := Finished)
      else if files[runner.index] in table then NextFile(runner.index)
      else runner.(phase := InTransaction(1))
    case Commit(_) => NextFile(runner.index)
    case Busy(_, rolledBack) =>
      if rolledBack && runner.phase.InTransaction? && runner.phase.attempt < MAX_ATTEMPTS
      then runner.(phase := InTransaction(runner.phase.attempt + 1))
      else runner.(phase := Failed)
    case Abort(_) => runner.(phase := Failed)
  }

  /** A committing transaction looks again under the lock and applies the file only if it is new. */
  predicate Applies(files: seq<string>, w: World, step: Step)
    requires Enabled(w, step)
  {
    step.Commit? && w.runners[step.r].index < |files| && files[w.runners[step.r].index] !in w.table
  }

  function Do(files: seq<string>, w: World, step: Step): World
    requires Enabled(w, step)
  {
    var runner := w.runners[step.r];
    var runners := w.runners[step.r := Moved(files, w.table, runner, step)];
    if Applies(files, w, step) then World(w.table + {files[runner.index]}, w.log + [files[runner.index]], runners)
    else World(w.table, w.log, runners)
  }

  function Initial(start: set<string>, n: nat): World {
    World(start, [], seq(n, _ => Runner(0, Checking)))
  }

  predicate IsRun(files: seq<string>, w: World, steps: seq<Step>)
    decreases |steps|
  {
    steps == [] || (Enabled(w, steps[0]) && IsRun(files, Do(files, w, steps[0]), steps[1..]))
  }

  function After(files: seq<string>, w: World, steps: seq<Step>): World
    requires IsRun(files, w, steps)
    decreases |steps|
  {
    if steps == [] then w else After(files, Do(files, w, steps[0]), steps[1..])
  }

  lemma {:induction false} AfterSnoc(files: seq<string>, w: World, steps: seq<Step>, step: Step)
    requires IsRun(files, w, steps) && Enabled(After(files, w, steps), step)
    ensures IsRun(files, w, steps + [step])
    ensures After(files, w, steps + [step]) == Do(files, After(files, w, steps), step)
    decreases |steps|
  {
    hide Enabled, Do;
    var all := steps + [step];
    if steps == [] {
      assert all[1..] == [];
      assert IsRun(files, Do(files, w, step), all[1..]);
    } else {
      assert all[1..] == steps[1..] + [step];
      AfterSnoc(files, Do(files, w, steps[0]), steps[1..], step);
    }
  }

  // ---------------------------------------------------------------- the invariant

  predicate Distinct(xs: seq<string>) { forall i, j :: 0 <= i < j < |xs| ==> xs[i] != xs[j] }

  function SetOf(xs: seq<string>): set<string> { set x | x in xs }

  function NotIn(start: set<string>): string -> bool { f => f !in start }

  /** The files the starting table lacks, in file order. */
  function Missing(files: seq<string>, start: set<string>): seq<string> { Filter(files, NotIn(start)) }

  predicate RunnerOk(files: seq<string>, table: set<string>, runner: Runner) {
    && runner.index <= |files|
    && SetOf(files[..runner.index]) <= table
    && (runner.phase.InTransaction? ==> runner.index < |files| && 1 <= runner.phase.attempt <= MAX_ATTEMPTS)
    && (runner.phase.Finished? ==> runner.index == |files|)
  }

  predicate Inv(files: seq<string>, start: set<string>, w: World) {
    && w.table == start + SetOf(w.log)
    && w.log <= Missing(files, start)
    && forall r :: 0 <= r < |w.runners| ==> RunnerOk(files, w.table, w.runners[r])
  }

  lemma {:induction false} DistinctFilter(xs: seq<string>, p: string -> bool)
    requires Distinct(xs)
    ensures Distinct(Filter(xs, p))
  {
    if xs != [] {
      var n := |xs| - 1;
      DistinctFilter(xs[..n], p);
      var rest := Filter(xs[..n], p);
      assert xs[n] !in xs[..n];
      assert forall i :: 0 <= i < |rest| ==> rest[i] in rest;
    }
  }

  lemma {:induction false} FilterPrefix(xs: seq<string>, p: string -> bool, i: nat)
    requires i <= |xs|
    ensures Filter(xs[..i], p) <= Filter(xs, p)
    decreases |xs| - i
  {
    if i == |xs| {
      assert xs[..i] == xs;
    } else {
      FilterPrefix(xs, p, i + 1);
      FilterNext(xs, p, i);
    }
  }

  lemma FilterNext(xs: seq<string>, p: string -> bool, i: nat)
    requires i < |xs|
    ensures Filter(xs[..i + 1], p) == Filter(xs[..i], p) + if p(xs[i]) then [xs[i]] else []
  {
    assert xs[..i + 1][..i] == xs[..i];
  }

  /** Distinct initial parts are ordered by inclusion of their contents. */
  lemma PrefixByContents(xs: seq<string>, a: nat, b: nat)
    requires Distinct(xs) && a <= |xs| && b <= |xs|
    requires forall i :: 0 <= i < a ==> xs[i] in xs[..b]
    ensures a <= b
  {
    assert b < |xs| ==> xs[b] !in xs[..b];
  }

  /** The file about to be applied is the next missing one. */
  lemma AppliesNextMissing(files: seq<string>, start: set<string>, w: World, step: Step)
    requires Distinct(files) && Inv(files, start, w) && Enabled(w, step) && Applies(files, w, step)
    ensures w.log + [files[w.runners[step.r].index]] <= Missing(files, start)
  {
    hide Filter;
    var runner := w.runners[step.r];
    var i, n := runner.index, |w.log|;
    var missing := Missing(files, start);
    var earlier := Filter(files[..i], NotIn(start));
    DistinctFilter(files, NotIn(start));
    FilterNext(files, NotIn(start), i);
    FilterPrefix(files, NotIn(start), i + 1);
    assert earlier + [files[i]] <= missing;
    assert missing[|earlier|] == files[i];
    assert RunnerOk(files, w.table, runner);
    forall k | 0 <= k < |earlier| ensures missing[k] in missing[..n] {
      assert missing[k] == earlier[k] && earlier[k] in earlier;
      assert earlier[k] in SetOf(files[..i]);
      assert earlier[k] in w.log;
    }
    PrefixByContents(missing, |earlier|, n);
    assert files[i] !in w.log;
    assert |earlier| >= n;
    assert missing[..n + 1] == w.log + [files[i]];
  }

  lemma MovedOk(files: seq<string>, w: World, step: Step)
    requires Enabled(w, step) && RunnerOk(files, w.table, w.runners[step.r])
    ensures RunnerOk(files, Do(files, w, step).table, Moved(files, w.table, w.runners[step.r], step))
  {
    var runner := w.runners[step.r];
    if runner.index < |files| { SetOfNext(files, runner.index); }
  }

  lemma SetOfNext(files: seq<string>, i: nat)
    requires i < |files|
    ensures SetOf(files[..i + 1]) == SetOf(files[..i]) + {files[i]}
  {
    assert files[..i + 1] == files[..i] + [files[i]];
  }

  lemma StepKeepsInv(files: seq<string>, start: set<string>, w: World, step: Step)
    requires Distinct(files) && Inv(files, start, w) && Enabled(w, step)
    ensures Inv(files, start, Do(files, w, step))
  {
    hide Missing, Moved;
    var v := Do(files, w, step);
    MovedOk(files, w, step);
    if Applies(files, w, step) { AppliesNextMissing(files, start, w, step); }
    forall r | 0 <= r < |v.runners| ensures RunnerOk(files, v.table, v.runners[r]) {
      if r != step.r { assert RunnerOk(files, w.table, w.runners[r]); }
    }
  }

  lemma {:induction false} RunKeepsInv(files: seq<string>, start: set<string>, w: World, steps: seq<Step>)
    requires Distinct(files) && Inv(files, start, w) && IsRun(files, w, steps)
    ensures Inv(files, start, After(files, w, steps))
    decreases |steps|
  {
    hide Inv, Do, Enabled;
    if steps != [] {
      StepKeepsInv(files, start, w, steps[0]);
      RunKeepsInv(files, start, Do(files, w, steps[0]), steps[1..]);
    }
  }

  lemma InitialInv(files: seq<string>, start: set<string>, n: nat)
    ensures Inv(files, start, Initial(start, n))
  {
  }

  // ---------------------------------------------------------------- what every run guarantees

  /** From any starting table and in every interleaving: no file's SQL takes effect twice or out of
      order, the committed names are the starting ones and exactly the applied files, and a runner
      that finishes leaves nothing missing. */
  lemma MigrationsExactlyOnce(files: seq<string>, start: set<string>, n: nat, steps: seq<Step>)
    requires Distinct(files) && IsRun(files, Initial(start, n), steps)
    ensures var w := After(files, Initial(start, n), steps);
            && Distinct(w.log) && w.log <= Missing(files, start)
            && w.table == start + SetOf(w.log)
            && ((exists r :: 0 <= r < |w.runners| && w.runners[r].phase.Finished?) ==>
                  SetOf(files) <= w.table && w.log == Missing(files, start))
  {
    hide IsRun, After, Initial, Filter;
    InitialInv(files, start, n);
    RunKeepsInv(files, start, Initial(start, n), steps);
    var w := After(files, Initial(start, n), steps);
    DistinctFilter(files, NotIn(start));
    if r :| 0 <= r < |w.runners| && w.runners[r].phase.Finished? {
      assert files[..|files|] == files;
      assert RunnerOk(files, w.table, w.runners[r]);
      AllApplied(files, start, w);
    }
  }

  lemma AllApplied(files: seq<string>, start: set<string>, w: World)
    requires Distinct(files) && Inv(files, start, w) && SetOf(files) <= w.table
    ensures w.log == Missing(files, start)
  {
    hide Filter;
    var missing := Missing(files, start);
    DistinctFilter(files, NotIn(start));
    forall k | 0 <= k < |missing| ensures missing[k] in missing[..|w.log|] {
      assert missing[k] in missing;
      assert missing[k] in SetOf(files);
    }
    PrefixByContents(missing, |missing|, |w.log|);
  }

  lemma {:induction false} MissingAfterPrefix(files: seq<string>, m: nat, i: nat)
    requires Distinct(files) && m <= i <= |files|
    ensures Filter(files[..i], NotIn(SetOf(files[..m]))) == files[m..i]
  {
    hide Filter;
    var p := NotIn(SetOf(files[..m]));
    if i == m {
      FilterNone(files[..m], p);
    } else {
      MissingAfterPrefix(files, m, i - 1);
      FilterNext(files, p, i - 1);
      assert files[i - 1] !in files[..m];
      assert p(files[i - 1]);
      assert files[m..i] == files[m..i - 1] + [files[i - 1]];
    }
  }

  /** Started from the first m files, the committed names are always those of a longer initial part
      of the list, applied in file order. */
  lemma CommittedPrefix(files: seq<string>, m: nat, n: nat, steps: seq<Step>)
    requires Distinct(files) && m <= |files| && IsRun(files, Initial(SetOf(files[..m]), n), steps)
    ensures var w := After(files, Initial(SetOf(files[..m]), n), steps);
            && m + |w.log| <= |files|
            && w.log == files[m..m + |w.log|]
            && w.table == SetOf(files[..m + |w.log|])
  {
    hide IsRun, After, Initial, Filter, SetOf;
    var start := SetOf(files[..m]);
    var w := After(files, Initial(start, n), steps);
    MigrationsExactlyOnce(files, start, n, steps);
    MissingAfterPrefix(files, m, |files|);
    assert files[..|files|] == files;
    PrefixAfter(files, m, w.log);
  }

  lemma PrefixAfter(files: seq<string>, m: nat, log: seq<string>)
    requires m <= |files| && log <= files[m..|files|]
    ensures m + |log| <= |files| && log == files[m..m + |log|]
    ensures SetOf(files[..m]) + SetOf(log) == SetOf(files[..m + |log|])
  {
    assert files[..m + |log|] == files[..m] + log;
  }

  // ---------------------------------------------------------------- every run ends

  /** Steps a runner can still take. */
  function Remaining(files: seq<string>, runner: Runner): int {
    var left := |files| - runner.index;
    match runner.phase
    case Checking => 5 * left + 1
    case InTransaction(attempt) => 5 * left + 1 - attempt
    case Finished => 0
    case Failed => 0
  }

  function TotalRemaining(files: seq<string>, runners: seq<Runner>): int {
    if runners == [] then 0
    else TotalRemaining(files, runners[..|runners| - 1]) + Remaining(files, runners[|runners| - 1])
  }

  lemma {:induction false} TotalUpdate(files: seq<string>, runners: seq<Runner>, r: nat, x: Runner)
    requires r < |runners|
    ensures TotalRemaining(files, runners[r := x]) ==
            TotalRemaining(files, runners) - Remaining(files, runners[r]) + Remaining(files, x)
  {
    hide Remaining;
    var n := |runners| - 1;
    if r < n {
      TotalUpdate(files, runners[..n], r, x);
      assert runners[r := x][..n] == runners[..n][r := x];
    } else {
      assert runners[r := x][..n] == runners[..n];
    }
  }

  lemma {:induction false} TotalNonNegative(files: seq<string>, table: set<string>, runners: seq<Runner>)
    requires forall r :: 0 <= r < |runners| ==> RunnerOk(files, table, runners[r])
    ensures TotalRemaining(files, runners) >= 0
  {
    if runners != [] { TotalNonNegative(files, table, runners[..|runners| - 1]); }
  }

  lemma StepCosts(files: seq<string>, start: set<string>, w: World, step: Step)
    requires Inv(files, start, w) && Enabled(w, step)
    ensures TotalRemaining(files, Do(files, w, step).runners) < TotalRemaining(files, w.runners)
  {
    hide TotalRemaining;
    assert RunnerOk(files, w.table, w.runners[step.r]);
    TotalUpdate(files, w.runners, step.r, Moved(files, w.table, w.runners[step.r], step));
  }

  lemma {:induction false} RunLength(files: seq<string>, start: set<string>, w: World, steps: seq<Step>)
    requires Distinct(files) && Inv(files, start, w) && IsRun(files, w, steps)
    ensures |steps| <= TotalRemaining(files, w.runners)
    decreases |steps|
  {
    hide Do, Enabled, TotalRemaining, RunnerOk;
    if steps == [] {
      TotalNonNegative(files, w.table, w.runners);
    } else {
      StepKeepsInv(files, start, w, steps[0]);
      StepCosts(files, start, w, steps[0]);
      RunLength(files, start, Do(files, w, steps[0]), steps[1..]);
    }
  }

  lemma {:induction false} InitialTotal(files: seq<string>, start: set<string>, n: nat)
    ensures TotalRemaining(files, Initial(start, n).runners) == n * (5 * |files| + 1)
  {
    if n > 0 {
      InitialTotal(files, start, n - 1);
      assert Initial(start, n).runners[..n - 1] == Initial(start, n - 1).runners;
    }
  }

  /** Busy retries are bounded, so no run is longer than five steps per file and runner, plus one. */
  lemma RunsEnd(files: seq<string>, start: set<string>, n: nat, steps: seq<Step>)
    requires Distinct(files) && IsRun(files, Initial(start, n), steps)
    ensures |steps| <= n * (5 * |files| + 1)
  {
    InitialInv(files, start, n);
    RunLength(files, start, Initial(start, n), steps);
    InitialTotal(files, start, n);
  }

  // ---------------------------------------------------------------- without errors every runner finishes

  predicate NoneFailed(w: World) { forall r :: 0 <= r < |w.runners| ==> !w.runners[r].phase.Failed? }

  predicate Smooth(steps: seq<Step>) { forall i :: 0 <= i < |steps| ==> steps[i].Check? || steps[i].Commit? }

  lemma {:induction false} SmoothRunsFailNobody(files: seq<string>, w: World, steps: seq<Step>)
    requires IsRun(files, w, steps) && NoneFailed(w) && Smooth(steps)
    ensures NoneFailed(After(files, w, steps))
    decreases |steps|
  {
    if steps != [] {
      assert steps[0].Check? || steps[0].Commit?;
      assert forall i :: 0 <= i < |steps| - 1 ==> steps[1..][i] == steps[i + 1];
      SmoothRunsFailNobody(files, Do(files, w, steps[0]), steps[1..]);
    }
  }

  /** A run without errors that can go no further has finished every runner, with every file committed. */
  lemma SmoothRunsFinish(files: seq<string>, start: set<string>, n: nat, steps: seq<Step>)
    requires Distinct(files) && IsRun(files, Initial(start, n), steps) && Smooth(steps)
    requires forall step :: !Enabled(After(files, Initial(start, n), steps), step)
    ensures var w := After(files, Initial(start, n), steps);
            && (forall r :: 0 <= r < |w.runners| ==> w.runners[r].phase.Finished?)
            && (|w.runners| > 0 ==> SetOf(files) <= w.table)
  {
    hide IsRun, After;
    SmoothRunsFailNobody(files, Initial(start, n), steps);
    MigrationsExactlyOnce(files, start, n, steps);
    var w := After(files, Initial(start, n), steps);
    forall r | 0 <= r < |w.runners| ensures w.runners[r].phase.Finished? {
      assert !Enabled(w, Abort(r));
    }
    if |w.runners| > 0 { assert w.runners[0].phase.Finished?; }
  }

  // ---------------------------------------------------------------- busy retries

  function BusyTimes(r: nat, n: nat): (steps: seq<Step>)
    ensures |steps| == n && forall i :: 0 <= i < n ==> steps[i] == Busy(r, true)
  {
    seq(n, _ => Busy(r, true))
  }

  predicate Attempting(w: World, r: nat, attempt: nat) {
    r < |w.runners| && w.runners[r].phase == InTransaction(attempt)
  }

  /** From its a-th attempt a runner survives n rolled-back busy attempts exactly when three attempts are not
      used up; nothing else changes. */
  lemma {:induction false} RetriesSurvive(files: seq<string>, w: World, r: nat, a: nat, n: nat)
    requires Attempting(w, r, a) && a <= MAX_ATTEMPTS && a + n <= MAX_ATTEMPTS
    ensures IsRun(files, w, BusyTimes(r, n))
    ensures After(files, w, BusyTimes(r, n)) ==
            w.(runners := w.runners[r := w.runners[r].(phase := InTransaction(a + n))])
    decreases n
  {
    var steps := BusyTimes(r, n);
    if n == 0 {
      assert w.runners[r := w.runners[r].(phase := InTransaction(a))] == w.runners;
    } else {
      assert steps[1..] == BusyTimes(r, n - 1);
      var v := Do(files, w, steps[0]);
      assert v == w.(runners := w.runners[r := w.runners[r].(phase := InTransaction(a + 1))]);
      RetriesSurvive(files, v, r, a + 1, n - 1);
    }
  }

  /** A file whose first attempts find the database busy is applied by the next one, on up to three attempts
      in all: n busy attempts followed by a commit are possible exactly for n up to two, and then the file
      is in the table and the runner moves on. */
  lemma RetriesExactly(files: seq<string>, w: World, r: nat, n: nat)
    requires Attempting(w, r, 1) && w.runners[r].index < |files|
    ensures IsRun(files, w, BusyTimes(r, n) + [Commit(r)]) <==> n <= 2
    ensures n <= 2 ==>
              var v := After(files, w, BusyTimes(r, n) + [Commit(r)]);
              var file := files[w.runners[r].index];
              && v.table == w.table + {file}
              && v.log == (if file in w.table then w.log else w.log + [file])
              && v.runners == w.runners[r := Runner(w.runners[r].index + 1, Checking)]
  {
    if n <= 2 {
      RetriesSurvive(files, w, r, 1, n);
      AfterSnoc(files, w, BusyTimes(r, n), Commit(r));
    } else {
      ThirdBusyFails(files, w, r, n);
    }
  }

  lemma ThirdBusyFails(files: seq<string>, w: World, r: nat, n: nat)
    requires Attempting(w, r, 1) && n >= 3
    ensures !IsRun(files, w, BusyTimes(r, n) + [Commit(r)])
  {
    var steps := BusyTimes(r, n) + [Commit(r)];
    var rest1 := steps[1..];
    var rest2 := rest1[1..];
    var rest3 := rest2[1..];
    assert steps[0] == rest1[0] == rest2[0] == Busy(r, true);
    assert rest3 != [] && (rest3[0] == Busy(r, true) || rest3[0] == Commit(r));
    var w1 := Do(files, w, Busy(r, true));
    assert Attempting(w1, r, 2);
    var w2 := Do(files, w1, Busy(r, true));
    assert Attempting(w2, r, 3);
    var w3 := Do(files, w2, Busy(r, true));
    assert !Enabled(w3, rest3[0]);
    assert !IsRun(files, w3, rest3);
    assert !IsRun(files, w2, rest2);
    assert !IsRun(files, w1, rest1);
  }

  /** An attempt that left its transaction open is not repeated. */
  lemma OpenNotRetried(files: seq<string>, w: World, r: nat, a: nat)
    requires Attempting(w, r, a)
    ensures Enabled(w, Busy(r, false))
    ensures var v := Do(files, w, Busy(r, false));
            v.table == w.table && v.log == w.log && v.runners == w.runners[r := w.runners[r].(phase := Failed)]
  {
  }

  function ChecksOf(r: nat, n: nat): (steps: seq<Step>)
    ensures |steps| == n && forall i :: 0 <= i < n ==> steps[i] == Check(r)
  {
    seq(n, _ => Check(r))
  }

  /** Files that are already applied are passed over without a transaction: a runner that finds the rest of the
      list in the table finishes with one look at each file, and changes nothing. */
  lemma {:induction false} AppliedSkipped(files: seq<string>, w: World, r: nat)
    requires r < |w.runners| && w.runners[r].phase.Checking? && w.runners[r].index <= |files|
    requires forall i :: w.runners[r].index <= i < |files| ==> files[i] in w.table
    ensures var n := |files| - w.runners[r].index + 1;
            && IsRun(files, w, ChecksOf(r, n))
            && After(files, w, ChecksOf(r, n)) == w.(runners := w.runners[r := Runner(|files|, Finished)])
    decreases |files| - w.runners[r].index
  {
    var i := w.runners[r].index;
    var steps := ChecksOf(r, |files| - i + 1);
    var v := Do(files, w, Check(r));
    assert steps[0] == Check(r) && steps[1..] == ChecksOf(r, |files| - i);
    if i < |files| {
      assert v == w.(runners := w.runners[r := Runner(i + 1, Checking)]);
      AppliedSkipped(files, v, r);
    } else {
      assert v == w.(runners := w.runners[r := Runner(|files|, Finished)]);
    }
  }

  /** A file that is not in the table is always put to a transaction. */
  lemma MissingAttempted(files: seq<string>, w: World, r: nat)
    requires r < |w.runners| && w.runners[r].phase.Checking? && w.runners[r].index < |files|
    requires files[w.runners[r].index] !in w.table
    ensures Enabled(w, Check(r)) && Attempting(Do(files, w, Check(r)), r, 1)
    ensures Do(files, w, Check(r)).runners[r].index == w.runners[r].index
  {
  }
}
