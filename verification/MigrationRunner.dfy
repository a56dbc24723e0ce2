/** The loop of one runner, with its busy retries, as a run of the shared protocol. */
module MigrationRunner {
  import opened Common
  import opened Migrations

  /** How one attempt at a write transaction ends. */
  datatype Outcome = Committed | BusyError(rolledBack: bool) | OtherError

  class Database {
    var table: set<string>
    var applied: seq<string>

    ghost function Alone(runner: Runner): World
      reads this
    {
      World(table, applied, [runner])
    }

    /** One file: up to three attempts, each rolled back unless it commits. */
    method RunSingle(files: seq<string>, index: nat, outcome: nat -> Outcome, ghost w: World, ghost before: seq<Step>)
      returns (ok: bool, ghost steps: seq<Step>)
      requires index < |files| && IsRun(files, w, before)
      requires After(files, w, before) == Alone(Runner(index, InTransaction(1)))
      modifies this
      ensures IsRun(files, w, steps)
      ensures After(files, w, steps) == Alone(if ok then Runner(index + 1, Checking) else Runner(index, Failed))
    {
      hide IsRun, After;
      steps := before;
      var attempt := 1;
      while true
        invariant 1 <= attempt <= MAX_ATTEMPTS
        invariant IsRun(files, w, steps) && After(files, w, steps) == Alone(Runner(index, InTransaction(attempt)))
        decreases MAX_ATTEMPTS - attempt
      {
        match outcome(attempt)
        case Committed =>
          AfterSnoc(files, w, steps, Commit(0));
          if files[index] !in table {
            applied := applied + [files[index]];
            table := table + {files[index]};
          }
          return true, steps + [Commit(0)];
        case BusyError(rolledBack) =>
          AfterSnoc(files, w, steps, Busy(0, rolledBack));
          steps := steps + [Busy(0, rolledBack)];
          if !rolledBack || attempt >= MAX_ATTEMPTS { return false, steps; }
          attempt := attempt + 1;
        case OtherError =>
          AfterSnoc(files, w, steps, Abort(0));
          return false, steps + [Abort(0)];
      }
    }

    /** The whole start-up is a run of the protocol, so it applies missing files in order, each at most
        once, and all of them when it succeeds. */
    method RunMigrations(files: seq<string>, outcome: (nat, nat) -> Outcome)
      returns (ok: bool, reached: nat, ghost steps: seq<Step>)
      requires Distinct(files) && applied == []
      modifies this
      ensures IsRun(files, Initial(old(table), 1), steps)
      ensures After(files, Initial(old(table), 1), steps) == Alone(Runner(reached, if ok then Finished else Failed))
      ensures applied <= Missing(files, old(table)) && table == old(table) + SetOf(applied)
      ensures ok ==> applied == Missing(files, old(table))
    {
      steps := [];
      ghost var w := Initial(table, 1);
      assert IsRun(files, w, steps) && After(files, w, steps) == w;
      hide IsRun, After, Missing;
      assert w == Alone(Runner(0, Checking));
      reached := 0;
      while reached < |files|
        invariant reached <= |files|
        invariant IsRun(files, w, steps) && After(files, w, steps) == Alone(Runner(reached, Checking))
      {
        AfterSnoc(files, w, steps, Check(0));
        steps := steps + [Check(0)];
        if files[reached] !in table {
          var index := reached;
          ok, steps := RunSingle(files, index, (a: nat) => outcome(index, a), w, steps);
          if !ok {
            MigrationsExactlyOnce(files, old(table), 1, steps);
            return;
          }
        }
        reached := reached + 1;
      }
      AfterSnoc(files, w, steps, Check(0));
      steps := steps + [Check(0)];
      ok := true;
      MigrationsExactlyOnce(files, old(table), 1, steps);
      assert After(files, w, steps).runners[0].phase.Finished?;
    }
  }
}
