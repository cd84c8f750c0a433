/**
 * The fatal command runner (run_command_live in sources/utils/execute.py),
 * reduced to what its callers can observe: a command either exits with
 * status 0 and the run goes on, or the whole process ends with that
 * command's non-zero exit status. The exit status of each command is a
 * parameter: the subprocess itself is not modelled.
 */
module Execute {

  type Command = seq<string>

  datatype RunOutcome = Completed | Exited(code: int)

  /** Issue the commands in order; the first one that fails ends the run with its status. */
  function RunAll(cmds: seq<Command>, status: Command -> int): (seq<Command>, RunOutcome) {
    if cmds == [] then ([], Completed)
    else if status(cmds[0]) != 0 then ([cmds[0]], Exited(status(cmds[0])))
    else
      var rest := RunAll(cmds[1..], status);
      ([cmds[0]] + rest.0, rest.1)
  }

  /**
   * The commands issued are a prefix of those given; all but the last issued
   * succeeded; the run completes exactly when every command succeeded, and
   * otherwise ends with the non-zero status of the last command issued, so no
   * command after a failing one is ever issued.
   */
  lemma {:induction false} RunAllFacts(cmds: seq<Command>, status: Command -> int)
    ensures var r := RunAll(cmds, status);
      && |r.0| <= |cmds| && r.0 == cmds[..|r.0|]
      && (forall i :: 0 <= i < |r.0| - 1 ==> status(r.0[i]) == 0)
      && (r.1 == Completed <==> r.0 == cmds && forall i :: 0 <= i < |cmds| ==> status(cmds[i]) == 0)
      && (r.1.Exited? ==> r.0 != [] && r.1.code != 0 && r.1.code == status(r.0[|r.0| - 1]))
    decreases |cmds|
  {
    if cmds != [] && status(cmds[0]) == 0 {
      RunAllFacts(cmds[1..], status);
      var rest := RunAll(cmds[1..], status);
      assert cmds == [cmds[0]] + cmds[1..];
      assert forall i :: 1 <= i < |cmds| ==> cmds[i] == cmds[1..][i - 1];
    }
  }

  lemma RunOne(cmd: Command, status: Command -> int)
    ensures RunAll([cmd], status) == ([cmd], if status(cmd) == 0 then Completed else Exited(status(cmd)))
  {
    assert [cmd][1..] == [];
    assert [cmd] + [] == [cmd];
  }

  /** One more command after a run that completed: it is issued, and its status decides the outcome. */
  lemma RunStep(done: seq<Command>, cmd: Command, status: Command -> int)
    requires RunAll(done, status).1 == Completed
    ensures RunAll(done + [cmd], status) ==
      (RunAll(done, status).0 + [cmd], if status(cmd) == 0 then Completed else Exited(status(cmd)))
  {
    RunAllAppend(done, [cmd], status);
    RunOne(cmd, status);
  }

  /** Once a run has ended, nothing given after it is issued. */
  lemma RunStopped(done: seq<Command>, rest: seq<Command>, status: Command -> int)
    requires RunAll(done, status).1.Exited?
    ensures RunAll(done + rest, status) == RunAll(done, status)
  {
    RunAllAppend(done, rest, status);
  }

  /** Running a + b is running a and, only if all of a succeeded, then b. */
  lemma {:induction false} RunAllAppend(a: seq<Command>, b: seq<Command>, status: Command -> int)
    ensures RunAll(a + b, status) ==
      if RunAll(a, status).1 == Completed then (RunAll(a, status).0 + RunAll(b, status).0, RunAll(b, status).1)
      else RunAll(a, status)
    decreases |a|
  {
    if a != [] {
      assert (a + b)[0] == a[0] && (a + b)[1..] == a[1..] + b;
      RunAllAppend(a[1..], b, status);
      var ra, rb := RunAll(a[1..], status).0, RunAll(b, status).0;
      assert [a[0]] + (ra + rb) == ([a[0]] + ra) + rb;
    } else {
      assert a + b == b;
      assert [] + RunAll(b, status).0 == RunAll(b, status).0;
    }
  }
}
