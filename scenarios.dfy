/**
 * Clients of the runner that drive it through short event sequences, the
 * way the web handlers and the process callbacks do, and state what the
 * waiters end up receiving.
 */
module RunnerScenarios {
  import opened LineCache
  import opened FujitaRunner

  /** A line waiter registered before a line arrives on standard output is called with it. */
  method LiveLine<W(==,!new)>(w: W, id: string, ts: real, line: string) returns (lines: seq<Entry>)
    ensures lines == [Entry(id, ts, STDOUT_FD, line)]
  {
    var r := new Runner<W>(CommandString("sh script.sh"));
    r.AddLineWaiter(w);
    assert Log(r.lineLog, w) == [];
    r.HandleStdout(id, ts, line);
    lines := Log(r.lineLog, w);
    assert lines == [] + [Entry(id, ts, STDOUT_FD, line)];
  }

  /** A line waiter registered after a line arrived on standard error is sent it from the cache. */
  method LateJoiner<W(==,!new)>(w: W, id: string, ts: real, line: string) returns (lines: seq<Entry>)
    ensures lines == [Entry(id, ts, STDERR_FD, line)]
  {
    var r := new Runner<W>(CommandString("sh script.sh"));
    r.HandleStderr(id, ts, line);
    assert r.cache == [] + [Entry(id, ts, STDERR_FD, line)];
    r.AddLineWaiter(w);
    lines := Log(r.lineLog, w);
    assert lines == [] + r.cache;
  }

  /**
   * A status waiter is told the initial status when it registers, then the
   * RUNNING status; a second start while the process runs tells it nothing.
   */
  method StartTwice<W(==,!new)>(w: W, name: string) returns (statuses: seq<Status>)
    ensures statuses == [Status(STOPPED, "Ready to Start"), Status(RUNNING, RunningMessage(name))]
  {
    var ready, running := Status(STOPPED, "Ready to Start"), Status(RUNNING, RunningMessage(name));
    var r := new Runner<W>(CommandString("make serve"), name);
    r.AddStatusWaiter(w);
    ghost var told, ws := r.statusLog, r.statusWaiters;
    assert w in ws && Log(told, w) == [] + [ready];
    r.Start();
    ghost var started := r.statusLog;
    assert Log(started, w) == [] + [ready] + [running] by {
      DeliverTo(told, ws, running, w);
    }
    r.Start();
    statuses := Log(r.statusLog, w);
    assert statuses == Log(started, w);
  }

  /**
   * A stop only requests termination; an exit with return code 15 (the
   * value of SIGTERM) then publishes the format string as it stands.
   */
  method StopBySigterm<W(==,!new)>(w: W, name: string) returns (terminateRequested: bool, statuses: seq<Status>)
    ensures terminateRequested
    ensures statuses == [Status(RUNNING, RunningMessage(name)), Status(STOPPED, "%s is not running")]
  {
    var running, stopped := Status(RUNNING, RunningMessage(name)), Status(STOPPED, ExitMessage(name, SIGTERM));
    assert stopped == Status(STOPPED, "%s is not running");
    var r := new Runner<W>(CommandString("make serve"), name);
    r.Start();
    r.AddStatusWaiter(w);
    assert Log(r.statusLog, w) == [] + [running];
    terminateRequested := r.Stop();
    r.ProcessExit(SIGTERM);
    statuses := Log(r.statusLog, w);
    assert statuses == [] + [running] + [stopped];
  }

  /**
   * Any other exit publishes a message that reports the return code. This
   * includes -15, the code a process killed by SIGTERM is reported with.
   */
  method ExitWithCode<W(==,!new)>(w: W, name: string, retcode: int) returns (statuses: seq<Status>)
    requires retcode != SIGTERM
    ensures statuses == [Status(RUNNING, RunningMessage(name)), Status(STOPPED, ExitMessage(name, retcode))]
    ensures statuses[1].message != UNINTERPOLATED_STOP
  {
    var r := new Runner<W>(CommandString("make serve"), name);
    r.Start();
    r.AddStatusWaiter(w);
    assert Log(r.statusLog, w) == [] + [Status(RUNNING, RunningMessage(name))];
    r.ProcessExit(retcode);
    statuses := Log(r.statusLog, w);
    assert statuses == [] + [Status(RUNNING, RunningMessage(name))] + [Status(STOPPED, ExitMessage(name, retcode))];
  }

  /**
   * A second action while the first runs raises `ActionException`; once
   * the first has exited, a new action is accepted.
   */
  method ActionExclusivity<W(==,!new)>() returns (first: Outcome, second: Outcome, third: Outcome)
    ensures first == Pass && third == Pass
    ensures second == Fail(ActionException(ActionConflictMessage("migrate", "collectstatic")))
  {
    var r := new Runner<W>(CommandString("serve"));
    first := r.RunAction("collectstatic", "manage.py collectstatic");
    second := r.RunAction("migrate", "manage.py migrate");
    r.ProcessActionExit(0);
    third := r.RunAction("migrate", "manage.py migrate");
  }
}
