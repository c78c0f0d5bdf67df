/**
 * The process runner of fujita: it supervises one primary process and at
 * most one auxiliary "action", keeps a bounded cache of the output lines
 * they produce, and fans lines and status changes out to registered
 * waiters (callbacks).
 *
 * Calling a waiter is modelled by appending what it is called with to that
 * waiter's log (`lineLog`, `statusLog`); waiters are opaque identities of
 * type `W`. Spawning, terminating and reading the OS processes are outside
 * the model: a process is a presence flag, and the arrival of a line or of
 * an exit is a call to the matching handler.
 */
module FujitaRunner {
  import opened LineCache
  import opened TextFormat

  /** Status codes (`Runner.STOPPED`, `Runner.RUNNING`). */
  const STOPPED: int := 0
  const RUNNING: int := 1

  /** File-handle tags of a line: 0 for standard output, 1 for standard error. */
  const STDOUT_FD: int := 0
  const STDERR_FD: int := 1

  /** `signal.SIGTERM` on Linux. */
  const SIGTERM: int := 15

  /** Number of lines the cache keeps (`cache_size`). */
  const CACHE_SIZE: nat := 500

  /** The status text published after an exit with return code SIGTERM, format directive included. */
  const UNINTERPOLATED_STOP: string := "%s is not running"

  datatype Option<T> = None | Some(value: T)

  /** One captured line: its id, its timestamp, the file handle it came in on, its text. */
  datatype Entry = Entry(id: string, ts: real, fd: int, line: string)

  /** The pair `(code, status)` a status waiter is called with. */
  datatype Status = Status(code: int, message: string)

  /** A runner's command is given either as one string or as a list of words. */
  datatype Command = CommandString(text: string) | CommandList(words: seq<string>)

  datatype ActionException = ActionException(message: string)

  /** What `run_action` does: return normally, or raise `ActionException`. */
  datatype Outcome = Pass | Fail(error: ActionException)

  /** The command line a runner stores: a list is joined with single spaces. */
  function CommandLine(c: Command): (r: string)
    ensures c.CommandList? && |c.words| > 0 && (forall k :: 0 <= k < |c.words| ==> NoSpace(c.words[k]))
            ==> SplitOnSpace(r) == c.words
    ensures c.CommandList? && |c.words| > 0 ==> SplitOnSpace(r) == SplitEach(c.words)
    ensures c.CommandList? && c.words == [] ==> r == ""
    ensures c.CommandString? ==> r == c.text
  {
    match c
    case CommandString(text) => text
    case CommandList(words) =>
      if |words| > 0 then
        SplitJoin(words);
        SplitJoinRoundTrip(words);
        JoinWords(words)
      else
        JoinWords(words)
  }

  /** The status text published when the process starts: it begins with the runner's name. */
  function RunningMessage(name: string): (m: string)
    ensures |m| > |name| && m[..|name|] == name
  {
    name + " is running"
  }

  /**
   * The status text published when the process exits: the return code is
   * reported unless it equals SIGTERM, in which case the text is the
   * format string itself, never interpolated.
   */
  function ExitMessage(name: string, retcode: int): (m: string)
    ensures retcode == SIGTERM <==> m == UNINTERPOLATED_STOP
  {
    if retcode != SIGTERM then
      name + " is not running (return code " + DecimalString(retcode) + ")"
    else
      UNINTERPOLATED_STOP
  }

  /** No exit message, whatever the return code, can be mistaken for the running message. */
  lemma RunningIsNotExit(name: string, retcode: int)
    ensures RunningMessage(name) != ExitMessage(name, retcode)
  {
  }

  /** The prefix of an exit message that reports a return code. */
  function ReturnCodePrefix(name: string): string {
    name + " is not running (return code "
  }

  /** Two exits with return codes other than SIGTERM publish the same text only for the same code. */
  lemma ExitMessageRevealsCode(name: string, r1: int, r2: int)
    requires r1 != SIGTERM && r2 != SIGTERM
    requires ExitMessage(name, r1) == ExitMessage(name, r2)
    ensures r1 == r2
  {
    var p := ReturnCodePrefix(name);
    var m1, m2 := ExitMessage(name, r1), ExitMessage(name, r2);
    assert m1 == p + DecimalString(r1) + ")";
    assert m2 == p + DecimalString(r2) + ")";
    assert m1[|p|..|m1| - 1] == DecimalString(r1);
    assert m2[|p|..|m2| - 1] == DecimalString(r2);
    DecimalRoundTrip(r1);
    DecimalRoundTrip(r2);
  }

  /**
   * The message of the `ActionException` raised when an action is already
   * running: it names the requested action after a fixed prefix and the
   * running one inside the closing parentheses.
   */
  function ActionConflictMessage(requested: string, running: string): (m: string)
    ensures |m| >= 23 + |requested| && m[23..23 + |requested|] == requested
    ensures |m| > |running| + 1 && m[|m| - 1] == ')' && m[|m| - 1 - |running|..|m| - 1] == running
    ensures |m| > |running| + 2 && m[|m| - 2 - |running|] == '('
  {
    "Failed to start action " + requested + ", another action is already running (" + running + ")"
  }

  /** What waiter `w` has been called with so far. */
  function Log<W, T>(logs: map<W, seq<T>>, w: W): seq<T> {
    if w in logs then logs[w] else []
  }

  /** Calling every waiter in `ws` once with `x`. */
  function Deliver<W(!new), T>(logs: map<W, seq<T>>, ws: set<W>, x: T): (r: map<W, seq<T>>)
    ensures forall w :: Log(r, w) == if w in ws then Log(logs, w) + [x] else Log(logs, w)
    ensures r.Keys == logs.Keys + ws
  {
    map w | w in logs.Keys + ws :: if w in ws then Log(logs, w) + [x] else logs[w]
  }

  /** A waiter in the fan-out's set finds the value appended to its own log. */
  lemma DeliverTo<W(!new), T>(logs: map<W, seq<T>>, ws: set<W>, x: T, w: W)
    requires w in ws
    ensures Log(Deliver(logs, ws, x), w) == Log(logs, w) + [x]
  {
  }

  /** The fan-out loop calls one more waiter. */
  lemma DeliverOneMore<W(!new), T>(logs: map<W, seq<T>>, done: set<W>, w: W, x: T)
    requires w !in done
    ensures Deliver(logs, done + {w}, x) == Deliver(logs, done, x)[w := Log(Deliver(logs, done, x), w) + [x]]
  {

  }

  /**
   * The fan-out loop: call every waiter in `ws`, in some order, once with
   * `x` (`for callback in waiters: callback(...)`).
   */
  method CallEach<W(==,!new), T>(logs: map<W, seq<T>>, ws: set<W>, x: T) returns (r: map<W, seq<T>>)
    ensures r == Deliver(logs, ws, x)
  {
    r := logs;
    assert Deliver(logs, {}, x) == logs;
    var todo := ws;
    while todo != {}
      invariant todo <= ws
      invariant r == Deliver(logs, ws - todo, x)
      decreases todo
    {
      var w :| w in todo;
      DeliverOneMore(logs, ws - todo, w, x);
      assert ws - todo + {w} == ws - (todo - {w});
      r := r[w := Log(r, w) + [x]];
      todo := todo - {w};
    }
    assert ws - todo == ws;
  }

  /** The replay loop: call waiter `w` with each of `entries`, oldest first. */
  method Replay<W(==), T>(logs: map<W, seq<T>>, w: W, entries: seq<T>) returns (r: map<W, seq<T>>)
    ensures r == logs[w := Log(logs, w) + entries]
  {
    r := logs[w := Log(logs, w)];
    assert Log(logs, w) + entries[..0] == Log(logs, w);
    for i := 0 to |entries|
      invariant r == logs[w := Log(logs, w) + entries[..i]]
    {
      assert Log(r, w) == Log(logs, w) + entries[..i];
      assert Log(logs, w) + entries[..i + 1] == Log(logs, w) + entries[..i] + [entries[i]];
      r := r[w := Log(r, w) + [entries[i]]];
    }
    assert entries[..|entries|] == entries;
  }

  /** A line published after a waiter joined extends both the history it follows and its log. */
  lemma SuffixGrows<T>(h: seq<T>, j: nat, log: seq<T>, e: T)
    requires j <= |h| && IsSuffix(h[j..], log)
    ensures j <= |h + [e]| && IsSuffix((h + [e])[j..], log + [e])
  {

  }

  /**
   * Every waiter in `ws` began its replay at a position `joined[w]` no
   * later than `start`, and has been called, in order and exactly once,
   * with every line of `h` from that position on (and possibly with older
   * lines before those).
   */
  ghost predicate Follows<W(!new)>(ws: set<W>, joined: map<W, nat>, h: seq<Entry>, start: int,
                                   logs: map<W, seq<Entry>>) {
    forall w {:trigger w in ws} :: w in ws ==>
      w in joined && joined[w] <= start <= |h| && IsSuffix(h[joined[w]..], Log(logs, w))
  }

  /**
   * Publishing a line to every registered waiter keeps each of them up to
   * date, while the start of the cache moves forward by at most that line.
   */
  lemma FollowsAfterPublish<W(!new)>(ws: set<W>, joined: map<W, nat>, h: seq<Entry>, start: int,
                                     logs: map<W, seq<Entry>>, e: Entry,
                                     h': seq<Entry>, start': int, logs': map<W, seq<Entry>>)
    requires Follows(ws, joined, h, start, logs)
    requires h' == h + [e] && start <= start' <= |h'| && logs' == Deliver(logs, ws, e)
    ensures Follows(ws, joined, h', start', logs')
  {
    forall w | w in ws
      ensures w in joined && joined[w] <= start' <= |h'| && IsSuffix(h'[joined[w]..], Log(logs', w))
    {
      SuffixGrows(h, joined[w], Log(logs, w), e);
    }
  }

  /** A waiter that has just been sent the whole cache follows the history from the cache's start. */
  lemma FollowsAfterReplay<W(!new)>(ws: set<W>, joined: map<W, nat>, h: seq<Entry>, logs: map<W, seq<Entry>>,
                                    w: W, c: seq<Entry>, ws': set<W>, joined': map<W, nat>, logs': map<W, seq<Entry>>)
    requires Follows(ws, joined, h, |h| - |c|, logs)
    requires |c| <= |h| && c == h[|h| - |c|..]
    requires ws' == ws + {w} && joined' == joined[w := |h| - |c|] && logs' == logs[w := Log(logs, w) + c]
    ensures Follows(ws', joined', h, |h| - |c|, logs')
  {
  }

  /** While the history fits in the cache, replaying the cache replays the whole history. */
  lemma ReplayWholeHistory<W>(logs: map<W, seq<Entry>>, w: W, h: seq<Entry>, n: nat, logs': map<W, seq<Entry>>)
    requires logs' == logs[w := Log(logs, w) + Trim(h, n)]
    ensures |h| <= n ==> Log(logs', w) == Log(logs, w) + h
  {
  }

  /**
   * A waiter that follows the history from a position no later than where
   * the cache begins has received the whole cache as the newest part of
   * its log.
   */
  lemma FollowerHoldsCache<W(!new)>(ws: set<W>, joined: map<W, nat>, h: seq<Entry>, c: seq<Entry>,
                                    logs: map<W, seq<Entry>>, w: W)
    requires Follows(ws, joined, h, |h| - |c|, logs)
    requires |c| <= |h| && c == h[|h| - |c|..]
    requires w in ws
    ensures IsSuffix(c, Log(logs, w))
  {
    var tail, log := h[joined[w]..], Log(logs, w);
    assert c == tail[|tail| - |c|..];
    assert log[|log| - |c|..] == log[|log| - |tail|..][|tail| - |c|..];
  }

  /** Every waiter in `ws` was last called with `s`. */
  ghost predicate LastTold<W(!new)>(ws: set<W>, logs: map<W, seq<Status>>, s: Status) {
    forall w {:trigger w in ws} :: w in ws ==> |Log(logs, w)| > 0 && Log(logs, w)[|Log(logs, w)| - 1] == s
  }

  /** Calling every status waiter with the new status leaves all of them told it. */
  lemma LastToldAfterSet<W(!new)>(ws: set<W>, logs: map<W, seq<Status>>, s: Status)
    ensures LastTold(ws, Deliver(logs, ws, s), s)
  {

  }

  class Runner<W(==,!new)> {
    const cacheSize: nat := CACHE_SIZE

    const name: string
    const processCommand: string

    var cache: seq<Entry>
    var lineWaiters: set<W>
    var statusWaiters: set<W>
    var statusCode: int
    var status: string

    /** Whether a primary process exists (`self.process` is not None). */
    var process: bool
    /** Whether an action process exists (`self.action` is not None). */
    var action: bool
    var actionName: Option<string>
    var actionCommand: Option<string>

    /** Everything each waiter has been called with. */
    var lineLog: map<W, seq<Entry>>
    var statusLog: map<W, seq<Status>>

    /** Every line ever published, oldest first. */
    ghost var history: seq<Entry>
    /** For a registered line waiter: the position in `history` where its replay began. */
    ghost var joined: map<W, nat>

    /**
     * The cache is the newest part of the history; every registered line
     * waiter has received, in order and exactly once, every line from the
     * start of its replay on; every registered status waiter was last told
     * the current status; a running action has a name.
     */
    ghost predicate Valid()
      reads this
    {
      CacheValid() && LinesValid() && StatusValid() && ActionValid()
    }

    ghost predicate CacheValid()
      reads this`cache, this`history
    {
      cache == Trim(history, cacheSize)
    }

    ghost predicate LinesValid()
      reads this`lineWaiters, this`joined, this`history, this`lineLog, this`cache
    {
      Follows(lineWaiters, joined, history, |history| - |cache|, lineLog)
    }

    /**
     * What the invariant promises a registered line waiter: everything
     * still cached has reached it, in order, as the newest part of its log.
     */
    lemma WaiterHoldsCache(w: W)
      requires Valid() && w in lineWaiters
      ensures IsSuffix(cache, Log(lineLog, w))
    {
      TrimIsSuffix(history, cacheSize);
      FollowerHoldsCache(lineWaiters, joined, history, cache, lineLog, w);
    }

    /**
     * The cache of a valid runner is what publishing every line it ever
     * received, one after another from an empty cache, leaves behind.
     */
    lemma CacheIsEveryPublication()
      requires Valid()
      ensures cache == PublishAll([], history, cacheSize)
    {
      PublishAllKeepsNewest([], history, cacheSize);
      assert [] + history == history;
    }

    ghost predicate StatusValid()
      reads this`statusWaiters, this`statusLog, this`statusCode, this`status
    {
      LastTold(statusWaiters, statusLog, Status(statusCode, status))
    }

    ghost predicate ActionValid()
      reads this`action, this`actionName, this`actionCommand
    {
      action ==> actionName.Some? && actionCommand.Some?
    }

    constructor (command: Command, name: string := "Command")
      ensures Valid()
      ensures this.name == name && processCommand == CommandLine(command)
      ensures statusCode == STOPPED && status == "Ready to Start"
      ensures cache == [] && history == []
      ensures lineWaiters == {} && statusWaiters == {}
      ensures !process && !action && actionName == None && actionCommand == None
      ensures lineLog == map[] && statusLog == map[]
    {
      this.name := name;
      lineWaiters := {};
      cache := [];
      history := [];
      joined := map[];
      statusWaiters := {};
      statusCode, status := STOPPED, "";
      lineLog, statusLog := map[], map[];
      processCommand := CommandLine(command);
      process := false;
      action := false;
      actionName, actionCommand := None, None;
      new;
      SetStatus(STOPPED, "Ready to Start");
    }

    /** Start the process unless one exists; then the status becomes RUNNING. */
    method Start()
      requires Valid()
      modifies this`process, this`status, this`statusCode, this`statusLog
      ensures Valid()
      ensures process
      ensures old(process) ==> status == old(status) && statusCode == old(statusCode) && statusLog == old(statusLog)
      ensures !old(process) ==>
                && statusCode == RUNNING && status == RunningMessage(name)
                && statusLog == Deliver(old(statusLog), statusWaiters, Status(RUNNING, RunningMessage(name)))
    {
      if !process {
        process := true;
        SetStatus(RUNNING, RunningMessage(name));
      }
    }

    /** Stop changes nothing; it asks the process to terminate when there is one. */
    method Stop() returns (terminateRequested: bool)
      ensures terminateRequested <==> process
    {
      terminateRequested := process;
    }

    method RunAction(name: string, command: string) returns (r: Outcome)
      requires Valid()
      modifies this`action, this`actionName, this`actionCommand
      ensures Valid()
      ensures old(action) ==>
                && old(actionName).Some?
                && r == Fail(ActionException(ActionConflictMessage(name, old(actionName).value)))
                && action && actionName == old(actionName) && actionCommand == old(actionCommand)
      ensures !old(action) ==>
                r == Pass && action && actionName == Some(name) && actionCommand == Some(command)
    {
      if action {
        r := Fail(ActionException(ActionConflictMessage(name, actionName.value)));
      } else {
        action, actionName, actionCommand := true, Some(name), Some(command);
        r := Pass;
      }
    }

    /** The action exited: only the action slot is cleared. */
    method ProcessActionExit(retcode: int)
      requires Valid()
      modifies this`action
      ensures Valid()
      ensures !action
    {
      action := false;
    }

    /** The process exited: the status becomes STOPPED and the process is gone. */
    method ProcessExit(retcode: int)
      requires Valid()
      modifies this`process, this`status, this`statusCode, this`statusLog
      ensures Valid()
      ensures !process
      ensures statusCode == STOPPED && status == ExitMessage(name, retcode)
      ensures statusLog == Deliver(old(statusLog), statusWaiters, Status(STOPPED, ExitMessage(name, retcode)))
    {
      SetStatus(STOPPED, ExitMessage(name, retcode));
      process := false;
    }

    /** Record the new status and call every status waiter with it. */
    method SetStatus(code: int, message: string)
      requires Valid()
      modifies this`status, this`statusCode, this`statusLog
      ensures Valid()
      ensures status == message && statusCode == code
      ensures statusLog == Deliver(old(statusLog), statusWaiters, Status(code, message))
    {
      status := message;
      statusCode := code;
      var s := Status(code, message);
      LastToldAfterSet(statusWaiters, statusLog, s);
      statusLog := CallEach(statusLog, statusWaiters, s);
    }

    /** Replay the whole cache to `w`, oldest first, then register it. */
    method AddLineWaiter(w: W)
      requires Valid()
      modifies this`lineWaiters, this`lineLog, this`joined
      ensures Valid()
      ensures lineWaiters == old(lineWaiters) + {w}
      ensures lineLog == old(lineLog)[w := Log(old(lineLog), w) + cache]
      ensures joined == old(joined)[w := |history| - |cache|]
      ensures |history| <= cacheSize ==> Log(lineLog, w) == Log(old(lineLog), w) + history
    {
      TrimIsSuffix(history, cacheSize);
      ghost var replayed := lineLog[w := Log(lineLog, w) + cache];
      ReplayWholeHistory(lineLog, w, history, cacheSize, replayed);
      ghost var registered, start := lineWaiters + {w}, joined[w := |history| - |cache|];
      FollowsAfterReplay(lineWaiters, joined, history, lineLog, w, cache, registered, start, replayed);
      lineLog := Replay(lineLog, w, cache);
      lineWaiters := lineWaiters + {w};
      joined := joined[w := |history| - |cache|];
      assert lineLog == replayed && lineWaiters == registered && joined == start;
    }

    method RemoveLineWaiter(w: W)
      requires Valid()
      requires w in lineWaiters
      modifies this`lineWaiters
      ensures Valid()
      ensures lineWaiters == old(lineWaiters) - {w}
    {
      lineWaiters := lineWaiters - {w};
    }

    /**
     * Publish one line: append it to the cache, call every line waiter
     * with it, then trim the cache to its newest `cacheSize` entries.
     */
    method SendLineToWaiters(id: string, ts: real, fd: int, line: string)
      requires Valid()
      modifies this`cache, this`lineLog, this`history
      ensures Valid()
      ensures history == old(history) + [Entry(id, ts, fd, line)]
      ensures cache == Push(old(cache), Entry(id, ts, fd, line), cacheSize)
      ensures lineLog == Deliver(old(lineLog), lineWaiters, Entry(id, ts, fd, line))
    {
      var e := Entry(id, ts, fd, line);
      ghost var log0, h0, c0 := lineLog, history, cache;
      PushTrimmed(history, e, cacheSize);
      history := history + [e];
      cache := cache + [e];

      lineLog := CallEach(lineLog, lineWaiters, e);
      if |cache| > cacheSize {
        cache := cache[|cache| - cacheSize..];
      }
      FollowsAfterPublish(lineWaiters, joined, h0, |h0| - |c0|, log0, e, history, |history| - |cache|, lineLog);
    }

    /** A line arrived on standard output. */
    method HandleStdout(id: string, ts: real, line: string)
      requires Valid()
      modifies this`cache, this`lineLog, this`history
      ensures Valid()
      ensures history == old(history) + [Entry(id, ts, STDOUT_FD, line)]
      ensures cache == Push(old(cache), Entry(id, ts, STDOUT_FD, line), cacheSize)
      ensures lineLog == Deliver(old(lineLog), lineWaiters, Entry(id, ts, STDOUT_FD, line))
    {
      SendLineToWaiters(id, ts, STDOUT_FD, line);
    }

    /** A line arrived on standard error. */
    method HandleStderr(id: string, ts: real, line: string)
      requires Valid()
      modifies this`cache, this`lineLog, this`history
      ensures Valid()
      ensures history == old(history) + [Entry(id, ts, STDERR_FD, line)]
      ensures cache == Push(old(cache), Entry(id, ts, STDERR_FD, line), cacheSize)
      ensures lineLog == Deliver(old(lineLog), lineWaiters, Entry(id, ts, STDERR_FD, line))
    {
      SendLineToWaiters(id, ts, STDERR_FD, line);
    }

    /** Tell `w` the current status, then register it. */
    method AddStatusWaiter(w: W)
      requires Valid()
      modifies this`statusWaiters, this`statusLog
      ensures Valid()
      ensures statusWaiters == old(statusWaiters) + {w}
      ensures statusLog == old(statusLog)[w := Log(old(statusLog), w) + [Status(statusCode, status)]]
    {
      statusLog := statusLog[w := Log(statusLog, w) + [Status(statusCode, status)]];
      statusWaiters := statusWaiters + {w};
    }

    method RemoveStatusWaiter(w: W)
      requires Valid()
      requires w in statusWaiters
      modifies this`statusWaiters
      ensures Valid()
      ensures statusWaiters == old(statusWaiters) - {w}
    {
      statusWaiters := statusWaiters - {w};
    }
  }
}
