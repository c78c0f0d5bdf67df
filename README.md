# fujita process runner, modelled in Dafny

fujita is a small web front end that starts a command in a shell and shows its
output live in the browser. It also runs one auxiliary "action" command at a
time. Its core is the `Runner` class in `fujita/runner.py`. The runner keeps a
bounded cache of the last 500 output lines. It calls every registered line
waiter (a callback) with each new line, and it replays the cache to a waiter
that registers late. It also holds a status register (STOPPED or RUNNING plus
a message) that it pushes to every status waiter. Finally it guards the
primary process and the single action slot.

The project has four modules:

- `TextFormat` (`text_format.dfy`) models Python's `" ".join` for a
  list-valued command, and the `%d` rendering of a return code. Only `%d`
  has a full inverse (`ParseDecimal`, proved by `DecimalRoundTrip`).
  Splitting a joined command on spaces gives back each word's own pieces
  (`SplitJoin`). It gives back the words themselves only when no word
  contains a space (`SplitJoinRoundTrip`).
- `LineCache` (`line_cache.dfy`) is the append-then-trim step of the cache
  as functions on sequences. Its lemmas prove that, however many lines
  arrive, the cache is always the newest 500 lines of the whole history.
- `FujitaRunner` (`runner.dfy`) is the `Runner` class.
  - The object's state is the class's mutable fields.
  - Calling a waiter is modelled as appending the call's arguments to that
    waiter's log (`lineLog`, `statusLog`). Waiters are opaque identities of
    a type `W`.
  - The three loops of the source are modelled by two methods, each proved
    equal to a closed form. `CallEach` calls every waiter in a set and is
    proved equal to the function `Deliver`; it stands for both fan-out loops
    (runner.py:117 and 138). `Replay` replays the cache to one waiter
    (runner.py:122) and is proved equal to a single update of that waiter's
    log.
  - The class invariant `Valid()` states four things:
    - the cache is the newest 500 lines of the ghost `history` of every
      line ever published;
    - every registered line waiter has received every line published since
      its replay began, in order and exactly once, and that replay began no
      later than where the cache now starts, so the waiter holds the whole
      current cache;
    - every status waiter was last told the current status;
    - a running action has a name and a command.
- `RunnerScenarios` (`scenarios.dfy`) drives the class through short event
  sequences, as the HTTP handlers and process callbacks would. It states
  what the waiters receive.

The model follows the code of `fujita/runner.py` as written in these places,
where a reader might expect otherwise:

- A second `start` while a process exists is a silent no-op. It is not a
  conflict error (runner.py:68).
- Removing a waiter that is not registered is an error, because Python's
  `set.remove` raises `KeyError`. It is not an idempotent unsubscribe, so
  membership is a precondition of `RemoveLineWaiter` and
  `RemoveStatusWaiter` (runner.py:129, 163).
- An exit with return code `signal.SIGTERM` (15 on Linux) publishes the
  literal text `"%s is not running"`. The `%s` is never interpolated
  (runner.py:109). The model keeps that text as written
  (`UNINTERPOLATED_STOP`).
- tornado reports a process killed by a signal with a negative return
  code. So the SIGTERM branch is probably reached only when the command
  itself exits with status 15. That depends on tornado, which is not part
  of this model.

## Model

| member | source | states |
|---|---|---|
| `FujitaRunner.Runner.constructor` | fujita/runner.py:30-65 | A new runner has status STOPPED / "Ready to Start", an empty cache, no waiters, no process and no action. It stores the command as its command line. Nobody was notified. The class invariant holds. |
| `FujitaRunner.CommandLine` | fujita/runner.py:43-44 | A string command is kept as is. An empty list gives the empty command line. Splitting the command line of any non-empty list on spaces gives the words' own splits, concatenated. When no word contains a space, that is exactly the list of words. |
| `TextFormat.JoinWords` | fujita/runner.py:44 | An empty list joins to the empty string and a single word to itself. Otherwise the joined string begins with the first word followed by a space. `SplitJoin` proves that splitting it gives each word's own pieces, in order. `SplitJoinRoundTrip` gives the words back when no word contains a space. |
| `TextFormat.SplitAroundSpace` | fujita/runner.py:44 | Splitting two strings joined by a space gives the split of the first followed by the split of the second. |
| `TextFormat.SplitJoin` | fujita/runner.py:43-44 | Splitting the space-joined list of any non-empty list of words gives each word's own split, concatenated in order. |
| `TextFormat.SplitJoinRoundTrip` | fujita/runner.py:43-44 | For any non-empty list of words, if no word contains a space, splitting the space-joined words gives back the list. |
| `FujitaRunner.Runner.Start` | fujita/runner.py:67-77 | Afterwards a process exists. If one already existed, status, status code and every status waiter's log are unchanged. Otherwise the status becomes RUNNING with "<name> is running", and every status waiter is told that pair once. Lines, waiters and action are untouched. |
| `FujitaRunner.RunningMessage` | fujita/runner.py:74 | The running message begins with the runner's name and is longer than it. |
| `FujitaRunner.RunningIsNotExit` | fujita/runner.py:74-109 | The RUNNING message never equals any exit message, whatever the return code, so a status waiter can tell a start from an exit by the text alone. |
| `FujitaRunner.Runner.Stop` | fujita/runner.py:79-81 | Changes no state. Termination is requested exactly when a process exists. |
| `FujitaRunner.Runner.RunAction` | fujita/runner.py:83-99 | While an action runs, it fails with an `ActionException` naming the requested and the running action, and the action state is unchanged. Otherwise it succeeds and records the action with its name and command. |
| `FujitaRunner.ActionConflictMessage` | fujita/runner.py:85-89 | The refusal message names the requested action after the fixed 23-character prefix, and ends with the running action's name between an opening and the closing parenthesis. |
| `FujitaRunner.Runner.ProcessActionExit` | fujita/runner.py:101-102 | Clears only the action slot. Status, process, cache and waiters are untouched. |
| `FujitaRunner.Runner.ProcessExit` | fujita/runner.py:104-111 | The process is gone, the status is STOPPED with the exit message, and every status waiter is told that pair once. |
| `FujitaRunner.ExitMessage` | fujita/runner.py:106-109 | The exit message is the uninterpolated "%s is not running" exactly when the return code is SIGTERM. |
| `FujitaRunner.ExitMessageRevealsCode` | fujita/runner.py:106-107 | Two exits with return codes other than SIGTERM publish the same text only if the codes are equal, so the message reports the code. |
| `TextFormat.DecimalString` | fujita/runner.py:107 | The `%d` rendering begins with a minus sign exactly when the integer is negative, and every other character is a decimal digit. |
| `TextFormat.DecimalRoundTrip` | fujita/runner.py:107 | The `%d` rendering of any integer, negative ones included, reads back as that integer. |
| `TextFormat.DigitsRoundTrip` | fujita/runner.py:107 | The decimal digits of a natural number read back as that number. |
| `FujitaRunner.Runner.SetStatus` | fujita/runner.py:113-118 | Sets status and code. Every registered status waiter's log grows by exactly that pair, and no other log changes. The invariant "every status waiter was last told the current status" is kept. |
| `FujitaRunner.LastToldAfterSet` | fujita/runner.py:113-118 | After the fan-out, every status waiter's last notification is the new status. |
| `FujitaRunner.Deliver` | fujita/runner.py:117-118 | Specification of a fan-out: each waiter in the set gets the value appended once, and every other log is unchanged. |
| `FujitaRunner.CallEach` | fujita/runner.py:117-118 | The loop that calls every waiter in the set, one at a time, produces exactly the logs `Deliver` specifies. |
| `FujitaRunner.Runner.AddLineWaiter` | fujita/runner.py:120-125 | The new waiter is sent the whole cache, oldest first, and is then registered. No other waiter's log changes. While no more than 500 lines were ever published, it receives the complete history. Its replay is recorded as starting where the cache starts. The invariant "every registered waiter follows the history" is kept. |
| `FujitaRunner.ReplayWholeHistory` | fujita/runner.py:122-123 | While the history fits in the cache, replaying the cache hands the waiter the complete history. |
| `FujitaRunner.Replay` | fujita/runner.py:122-123 | The replay loop appends the given entries, in order, to that waiter's log and changes no other log. |
| `FujitaRunner.FollowsAfterReplay` | fujita/runner.py:120-125 | A waiter sent the current cache follows the history from the cache's start. Waiters already registered are unaffected. |
| `FujitaRunner.FollowerHoldsCache` | fujita/runner.py:120-143 | A waiter that follows the history from no later than the cache's start has the current cache as the newest part of its log. |
| `FujitaRunner.Runner.WaiterHoldsCache` | fujita/runner.py:120-143 | In any valid runner, every registered line waiter has received the current cache, in order, as the newest lines of its log. |
| `FujitaRunner.Runner.CacheIsEveryPublication` | fujita/runner.py:131-143 | In any valid runner the cache is what publishing every line ever received, one after another from an empty cache, leaves. This ties the runner to `LineCache.PublishAll`, so `PublishAllKeepsNewest` describes its cache. |
| `FujitaRunner.Runner.RemoveLineWaiter` | fujita/runner.py:127-129 | Removes exactly that waiter, which must be registered. The invariant is kept. |
| `FujitaRunner.Runner.SendLineToWaiters` | fujita/runner.py:131-143 | Appends the entry to the history. The new cache is the old cache with the entry pushed and trimmed to 500. Every registered line waiter gets the entry exactly once, and no other log changes. The invariant "cache = newest 500 of history, waiters follow the history" is kept. |
| `FujitaRunner.FollowsAfterPublish` | fujita/runner.py:135-139 | Publishing a line to every registered waiter keeps each waiter's log a faithful record of the history since it joined. |
| `LineCache.Trim` | fujita/runner.py:142-143 | Trimming to a size n (500 in the runner) leaves min(len, n) entries. |
| `LineCache.TrimIsSuffix` | fujita/runner.py:142-143 | The trim keeps the newest entries, in their original order. |
| `LineCache.Push` | fujita/runner.py:135-143 | After one publication the cache is non-empty, holds at most n (500) entries, and ends with the new entry. |
| `LineCache.PushTrimmed` | fujita/runner.py:135-143 | Trimming at every step loses nothing the final trim would keep. Pushing onto the trimmed history equals trimming the whole history with the entry appended. |
| `LineCache.PublishAll` | fujita/runner.py:131-143 | After any non-empty run of publications the cache holds at most n (500) entries. |
| `LineCache.PublishAllKeepsNewest` | fujita/runner.py:131-143 | After any sequence of publications the cache is exactly the newest n (500) lines of the whole history, in arrival order. |
| `FujitaRunner.Runner.HandleStdout` | fujita/runner.py:148-150 | A standard-output line is published with file handle 0. The effects are those of `SendLineToWaiters`. |
| `FujitaRunner.Runner.HandleStderr` | fujita/runner.py:152-154 | A standard-error line is published with file handle 1. The effects are those of `SendLineToWaiters`. |
| `FujitaRunner.Runner.AddStatusWaiter` | fujita/runner.py:156-159 | The new waiter is told the current (code, status) pair once, then registered. No other log changes. |
| `FujitaRunner.Runner.RemoveStatusWaiter` | fujita/runner.py:161-163 | Removes exactly that waiter, which must be registered. The invariant is kept. |
| `RunnerScenarios.LiveLine` | fujita/runner.py:120-150 | A line waiter registered on a fresh runner receives exactly the one standard-output line that arrives, with file handle 0. |
| `RunnerScenarios.LateJoiner` | fujita/runner.py:120-154 | A line waiter registering after a standard-error line arrived is sent exactly that line from the cache, with file handle 1. |
| `RunnerScenarios.StartTwice` | fujita/runner.py:40-74 | A status waiter is told "Ready to Start" on registering, then RUNNING once. The second start notifies nobody. |
| `RunnerScenarios.StopBySigterm` | fujita/runner.py:79-111 | Stopping a running process requests termination. An exit with return code 15 (the value of SIGTERM) then publishes STOPPED with the literal "%s is not running". |
| `RunnerScenarios.ExitWithCode` | fujita/runner.py:104-111 | Any other exit, including -15 for a process killed by SIGTERM, publishes STOPPED with a message that is not the SIGTERM text. |
| `RunnerScenarios.ActionExclusivity` | fujita/runner.py:83-102 | A second action is refused while the first runs. After the first exits, a new action is accepted. |

## Left out

- Process spawning, stream reading and exit callbacks are not modelled. This covers tornado's `process.Subprocess`, `read_until`, the re-arming of reads, `set_exit_callback` and `proc.terminate()`. They are operating-system and event-loop I/O. A process is a presence flag, the action slot is a flag plus its name and command, and a line arrival or an exit is a call to the matching method. `read_line` (runner.py:145-146) has no model of its own.
- `handle_stdout` and `handle_stderr` always re-arm reading on the primary process's streams, even for an action's output (runner.py:150, 154). That is I/O and is not modelled. Only the publication of the line is.
- Line ids and timestamps come from `uuid.uuid4()` and `time.time()`, which are nondeterministic. They are parameters of `SendLineToWaiters`. Timestamps are `real`, not floating point.
- The subprocess options `process_kwargs` (runner.py:50-57, 61) and all logging are not modelled. They have no observable effect on the runner's state.
- The order in which a fan-out visits the waiters is not modelled, because a Python set's iteration order is unspecified. Each waiter's own log is exact, but the interleaving of calls across waiters is not recorded.
- Every waiter call is taken to return normally. In the source a callback that raises propagates out of the runner method. In `set_status` and `send_line_to_waiters` the fan-out loop stops there, so the remaining waiters are not told (runner.py:117-118, 138-139). In `send_line_to_waiters` the trim at runner.py:142-143 is then skipped, so the cache can grow past 500 entries. In `handle_stdout` and `handle_stderr` the re-read at runner.py:150 and 154 is skipped. In `add_line_waiter` and `add_status_waiter` the waiter is never registered (runner.py:125, 159). The invariant's 500-entry bound on the cache holds only under this assumption.
- Re-entrancy is not modelled: a callback that adds or removes waiters during a fan-out. The code runs on one event loop and callbacks are taken to be non-reentrant. The source's fan-out iterates over the live waiter set, not a copy, so such a callback would make Python raise `RuntimeError` (set changed size during iteration). The model's `CallEach` iterates over a set value, so it cannot tell the live set from a snapshot.
- `FujitaRunner.Runner.AddLineWaiter`: a waiter that is already registered is replayed the cache again. The model records that replay in its log, as the code does. The invariant then speaks only about the lines since its latest replay.
- `LineCache.Trim` with a size of 0 keeps nothing, whereas Python's `cache[-0:]` keeps everything. The runner's cache size is always 500, so this case never arises.
- `FujitaRunner.Runner.Start` returns no error when a process already exists. This is as written in the code. There is no conflict error for a second start.
- `fujita/main.py` and `fujita/handlers.py` are not part of this model. They are start-up code and HTTP/WebSocket transport that only forward to the runner.
