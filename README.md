# Process monitor model

A Dafny model of Twisted's process supervisor, `twisted.runner.procmon`. It covers three classes.

- **`ProcessMonitor`** keeps a table of named processes. It spawns every one of them when the service starts. When a process exits, it schedules a restart after a delay. That delay doubles on each exit that comes faster than `threshold`, is capped at `maxRestartDelay`, and resets after a long enough run. Stopping a process sends TERM and arms a KILL timer, recorded in `murder`, which the exit cancels.
- **`LoggingProtocol`** is attached to every spawned process. It feeds the process's output to a `LineLogger`. It remembers whether the last chunk ended a line (the corrected rule, see "## Findings"), so that on exit it can flush a trailing partial line before reporting the exit to the monitor.
- **`LineLogger`** cuts the byte stream at `b'\n'` and logs each line as `"[tag] text"`. The text is the line's UTF-8 decoding, or its repr when decoding fails.

The model is imperative, like the code:

- `ProcessMonitor`, `LoggingProtocol` and `LineLogger` are classes whose methods update their fields in place.
- The frozen `_Process` record is the datatype `ProcessSpec.Process`.
- The reactor is a `MemoryReactor` class, standing in for the clock, the timers and the spawner. It keeps:
  - the clock `now`;
  - the delayed calls, each pending, called or cancelled, with the handle being the call's position;
  - the spawn requests, with a process identified by its spawn's position;
  - the signals delivered.
- A TERM or KILL is given as a boolean input. It says whether the signal reached a running process, or whether `ProcessExitedAlready` was raised.

Each loop of the code is a `while` loop in the model and is proved against a specification function on values:

- `startService` against `StartAll`;
- `stopService` and `restartAll` against `StopAll`;
- the restart-timer cancellation against `CancelActive`;
- the line receiver against `SplitLines`.

The lemmas about those functions state what the loops achieve. Every name is started at most once, and only the names not already live. TERM and KILL timers go to exactly the live processes whose TERM was delivered. Every line of output is logged once, in order.

Files:

| file | contents |
|---|---|
| `wrappers.dfy` | `Option` and sequence helpers (`IndexOf`, `Filter`, `NoDuplicates`) |
| `decimal.dfy` | Python's `str` of an integer and its inverse |
| `process_spec.dfy` | the `_Process` record and the uid/gid suffix of `__repr__` |
| `line_logging.dfy` | line splitting, the logged messages, `LineLogger` |
| `backoff.dfy` | the restart delay rule of `connectionLost` |
| `reactor.dfy` | the in-memory reactor |
| `procmon.dfy` | the specification functions, `LoggingProtocol` and `ProcessMonitor` |

## Model

| member | source | states |
|---|---|---|
| `ProcessSpec.UidGid` | src/twisted/runner/procmon.py:334-341 | the suffix is empty exactly when neither uid nor gid is set; otherwise it is parenthesised |
| `ProcessSpec.UidGidRoundTrip` | src/twisted/runner/procmon.py:334-341 | both optional ids can be read back from the suffix, so different uid/gid pairs print differently |
| `ProcessSpec.IdTextNoColon` | src/twisted/runner/procmon.py:335-336 | the uid text never contains the `:` separator and reads back to the uid |
| `Decimal.IntToString` | src/twisted/runner/procmon.py:336-338 | `str(id)` is non-empty, made of digits and a sign |
| `Decimal.ParseIntToString` | src/twisted/runner/procmon.py:336-338 | `str(id)` reads back to the id |
| `LineLogging.LineLogger.LineReceived` | src/twisted/runner/procmon.py:47-52 | one message `"[tag] text"` is appended, where text is the decoding or, when decoding fails, the repr; the buffer is untouched |
| `LineLogging.LineLogger.DataReceived` | src/twisted/runner/procmon.py:42-52 | the logger delivers, oldest first, every complete line of buffer + data without its delimiter, and keeps the partial rest buffered |
| `LineLogging.SplitLinesSound` | src/twisted/runner/procmon.py:45 | the delivered lines and the buffered rest contain no `b'\n'`; joined back with their delimiters they are the stream |
| `LineLogging.SplitJoin` | src/twisted/runner/procmon.py:45 | splitting inverts joining: delimiter-free lines and rest are recovered exactly |
| `LineLogging.SplitAppend` | src/twisted/runner/procmon.py:42-52 | feeding a stream in two chunks delivers the same lines and leaves the same buffer as feeding it at once |
| `LineLogging.BufferEmptyAtBoundary` | src/twisted/runner/procmon.py:45 | nothing stays buffered exactly when the stream is empty or ends with `b'\n'` |
| `LineLogging.CompleteLinesCoverOutput` | src/twisted/runner/procmon.py:74-76 | all lines of the output, a trailing partial one included, account for every byte plus one closing delimiter where it lacked one |
| `LineLogging.MessagesAppend` | src/twisted/runner/procmon.py:52 | the messages of two runs of lines are the messages of each, in order |
| `Backoff.OnExit` | src/twisted/runner/procmon.py:251-260 | a fast exit restarts after the old delay and does not lower it; a slow exit restarts at once and resets the delay to the minimum; the delay stays within [min, max] |
| `Backoff.FastExitsDouble` | src/twisted/runner/procmon.py:251-254 | the i-th of k fast exits in a row waits `d0 * 2^i`, capped at the maximum, and leaves `d0 * 2^k`, capped |
| `Backoff.FastExitsMonotone` | src/twisted/runner/procmon.py:251-254 | during fast exits the waits never decrease and stay within [min, current delay] |
| `Backoff.BackoffScenario` | src/twisted/runner/procmon.py:251-260 | with minimum 1 and maximum 60, three fast exits wait 1, 2 and 4 and leave the delay at 8; a slow exit then restarts at once with delay 1 |
| `Reactor.CancelActive` | src/twisted/runner/procmon.py:218-220 | after cancelling a set of handles, a call is active exactly when it was active and not in the set; times and actions are unchanged, and a call outside the set or no longer active is left exactly as it was |
| `Reactor.MemoryReactor.CancelIfActive` | src/twisted/runner/procmon.py:245-246 | only that handle is cancelled, if it was active; nothing else changes |
| `LineLogging.SplitLines` | src/twisted/runner/procmon.py:45 | how the line receiver cuts the stream at `delimiter`: the complete lines without their delimiter, and the partial rest it keeps buffered |
| `LineLogging.LineText` | src/twisted/runner/procmon.py:48-51 | the UTF-8 decoding of a line, or its repr when decoding fails |
| `LineLogging.Message` | src/twisted/runner/procmon.py:52 | the message `"[tag] text"` logged for a line |
| `Procmon.Launch` | src/twisted/runner/procmon.py:285-287 | the spawnProcess request for a record: executable `args[0]`, argv, uid, gid, env and cwd as path |
| `Procmon.StartStep` | src/twisted/runner/procmon.py:275-287 | startProcess on values: nothing for a live or unregistered name, otherwise a new transport, the start time and one spawn |
| `Procmon.StartAll` | src/twisted/runner/procmon.py:207-208 | the loop of startService on values: a `StartStep` for each name in order |
| `Procmon.StopStep` | src/twisted/runner/procmon.py:307-317 | stopProcess on values: a TERM to a live process and, when delivered, a KILL timer `killTime` ahead recorded in murder |
| `Procmon.StopAll` | src/twisted/runner/procmon.py:222-223 | the loops of stopService and restartAll (lines 327-328) on values: a `StopStep` for each name in order |
| `Procmon.EmptyAfter` | src/twisted/runner/procmon.py:69 | `empty` as evidently intended: the chunk's last byte is b'\n' |
| `Procmon.EmptyAfterAsWritten` | src/twisted/runner/procmon.py:69 | `empty` as line 69 computes it under Python 3: an int compared with bytes, always false |
| `Procmon.ExitFlush` | src/twisted/runner/procmon.py:75-76 | what processEnded feeds the logger: b'\n' unless `empty` |
| `Procmon.LaunchesAreOwnRecords` | src/twisted/runner/procmon.py:278-287 | every spawn is for a registered name, with executable `args[0]`, argv, uid, gid, env and cwd from that name's record |
| `Procmon.LaunchesCover` | src/twisted/runner/procmon.py:207-208 | every registered name that is requested gets a spawn |
| `Procmon.LaunchesDistinct` | src/twisted/runner/procmon.py:207-208 | distinct names yield spawns for distinct names: no name is spawned twice |
| `Procmon.LaunchesOncePrefix` | src/twisted/runner/procmon.py:275-287 | one more name keeps the earlier spawns and adds at most one spawn, exactly when the name is registered |
| `Procmon.StartAllKeeps` | src/twisted/runner/procmon.py:202-208 | starting names only adds: live protocols keep their processes and start times, only the started names gain entries, and spawns are appended |
| `Procmon.StartAllLive` | src/twisted/runner/procmon.py:275-276 | a name that is not started is live afterwards exactly when it was before |
| `Procmon.StartAllStarts` | src/twisted/runner/procmon.py:280-287 | every registered name that was not live is started at the current time, on a new process spawned from its own record |
| `Procmon.StartAllSpawns` | src/twisted/runner/procmon.py:202-208 | starting the registered names spawns, in registration order, exactly those that were not live |
| `Procmon.StopAllArmsKillTimers` | src/twisted/runner/procmon.py:307-317 | stopping a sequence of names arms a KILL timer `killTime` ahead for exactly the live names whose TERM was delivered, each for that name's process; other murder entries and earlier calls are unchanged |
| `Procmon.StopAllSignals` | src/twisted/runner/procmon.py:307-313 | stopping only appends signals, each a TERM to a live process; every live name whose TERM was delivered gets one, and there is one new signal per new KILL timer |
| `Procmon.FlushAtExit` | src/twisted/runner/procmon.py:74-76 | when `empty` tracks whether the output ended a line, the exit flush delivers every line of the output and leaves nothing buffered |
| `Procmon.ExitFlushLogsCompleteLines` | src/twisted/runner/procmon.py:67-76 | with `empty` set from the last byte of the last chunk, the exit flush delivers every line, a trailing partial one included, and nothing more |
| `Procmon.AsWrittenExitLogsEmptyLine` | src/twisted/runner/procmon.py:69 | with `empty` as line 69 computes it, output ending with `b'\n'` gets one extra empty line logged at exit |
| `Procmon.AsWrittenExample` | src/twisted/runner/procmon.py:69 | for output `b"a\n"` the flag as written delivers "a" and an empty line; the intended flag delivers "a" alone |
| `Procmon.LoggingProtocol.constructor` | src/twisted/runner/procmon.py:59-64 | a new protocol has a fresh line logger tagged with the process name, nothing buffered or logged, and `empty` set |
| `Procmon.LoggingProtocol.OutReceived` | src/twisted/runner/procmon.py:67-69 | the chunk's complete lines are logged after the earlier ones, and `empty` says whether the chunk ended with `b'\n'` (the corrected rule, see "## Findings") |
| `Procmon.LoggingProtocol.ErrReceived` | src/twisted/runner/procmon.py:71 | stderr is handled exactly as stdout |
| `Procmon.LoggingProtocol.ProcessEnded` | src/twisted/runner/procmon.py:74-77 | at exit every line of the output, the partial last one included, has been logged, and nothing is buffered. Then the monitor applies connectionLost: it drops this name's protocol and its KILL timer, which it leaves inactive, and updates the delay by the backoff rule. It schedules the restart only when running and registered, and leaves the registry, the start times, the running flag, the spawns and the signals unchanged |
| `Procmon.LoggingProtocol.FlushPartialLine` | src/twisted/runner/procmon.py:75-76 | after feeding b'\n' unless the output ended a line, every line of the output has been logged and nothing is buffered |
| `Procmon.ProcessMonitor.constructor` | src/twisted/runner/procmon.py:120-134 | the monitor starts stopped with every table empty and the default tuning 1, 5, 1 and 3600 |
| `Procmon.ProcessMonitor.AddProcess` | src/twisted/runner/procmon.py:182-187 | KeyError exactly for a registered name, with nothing changed; otherwise the record is stored, the delay is the minimum, and the process is spawned only when the service runs and the name is not live, with a fresh, valid protocol, holding a fresh logger, on the new spawn |
| `Procmon.ProcessMonitor.Register` | src/twisted/runner/procmon.py:184-185 | the record is stored at the end of the registration order with the minimum delay |
| `Procmon.ProcessMonitor.RemoveProcess` | src/twisted/runner/procmon.py:198-199 | KeyError exactly for an unknown name, with nothing changed; otherwise the name is stopped and then unregistered, while its delay, start time and restart timer stay |
| `Procmon.ProcessMonitor.Unregister` | src/twisted/runner/procmon.py:199 | the record goes and the name leaves the order; every other table is unchanged |
| `Procmon.ProcessMonitor.StartService` | src/twisted/runner/procmon.py:202-208 | the service runs, and every registered name is started in order, as `StartAll` describes; existing protocols are kept, and every new one is fresh, with a fresh logger, valid and with nothing received |
| `Procmon.ProcessMonitor.StartNext` | src/twisted/runner/procmon.py:207-208 | one iteration of startService's loop: a `StartStep` for the name, with the protocols added so far kept and a new one fresh, valid and with nothing received |
| `Procmon.ProcessMonitor.StopService` | src/twisted/runner/procmon.py:211-223 | the service stops, every restart timer recorded in `restart` is inactive, and every registered name is stopped in order after the active restart timers were cancelled |
| `Procmon.ProcessMonitor.CancelRestarts` | src/twisted/runner/procmon.py:218-220 | exactly the active restart timers are cancelled |
| `Procmon.ProcessMonitor.StopEach` | src/twisted/runner/procmon.py:222-223 | every registered name is stopped in order, as `StopAll` describes |
| `Procmon.ProcessMonitor.RestartAll` | src/twisted/runner/procmon.py:327-328 | every registered name is stopped in order; no table other than the KILL timers changes |
| `Procmon.ProcessMonitor.ConnectionLost` | src/twisted/runner/procmon.py:244-266 | the KILL timer recorded in `murder` is inactive and dropped, the protocol is dropped, the delay follows the backoff rule, and a restart after the rule's wait is scheduled exactly when the service runs and the name is registered |
| `Procmon.ProcessMonitor.ForgetProtocol` | src/twisted/runner/procmon.py:244-249 | the KILL timer is cancelled if active and dropped, and the protocol is dropped |
| `Procmon.ProcessMonitor.ApplyBackoff` | src/twisted/runner/procmon.py:251-266 | the delay becomes the backoff rule's, and the restart timer is scheduled after its wait only while running and registered |
| `Procmon.ProcessMonitor.StartProcess` | src/twisted/runner/procmon.py:275-287 | nothing happens for a live name; KeyError for an unregistered one, with nothing changed; otherwise one new protocol, the current start time and exactly one spawn from the record |
| `Procmon.ProcessMonitor.ForceStopProcess` | src/twisted/runner/procmon.py:290-297 | a KILL is recorded when delivered; an exited process is ignored |
| `Procmon.ProcessMonitor.StopProcess` | src/twisted/runner/procmon.py:304-317 | KeyError exactly for an unknown name, with nothing changed; a TERM to the live process; a KILL timer `killTime` ahead only when the TERM was delivered |
| `Procmon.ProcessMonitor.RunDelayedCall` | src/twisted/runner/procmon.py:264-266 | a due restart timer runs startProcess, with that method's outcomes, including a fresh, valid protocol, holding a fresh logger, on the newly spawned process; a due KILL timer runs _forceStopProcess; the call is marked called, and the registry, the delays, the running flag and the clock are unchanged |

## Left out

- `_Process.toTuple`, the `processes` property and `__getstate__` are left out. They are deprecated pickling and compatibility surface.
- `__repr__` is modelled only for its uid/gid suffix. Python's `%r` of names and argv, and the joining of the entries, are left out.
- UTF-8 decoding and Python's `repr` of bytes are inputs: a `Codec` of two functions. `log.msg` is appending to `LineLogger.logged`.
- The internals of Twisted's `LineReceiver` that `LineLogger` inherits are not part of this model. `DataReceived` models only buffering and delivering each segment before `b'\n'`. `MAX_LENGTH`, `lineLengthExceeded` and pausing are left out.
- The clock is an integer number of seconds, not a float. `threshold`, `killTime` and the delays are naturals.
- Spawning, signal delivery and the event loop are the in-memory reactor. Whether a signal reached a running process is an input. `RunDelayedCall` stands for the reactor running a due timer.
- `twisted/application/twist/_options.py` is not part of this model. It is command-line parsing and I/O.
- `ProcessMonitor.StopService` and `ProcessMonitor.CancelRestarts` visit the restart timers as a set of handles, not in the dict's order. Cancelling is order-independent, so the end state is the same.
- `ProcessMonitor.AddProcess` takes an `Argv`, which is never empty. With empty args, the code fails at line 285 with an IndexError, after it has already stored the protocol and the start time. If the service is running, this happens inside `addProcess`. If it is stopped, `addProcess` succeeds, and the IndexError comes at the next `startService`. That aborts its loop before the later names and leaves a protocol that blocks the name for good. The model does not capture any of this.
- `ProcessMonitor` fixes `threshold`, `killTime`, `minRestartDelay` and `maxRestartDelay` when it is built, as `const` fields. In the code they are class attributes (lines 120-123), which a caller may reassign on the instance at any time. The bound `minRestartDelay <= delay[name] <= maxRestartDelay` in `ProcessMonitor.Valid` depends on this. In the code, raising `minRestartDelay` after `addProcess` leaves that name's delay below the new minimum until its next slow exit.
- `LoggingProtocol.OutReceived` requires a non-empty chunk. `data[-1]` at line 69 raises on an empty one, and process transports do not deliver empty chunks.
- `LoggingProtocol.ProcessEnded` requires that the monitor still holds this name's protocol. The code removes it only in the `connectionLost` that `processEnded` itself calls.
- `LoggingProtocol.received` is a ghost record of the output. The code does not keep it.
- `ProcessMonitor.RemoveProcess` follows lines 198-199: it only stops the process and deletes its record. It does not cancel a restart timer and does not remove `delay` or `timeStarted`. So after removal:
  - `delay` and `timeStarted` keep the name;
  - a restart timer armed before removal stays armed;
  - when that timer fires and no protocol for the name is live, `startProcess` raises KeyError at line 278. `ProcessMonitor.RunDelayedCall` models this as the outcome `KeyError` with no state change;
  - when that timer fires while a protocol for the name is still live (an explicit `startProcess` respawned it before removal), `startProcess` returns at lines 275-276, and `ProcessMonitor.RunDelayedCall` changes nothing but the call's state.
- The code keeps one restart handle and one KILL handle per name, and the model does the same. It therefore also keeps the code's orphaned timers, which stay active:
  - Restart timers. An exit arms restart timer R1 (line 264). An explicit `startProcess` respawns the name before R1 fires, and when that process exits, line 264 overwrites `restart[name]` with R2. `stopService` (lines 218-220) cancels only R2. When R1 fires later, `startProcess` spawns the name while the service is stopped. `ProcessMonitor.RunDelayedCall` allows that spawn with `running` false.
  - KILL timers. A second `stopProcess` on a live name overwrites `murder[name]` (line 315), and `connectionLost` (lines 244-247) cancels only the later KILL timer. The earlier one stays active. If it fires after the exit, `_forceStopProcess` signals a process that is gone and catches `ProcessExitedAlready`.
  - So "every restart timer" and "the KILL timer" in the contracts of `ProcessMonitor.StopService`, `ProcessMonitor.ConnectionLost` and `LoggingProtocol.ProcessEnded` mean the handles recorded in `restart` and `murder`.

## Findings

| source | as written | input that shows it | evidently intended | confidence | as-written member | corrected member |
|---|---|---|---|---|---|---|
| src/twisted/runner/procmon.py:69 | `self.empty = data[-1] == b'\n'`: under Python 3 indexing bytes gives an int, which never equals `b'\n'`, so `empty` is false after any output, and `processEnded` always feeds another `b'\n'` | the process writes `b"a\n"` and exits: the line "a" is logged, then an extra empty line `"[name] "` | `empty` is true when the last byte of the chunk is a newline, so output that ended a line gets no extra line at exit | not executed | `Procmon.AsWrittenExitLogsEmptyLine` | `Procmon.ExitFlushLogsCompleteLines` |

`Procmon.EmptyAfterAsWritten` is the flag as written, and `Procmon.AsWrittenExample` shows the discrepancy on `b"a\n"`. `Procmon.EmptyAfter` is the corrected flag, which `LoggingProtocol.OutReceived` uses.
