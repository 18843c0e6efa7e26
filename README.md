# ProcessMonitor in Dafny

ProcessMonitor is a watchdog. It takes a process name, a maximum lifetime in
minutes and a polling interval in minutes from the command line. On every
tick it looks up the first process with that name and kills it when it has
run for at least the maximum lifetime. It then waits for the interval or for a
line of console input, and stops when that line is `q` in either case.

The repository holds the decision logic twice. `ProcessMonitorWorker` is a
class with a defaulting flag set by its constructors. `Program` is a top-level
program with static copies of the same members. The two copies of
`ValidateInputs` differ:

- the worker uses `int.Parse`, catches every exception, and rethrows it when
  it cannot default;
- the program uses `int.TryParse`, catches only `IndexOutOfRangeException`,
  and calls `Environment.Exit(1)` when it cannot default.

The model keeps the two copies apart and proves how they differ.

- `wrappers.dfy`: the `Option` and `Result` types.
- `int32_parsing.dfy`: `int.Parse` and `int.TryParse` with the default
  `NumberStyles.Integer`. The accepted form is optional white space, an
  optional `+` or `-`, one or more decimal digits, optional white space and
  trailing NULs, with the value in the Int32 range. A malformed string is a
  format error even when its digits would overflow.
- `monitor_core.dfy`: the parts both copies share. These are the validated
  triple, the catch block, the defaulting flag read from the "UseDefaults"
  setting, the decision of one tick, the quit test, and `Watch`. `Watch` is a
  function giving what the do-while loop of `Execute` does over a finite
  script of ticks.
- `worker.dfy`: the worker's try block and `ValidateInputs`. Also the
  `ProcessMonitorWorker` class, with its `useDefaults` and `input` fields, its
  two constructors, and `ValidateInputs`, `ReadLine` and `Execute` methods.
- `program.dfy`: the program's try block and `ValidateInputs`, the static
  `Execute` loop, and `Run`, which validates and then executes.
- `copies.dfy`: lemmas that compare the two copies of `ValidateInputs`.

Each tick of the loop is given to the model as a `Tick`. Its `process` field
is the age in whole minutes of the process that was found, or `None` when no
process was found. Its `wait` field is the line the timed wait delivered, or
`None` on a timeout. Both `Execute` methods return the action of every tick
they ran and whether they stopped on a quit. Their `ensures` equate that with
`Watch`, and the lemmas about `Watch` state the loop's properties.

The model follows the code as written, including where its behaviour may
surprise a reader:

- Neither copy checks the name or the sign of the numbers once every number
  parses. `["", "0", "-3"]` validates.
- The worker rethrows the original `FormatException`, `OverflowException` or
  `IndexOutOfRangeException`. It has no error kinds of its own.
- With three tokens, the program turns a number that does not parse into 0
  and raises nothing, whatever the flag (`Copies.DisagreeOnUnparsedNumbers`).
- A lifetime that already parsed is still replaced by 5 when defaulting.
- A kill is not guarded. An exception from it would leave `Execute` (see
  below).

## Model

| member | source | states |
|---|---|---|
| Int32Parsing.ParseInt32 | ProcessMonitor/Worker/ProcessMonitorWorker.cs:165-166 | `int.Parse` yields only Int32 values and throws only FormatException or OverflowException |
| Int32Parsing.TryParseInt32 | ProcessMonitor/Program.cs:113-121 | `int.TryParse` succeeds exactly on the strings `int.Parse` accepts, with the same value |
| Int32Parsing.RangeChecked | ProcessMonitor/Worker/ProcessMonitorWorker.cs:165-166 | the last step of `int.Parse`: a value inside the Int32 range is returned, any other is an OverflowException |
| Int32Parsing.ParseWellFormed | ProcessMonitor/Worker/ProcessMonitorWorker.cs:165-166 | white space, optional sign, digits, white space and trailing NULs parse to the signed value of the digits, or an overflow outside the Int32 range |
| Int32Parsing.ShowRoundTrip | ProcessMonitor/Worker/ProcessMonitorWorker.cs:165-166 | a decimal number parses back to itself inside the Int32 range and overflows outside it |
| Int32Parsing.NoDigitsIsFormatError | ProcessMonitor.Tests/WorkerTests.cs:31-37 | a token without any digit, such as "abc", is a FormatException |
| Int32Parsing.ParsedShape | ProcessMonitor/Worker/ProcessMonitorWorker.cs:165-166 | parsing is strict, the converse of `ParseWellFormed`: a string that does not raise a FormatException is, in this order, white space, at most one sign, one or more digits, white space and NULs, and it parses to the signed value of those digits inside the Int32 range and overflows outside it; so an OverflowException only ever comes from a well-formed token |
| Int32Parsing.DigitsThenLetters | ProcessMonitor/Worker/ProcessMonitorWorker.cs:165-166 | "12abc" holds digits but is a FormatException, not an overflow or a value |
| MonitorCore.CatchBlock | ProcessMonitor/Worker/ProcessMonitorWorker.cs:169-196 | the catch block succeeds iff the name is non-empty and the flag is set or both locals are non-zero; with the flag the result is exactly (name, 5, 1); an empty name fails at the name guard; otherwise the lifetime guard fires iff the lifetime is 0 |
| MonitorCore.DefaultingFlag | ProcessMonitor/Program.cs:92 | defaulting is off only when the "UseDefaults" setting is the boolean false; absent or unparsable means on |
| MonitorCore.Decide | ProcessMonitor/Program.cs:50-70 | no process gives no action; a kill iff the process was found with runtime >= max lifetime; otherwise alive with remaining lifetime max - runtime > 0 |
| MonitorCore.QuitLines | ProcessMonitor/Program.cs:80 | the only lines equal to "Q" ignoring case are "q" and "Q" |
| MonitorCore.ReadLine | ProcessMonitor/Program.cs:76-84 | true iff the wait delivered a line and the line is "q" or "Q"; false on a timeout or any other line |
| MonitorCore.Watch | ProcessMonitor/Program.cs:48-72 | the loop never runs more ticks than the script holds (its full behaviour is stated by the next four lemmas) |
| MonitorCore.WatchStopsAtFirstQuit | ProcessMonitor/Worker/ProcessMonitorWorker.cs:122-146 | every tick, including one that found no process, reads a line; the loop quits iff some tick reads the quit key, and stops right after the first such tick; without a quit every tick runs |
| MonitorCore.WatchDecidesEachTick | ProcessMonitor/Worker/ProcessMonitorWorker.cs:124-144 | the action of tick i is the decision on tick i's own observation, so a kill happens at most once per tick and exactly on the ticks at or past the lifetime |
| MonitorCore.WatchDeterminedByTicks | ProcessMonitor/Worker/ProcessMonitorWorker.cs:122-146 | a trace that decides each tick it ran on that tick's own observation, and stops right after the first quit or else runs every tick, is exactly the loop's outcome |
| MonitorCore.WatchAppend | ProcessMonitor/Worker/ProcessMonitorWorker.cs:122-146 | ticks carry no state: a script with no quit in its first part runs as the first part followed by the rest |
| MonitorCore.LastInput | ProcessMonitor/Worker/ProcessMonitorWorker.cs:88-97 | the stored input is the previous value or a line one of the waits delivered (made exact by the next two lemmas) |
| MonitorCore.LastInputAllTimeouts | ProcessMonitor/Worker/ProcessMonitorWorker.cs:88-97 | when every wait timed out, the stored input is the value it had before the loop |
| MonitorCore.LastInputLastDelivered | ProcessMonitor/Worker/ProcessMonitorWorker.cs:88-97 | otherwise the stored input is the line of the last wait that delivered one: a line delivered later overwrites an earlier one, and a timeout never does |
| Worker.WorkerTry | ProcessMonitor/Worker/ProcessMonitorWorker.cs:162-168 | the try block completes iff both numbers parse; when it raises, the interval local is still 0 |
| Worker.WorkerValidate | ProcessMonitor/Worker/ProcessMonitorWorker.cs:156-199 | both numbers parse: exactly (args[0], n1, n2), extra tokens ignored; no arguments: IndexOutOfRangeException whatever the flag; any other failure: (args[0], 5, 1) iff the flag is set and the name non-empty, else the original exception rethrown (Format/Overflow for a bad token, IndexOutOfRange for a missing one), from the name guard for an empty name and, for a non-empty name, from the lifetime guard while the lifetime is 0 and otherwise the interval guard; a success is never a mix of parsed and default values |
| Worker.ProcessMonitorWorker.FromConfiguration | ProcessMonitor/Worker/ProcessMonitorWorker.cs:43-61 | the flag is the setting when it is a boolean, true otherwise; no line has been read yet |
| Worker.ProcessMonitorWorker.WithDefaults | ProcessMonitor/Worker/ProcessMonitorWorker.cs:67-82 | the flag is the argument, verbatim |
| Worker.ProcessMonitorWorker.ValidateInputs | ProcessMonitor/Worker/ProcessMonitorWorker.cs:156 | validation with this worker's flag, as `WorkerValidate` |
| Worker.ProcessMonitorWorker.ReadLine | ProcessMonitor/Worker/ProcessMonitorWorker.cs:104-112 | a delivered line is stored in `input` and a timeout leaves it as it was; the result is the quit test of the wait |
| Worker.ProcessMonitorWorker.Execute | ProcessMonitor/Worker/ProcessMonitorWorker.cs:119-147 | the actions and the quit flag are those of `Watch` with the lifetime; `input` ends as the last line delivered to the ticks that ran |
| Worker.ArgsValidationSuccess | ProcessMonitor.Tests/WorkerTests.cs:19-29 | {"process", "1", "1"} gives ("process", 1, 1 min) with either flag |
| Worker.ArgsValidationInvalidFormat | ProcessMonitor.Tests/WorkerTests.cs:31-37 | {"process", "abc"} without defaults rethrows FormatException |
| Worker.ArgsValidationInvalidIndex | ProcessMonitor.Tests/WorkerTests.cs:39-45 | {"process"} without defaults rethrows IndexOutOfRangeException |
| Worker.ArgsValidationSuccessDefaults | ProcessMonitor.Tests/WorkerTests.cs:47-56 | {"process"} with defaults gives ("process", 5, 1 min) |
| Program.ProgramTry | ProcessMonitor/Program.cs:109-122 | only indexing past the end raises, exactly when there are fewer than three tokens, and then the interval local is still 0 |
| Program.ProgramValidate | ProcessMonitor/Program.cs:103-154 | three or more tokens: always (args[0], parsed-or-0, parsed-or-0), whatever the flag and even for an empty name; no arguments: exit 1; one or two tokens: (args[0], 5, 1) iff the flag is set and the name non-empty, else exit 1, from the name guard for an empty name and, for a non-empty name, from the lifetime guard while the lifetime is 0 and otherwise the interval guard |
| Program.Execute | ProcessMonitor/Program.cs:46-73 | the actions and the quit flag are those of `Watch` with the lifetime |
| Program.Run | ProcessMonitor/Program.cs:9-12 | validation runs once before any tick; a validation failure exits with status 1 having run no tick; otherwise the ticks are those of `Watch`, and the program exits with status 0 iff a tick read the quit key |
| Program.WellFormedArguments | ProcessMonitor/Program.cs:109-122 | {"proc", "1", "1"} validates to ("proc", 1, 1 min) whatever the setting |
| Program.DefaultedArguments | ProcessMonitor/Program.cs:123-150 | {"proc"} with the setting absent validates to ("proc", 5, 1 min) |
| Copies.AgreeOnParsedArguments | ProcessMonitor/Program.cs:111-121 | when both numbers parse, both copies return the same triple |
| Copies.AgreeOnShortArguments | ProcessMonitor/Program.cs:123-150 | with fewer than three tokens, both copies return the same triple or fail at the same guard |
| Copies.DisagreeOnUnparsedNumbers | ProcessMonitor/Program.cs:113-123 | with three tokens and a number that does not parse, the program returns a triple holding a 0; the worker defaults iff the flag is set and the name is non-empty, and otherwise rethrows; the two never agree |

## Left out

- The input thread and its two `AutoResetEvent`s are concurrency. Each wait is
  given as its outcome per tick. So a line typed after a timeout is simply the
  line a later tick's wait delivers.
- The program's static `input` field is not modelled. The static `ReadLine`
  depends only on what the wait delivered.
- Process lookup, `StartTime`, `DateTime.Now` and `Kill` are operating-system
  calls. They are given as each tick's observation. An exception thrown by
  `GetProcessesByName`, by reading `StartTime` (for a process that has exited
  or is not accessible) or by `Kill` would end `Execute` in the source. The model
  assumes these calls succeed.
- The loop runs over a finite script of ticks. A script that ends without a
  quit is reported as still running, where the source would keep polling.
- MonitorCore.Decide: compares whole minutes, where the source compares a
  fractional `TotalMinutes` (a `double`) with the lifetime.
- The wait timeout `(int)MonitoringSpan.TotalMilliseconds` is not modelled.
  A negative interval makes the wait throw. An interval above 35791 minutes
  overflows the cast.
- Log messages, the `(int)` truncations inside them and the start-up banner are
  output only.
- Loading appsettings.json and `bool.TryParse` are not modelled. The setting is
  given as `Option<bool>`, where None stands for absent or not a boolean.
- A null line at the end of console input would throw in `ReadLine`. Lines
  are never null here.
- MonitorCore.ReadLine: compares case-insensitively over ASCII letters only.
  The culture-aware `InvariantCultureIgnoreCase` comparison can also treat
  ignorable code points, such as zero-width characters, as absent. The model
  does not.
- Int32Parsing.ParseInt32: assumes the culture's sign strings are "+" and "-".
  The model takes no null argument, and command-line tokens are never null.
- ProcessMonitor/Interface/IWorker.cs declares the worker's two methods and
  holds no logic.
