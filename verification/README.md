# Fake productivity terminal: control logic in Dafny

This project models the control logic of a terminal program that fills the
screen with made-up log lines. Two loops do the work:

- The input dispatcher is the foreground loop of `main`. It polls the
  keyboard. Esc, Ctrl+C and Ctrl+Z end the program. Ctrl+F toggles
  fullscreen through a terminal call that can fail. `m`/`M` toggles matrix
  mode, at most once per second.
- The content generator is the background `normal_mode_thread`. It sleeps
  one tick at a time, then prints either a rain line or a log line. A log
  line's category is drawn with weights 3/2/2/1/1/1. The loop runs until it
  sees the exit flag.

Two string builders are also modelled: the matrix rain line
(`generate_matrix_code`) and the 64-digit hash (`generate_hash`).

Everything is stated as pure functions over explicit inputs. The clock
becomes a millisecond timestamp per loop iteration. The keyboard becomes a
sequence of poll results. Each terminal call becomes a `Done | Failed`
reply. The random number generator becomes the sequence of values it would
draw. The two threads are modelled as two separate sequential loops. Each
loop is given the flag values it reads.

Modules:

- `Dispatcher` (`dispatcher.dfy`): the key classification and the step
  function `Dispatch`. Also the loop `Loop`, and how a session ends, both as
  written (`SessionAsWritten`) and corrected (`Session`).
- `Worker` (`worker.dfy`): category choice, tick lengths and the generator
  loop `Run`.
- `Matrix` (`matrix.dfy`): the rain line and its alphabet.
- `Utils` (`utils.dfy`): the hash.
- `Wrappers` (`wrappers.dfy`): `Option`, for `nth` and `choose`.

In three places the code does something other than the intended
behaviour. The model follows the code each time:

- Errors: the intended behaviour is that every exit path restores the
  terminal and exits with status 0. In the code, an error propagated by `?`
  inside the loop leaves `main` before `cleanup_and_exit`. This is recorded
  under Findings.
- Matrix cadence: the intended behaviour is a random 50–300 ms interval in
  matrix mode. The code sleeps `delay` and then `delay / 2`, which is 300 ms
  or 3000 ms per matrix tick.
- Category table: the intended behaviour gives matrix mode its own weighted
  category table. The code only prints rain lines in matrix mode.

## Model

| member | source | states |
|---|---|---|
| `Dispatcher.Classify` | src/main.rs:71-112 | A key quits exactly when it is Esc, or Ctrl with C or Z in either case. It toggles fullscreen exactly when it is Ctrl with F in either case. It toggles matrix mode exactly when it is M in either case, with or without modifiers. Every other event is ignored. |
| `Dispatcher.Dispatch` | src/main.rs:69-113 | One step breaks exactly on a quit key. It fails with an input fault exactly on a poll or read error. It fails with a terminal fault exactly on Ctrl+F whose call fails. Exit is set only by a quit key. A terminal call is made only for Ctrl+F: leave fullscreen when it is on, enter it when it is off. The fullscreen flag flips only when that call succeeds. Matrix flips exactly on an M at least 1000 ms after the last accepted toggle, and then the toggle time becomes now. |
| `Dispatcher.ExitKeys` | src/main.rs:72-86 | Esc, and Ctrl with c/C/z/Z, set exit and break. Nothing else changes and no terminal call is made. |
| `Dispatcher.IgnoredInputs` | src/main.rs:69-111 | These inputs change nothing and make no call: a poll timeout, a non-key event, a non-character key other than Esc, any character other than c/z/f/m in either case (with or without Ctrl), and c/C/z/Z/f/F without Ctrl. |
| `Dispatcher.FullscreenKey` | src/main.rs:87-97 | Ctrl+F calls exit-fullscreen when fullscreen is on and enter-fullscreen when it is off. On success it flips the flag and continues. On failure it aborts with the state unchanged. |
| `Dispatcher.MatrixKey` | src/main.rs:98-110 | M flips matrix and records now as the toggle time when now minus the last toggle is at least 1000 ms. Otherwise the state is unchanged. It never breaks and never calls the terminal. |
| `Dispatcher.Loop` | src/main.rs:63-115 | The loop never consumes more inputs than it is given. It ends stopped exactly when exit is set. If exit is already set, the loop consumes nothing and keeps the state. A run still waiting has consumed every input. |
| `Dispatcher.EndsAtFirstStop` | src/main.rs:63-86 | A run consumes the inputs up to and including the first quit or fault, and none after it. It breaks only on a quit key and aborts only on a faulting input. |
| `Dispatcher.ExitMonotone` | src/main.rs:36-86 | Exit is never cleared. At the end of a run it is set only if it was set at the start or some input quits. |
| `Dispatcher.ToggleRecord` | src/main.rs:98-110 | The recorded toggle time is the time of the last accepted toggle. The matrix flag has flipped once per accepted toggle. |
| `Dispatcher.ToggleSpacing` | src/main.rs:99-108 | Consecutive accepted toggles are at least 1000 ms apart. The first is at least 1000 ms after the starting toggle time. |
| `Dispatcher.TogglesApart` | src/main.rs:99-108 | Any two accepted matrix toggles of a run are at least 1000 ms apart. |
| `Dispatcher.QuietWithinCooldown` | src/main.rs:99-109 | If every input comes less than 1000 ms after the last accepted toggle, no toggle is accepted. The matrix flag and the toggle time keep their values. |
| `Dispatcher.BurstTogglesOnce` | src/main.rs:69-110 | Take one second of input that opens with an M press at least a second after the last toggle and neither quits nor fails. Idle polls, ignored keys, Ctrl+F and further M presses may come between. The burst flips matrix exactly once and the loop keeps running. |
| `Dispatcher.FullscreenParity` | src/main.rs:87-97 | After n Ctrl+F presses with successful calls, fullscreen is as it started exactly when n is even. Nothing else changes. |
| `Dispatcher.FullscreenCalls` | src/main.rs:87-97 | Those presses make one terminal call each, alternating between exit and enter, starting from the current mode. |
| `Dispatcher.FirstSecondIgnored` | src/main.rs:36-109 | The loop starts with matrix mode from the command line (line 38) and the toggle clock at loop entry (line 62). So whatever inputs arrive in the first second, including M presses after idle polls or Ctrl+F, no toggle is accepted, matrix mode keeps its command-line value and the toggle clock keeps its start. |
| `Dispatcher.SessionAsWritten` | src/main.rs:63-118 | As written, the process ends exactly when the loop stops or aborts. It is cleaned up, with status 0, exactly when the loop broke. An aborted loop skips `cleanup_and_exit` and ends with status 1, the status Rust gives an `Err` returned from `main`. |
| `Dispatcher.InputErrorSkipsCleanup` | src/main.rs:69-117 | A failing first poll ends the written `main` with status 1, without restoring the terminal. |
| `Dispatcher.TerminalErrorSkipsCleanup` | src/main.rs:87-117 | A Ctrl+F whose exit-fullscreen call fails does the same. |
| `Dispatcher.Session` | src/main.rs:115-118 | Corrected: every ending restores the terminal and exits with status 0. The session ends exactly when some input quits or faults. |
| `Worker.Pick` | src/main.rs:150-157 | Draw r in 0..10 selects the category whose run of draws in the 3/2/2/1/1/1 weight table holds r. |
| `Worker.Emit` | src/main.rs:143-157 | A tick that reads matrix mode as on prints a rain line from its own draws, which are draws `generate_matrix_code` can make. Otherwise it prints a log line whose category's run of draws holds the tick's category draw. |
| `Worker.PickFollowsWeights` | src/main.rs:150-157 | Draw r in 0..10 selects category c exactly when r lies in c's run of draws. The run starts at the sum of the weights of the categories listed before c and has c's weight. |
| `Worker.OffsetsAccumulate` | src/main.rs:150-157 | The runs of the six categories follow one another from 0 and cover all ten draws. |
| `Worker.DrawCount` | src/main.rs:150-157 | System, Database, Network, AI, Security and Processing are selected by 3, 2, 2, 1, 1 and 1 of the ten draws. |
| `Worker.TickLength` | src/main.rs:130-147 | A normal tick sleeps the base delay: 200 ms in quick mode, 2000 ms otherwise. A matrix tick sleeps one and a half base delays: 300 ms or 3000 ms. |
| `Worker.Run` | src/main.rs:140-159 | The worker runs ticks exactly until the first tick that reads exit at the loop head. It prints one line per tick run. It stops early only because of that exit. The time slept is the sum of the tick lengths of the ticks run. |
| `Worker.NormalCadence` | src/main.rs:140-141 | With matrix mode off, n ticks sleep n base delays. |
| `Worker.MatrixCadence` | src/main.rs:141-147 | With matrix mode on, n ticks sleep 3n/2 base delays. |
| `Matrix.ChooseAll` | src/matrix.rs:8-10 | Character i of the line is the alphabet character at pick i. Every unwrap succeeds. |
| `Matrix.GenerateMatrixCode` | src/matrix.rs:4-18 | One line of 20 to 79 characters. Its length is the drawn length. Every character is from the alphabet. The style is dimmed, green or bright bold exactly for intensity 0, 1 or 2. |
| `Matrix.ReadBackGenerate` | src/matrix.rs:5-17 | The draws can be read back off the line: its length, the alphabet position of each character, and the intensity of its style. |
| `Matrix.CodeCharsIncreasing` | src/matrix.rs:5-6 | The alphabet has 62 characters: 16 upper-case hex digits, then 46 katakana. They are in strictly increasing order, so none repeats. |
| `Utils.HexChars` | src/utils.rs:13-15 | Output character i is the alphabet character at draw i, in order. Every `nth` finds a character, so the unwrap succeeds. |
| `Utils.GenerateHash` | src/utils.rs:11-16 | Exactly 64 characters, all lower-case hexadecimal digits. The value of digit i is draw i. |
| `Utils.HashInjective` | src/utils.rs:11-16 | Two hashes are equal exactly when their draws are equal. |

## Left out

- `src/terminal.rs` is not part of this model. It covers raw mode, the alternate screen, the cursor, the screen title and `process::exit`. Its two calls used by the loop become a `Done | Failed` reply, and `cleanup_and_exit` becomes the `cleanedUp` flag of a session ending.
- `load_custom_font` and `setup_fullscreen_terminal`, with their `?` before the loop, are left out. Their failures end `main` before any state exists.
- Command-line parsing is left out. `matrix` and `quick` are plain inputs. `--daemon` only prints a notice.
- `get_timestamp` (the wall clock) and `check_unicode_support` (environment variables, printing, a sleep) are left out as I/O.
- Threads, `Arc<AtomicBool>` and memory orderings are not modelled. Each loop is given the flag values it reads, so the interleaving of the two threads is not modelled.
- Real sleeping and the 100 ms poll timeout are left out. Time enters only as the timestamp of each loop iteration and as the milliseconds a worker tick sleeps.
- Line 108 reads the clock a second time. The model uses the same timestamp as the check on line 99.
- The match ignores the key event kind (press, repeat, release), and so does the model. A release of M counts like a press.
- The bodies of the `generate_*_log` functions are left out, since their module is not part of this model. Categories are opaque tags.
- All printing is left out: the worker's header and quick-mode banner, the "Entering/Exiting Matrix mode" messages, and ANSI colours. Styles are a three-value enum, and the matrix messages appear only as the list of accepted toggle times.
- The random number generator is left out. Draws are inputs within their ranges, and uniformity is not modelled.
- `Worker.Emit`: a rain output carries the draws of its line rather than the line. The line is `Matrix.GenerateMatrixCode` of those draws, and its properties are stated there.

## Findings

| source | as written | input that shows it | evidently intended | confidence | as-written member | corrected member |
|---|---|---|---|---|---|---|
| src/main.rs:69-117 | `?` on `event::poll`, `event::read`, `exit_fullscreen` and `enter_fullscreen` returns the error from `main`. This skips `cleanup_and_exit`, so the terminal stays in raw mode and the process exits with status 1. | A poll error on the first iteration, or Ctrl+F while fullscreen when `exit_fullscreen` fails | The terminal is restored and the process exits with status 0 on every path out of the loop | medium; not executed | `Dispatcher.SessionAsWritten`, `Dispatcher.InputErrorSkipsCleanup` | `Dispatcher.Session` |
