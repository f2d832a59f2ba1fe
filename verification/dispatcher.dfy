/** The input-handling loop of `main` in src/main.rs, as a pure step function
    over an explicit state, and the loop and session built from it.

    The clock, the event source and the terminal calls are parameters: each
    iteration is given the time it runs at, what `event::poll`/`event::read`
    returned, and the reply the terminal call would give if the step makes
    one. */
module Dispatcher {

  /** The key codes the loop tells apart; every other key is `OtherKey`. */
  datatype KeyCode = Esc | Char(c: char) | OtherKey

  /** An input event: a key, with whether Ctrl is among its modifiers, or
      any other event (mouse, resize, focus, paste). */
  datatype Event = Key(code: KeyCode, ctrl: bool) | NonKey

  /** One `event::poll` with its 100 ms timeout, followed by `event::read`
      when an event is ready. Either call can fail. */
  datatype Poll = Idle | Ready(event: Event) | PollFailed | ReadFailed

  /** The reply of a terminal call (`enter_fullscreen`, `exit_fullscreen`). */
  datatype Reply = Done | Failed

  /** The terminal call a step makes, if any. */
  datatype Call = NoCall | ExitFullscreen | EnterFullscreen

  /** What an error propagated out of `main` came from. */
  datatype Fault = InputFault | TerminalFault

  /** How the loop goes on after a step: another iteration, `break`, or an
      error that `?` returns from `main`. */
  datatype Flow = Continue | Break | Abort(fault: Fault)

  /** The flags as the loop last stored them, and the time in milliseconds
      of the last accepted matrix toggle (`last_toggle_time`). */
  datatype State = State(exit: bool, fullscreen: bool, matrix: bool, lastToggle: int)

  /** The result of one step: the new state, how the loop goes on, and the
      terminal call made. */
  datatype Outcome = Outcome(state: State, flow: Flow, call: Call)

  /** A matrix toggle is accepted only this many milliseconds after the last
      accepted one. */
  const Cooldown: int := 1000

  /** What a key asks for. */
  datatype Command = Quit | ToggleFullscreen | ToggleMatrix | Ignore

  /** ASCII lower case; every other character is left as it is. */
  function Lower(c: char): char
  {
    if 'A' <= c <= 'Z' then (c as int - 'A' as int + 'a' as int) as char else c
  }

  /** The arms of the `match code`, in order, with their Ctrl guards: Esc,
      and Ctrl with C or Z in either case, quit; Ctrl+F in either case
      toggles fullscreen; M in either case, with or without modifiers,
      toggles matrix mode; everything else is ignored. */
  function Classify(e: Event): (cmd: Command)
    ensures cmd == Quit <==>
              e.Key? && (e.code == Esc || (e.ctrl && e.code.Char? && (Lower(e.code.c) == 'c' || Lower(e.code.c) == 'z')))
    ensures cmd == ToggleFullscreen <==> e.Key? && e.ctrl && e.code.Char? && Lower(e.code.c) == 'f'
    ensures cmd == ToggleMatrix <==> e.Key? && e.code.Char? && Lower(e.code.c) == 'm'
  {
    match e
    case NonKey => Ignore
    case Key(code, ctrl) =>
      match code
      case Esc => Quit
      case OtherKey => Ignore
      case Char(c) =>
        if (c == 'c' || c == 'C') && ctrl then Quit
        else if (c == 'z' || c == 'Z') && ctrl then Quit
        else if (c == 'f' || c == 'F') && ctrl then ToggleFullscreen
        else if c == 'm' || c == 'M' then ToggleMatrix
        else Ignore
  }

  /** Whether a poll result is a key asking for `cmd`. */
  predicate Asks(p: Poll, cmd: Command)
  {
    p.Ready? && Classify(p.event) == cmd
  }

  /** One pass of the loop body after the exit check: poll, read, and act on
      the key. Quitting stores the exit flag and breaks; Ctrl+F calls the
      terminal and stores the new fullscreen flag only if the call succeeds;
      an M is honoured only a full cooldown after the last accepted toggle;
      an input error or a failed terminal call ends `main` with an error. */
  function Dispatch(s: State, p: Poll, now: int, reply: Reply): (o: Outcome)
    ensures o.flow == Break <==> Asks(p, Quit)
    ensures o.flow == Abort(InputFault) <==> p.PollFailed? || p.ReadFailed?
    ensures o.flow == Abort(TerminalFault) <==> Asks(p, ToggleFullscreen) && reply == Failed
    ensures o.state.exit == (s.exit || Asks(p, Quit))
    ensures o.call != NoCall <==> Asks(p, ToggleFullscreen)
    ensures o.call == ExitFullscreen ==> s.fullscreen
    ensures o.call == EnterFullscreen ==> !s.fullscreen
    ensures o.state.fullscreen != s.fullscreen <==> Asks(p, ToggleFullscreen) && reply == Done
    ensures o.state.matrix != s.matrix <==> Asks(p, ToggleMatrix) && now - s.lastToggle >= Cooldown
    ensures o.state.lastToggle != s.lastToggle ==> o.state.matrix != s.matrix && o.state.lastToggle == now
    ensures o.state.matrix != s.matrix ==> o.state.lastToggle == now
  {
    match p
    case Idle => Outcome(s, Continue, NoCall)
    case PollFailed => Outcome(s, Abort(InputFault), NoCall)
    case ReadFailed => Outcome(s, Abort(InputFault), NoCall)
    case Ready(e) =>
      match Classify(e)
      case Quit => Outcome(s.(exit := true), Break, NoCall)
      case ToggleFullscreen =>
        var call := if s.fullscreen then ExitFullscreen else EnterFullscreen;
        (match reply
         case Failed => Outcome(s, Abort(TerminalFault), call)
         case Done => Outcome(s.(fullscreen := !s.fullscreen), Continue, call))
      case ToggleMatrix =>
        if now - s.lastToggle >= Cooldown then Outcome(s.(matrix := !s.matrix, lastToggle := now), Continue, NoCall)
        else Outcome(s, Continue, NoCall)
      case Ignore => Outcome(s, Continue, NoCall)
  }

  /** Esc, and Ctrl with c, C, z or Z, store the exit flag and break; no
      other flag changes and no terminal call is made. */
  lemma ExitKeys(s: State, e: Event, now: int, reply: Reply)
    requires e.Key? && (e.code == Esc || (e.ctrl && e.code in {Char('c'), Char('C'), Char('z'), Char('Z')}))
    ensures Dispatch(s, Ready(e), now, reply) == Outcome(s.(exit := true), Break, NoCall)
  {
  }

  /** c, z and f without Ctrl, every other key but Esc and M (any other
      character, with or without Ctrl, and every non-character key), every
      non-key event, and a poll that times out change nothing and make no
      call. */
  lemma IgnoredInputs(s: State, p: Poll, now: int, reply: Reply)
    requires || p == Idle
             || p == Ready(NonKey)
             || (p.Ready? && p.event.Key? && p.event.code == OtherKey)
             || (p.Ready? && p.event.Key? && p.event.code.Char? && Lower(p.event.code.c) !in {'c', 'z', 'f', 'm'})
             || (p.Ready? && p.event.Key? && !p.event.ctrl && p.event.code in {Char('c'), Char('C'), Char('z'), Char('Z'), Char('f'), Char('F')})
    ensures Dispatch(s, p, now, reply) == Outcome(s, Continue, NoCall)
  {
  }

  /** Ctrl+F leaves fullscreen when it is on and enters it when it is off,
      storing the flipped flag once the call succeeds; when the call fails
      the step ends `main` with the flag as it was. */
  lemma FullscreenKey(s: State, c: char, now: int, reply: Reply)
    requires c == 'f' || c == 'F'
    ensures var o := Dispatch(s, Ready(Key(Char(c), true)), now, reply);
            && o.call == (if s.fullscreen then ExitFullscreen else EnterFullscreen)
            && (reply == Done ==> o.state == s.(fullscreen := !s.fullscreen) && o.flow == Continue)
            && (reply == Failed ==> o.state == s && o.flow == Abort(TerminalFault))
  {
  }

  /** M flips the matrix flag and records the time when the last accepted
      toggle is at least a second old, and changes nothing otherwise. */
  lemma MatrixKey(s: State, c: char, ctrl: bool, now: int, reply: Reply)
    requires c == 'm' || c == 'M'
    ensures var o := Dispatch(s, Ready(Key(Char(c), ctrl)), now, reply);
            && o.flow == Continue && o.call == NoCall
            && o.state == (if now - s.lastToggle >= Cooldown then s.(matrix := !s.matrix, lastToggle := now) else s)
  {
  }

  /** One iteration's inputs: the time, the poll result, and the reply a
      terminal call would get. */
  datatype Input = Input(poll: Poll, now: int, reply: Reply)

  /** Whether an input makes the loop break. */
  predicate Quits(i: Input)
  {
    Asks(i.poll, Quit)
  }

  /** Whether an input makes `main` return an error. */
  predicate Faults(i: Input)
  {
    i.poll.PollFailed? || i.poll.ReadFailed? || (Asks(i.poll, ToggleFullscreen) && i.reply == Failed)
  }

  /** How a run of the loop over some inputs ended: still looping when the
      inputs ran out, broken out of, or aborted with an error. */
  datatype Status = Waiting | Stopped | Aborted(fault: Fault)

  /** A run of the loop: the final state, how it ended, how many inputs it
      consumed, the times at which it accepted a matrix toggle, and the
      terminal calls it made, in order. */
  datatype Run = Run(state: State, status: Status, consumed: nat, toggles: seq<int>, calls: seq<Call>)

  /** The `loop` of `main`: check the exit flag, then run one step per input,
      until a step breaks or fails or the inputs run out. It consumes the
      inputs up to and including the first that quits or fails, and no more. */
  function Loop(s: State, inputs: seq<Input>): (r: Run)
    decreases |inputs|
    ensures r.consumed <= |inputs|
    ensures r.status == Stopped <==> r.state.exit
    ensures s.exit ==> r.state == s && r.consumed == 0
    ensures r.status == Waiting ==> r.consumed == |inputs|
    ensures r.status != Waiting ==> r.consumed > 0 || s.exit
  {
    if s.exit then Run(s, Stopped, 0, [], [])
    else if inputs == [] then Run(s, Waiting, 0, [], [])
    else
      var i := inputs[0];
      var o := Dispatch(s, i.poll, i.now, i.reply);
      var toggled := if o.state.matrix != s.matrix then [i.now] else [];
      var called := if o.call == NoCall then [] else [o.call];
      match o.flow
      case Break => Run(o.state, Stopped, 1, toggled, called)
      case Abort(f) => Run(o.state, Aborted(f), 1, toggled, called)
      case Continue =>
        var rest := Loop(o.state, inputs[1..]);
        Run(rest.state, rest.status, rest.consumed + 1, toggled + rest.toggles, called + rest.calls)
  }

  /** A run consumes the inputs up to and including the first one that
      quits or fails, and no more: a run that breaks was ended by a quit key,
      a run that aborts by a failing input, and every input before the last
      one consumed let the loop go on. */
  lemma {:induction false} EndsAtFirstStop(s: State, inputs: seq<Input>)
    decreases |inputs|
    ensures var r := Loop(s, inputs);
            && (!s.exit && r.status == Stopped ==> 0 < r.consumed && Quits(inputs[r.consumed - 1]))
            && (r.status.Aborted? ==> 0 < r.consumed && Faults(inputs[r.consumed - 1]))
            && (forall j :: 0 <= j < r.consumed - 1 ==> !Quits(inputs[j]) && !Faults(inputs[j]))
            && (r.status == Waiting ==> forall j :: 0 <= j < |inputs| ==> !Quits(inputs[j]) && !Faults(inputs[j]))
  {
    if !s.exit && inputs != [] {
      var i := inputs[0];
      var o := Dispatch(s, i.poll, i.now, i.reply);
      if o.flow == Continue {
        EndsAtFirstStop(o.state, inputs[1..]);
        var r, rest := Loop(s, inputs), Loop(o.state, inputs[1..]);
        assert r.consumed == rest.consumed + 1;
        forall j | 1 <= j < |inputs|
          ensures inputs[j] == inputs[1..][j - 1]
        {
        }
      }
    }
  }

  /** The exit flag is never cleared: a run ends with it set if it started set. */
  lemma {:induction false} ExitMonotone(s: State, inputs: seq<Input>)
    ensures s.exit ==> Loop(s, inputs).state.exit
    ensures Loop(s, inputs).state.exit ==> s.exit || exists j :: 0 <= j < |inputs| && Quits(inputs[j])
  {
    var r := Loop(s, inputs);
    if r.state.exit && !s.exit {
      EndsAtFirstStop(s, inputs);
      assert Quits(inputs[r.consumed - 1]);
    }
  }

  /** The state records the time of the last accepted matrix toggle, and the
      matrix flag has flipped once per accepted toggle. */
  lemma {:induction false} ToggleRecord(s: State, inputs: seq<Input>)
    decreases |inputs|
    ensures var r := Loop(s, inputs);
            && r.state.lastToggle == (if r.toggles == [] then s.lastToggle else r.toggles[|r.toggles| - 1])
            && r.state.matrix == (s.matrix != (|r.toggles| % 2 == 1))
  {
    if !s.exit && inputs != [] {
      var i := inputs[0];
      var o := Dispatch(s, i.poll, i.now, i.reply);
      if o.flow == Continue {
        ToggleRecord(o.state, inputs[1..]);
        var rest := Loop(o.state, inputs[1..]);
        var toggled := if o.state.matrix != s.matrix then [i.now] else [];
        assert Loop(s, inputs).toggles == toggled + rest.toggles;
        if rest.toggles != [] {
          assert (toggled + rest.toggles)[|toggled + rest.toggles| - 1] == rest.toggles[|rest.toggles| - 1];
        }
      }
    }
  }

  /** Accepted matrix toggles are a full cooldown apart, the first of them a
      full cooldown after the toggle time the run started with. */
  lemma {:induction false} ToggleSpacing(s: State, inputs: seq<Input>)
    decreases |inputs|
    ensures var t := Loop(s, inputs).toggles;
            && (|t| > 0 ==> t[0] - s.lastToggle >= Cooldown)
            && (forall k :: 0 < k < |t| ==> t[k] - t[k - 1] >= Cooldown)
  {
    if !s.exit && inputs != [] {
      var i := inputs[0];
      var o := Dispatch(s, i.poll, i.now, i.reply);
      if o.flow == Continue {
        ToggleSpacing(o.state, inputs[1..]);
        var rest := Loop(o.state, inputs[1..]).toggles;
        var t := Loop(s, inputs).toggles;
        if o.state.matrix != s.matrix {
          assert t == [i.now] + rest;
          assert o.state.lastToggle == i.now;
          forall k | 0 < k < |t|
            ensures t[k] - t[k - 1] >= Cooldown
          {
            assert t[k] == rest[k - 1];
          }
        } else {
          assert t == rest;
          assert o.state.lastToggle == s.lastToggle;
        }
      }
    }
  }

  /** Any two accepted matrix toggles of a run are at least a second apart. */
  lemma TogglesApart(s: State, inputs: seq<Input>, a: int, b: int)
    requires 0 <= a < b < |Loop(s, inputs).toggles|
    ensures Loop(s, inputs).toggles[b] - Loop(s, inputs).toggles[a] >= Cooldown
  {
    ToggleSpacing(s, inputs);
    var t := Loop(s, inputs).toggles;
    var k := a + 1;
    while k < b
      invariant a + 1 <= k <= b
      invariant t[k] - t[a] >= Cooldown
    {
      k := k + 1;
    }
  }

  /** Presses that all come less than a second after the last accepted
      toggle are all ignored: no toggle is accepted and the flag keeps the
      value that toggle gave it. */
  lemma {:induction false} QuietWithinCooldown(s: State, inputs: seq<Input>)
    decreases |inputs|
    requires forall j :: 0 <= j < |inputs| ==> inputs[j].now - s.lastToggle < Cooldown
    ensures Loop(s, inputs).toggles == []
    ensures Loop(s, inputs).state.matrix == s.matrix
    ensures Loop(s, inputs).state.lastToggle == s.lastToggle
  {
    if !s.exit && inputs != [] {
      var i := inputs[0];
      var o := Dispatch(s, i.poll, i.now, i.reply);
      if o.flow == Continue {
        QuietWithinCooldown(o.state, inputs[1..]);
      }
    }
  }

  /** A burst of input within one second that opens with an M press a second
      or more after the last accepted toggle, and neither quits nor fails,
      flips the matrix flag exactly once: the idle polls, ignored keys,
      successful Ctrl+F presses and further M presses that follow in that
      second change nothing about it. */
  lemma BurstTogglesOnce(s: State, inputs: seq<Input>)
    requires !s.exit && inputs != []
    requires inputs[0].poll.Ready? && inputs[0].poll.event.Key? && inputs[0].poll.event.code in {Char('m'), Char('M')}
    requires forall j :: 0 <= j < |inputs| ==> !Quits(inputs[j]) && !Faults(inputs[j])
    requires inputs[0].now - s.lastToggle >= Cooldown
    requires forall j :: 0 <= j < |inputs| ==> inputs[0].now <= inputs[j].now < inputs[0].now + Cooldown
    ensures Loop(s, inputs).status == Waiting
    ensures Loop(s, inputs).state.matrix == !s.matrix
    ensures Loop(s, inputs).toggles == [inputs[0].now]
  {
    var i := inputs[0];
    var o := Dispatch(s, i.poll, i.now, i.reply);
    assert Classify(i.poll.event) == ToggleMatrix;
    assert o.state == s.(matrix := !s.matrix, lastToggle := i.now);
    QuietWithinCooldown(o.state, inputs[1..]);
    EndsAtFirstStop(s, inputs);
  }

  /** Ctrl+F presses whose terminal calls all succeed. */
  predicate FullscreenPresses(inputs: seq<Input>)
  {
    forall j :: 0 <= j < |inputs| ==>
      && inputs[j].poll.Ready? && inputs[j].reply == Done
      && inputs[j].poll.event.Key? && inputs[j].poll.event.ctrl
      && inputs[j].poll.event.code in {Char('f'), Char('F')}
  }

  /** After `n` Ctrl+F presses whose terminal calls succeed, the fullscreen
      flag is as it started exactly when `n` is even; nothing else changes and
      the loop keeps running. */
  lemma {:induction false} FullscreenParity(s: State, inputs: seq<Input>)
    decreases |inputs|
    requires !s.exit && FullscreenPresses(inputs)
    ensures Loop(s, inputs).status == Waiting
    ensures Loop(s, inputs).state == s.(fullscreen := (s.fullscreen == (|inputs| % 2 == 0)))
  {
    if inputs != [] {
      var i := inputs[0];
      var o := Dispatch(s, i.poll, i.now, i.reply);
      assert o.state == s.(fullscreen := !s.fullscreen) && o.flow == Continue;
      FullscreenParity(o.state, inputs[1..]);
    }
  }

  /** Those presses alternate between leaving and entering fullscreen, one
      terminal call each, starting from the current mode. */
  lemma {:induction false} FullscreenCalls(s: State, inputs: seq<Input>)
    decreases |inputs|
    requires !s.exit && FullscreenPresses(inputs)
    ensures |Loop(s, inputs).calls| == |inputs|
    ensures forall k :: 0 <= k < |inputs| ==>
              Loop(s, inputs).calls[k] == (if s.fullscreen == (k % 2 == 0) then ExitFullscreen else EnterFullscreen)
  {
    if inputs != [] {
      var i := inputs[0];
      var o := Dispatch(s, i.poll, i.now, i.reply);
      assert o.state == s.(fullscreen := !s.fullscreen) && o.flow == Continue;
      FullscreenCalls(o.state, inputs[1..]);
      var r, rest := Loop(s, inputs), Loop(o.state, inputs[1..]);
      assert r.calls == [o.call] + rest.calls;
      forall k | 0 < k < |r.calls|
        ensures r.calls[k] == (if s.fullscreen == (k % 2 == 0) then ExitFullscreen else EnterFullscreen)
      {
        assert r.calls[k] == rest.calls[k - 1];
      }
    }
  }

  /** The flags `main` starts the loop with: exit off, fullscreen on, matrix
      mode from the command line, and the toggle clock started at loop entry. */
  function Initial(matrix: bool, start: int): State
  {
    State(false, true, matrix, start)
  }

  /** Because the toggle clock starts at loop entry, every M pressed in the
      first second is ignored, whatever else happens in that second: no
      toggle is accepted and matrix mode keeps its command-line value. */
  lemma FirstSecondIgnored(matrix: bool, start: int, inputs: seq<Input>)
    requires forall j :: 0 <= j < |inputs| ==> inputs[j].now < start + Cooldown
    ensures Loop(Initial(matrix, start), inputs).toggles == []
    ensures Loop(Initial(matrix, start), inputs).state.matrix == matrix
    ensures Loop(Initial(matrix, start), inputs).state.lastToggle == start
  {
    QuietWithinCooldown(Initial(matrix, start), inputs);
  }

  /** How the process ends: still running when the inputs run out, or ended
      with or without `cleanup_and_exit` having restored the terminal, and
      with the exit status. */
  datatype Ending = Running | Ended(cleanedUp: bool, status: int)

  /** `main` as written: a `break` reaches `cleanup_and_exit`, which exits
      with status 0; an error returned by `?` inside the loop leaves `main`
      before it, so the terminal is not restored and the status is 1. */
  function SessionAsWritten(matrix: bool, start: int, inputs: seq<Input>): (e: Ending)
    ensures e.Ended? <==> Loop(Initial(matrix, start), inputs).status != Waiting
    ensures e.Ended? ==> (e.cleanedUp <==> Loop(Initial(matrix, start), inputs).status == Stopped)
    ensures e.Ended? ==> (e.cleanedUp <==> e.status == 0)
    ensures e.Ended? && !e.cleanedUp ==> e.status == 1
  {
    match Loop(Initial(matrix, start), inputs).status
    case Waiting => Running
    case Stopped => Ended(true, 0)
    case Aborted(_) => Ended(false, 1)
  }

  /** A poll that fails at once ends the process without restoring the
      terminal. */
  lemma InputErrorSkipsCleanup(matrix: bool, start: int)
    ensures SessionAsWritten(matrix, start, [Input(PollFailed, start, Done)]) == Ended(false, 1)
  {
  }

  /** A Ctrl+F whose `exit_fullscreen` fails ends the process without
      restoring the terminal either. */
  lemma TerminalErrorSkipsCleanup(matrix: bool, start: int)
    ensures SessionAsWritten(matrix, start, [Input(Ready(Key(Char('f'), true)), start, Failed)]) == Ended(false, 1)
  {
  }

  /** `main` with the cleanup on every path: whichever way the loop ends,
      by a quit key or by an error, the terminal is restored and the process
      exits with status 0. It ends exactly when some input quits or fails. */
  function Session(matrix: bool, start: int, inputs: seq<Input>): (e: Ending)
    ensures e.Ended? ==> e.cleanedUp && e.status == 0
    ensures e.Ended? <==> exists j :: 0 <= j < |inputs| && (Quits(inputs[j]) || Faults(inputs[j]))
  {
    var r := Loop(Initial(matrix, start), inputs);
    EndsAtFirstStop(Initial(matrix, start), inputs);
    if r.status == Waiting then Running else Ended(true, 0)
  }
}
