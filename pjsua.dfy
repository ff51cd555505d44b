/**
 * The supervisor of the `pjsua` command-line SIP client: the `>>>`-delimited framing of
 * its standard output, call-state inference from a `call list` response, the callbacks
 * fired when the call state changes, and the per-cycle supervisor step. The process is an
 * abstract stream of characters and a log of the lines written to its standard input; the
 * two threads become methods a caller interleaves.
 */
module Pjsua {
  import opened Wrappers
  import opened Text

  datatype CallState = InCall | Calling | Incoming | Idle

  datatype PjsuaError =
    | NotRunning               // the process is accessed before `start`
    | ProcessDied(returnCode: int)
    | Timeout                  // a queue `get` that would time out on an empty queue
    | AlreadyStarted           // the assertion at the head of `start`

  /** The three callbacks the owner registers. */
  datatype Callback = OnIncomingCall | OnCallConnected | OnCallHangup

  const PROMPT: string := ">>>"
  const CALL_LIST_LINE: string := "call list\n"
  const CALL_NEW_PREFIX: string := "call new sip:"
  const ACCEPT_COMMAND: string := "call answer 200"
  const HANGUP_ALL_COMMAND: string := "call hangup_all"
  const CALL_LIST_COMMAND: string := "call list"
  const CONFIRMED: string := "[CONFIRMED]"
  const CALLING: string := "[CALLING]"
  const INCOMING: string := "[INCOMING]"

  // ---------------------------------------------------------------- call-state inference

  /** The lines of a `call list` response after its header line. */
  function CallLines(response: string): seq<string>
  {
    Split(response, '\n')[1..]
  }

  predicate AnyEndsWith(lines: seq<string>, marker: string)
  {
    exists i :: 0 <= i < |lines| && EndsWith(Strip(lines[i]), marker)
  }

  /** The state a list of call lines stands for; None when lines exist but none carries a marker. */
  function StateOfCallLines(lines: seq<string>): Option<CallState>
  {
    if lines == [] then Some(Idle)
    else if AnyEndsWith(lines, CONFIRMED) then Some(InCall)
    else if AnyEndsWith(lines, CALLING) then Some(Calling)
    else if AnyEndsWith(lines, INCOMING) then Some(Incoming)
    else None
  }

  /** `_infer_call_state`. */
  function InferCallState(response: string): Option<CallState>
  {
    StateOfCallLines(CallLines(response))
  }

  /** The response is read as idle exactly when it has no line after the header. */
  lemma InferIdleIffNoNewline(response: string)
    ensures InferCallState(response) == Some(Idle) <==> '\n' !in response
  {
    CountZero(response, '\n');
  }

  /**
   * A response made of a header and call lines yields the state of those call lines: a
   * confirmed call anywhere wins over a calling one, which wins over an incoming one.
   */
  lemma InferFromListing(header: string, calls: seq<string>)
    requires '\n' !in header
    requires forall i :: 0 <= i < |calls| ==> '\n' !in calls[i]
    ensures InferCallState(Join([header] + calls, '\n')) == StateOfCallLines(calls)
    ensures calls == [] ==> InferCallState(Join([header] + calls, '\n')) == Some(Idle)
    ensures (exists i :: 0 <= i < |calls| && EndsWith(Strip(calls[i]), CONFIRMED))
            ==> InferCallState(Join([header] + calls, '\n')) == Some(InCall)
  {
    var parts := [header] + calls;
    forall i | 0 <= i < |parts| ensures '\n' !in parts[i] {
      if i > 0 {
        assert parts[i] == calls[i - 1];
      }
    }
    SplitJoin(parts, '\n');
    assert CallLines(Join(parts, '\n')) == calls;
  }

  // ---------------------------------------------------------------- change detection

  /** The callbacks `_check_calls` fires, in order, when the state goes from `current` to `inferred`. */
  function CallbacksFor(current: Option<CallState>, inferred: Option<CallState>): seq<Callback>
  {
    if inferred == current then []
    else
      (if inferred == Some(Incoming) then [OnIncomingCall] else [])
      + (if inferred == Some(InCall) then [OnCallConnected] else [])
      + (if current == Some(InCall) then [OnCallHangup] else [])
  }

  /**
   * No change, no callback. On a change: the incoming callback iff the inferred state is
   * INCOMING, the connected one iff it is IN_CALL, the hangup one iff the old state was
   * IN_CALL; each at most once, so at most two fire and never both connected and hangup.
   */
  lemma CallbacksRule(current: Option<CallState>, inferred: Option<CallState>)
    ensures inferred == current ==> CallbacksFor(current, inferred) == []
    ensures OnIncomingCall in CallbacksFor(current, inferred) <==> inferred != current && inferred == Some(Incoming)
    ensures OnCallConnected in CallbacksFor(current, inferred) <==> inferred != current && inferred == Some(InCall)
    ensures OnCallHangup in CallbacksFor(current, inferred) <==> inferred != current && current == Some(InCall)
    ensures |CallbacksFor(current, inferred)| <= 2
    ensures !(OnCallConnected in CallbacksFor(current, inferred) && OnCallHangup in CallbacksFor(current, inferred))
    ensures forall i, j :: 0 <= i < j < |CallbacksFor(current, inferred)| ==>
              CallbacksFor(current, inferred)[i] != CallbacksFor(current, inferred)[j]
  {
  }

  // ---------------------------------------------------------------- stdout framing

  /** One character read by the stdout thread: the new buffer and the response emitted, if any. */
  function FrameChar(buffer: string, c: char): (string, seq<string>)
  {
    var b := buffer + [c];
    if EndsWith(b, PROMPT) then ("", [Strip(b[..|b| - 3])]) else (b, [])
  }

  lemma FrameCharCases(buffer: string, c: char)
    ensures EndsWith(buffer + [c], PROMPT) ==> |buffer| >= 2 && FrameChar(buffer, c) == ("", [Strip(buffer[..|buffer| - 2])])
    ensures !EndsWith(buffer + [c], PROMPT) ==> FrameChar(buffer, c) == (buffer + [c], [])
  {
    var b := buffer + [c];
    if EndsWith(b, PROMPT) {
      assert b[..|b| - 3] == buffer[..|buffer| - 2];
    }
  }

  /** A chunk of characters read one at a time by `step`: the buffer left and the outputs emitted, in order. */
  function Fold(step: (string, char) -> (string, seq<string>), buffer: string, chunk: string): (string, seq<string>)
    decreases |chunk|
  {
    if chunk == [] then (buffer, [])
    else
      var first := step(buffer, chunk[0]);
      var rest := Fold(step, first.0, chunk[1..]);
      (rest.0, first.1 + rest.1)
  }

  /** Folding `x` then `y` is folding `x + y`, whatever the step. */
  lemma {:induction false} FoldAppend(step: (string, char) -> (string, seq<string>), buffer: string, x: string, y: string)
    ensures Fold(step, buffer, x + y).0 == Fold(step, Fold(step, buffer, x).0, y).0
    ensures Fold(step, buffer, x + y).1 == Fold(step, buffer, x).1 + Fold(step, Fold(step, buffer, x).0, y).1
    decreases |x|
  {
    if x == [] {
      assert x + y == y;
    } else {
      var first := step(buffer, x[0]);
      assert (x + y)[0] == x[0] && (x + y)[1..] == x[1..] + y;
      FoldAppend(step, first.0, x[1..], y);
      var mid := Fold(step, first.0, x[1..]);
      var last := Fold(step, mid.0, y);
      assert first.1 + (mid.1 + last.1) == (first.1 + mid.1) + last.1;
    }
  }

  /** A chunk of characters read one at a time by the stdout thread. */
  function FrameAll(buffer: string, chunk: string): (string, seq<string>)
  {
    Fold(FrameChar, buffer, chunk)
  }

  lemma FrameAllUnfold(buffer: string, chunk: string)
    requires chunk != []
    ensures FrameAll(buffer, chunk).0 == FrameAll(FrameChar(buffer, chunk[0]).0, chunk[1..]).0
    ensures FrameAll(buffer, chunk).1 == FrameChar(buffer, chunk[0]).1 + FrameAll(FrameChar(buffer, chunk[0]).0, chunk[1..]).1
  {
  }

  /** Reading `x` then `y` is reading `x + y`. */
  lemma FrameAllAppend(buffer: string, x: string, y: string)
    ensures FrameAll(buffer, x + y).0 == FrameAll(FrameAll(buffer, x).0, y).0
    ensures FrameAll(buffer, x + y).1 == FrameAll(buffer, x).1 + FrameAll(FrameAll(buffer, x).0, y).1
  {
    FoldAppend(FrameChar, buffer, x, y);
  }

  /** Reading one more character. */
  lemma FrameAllSnoc(buffer: string, chunk: string, c: char)
    ensures FrameAll(buffer, chunk + [c]).0 == FrameChar(FrameAll(buffer, chunk).0, c).0
    ensures FrameAll(buffer, chunk + [c]).1 == FrameAll(buffer, chunk).1 + FrameChar(FrameAll(buffer, chunk).0, c).1
  {
    FrameAllAppend(buffer, chunk, [c]);
    var step := FrameChar(FrameAll(buffer, chunk).0, c);
    FrameAllUnfold(FrameAll(buffer, chunk).0, [c]);
    assert [c][1..] == [];
    assert step.1 + [] == step.1;
  }

  /** No prefix of the buffer ends with the prompt. */
  predicate NoPrompt(buffer: string)
    decreases |buffer|
  {
    |buffer| < 3 || (!EndsWith(buffer, PROMPT) && NoPrompt(buffer[..|buffer| - 1]))
  }

  /** One character keeps the buffer free of prompts. */
  lemma FrameCharKeepsNoPrompt(buffer: string, c: char)
    requires NoPrompt(buffer)
    ensures NoPrompt(FrameChar(buffer, c).0)
  {
    var b := buffer + [c];
    if !EndsWith(b, PROMPT) {
      assert b[..|b| - 1] == buffer;
    }
  }

  /** The buffer never holds a prompt, whatever is read: it is emptied as soon as one arrives. */
  lemma {:induction false} FrameAllKeepsNoPrompt(buffer: string, chunk: string)
    requires NoPrompt(buffer)
    ensures NoPrompt(FrameAll(buffer, chunk).0)
    decreases |chunk|
  {
    if chunk != [] {
      FrameCharKeepsNoPrompt(buffer, chunk[0]);
      FrameAllKeepsNoPrompt(FrameChar(buffer, chunk[0]).0, chunk[1..]);
    }
  }

  /** Text without '>' only accumulates. */
  lemma {:induction false} FramePlain(buffer: string, m: string)
    requires '>' !in m
    ensures FrameAll(buffer, m) == (buffer + m, [])
    decreases |m|
  {
    if m != [] {
      var b := buffer + [m[0]];
      assert b[|b| - 1] == m[0];
      assert !EndsWith(b, PROMPT);
      assert FrameChar(buffer, m[0]) == (b, []);
      FrameAllUnfold(buffer, m);
      FramePlain(b, m[1..]);
      assert b + m[1..] == buffer + m;
    } else {
      assert buffer + m == buffer;
    }
  }

  /** A message without '>' followed by the prompt is emitted stripped, and the buffer is emptied. */
  lemma FrameMessage(m: string)
    requires '>' !in m
    ensures FrameAll("", m + PROMPT) == ("", [Strip(m)])
  {
    FramePlain("", m);
    assert "" + m == m;
    FrameAllAppend("", m, PROMPT);
    FramePrompt(m);
    assert FrameAll(FrameAll("", m).0, PROMPT) == ("", [Strip(m)]);
    assert FrameAll("", m).1 == [];
    assert [] + [Strip(m)] == [Strip(m)];
  }

  /** The prompt after a buffer whose last two characters are not '>' flushes it. */
  lemma FramePrompt(m: string)
    requires |m| >= 1 ==> m[|m| - 1] != '>'
    requires |m| >= 2 ==> m[|m| - 2] != '>'
    ensures FrameAll(m, PROMPT) == ("", [Strip(m)])
  {
    FrameCharAngles(m);
    FrameFlushChain(m);
    FrameAllUnfold(m, PROMPT);
    assert PROMPT[0] == '>' && PROMPT[1..] == ">>";
    assert [] + [Strip(m)] == [Strip(m)];
  }

  lemma FrameCharAngles(m: string)
    requires |m| >= 1 ==> m[|m| - 1] != '>'
    requires |m| >= 2 ==> m[|m| - 2] != '>'
    ensures FrameChar(m, '>') == (m + ">", [])
    ensures FrameChar(m + ">", '>') == (m + ">>", [])
  {
    var b1 := m + ">";
    var b2 := b1 + ">";
    assert b2 == m + ">>";
    if |b1| >= 3 {
      assert b1[|b1| - 3..][0] == m[|m| - 2];
    }
    if |b2| >= 3 {
      assert b2[|b2| - 3..][0] == m[|m| - 1];
    }
  }

  lemma FrameFlushChain(m: string)
    requires FrameChar(m + ">", '>') == (m + ">>", [])
    ensures FrameAll(m + ">", ">>") == ("", [Strip(m)])
  {
    FrameLastAngle(m);
    var chunk := ">>";
    assert chunk[0] == '>' && chunk[1..] == ">";
    FrameAllUnfold(m + ">", chunk);
    assert [] + [Strip(m)] == [Strip(m)];
  }

  lemma FrameLastAngle(m: string)
    ensures FrameAll(m + ">>", ">") == ("", [Strip(m)])
  {
    FrameCharFlushes(m);
    FoldSingle(FrameChar, m + ">>", '>');
  }

  /** Folding a single character is one step. */
  lemma FoldSingle(step: (string, char) -> (string, seq<string>), buffer: string, c: char)
    ensures Fold(step, buffer, [c]) == step(buffer, c)
  {
    assert [c][1..] == [];
    assert step(buffer, c).1 + [] == step(buffer, c).1;
  }

  lemma FrameCharFlushes(m: string)
    ensures FrameChar(m + ">>", '>') == ("", [Strip(m)])
  {
    var b3 := m + ">>" + ">";
    assert b3[|b3| - 3..] == PROMPT;
    assert b3[..|b3| - 3] == m;
  }

  /** The stream a process writes when it answers with `ms`, each followed by the prompt. */
  function Framed(ms: seq<string>): string
  {
    if ms == [] then "" else ms[0] + PROMPT + Framed(ms[1..])
  }

  function StripAll(ms: seq<string>): (r: seq<string>)
    ensures |r| == |ms|
  {
    if ms == [] then [] else [Strip(ms[0])] + StripAll(ms[1..])
  }

  /** Framing recovers every message, stripped and in order, from their concatenation. */
  lemma {:induction false} FramedRoundTrip(ms: seq<string>)
    requires forall i :: 0 <= i < |ms| ==> '>' !in ms[i]
    ensures FrameAll("", Framed(ms)) == ("", StripAll(ms))
    decreases |ms|
  {
    if ms != [] {
      FrameMessage(ms[0]);
      FrameAllAppend("", ms[0] + PROMPT, Framed(ms[1..]));
      FramedRoundTrip(ms[1..]);
    }
  }

  // ---------------------------------------------------------------- supervisor state

  /** Everything the supervisor, the stdout reader and the callers share. */
  datatype Supervisor = Supervisor(
    running: bool,
    callState: Option<CallState>,
    commands: seq<string>,
    stdoutQueue: seq<string>,
    responses: seq<string>,
    readBuffer: string,
    written: seq<string>,
    fired: seq<Callback>)

  /** The state after a step, and the exception it raised, if any. */
  datatype Step = Step(next: Supervisor, error: Option<PjsuaError>)

  const NEW_SUPERVISOR: Supervisor := Supervisor(false, Some(Idle), [], [], [], "", [], [])

  /** The stdout thread reading `chunk`. */
  function ReadStdout(s: Supervisor, chunk: string): Step
  {
    if !s.running then Step(s, Some(NotRunning))
    else
      var f := FrameAll(s.readBuffer, chunk);
      Step(s.(readBuffer := f.0, stdoutQueue := s.stdoutQueue + f.1), None)
  }

  /** `_check_calls`. */
  function CheckCalls(s: Supervisor): Step
  {
    if !s.running then Step(s, Some(NotRunning))
    else
      var s1 := s.(written := s.written + [CALL_LIST_LINE]);
      if s1.stdoutQueue == [] then Step(s1, Some(Timeout))
      else
        var inferred := InferCallState(s1.stdoutQueue[0]);
        var s2 := s1.(stdoutQueue := s1.stdoutQueue[1..]);
        if inferred == s2.callState then Step(s2, None)
        else Step(s2.(fired := s2.fired + CallbacksFor(s2.callState, inferred), callState := inferred), None)
  }

  /** One pass of `_check_status_loop`; `returnCode` is what polling the process gives. */
  function Cycle(s: Supervisor, returnCode: Option<int>): Step
  {
    if !s.running then Step(s, Some(NotRunning))
    else if returnCode.Some? then Step(s, Some(ProcessDied(returnCode.value)))
    else if s.commands == [] then CheckCalls(s)
    else
      var s1 := s.(commands := s.commands[1..], written := s.written + [s.commands[0] + "\n"]);
      if s1.stdoutQueue == [] then Step(s1, Some(Timeout))
      else CheckCalls(s1.(responses := s1.responses + [s1.stdoutQueue[0]], stdoutQueue := s1.stdoutQueue[1..]))
  }

  /** Cycles with the given polls until one raises (the supervisor thread then ends). */
  function Cycles(s: Supervisor, polls: seq<Option<int>>): Step
    decreases |polls|
  {
    if polls == [] then Step(s, None)
    else
      var step := Cycle(s, polls[0]);
      if step.error.Some? then step else Cycles(step.next, polls[1..])
  }

  /** `start`: the process is started, the stdout thread reads `startupOutput`, and the first response is discarded. */
  function Start(s: Supervisor, startupOutput: string): Step
  {
    if s.running then Step(s, Some(AlreadyStarted))
    else
      var s1 := ReadStdout(s.(running := true), startupOutput).next;
      if s1.stdoutQueue == [] then Step(s1, Some(Timeout))
      else Step(s1.(stdoutQueue := s1.stdoutQueue[1..]), None)
  }

  /** The first half of `send_command`: the command is queued for the supervisor. */
  function SendCommand(s: Supervisor, command: string): Supervisor
  {
    s.(commands := s.commands + [command])
  }

  /** The second half of `send_command`: the response the supervisor queued for the caller. */
  function AwaitResponse(s: Supervisor): (Supervisor, Result<string, PjsuaError>)
  {
    if s.responses == [] then (s, Err(Timeout)) else (s.(responses := s.responses[1..]), Ok(s.responses[0]))
  }

  function CallCommand(address: string): string
  {
    CALL_NEW_PREFIX + address
  }

  /** The address can be read back from a `call new` command. */
  lemma CallCommandRoundTrip(address: string)
    ensures |CallCommand(address)| == |CALL_NEW_PREFIX| + |address|
    ensures CallCommand(address)[..|CALL_NEW_PREFIX|] == CALL_NEW_PREFIX
    ensures CallCommand(address)[|CALL_NEW_PREFIX|..] == address
  {
  }

  /**
   * The order of one cycle: a missing process is reported first, then a dead one; otherwise
   * at most one queued command, the oldest, is written with a newline and answered by the
   * next stdout response, and then "call list" is always written and answered by the one after.
   */
  lemma CycleOrder(s: Supervisor, returnCode: Option<int>)
    ensures !s.running ==> Cycle(s, returnCode) == Step(s, Some(NotRunning))
    ensures s.running && returnCode.Some? ==> Cycle(s, returnCode) == Step(s, Some(ProcessDied(returnCode.value)))
    ensures s.running && returnCode.None? ==>
              var k := if s.commands == [] then 0 else 1;
              var step := Cycle(s, returnCode);
              && (step.error == None <==> |s.stdoutQueue| > k)
              && (step.error != None ==> step.error == Some(Timeout))
              && step.next.commands == s.commands[k..]
              && step.next.written == s.written + (if k == 1 then [s.commands[0] + "\n"] else [])
                                      + (if |s.stdoutQueue| >= k then [CALL_LIST_LINE] else [])
              && (step.error == None ==>
                    && step.next.responses == s.responses + s.stdoutQueue[..k]
                    && step.next.stdoutQueue == s.stdoutQueue[k + 1..]
                    && step.next.callState == InferCallState(s.stdoutQueue[k])
                    && step.next.fired == s.fired + CallbacksFor(s.callState, InferCallState(s.stdoutQueue[k])))
  {
    if s.running && returnCode.None? {
      if s.commands == [] {
        CheckCallsSpec(s);
        assert s.commands[0..] == s.commands && s.stdoutQueue[..0] == [];
        assert s.written + [] == s.written && s.responses + [] == s.responses;
      } else {
        var s1 := s.(commands := s.commands[1..], written := s.written + [s.commands[0] + "\n"]);
        if s1.stdoutQueue != [] {
          var s2 := s1.(responses := s1.responses + [s1.stdoutQueue[0]], stdoutQueue := s1.stdoutQueue[1..]);
          CheckCallsSpec(s2);
          assert s.stdoutQueue[..1] == [s.stdoutQueue[0]];
        }
      }
    }
  }

  /** One `call list` check on a running supervisor: it writes the command and consumes one line, or times out. */
  lemma CheckCallsSpec(s: Supervisor)
    requires s.running
    ensures var step := CheckCalls(s);
              && (step.error == None <==> s.stdoutQueue != [])
              && (step.error != None ==> step.error == Some(Timeout))
              && step.next.commands == s.commands
              && step.next.responses == s.responses
              && step.next.written == s.written + [CALL_LIST_LINE]
              && (step.error == None ==>
                    && step.next.stdoutQueue == s.stdoutQueue[1..]
                    && step.next.callState == InferCallState(s.stdoutQueue[0])
                    && step.next.fired == s.fired + CallbacksFor(s.callState, InferCallState(s.stdoutQueue[0])))
  {
    if s.stdoutQueue != [] && InferCallState(s.stdoutQueue[0]) == s.callState {
      assert CallbacksFor(s.callState, s.callState) == [];
      assert s.fired + [] == s.fired;
    }
  }

  /** A `call list` that reports the current state changes nothing but the queue and the log. */
  lemma CheckCallsSameState(s: Supervisor)
    requires s.running && s.stdoutQueue != [] && InferCallState(s.stdoutQueue[0]) == s.callState
    ensures CheckCalls(s) == Step(s.(written := s.written + [CALL_LIST_LINE], stdoutQueue := s.stdoutQueue[1..]), None)
  {
  }

  /**
   * A command sent while the supervisor is idle is written on the next cycle, and its
   * response, the next framed output, is what the caller gets back.
   */
  lemma CommandRoundTrip(s: Supervisor, command: string)
    requires s.running && s.commands == [] && s.responses == [] && |s.stdoutQueue| >= 2
    ensures var step := Cycle(SendCommand(s, command), None);
            && step.error == None
            && step.next.written == s.written + [command + "\n", CALL_LIST_LINE]
            && AwaitResponse(step.next).1 == Ok(s.stdoutQueue[0])
            && AwaitResponse(step.next).0.responses == []
  {
    CycleOrder(SendCommand(s, command), None);
  }

  /** A second `start` is refused without touching anything. */
  lemma StartOnce(s: Supervisor, startupOutput: string, again: string)
    requires Start(s, startupOutput).error == None
    ensures s.running == false && Start(s, startupOutput).next.running
    ensures Start(Start(s, startupOutput).next, again) == Step(Start(s, startupOutput).next, Some(AlreadyStarted))
  {
  }

  /** A process that prints its banner and then the prompt starts with nothing left over. */
  lemma StartDiscardsBanner(banner: string)
    requires '>' !in banner
    ensures Start(NEW_SUPERVISOR, banner + PROMPT) == Step(NEW_SUPERVISOR.(running := true), None)
  {
    FrameMessage(banner);
    ReadBannerQueues(NEW_SUPERVISOR.(running := true), banner + PROMPT, Strip(banner));
  }

  lemma ReadBannerQueues(s: Supervisor, chunk: string, message: string)
    requires s.running && s.readBuffer == "" && s.stdoutQueue == []
    requires FrameAll("", chunk) == ("", [message])
    ensures ReadStdout(s, chunk) == Step(s.(stdoutQueue := [message]), None)
  {
    var f := FrameAll(s.readBuffer, chunk);
    assert s.stdoutQueue + f.1 == [message];
  }

  /** Until `start`, every access to the process raises NotRunningError. */
  lemma NotRunningGuards(s: Supervisor, chunk: string, returnCode: Option<int>)
    requires !s.running
    ensures CheckCalls(s) == Step(s, Some(NotRunning))
    ensures Cycle(s, returnCode) == Step(s, Some(NotRunning))
    ensures ReadStdout(s, chunk) == Step(s, Some(NotRunning))
  {
  }

  /**
   * The body of `_read_stdout_loop` over the characters of `chunk`: each one is appended
   * to the buffer, and once the buffer ends with the prompt, the text before it is emitted
   * stripped and the buffer is emptied.
   */
  method ReadChars(buffer0: string, chunk: string) returns (buffer: string, emitted: seq<string>)
    ensures (buffer, emitted) == FrameAll(buffer0, chunk)
  {
    buffer, emitted := buffer0, [];
    var i := 0;
    while i < |chunk|
      invariant 0 <= i <= |chunk|
      invariant (buffer, emitted) == FrameAll(buffer0, chunk[..i])
    {
      FrameAllSnoc(buffer0, chunk[..i], chunk[i]);
      assert chunk[..i + 1] == chunk[..i] + [chunk[i]];
      ghost var step := FrameChar(buffer, chunk[i]);
      var next := buffer + [chunk[i]];
      FrameCharCases(buffer, chunk[i]);
      if EndsWith(next, PROMPT) {
        // the text before the prompt: all of `next` but its last three characters
        var response := Strip(buffer[..|buffer| - 2]);
        assert step == ("", [response]);
        emitted := emitted + [response];
        buffer := "";
      } else {
        assert step == (next, []) && emitted + [] == emitted;
        buffer := next;
      }
      i := i + 1;
    }
    assert chunk[..i] == chunk;
  }

  // ---------------------------------------------------------------- the object

  class PJSua {
    var running: bool
    var callState: Option<CallState>
    var commands: seq<string>
    var stdoutQueue: seq<string>
    var responses: seq<string>
    var readBuffer: string
    var written: seq<string>
    var fired: seq<Callback>

    function Snapshot(): Supervisor
      reads this
    {
      Supervisor(running, callState, commands, stdoutQueue, responses, readBuffer, written, fired)
    }

    constructor ()
      ensures Snapshot() == NEW_SUPERVISOR
    {
      running := false;
      callState := Some(Idle);
      commands := [];
      stdoutQueue := [];
      responses := [];
      readBuffer := "";
      written := [];
      fired := [];
    }

    /** `_read_stdout_loop` over the characters of `chunk`. */
    method ReadStdoutLoop(chunk: string) returns (error: Option<PjsuaError>)
      modifies this
      ensures Snapshot() == ReadStdout(old(Snapshot()), chunk).next
      ensures error == ReadStdout(old(Snapshot()), chunk).error
    {
      if !running {
        return Some(NotRunning);
      }
      var buffer, emitted := ReadChars(readBuffer, chunk);
      readBuffer, stdoutQueue := buffer, stdoutQueue + emitted;
      error := None;
    }

    method CheckCallsStep() returns (error: Option<PjsuaError>)
      modifies this
      ensures Snapshot() == CheckCalls(old(Snapshot())).next
      ensures error == CheckCalls(old(Snapshot())).error
    {
      if !running {
        return Some(NotRunning);
      }
      written := written + [CALL_LIST_LINE];
      if stdoutQueue == [] {
        return Some(Timeout);
      }
      var response := stdoutQueue[0];
      stdoutQueue := stdoutQueue[1..];
      var inferred := InferCallState(response);
      if inferred == callState {
        return None;
      }
      fired := fired + CallbacksFor(callState, inferred);
      callState := inferred;
      error := None;
    }

    method CheckStatusCycle(returnCode: Option<int>) returns (error: Option<PjsuaError>)
      modifies this
      ensures Snapshot() == Cycle(old(Snapshot()), returnCode).next
      ensures error == Cycle(old(Snapshot()), returnCode).error
    {
      if !running {
        return Some(NotRunning);
      }
      if returnCode.Some? {
        return Some(ProcessDied(returnCode.value));
      }
      if commands != [] {
        var command := commands[0];
        commands := commands[1..];
        written := written + [command + "\n"];
        if stdoutQueue == [] {
          return Some(Timeout);
        }
        responses := responses + [stdoutQueue[0]];
        stdoutQueue := stdoutQueue[1..];
      }
      error := CheckCallsStep();
    }

    /** `_check_status_loop`, one cycle per poll result, stopping at the first exception. */
    method CheckStatusLoop(polls: seq<Option<int>>) returns (error: Option<PjsuaError>)
      modifies this
      ensures Snapshot() == Cycles(old(Snapshot()), polls).next
      ensures error == Cycles(old(Snapshot()), polls).error
    {
      var i := 0;
      while i < |polls|
        invariant 0 <= i <= |polls|
        invariant Cycles(Snapshot(), polls[i..]) == Cycles(old(Snapshot()), polls)
      {
        assert polls[i..][0] == polls[i] && polls[i..][1..] == polls[i + 1..];
        error := CheckStatusCycle(polls[i]);
        if error.Some? {
          return;
        }
        i := i + 1;
      }
      assert polls[i..] == [];
      error := None;
    }

    method StartProcess(startupOutput: string) returns (error: Option<PjsuaError>)
      modifies this
      ensures Snapshot() == Start(old(Snapshot()), startupOutput).next
      ensures error == Start(old(Snapshot()), startupOutput).error
    {
      if running {
        return Some(AlreadyStarted);
      }
      running := true;
      error := ReadStdoutLoop(startupOutput);
      if stdoutQueue == [] {
        return Some(Timeout);
      }
      stdoutQueue := stdoutQueue[1..];
      error := None;
    }

    method Send(command: string)
      modifies this
      ensures Snapshot() == SendCommand(old(Snapshot()), command)
    {
      commands := commands + [command];
    }

    method Await() returns (response: Result<string, PjsuaError>)
      modifies this
      ensures (Snapshot(), response) == AwaitResponse(old(Snapshot()))
    {
      if responses == [] {
        return Err(Timeout);
      }
      response := Ok(responses[0]);
      responses := responses[1..];
    }

    method Call(address: string)
      modifies this
      ensures Snapshot() == SendCommand(old(Snapshot()), CallCommand(address))
    {
      Send(CALL_NEW_PREFIX + address);
    }

    method AcceptCall()
      modifies this
      ensures Snapshot() == SendCommand(old(Snapshot()), ACCEPT_COMMAND)
    {
      Send(ACCEPT_COMMAND);
    }

    method HangupAll()
      modifies this
      ensures Snapshot() == SendCommand(old(Snapshot()), HANGUP_ALL_COMMAND)
    {
      Send(HANGUP_ALL_COMMAND);
    }

    /** `call_list`, first half: queue the listing command. */
    method RequestCallList()
      modifies this
      ensures Snapshot() == SendCommand(old(Snapshot()), CALL_LIST_COMMAND)
    {
      Send(CALL_LIST_COMMAND);
    }

    /** `call_list`, second half: the awaited response read as a call state. */
    method AwaitCallList() returns (result: Result<Option<CallState>, PjsuaError>)
      modifies this
      ensures Snapshot() == AwaitResponse(old(Snapshot())).0
      ensures AwaitResponse(old(Snapshot())).1.Err? ==> result == Err(AwaitResponse(old(Snapshot())).1.error)
      ensures AwaitResponse(old(Snapshot())).1.Ok? ==> result == Ok(InferCallState(AwaitResponse(old(Snapshot())).1.value))
    {
      var response := Await();
      if response.Err? {
        return Err(response.error);
      }
      result := Ok(InferCallState(response.value));
    }
  }
}
