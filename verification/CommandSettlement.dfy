/**
 * Running one command (scripts/openclaw-cross-os-release-checks.ts): the child's events race with a
 * timeout, a kill-wait timer and a heartbeat, and the first of them to finish decides the promise.
 */
module CommandSettlement {
  import opened Outcomes

  /** `timeoutMs` is None for a timeout that is absent, zero or not finite: no timer is then set. */
  datatype Config = Config(timeoutMs: Option<int>, check: bool, heartbeatSeconds: int)

  datatype Reason =
    | ProcessError(message: string)
    | TimedOut
    | NotTerminated
    | Failed(exitCode: int, stdout: string, stderr: string)

  datatype Settlement =
    | Resolved(exitCode: int, stdout: string, stderr: string)
    | Rejected(reason: Reason)

  datatype Stream = Stdout | Stderr

  /**
   * Asking the child to stop either says nothing for now or reports an error at once: `kill` emits
   * `error` on the child before it returns.
   */
  datatype KillReply = Quiet | EmitsError(message: string)

  datatype Event =
    | Data(stream: Stream, text: string)
    | Error(message: string)
    | Close(exitCode: Option<int>)
    | TimeoutFires(kill: KillReply)
    | KillWaitFires
    | HeartbeatFires

  datatype State = State(
    stdout: string,
    stderr: string,
    timedOut: bool,
    settlement: Option<Settlement>,
    timerArmed: bool,
    killWaitArmed: bool,
    heartbeatArmed: bool)

  function Start(config: Config): State {
    State("", "", false, None, config.timeoutMs.Some?, false, config.heartbeatSeconds > 0)
  }

  /** The first settlement is kept, and takes every timer set so far with it. */
  function Finalize(s: State, settlement: Settlement): State {
    if s.settlement.Some? then s
    else s.(settlement := Some(settlement), timerArmed := false, killWaitArmed := false, heartbeatArmed := false)
  }

  /** How a close would settle: an absent exit code counts as 1. */
  function Closed(config: Config, s: State, exitCode: Option<int>): Settlement {
    var code := if exitCode.Some? then exitCode.value else 1;
    if s.timedOut then Rejected(TimedOut)
    else if config.check && code != 0 then Rejected(Failed(code, s.stdout, s.stderr))
    else Resolved(code, s.stdout, s.stderr)
  }

  function RequestKill(s: State, kill: KillReply): State {
    if kill.EmitsError? then Finalize(s, Rejected(ProcessError(kill.message))) else s
  }

  function Next(config: Config, s: State, event: Event): State {
    match event
    case Data(stream, text) =>
      if stream == Stdout then s.(stdout := s.stdout + text) else s.(stderr := s.stderr + text)
    case Error(message) => Finalize(s, Rejected(ProcessError(message)))
    case Close(exitCode) => Finalize(s, Closed(config, s, exitCode))
    case TimeoutFires(kill) =>
      RequestKill(s.(timedOut := true, timerArmed := false), kill).(killWaitArmed := true)
    case KillWaitFires => Finalize(s.(killWaitArmed := false), Rejected(NotTerminated))
    case HeartbeatFires => s
  }

  /** The child may do anything at any time; a timer fires only while it is set. */
  predicate Enabled(s: State, event: Event) {
    match event
    case Data(_, _) => true
    case Error(_) => true
    case Close(_) => true
    case TimeoutFires(_) => s.timerArmed
    case KillWaitFires => s.killWaitArmed
    case HeartbeatFires => s.heartbeatArmed
  }

  // ---- the object that the callbacks share --------------------------------------------

  class CommandRun {
    const config: Config
    var stdout: string
    var stderr: string
    var timedOut: bool
    var settlement: Option<Settlement>
    var timerArmed: bool
    var killWaitArmed: bool
    var heartbeatArmed: bool

    ghost function Value(): State
      reads this
    {
      State(stdout, stderr, timedOut, settlement, timerArmed, killWaitArmed, heartbeatArmed)
    }

    constructor (config: Config)
      ensures this.config == config && Value() == Start(config)
      ensures timerArmed == config.timeoutMs.Some? && !killWaitArmed && heartbeatArmed == (config.heartbeatSeconds > 0)
    {
      this.config := config;
      stdout, stderr, timedOut, settlement := "", "", false, None;
      timerArmed, killWaitArmed, heartbeatArmed := config.timeoutMs.Some?, false, config.heartbeatSeconds > 0;
    }

    method ClearTimers()
      modifies this`timerArmed, this`killWaitArmed, this`heartbeatArmed
      ensures !timerArmed && !killWaitArmed && !heartbeatArmed
    {
      timerArmed, killWaitArmed, heartbeatArmed := false, false, false;
    }

    method Settle(how: Settlement)
      modifies this
      ensures Value() == Finalize(old(Value()), how)
    {
      if settlement.Some? { return; }
      settlement := Some(how);
      ClearTimers();
    }

    method OnData(stream: Stream, text: string)
      modifies this`stdout, this`stderr
      ensures Value() == Next(config, old(Value()), Data(stream, text))
    {
      if stream == Stdout {
        stdout := stdout + text;
      } else {
        stderr := stderr + text;
      }
    }

    method OnError(message: string)
      modifies this
      ensures Value() == Next(config, old(Value()), Error(message))
    {
      Settle(Rejected(ProcessError(message)));
    }

    method OnClose(exitCode: Option<int>)
      modifies this
      ensures Value() == Next(config, old(Value()), Close(exitCode))
    {
      var code := if exitCode.Some? then exitCode.value else 1;
      if timedOut {
        Settle(Rejected(TimedOut));
      } else if config.check && code != 0 {
        Settle(Rejected(Failed(code, stdout, stderr)));
      } else {
        Settle(Resolved(code, stdout, stderr));
      }
    }

    method OnTimeout(kill: KillReply)
      requires timerArmed
      modifies this
      ensures Value() == Next(config, old(Value()), TimeoutFires(kill))
    {
      timedOut, timerArmed := true, false;
      if kill.EmitsError? {
        OnError(kill.message);
      }
      killWaitArmed := true;
    }

    method OnKillWait()
      requires killWaitArmed
      modifies this
      ensures Value() == Next(config, old(Value()), KillWaitFires)
    {
      killWaitArmed := false;
      Settle(Rejected(NotTerminated));
    }
  }

  // ---- runs ---------------------------------------------------------------------------

  ghost predicate IsRun(config: Config, events: seq<Event>, states: seq<State>) {
    && |states| == |events| + 1
    && states[0] == Start(config)
    && forall i | 0 <= i < |events| ::
         Enabled(states[i], events[i]) && states[i + 1] == Next(config, states[i], events[i])
  }

  ghost predicate Inv(config: Config, s: State) {
    && (s.settlement.Some? ==> !s.timerArmed && !s.heartbeatArmed)
    && (s.settlement.None? && s.timedOut ==> s.killWaitArmed)
    && (s.settlement.None? && !s.timedOut && config.timeoutMs.Some? ==> s.timerArmed)
    && (s.timerArmed ==> !s.timedOut)
    && (s.killWaitArmed ==> s.timedOut)
    && (s.settlement.Some? && s.settlement.value.Resolved? ==>
          !s.timedOut && (config.check ==> s.settlement.value.exitCode == 0))
  }

  lemma StepKeepsInv(config: Config, s: State, event: Event)
    requires Inv(config, s) && Enabled(s, event)
    ensures Inv(config, Next(config, s, event))
  {
    match event {
      case Data(_, _) =>
      case Error(_) =>
      case Close(_) =>
      case TimeoutFires(_) =>
      case KillWaitFires =>
      case HeartbeatFires =>
    }
  }

  lemma {:induction false} RunKeepsInv(config: Config, events: seq<Event>, states: seq<State>, i: nat)
    requires IsRun(config, events, states) && i < |states|
    ensures Inv(config, states[i])
  {
    if i > 0 {
      RunKeepsInv(config, events, states, i - 1);
      StepKeepsInv(config, states[i - 1], events[i - 1]);
    }
  }

  /** The promise settles at most once: what it settled to never changes again. */
  lemma {:induction false} SettlementIsFinal(config: Config, events: seq<Event>, states: seq<State>, i: nat, j: nat)
    requires IsRun(config, events, states) && i <= j < |states|
    requires states[i].settlement.Some?
    ensures states[j].settlement == states[i].settlement
  {
    if i < j {
      SettlementIsFinal(config, events, states, i, j - 1);
    }
  }

  ghost predicate HasTimedOut(events: seq<Event>) {
    exists i :: 0 <= i < |events| && events[i].TimeoutFires?
  }

  ghost predicate KillFailed(events: seq<Event>) {
    exists i :: 0 <= i < |events| && events[i].TimeoutFires? && events[i].kill.EmitsError?
  }

  lemma TimedOutMeansFired(config: Config, events: seq<Event>, states: seq<State>)
    requires IsRun(config, events, states)
    ensures states[|events|].timedOut <==> HasTimedOut(events)
  {
    if events != [] {
      var n := |events| - 1;
      TimedOutMeansFired(config, events[..n], states[..n + 1]);
      assert events[n].TimeoutFires? ==> HasTimedOut(events);
      assert HasTimedOut(events[..n]) ==> HasTimedOut(events) by {
        if HasTimedOut(events[..n]) {
          var i :| 0 <= i < n && events[..n][i].TimeoutFires?;
          assert events[i].TimeoutFires?;
        }
      }
      if HasTimedOut(events) {
        var i :| 0 <= i < |events| && events[i].TimeoutFires?;
        assert i < n ==> events[..n][i].TimeoutFires?;
      }
    }
  }

  /** Success is never reported after the timeout, nor, with `check`, for a failing exit code. */
  lemma ResolvesOnlyInTime(config: Config, events: seq<Event>, states: seq<State>)
    requires IsRun(config, events, states)
    requires states[|events|].settlement.Some? && states[|events|].settlement.value.Resolved?
    ensures !HasTimedOut(events)
    ensures config.check ==> states[|events|].settlement.value.exitCode == 0
  {
    RunKeepsInv(config, events, states, |events|);
    TimedOutMeansFired(config, events, states);
  }

  /** A child that goes silent for good still settles, through the two timers alone. */
  lemma TimersAloneSettle(config: Config, events: seq<Event>, states: seq<State>)
    requires IsRun(config, events, states) && config.timeoutMs.Some?
    requires states[|events|].settlement.None?
    ensures var s := states[|events|];
            if s.timedOut then
              && Enabled(s, KillWaitFires)
              && Next(config, s, KillWaitFires).settlement == Some(Rejected(NotTerminated))
            else
              && Enabled(s, TimeoutFires(Quiet))
              && var t := Next(config, s, TimeoutFires(Quiet));
                 Enabled(t, KillWaitFires)
                 && Next(config, t, KillWaitFires).settlement == Some(Rejected(NotTerminated))
  {
    RunKeepsInv(config, events, states, |events|);
  }

  // ---- timers left behind -------------------------------------------------------------

  predicate AnyArmed(s: State) {
    s.timerArmed || s.killWaitArmed || s.heartbeatArmed
  }

  /** What the events so far say about the kill-wait timer. */
  ghost predicate ExplainsKillWait(events: seq<Event>, s: State) {
    && (KillWaitFires in events ==> s.settlement.Some? && !s.killWaitArmed && s.timedOut)
    && (KillFailed(events) ==> s.settlement.Some? && s.timedOut)
    && (s.settlement.Some? ==> (s.killWaitArmed <==> KillFailed(events) && KillWaitFires !in events))
  }

  lemma KillFailedStep(events: seq<Event>, event: Event)
    ensures KillFailed(events + [event]) <==> KillFailed(events) || (event.TimeoutFires? && event.kill.EmitsError?)
    ensures KillWaitFires in events + [event] <==> KillWaitFires in events || event == KillWaitFires
  {
    var longer := events + [event];
    assert longer[|events|] == event;
    if KillFailed(events) {
      var i :| 0 <= i < |events| && events[i].TimeoutFires? && events[i].kill.EmitsError?;
      assert longer[i] == events[i];
    }
    if KillFailed(longer) {
      var i :| 0 <= i < |longer| && longer[i].TimeoutFires? && longer[i].kill.EmitsError?;
      assert i < |events| ==> events[i] == longer[i];
    }
  }

  lemma StepExplainsKillWait(config: Config, events: seq<Event>, s: State, event: Event)
    requires Inv(config, s) && Enabled(s, event) && ExplainsKillWait(events, s)
    ensures ExplainsKillWait(events + [event], Next(config, s, event))
  {
    KillFailedStep(events, event);
    match event {
      case Data(_, _) =>
      case Error(_) =>
      case Close(_) =>
      case TimeoutFires(_) =>
      case KillWaitFires =>
      case HeartbeatFires =>
    }
  }

  lemma {:induction false} RunExplainsKillWait(config: Config, events: seq<Event>, states: seq<State>)
    requires IsRun(config, events, states)
    ensures ExplainsKillWait(events, states[|events|])
  {
    if events != [] {
      var n := |events| - 1;
      RunExplainsKillWait(config, events[..n], states[..n + 1]);
      RunKeepsInv(config, events, states, n);
      StepExplainsKillWait(config, events[..n], states[n], events[n]);
      assert events == events[..n] + [events[n]];
    }
  }

  /**
   * A settled command leaves a timer set exactly when asking the child to stop failed on the spot
   * and the kill-wait timer, which the timeout sets afterwards, has not fired yet.
   */
  lemma TimerOutlivesSettlementExactly(config: Config, events: seq<Event>, states: seq<State>)
    requires IsRun(config, events, states) && states[|events|].settlement.Some?
    ensures AnyArmed(states[|events|]) <==> KillFailed(events) && KillWaitFires !in events
  {
    RunKeepsInv(config, events, states, |events|);
    RunExplainsKillWait(config, events, states);
  }

  lemma FailedKillLeavesATimer(config: Config, message: string)
    requires config.timeoutMs.Some?
    ensures var s := Next(config, Start(config), TimeoutFires(EmitsError(message)));
            Enabled(Start(config), TimeoutFires(EmitsError(message)))
            && s.settlement == Some(Rejected(ProcessError(message))) && AnyArmed(s)
  {
  }

  // ---- what the result holds ----------------------------------------------------------

  /** What the child had written to one stream. */
  function Written(events: seq<Event>, stream: Stream): string {
    if events == [] then "" else
      var n := |events| - 1;
      Written(events[..n], stream)
      + (if events[n].Data? && events[n].stream == stream then events[n].text else "")
  }

  lemma {:induction false} OutputIsWritten(config: Config, events: seq<Event>, states: seq<State>)
    requires IsRun(config, events, states)
    ensures states[|events|].stdout == Written(events, Stdout)
    ensures states[|events|].stderr == Written(events, Stderr)
  {
    if events != [] {
      var n := |events| - 1;
      OutputIsWritten(config, events[..n], states[..n + 1]);
      OutputStep(config, states[n], events[n]);
    }
  }

  lemma OutputStep(config: Config, s: State, event: Event)
    ensures var next := Next(config, s, event);
            && next.stdout == s.stdout + (if event.Data? && event.stream == Stdout then event.text else "")
            && next.stderr == s.stderr + (if event.Data? && event.stream == Stderr then event.text else "")
  {
    assert s.stdout + "" == s.stdout && s.stderr + "" == s.stderr;
  }

  /** The first event that can decides for good: an error of the child or of the request to
      stop it, the end of the wait after that request, or a close, by what came before it. */
  lemma FirstEventDecides(config: Config, events: seq<Event>, states: seq<State>, k: nat)
    requires IsRun(config, events, states) && k < |events| && states[k].settlement.None?
    ensures var stdout, stderr := Written(events[..k], Stdout), Written(events[..k], Stderr);
            states[k + 1].settlement ==
            match events[k]
            case Error(message) => Some(Rejected(ProcessError(message)))
            case TimeoutFires(EmitsError(message)) => Some(Rejected(ProcessError(message)))
            case KillWaitFires => Some(Rejected(NotTerminated))
            case Close(exitCode) =>
              var code := if exitCode.Some? then exitCode.value else 1;
              if HasTimedOut(events[..k]) then Some(Rejected(TimedOut))
              else if config.check && code != 0 then Some(Rejected(Failed(code, stdout, stderr)))
              else Some(Resolved(code, stdout, stderr))
            case _ => None
    ensures states[k + 1].settlement.Some? ==> states[|events|].settlement == states[k + 1].settlement
  {
    assert IsRun(config, events[..k], states[..k + 1]);
    OutputIsWritten(config, events[..k], states[..k + 1]);
    TimedOutMeansFired(config, events[..k], states[..k + 1]);
    if states[k + 1].settlement.Some? {
      SettlementIsFinal(config, events, states, k + 1, |events|);
    }
  }

  /** The event that settled the promise. */
  ghost predicate SettledAt(events: seq<Event>, states: seq<State>, k: nat) {
    k < |events| < |states| && states[k].settlement.None? && states[k + 1].settlement.Some?
  }

  /** A result is the exit code of the close that settled it, with all output up to that close. */
  lemma ResultIsWhatTheCloseSaw(config: Config, events: seq<Event>, states: seq<State>, k: nat)
    requires IsRun(config, events, states) && SettledAt(events, states, k)
    requires states[|events|].settlement.Some? && states[|events|].settlement.value.Resolved?
    ensures events[k].Close? && !HasTimedOut(events)
    ensures states[|events|].settlement.value ==
              Resolved(if events[k].exitCode.Some? then events[k].exitCode.value else 1,
                       Written(events[..k], Stdout), Written(events[..k], Stderr))
  {
    SettlementIsFinal(config, events, states, k + 1, |events|);
    ResolvesOnlyInTime(config, events, states);
    assert IsRun(config, events[..k], states[..k + 1]);
    OutputIsWritten(config, events[..k], states[..k + 1]);
  }
}
