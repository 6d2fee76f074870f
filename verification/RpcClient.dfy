/** The translation agent behind a pipe (`PiRpcClient`, `ClientAccess`): a client
    holds one pending prompt, and the agent's final reply (`agent_end`) does not
    say which prompt it answers. */
module RpcClient {
  import opened Outcomes

  datatype Pending = Pending(id: nat, responseReceived: bool)

  datatype Settlement = Resolved(reply: string) | Rejected(message: string)

  /** One parsed line of the agent's standard output. */
  datatype Line =
    | Response(id: nat, success: bool, error: string)
    | AgentEnd(result: Result<string>)
    | OtherLine

  /** A client: its fields, and what the promise of each prompt has settled to.
      Prompts are numbered 1, 2, ... as in their ids `req-1`, `req-2`, ... */
  datatype Client = Client(closed: bool, pending: Option<Pending>, requestCount: nat, settled: map<nat, Settlement>)

  const NEW_CLIENT := Client(false, None, 0, map[])

  // ---- one client, as a function of its events --------------------------------

  /** Only the first settlement of a promise can be observed. */
  function Settle(settled: map<nat, Settlement>, id: nat, s: Settlement): map<nat, Settlement> {
    if id in settled then settled else settled[id := s]
  }

  function SettlePending(c: Client, s: Settlement): Client {
    match c.pending
    case None => c
    case Some(p) => c.(pending := None, settled := Settle(c.settled, p.id, s))
  }

  function AfterPrompt(c: Client): Client
    requires !c.closed
  {
    c.(requestCount := c.requestCount + 1, pending := Some(Pending(c.requestCount + 1, false)))
  }

  function AfterLine(c: Client, line: Line): Client {
    match c.pending
    case None => c
    case Some(p) =>
      match line
      case OtherLine => c
      case Response(id, success, error) =>
        if id != p.id then c
        else if success then c.(pending := Some(p.(responseReceived := true)))
        else SettlePending(c, Rejected(error))
      case AgentEnd(Ok(reply)) => SettlePending(c, Resolved(reply))
      case AgentEnd(Err(message)) => SettlePending(c, Rejected(message))
  }

  function AfterTimeout(c: Client, id: nat): Client {
    if c.pending.Some? && c.pending.value.id == id
    then SettlePending(c, Rejected("timed out")).(closed := true)
    else c
  }

  function AfterWriteError(c: Client, id: nat, message: string): Client {
    c.(pending := if c.pending.Some? && c.pending.value.id == id then None else c.pending,
       settled := Settle(c.settled, id, Rejected(message)))
  }

  function AfterProcessClose(c: Client, message: string): Client {
    SettlePending(c.(closed := true), Rejected(message))
  }

  // ---- the class ---------------------------------------------------------------

  class PiRpcClient {
    var closed: bool
    var pending: Option<Pending>
    var requestCount: nat
    var settled: map<nat, Settlement>

    ghost function View(): Client
      reads this
    {
      Client(closed, pending, requestCount, settled)
    }

    constructor ()
      ensures View() == NEW_CLIENT
    {
      closed, pending, requestCount, settled := false, None, 0, map[];
    }

    method SettlePrompt(id: nat, s: Settlement)
      modifies this`settled
      ensures settled == Settle(old(settled), id, s)
    {
      if id !in settled {
        settled := settled[id := s];
      }
    }

    method RejectPending(message: string)
      modifies this
      ensures View() == SettlePending(old(View()), Rejected(message))
    {
      var was := pending;
      pending := None;
      if was.Some? {
        SettlePrompt(was.value.id, Rejected(message));
      }
    }

    method HandleStdoutLine(line: Line)
      modifies this
      ensures View() == AfterLine(old(View()), line)
    {
      if pending.None? { return; }
      var p := pending.value;
      match line {
        case Response(id, success, error) =>
          if id != p.id { return; }
          if !success {
            pending := None;
            SettlePrompt(p.id, Rejected(error));
            return;
          }
          pending := Some(p.(responseReceived := true));
        case AgentEnd(result) =>
          pending := None;
          SettlePrompt(p.id, match result case Ok(reply) => Resolved(reply) case Err(message) => Rejected(message));
        case OtherLine =>
      }
    }

    /** Returns the number of the prompt written, or 0 when the process is gone
        and nothing was written. */
    method Prompt() returns (id: nat)
      modifies this
      ensures old(closed) ==> id == 0 && View() == old(View())
      ensures !old(closed) ==> id == requestCount && View() == AfterPrompt(old(View()))
    {
      if closed { return 0; }
      requestCount := requestCount + 1;
      id := requestCount;
      pending := Some(Pending(id, false));
    }

    method OnTimeout(id: nat)
      modifies this
      ensures View() == AfterTimeout(old(View()), id)
    {
      if pending.Some? && pending.value.id == id {
        pending := None;
        Close();
        SettlePrompt(id, Rejected("timed out"));
      }
    }

    method OnWriteError(id: nat, message: string)
      modifies this
      ensures View() == AfterWriteError(old(View()), id, message)
    {
      if pending.Some? && pending.value.id == id {
        pending := None;
      }
      SettlePrompt(id, Rejected(message));
    }

    method OnProcessClose(message: string)
      modifies this
      ensures View() == AfterProcessClose(old(View()), message)
    {
      closed := true;
      RejectPending(message);
    }

    method Close()
      modifies this`closed
      ensures closed
    {
      closed := true;
    }
  }

  // ---- the driver's discipline -------------------------------------------------

  /** What the caller of the clients does: prompts that end well, with a reply it
      could use, or badly, and dropping the current client. */
  datatype DriverAction = PromptAccepted(reply: string) | PromptFailed | ClientReset

  /** The replies the driver could use, in order. */
  function Replies(log: seq<DriverAction>): seq<string> {
    if log == [] then []
    else
      var last := log[|log| - 1];
      Replies(log[..|log| - 1]) + if last.PromptAccepted? then [last.reply] else []
  }

  lemma RepliesAppend(log: seq<DriverAction>, last: DriverAction)
    ensures Replies(log + [last]) == Replies(log) + if last.PromptAccepted? then [last.reply] else []
  {
    assert (log + [last])[..|log|] == log;
  }

  /** After a failed prompt the client is dropped before anything else happens. */
  ghost predicate IsDisciplined(log: seq<DriverAction>) {
    forall i | 0 <= i < |log| - 1 && log[i] == PromptFailed :: log[i + 1] == ClientReset
  }

  predicate MayPrompt(log: seq<DriverAction>) {
    log == [] || log[|log| - 1] != PromptFailed
  }

  // ---- the whole system --------------------------------------------------------

  /** Where the driver stands. */
  datatype Phase =
    | Idle                          // free to prompt or reset
    | Waiting(client: nat, id: nat) // awaiting the promise of a prompt
    | Resetting                     // inside `resetClient`, the old client being closed

  /** All clients ever started, which of them is current, the final reply the
      agents have sent to each prompt so far, and the prompts, by client and
      number, whose replies the driver accepted, in order. */
  datatype System = System(
    clients: seq<Client>,
    current: Option<nat>,
    phase: Phase,
    log: seq<DriverAction>,
    answered: map<(nat, nat), Result<string>>,
    accepted: seq<(nat, nat)>)

  const START := System([], None, Idle, [], map[], [])

  datatype Event =
    | DriverStart                   // `PiRpcClient.create`; the driver prompts once the client has booted
    | DriverStartFails              // it throws, and leaves no client
    | DriverPrompt
    | DriverObserve(accepted: bool)
    | DriverReset
    | DriverResetDone
    | AgentReplies(client: nat, id: nat, result: Result<string>) // the agent's final reply to prompt `id`
    | AgentResponds(client: nat, id: nat, success: bool, error: string)
    | PromptTimesOut(client: nat, id: nat)
    | WriteFails(client: nat, id: nat, error: string)
    | ProcessFails(client: nat, error: string)
    | ProcessCloses(client: nat, error: string)

  predicate IsWritten(s: System, client: nat, id: nat) {
    client < |s.clients| && 1 <= id <= s.clients[client].requestCount
  }

  /** The agent sends at most one final reply to a prompt, and only to a prompt
      it was sent. Everything else the environment does is unconstrained. */
  predicate Enabled(s: System, e: Event) {
    match e
    case DriverStart => s.phase.Idle? && MayPrompt(s.log) && s.current.None?
    case DriverStartFails => s.phase.Idle? && MayPrompt(s.log) && s.current.None?
    case DriverPrompt => s.phase.Idle? && MayPrompt(s.log) && s.current.Some?
    case DriverObserve(accepted) =>
      && s.phase.Waiting? && s.phase.client < |s.clients|
      && s.phase.id in s.clients[s.phase.client].settled
      && (accepted ==> s.clients[s.phase.client].settled[s.phase.id].Resolved?)
    case DriverReset => s.phase.Idle?
    case DriverResetDone => s.phase.Resetting?
    case AgentReplies(client, id, _) => IsWritten(s, client, id) && (client, id) !in s.answered
    case AgentResponds(client, _, _, _) => client < |s.clients|
    case PromptTimesOut(client, id) => IsWritten(s, client, id)
    case WriteFails(client, id, _) => IsWritten(s, client, id)
    case ProcessFails(client, _) => client < |s.clients|
    case ProcessCloses(client, _) => client < |s.clients|
  }

  predicate IsDriverEvent(e: Event) {
    || e.DriverStart? || e.DriverStartFails? || e.DriverPrompt? || e.DriverObserve?
    || e.DriverReset? || e.DriverResetDone?
  }

  function ClientAfter(c: Client, e: Event): Client
    requires !IsDriverEvent(e)
  {
    match e
    case AgentReplies(_, _, result) => AfterLine(c, AgentEnd(result))
    case AgentResponds(_, id, success, error) => AfterLine(c, Response(id, success, error))
    case PromptTimesOut(_, id) => AfterTimeout(c, id)
    case WriteFails(_, id, error) => AfterWriteError(c, id, error)
    case ProcessFails(_, error) => SettlePending(c, Rejected(error))
    case ProcessCloses(_, error) => AfterProcessClose(c, error)
  }

  function AnsweredAfter(answered: map<(nat, nat), Result<string>>, e: Event): map<(nat, nat), Result<string>> {
    if e.AgentReplies? then answered[(e.client, e.id) := e.result] else answered
  }

  function Next(s: System, e: Event): System
    requires Enabled(s, e) && (s.current.Some? ==> s.current.value < |s.clients|)
  {
    match e
    case DriverStart => s.(clients := s.clients + [NEW_CLIENT], current := Some(|s.clients|))
    case DriverStartFails => s.(log := s.log + [PromptFailed])
    case DriverPrompt =>
      var at := s.current.value;
      if s.clients[at].closed then s.(log := s.log + [PromptFailed])
      else
        var c := AfterPrompt(s.clients[at]);
        s.(clients := s.clients[at := c], phase := Waiting(at, c.requestCount))
    case DriverObserve(accepted) =>
      if !accepted then s.(phase := Idle, log := s.log + [PromptFailed])
      else
        var reply := s.clients[s.phase.client].settled[s.phase.id].reply;
        s.(phase := Idle, log := s.log + [PromptAccepted(reply)],
           accepted := s.accepted + [(s.phase.client, s.phase.id)])
    case DriverReset =>
      if s.current.None? then s.(phase := Resetting)
      else s.(clients := s.clients[s.current.value := s.clients[s.current.value].(closed := true)], phase := Resetting)
    case DriverResetDone => s.(current := None, phase := Idle, log := s.log + [ClientReset])
    case _ => s.(clients := s.clients[e.client := ClientAfter(s.clients[e.client], e)],
                 answered := AnsweredAfter(s.answered, e))
  }

  // ---- what every step keeps ---------------------------------------------------

  ghost predicate ClientOk(s: System, at: nat)
    requires at < |s.clients|
  {
    && (s.clients[at].pending.Some? ==> s.phase == Waiting(at, s.clients[at].requestCount))
    && PromptsOk(s.clients[at])
    && RepliesOk(s.clients[at], at, s.answered)
  }

  /** All prompts have settled but a pending last one; all but the last were resolved. */
  ghost predicate PromptsOk(c: Client) {
    && (c.pending.Some? ==> c.pending.value.id == c.requestCount >= 1)
    && (forall id | id in c.settled :: 1 <= id <= c.requestCount)
    && (forall id | 1 <= id <= c.requestCount ::
          id in c.settled <==> !(c.pending.Some? && id == c.requestCount))
    && (forall id | 1 <= id < c.requestCount :: c.settled[id].Resolved?)
  }

  /** A resolved prompt holds the agent's own reply to it. */
  ghost predicate RepliesOk(c: Client, at: nat, answered: map<(nat, nat), Result<string>>) {
    forall id | id in c.settled && c.settled[id].Resolved? ::
      (at, id) in answered && answered[(at, id)] == Ok(c.settled[id].reply)
  }

  /** While the driver is free to prompt the current client again, every prompt
      that client was sent has been answered. */
  ghost predicate CurrentOk(s: System) {
    match s.current
    case None => !s.phase.Waiting?
    case Some(at) =>
      && at < |s.clients|
      && (s.phase.Waiting? ==> s.phase.client == at && s.phase.id == s.clients[at].requestCount >= 1)
      && (s.phase.Idle? && MayPrompt(s.log) ==>
            forall id | id in s.clients[at].settled :: s.clients[at].settled[id].Resolved?)
  }

  ghost predicate Inv(s: System) {
    && CurrentOk(s)
    && (forall at | 0 <= at < |s.clients| :: ClientOk(s, at))
    && IsDisciplined(s.log)
    && (s.phase.Waiting? ==> MayPrompt(s.log))
  }

  lemma InvStart()
    ensures Inv(START)
  {
  }

  lemma DriverStepKeepsInv(s: System, e: Event)
    requires Inv(s) && Enabled(s, e)
    requires IsDriverEvent(e)
    ensures Inv(Next(s, e))
  {
    var t := Next(s, e);
    forall at | 0 <= at < |t.clients| ensures ClientOk(t, at) {
      if at < |s.clients| { assert ClientOk(s, at); }
    }
    if e.DriverObserve? && e.accepted {
      var c := s.clients[s.current.value];
      assert ClientOk(s, s.current.value);
      assert forall id | id in c.settled :: id == s.phase.id || 1 <= id < c.requestCount;
    }
  }

  lemma ClientAfterOk(s: System, e: Event, at: nat)
    requires at < |s.clients| && ClientOk(s, at) && Enabled(s, e)
    requires !IsDriverEvent(e)
    requires e.client == at
    ensures var c := ClientAfter(s.clients[at], e);
            && PromptsOk(c)
            && RepliesOk(c, at, AnsweredAfter(s.answered, e))
            && c.requestCount == s.clients[at].requestCount
            && (s.clients[at].pending.None? ==> c.pending.None? && c.settled == s.clients[at].settled)
  {
  }

  lemma ClientStepKeepsInv(s: System, e: Event, at: nat)
    requires Inv(s) && Enabled(s, e) && at < |s.clients|
    requires !IsDriverEvent(e)
    requires e.client == at
    ensures Inv(Next(s, e))
  {
    var t := Next(s, e);
    assert ClientOk(s, at);
    ClientAfterOk(s, e, at);
    forall i | 0 <= i < |t.clients| ensures ClientOk(t, i) {
      assert ClientOk(s, i);
    }
  }

  lemma StepKeepsInv(s: System, e: Event)
    requires Inv(s) && Enabled(s, e)
    ensures Inv(Next(s, e))
  {
    if IsDriverEvent(e) {
      DriverStepKeepsInv(s, e);
    } else {
      ClientStepKeepsInv(s, e, e.client);
    }
  }

  // ---- whole runs --------------------------------------------------------------

  /** The system after a sequence of events, if each was possible in its turn. */
  ghost function Run(events: seq<Event>): (r: Option<System>)
    ensures r.Some? ==> Inv(r.value)
  {
    if events == [] then InvStart(); Some(START)
    else Extend(Run(events[..|events| - 1]), events[|events| - 1])
  }

  ghost function Extend(s: Option<System>, e: Event): (r: Option<System>)
    requires s.Some? ==> Inv(s.value)
    ensures r.Some? ==> Inv(r.value)
  {
    if s.None? || !Enabled(s.value, e) then None
    else StepKeepsInv(s.value, e); Some(Next(s.value, e))
  }

  /** In every run, a final reply that finds a prompt pending on its client was
      sent to exactly that prompt, and settles it; otherwise it changes no client. */
  lemma ReplyReachesItsPrompt(events: seq<Event>, client: nat, id: nat, result: Result<string>)
    requires Run(events).Some? && Enabled(Run(events).value, AgentReplies(client, id, result))
    ensures var s := Run(events).value;
            var t := Next(s, AgentReplies(client, id, result));
            if s.clients[client].pending.Some?
            then && s.clients[client].pending.value.id == id
                 && id !in s.clients[client].settled
                 && t.clients[client].settled[id] ==
                    (match result case Ok(reply) => Resolved(reply) case Err(message) => Rejected(message))
            else t.clients == s.clients
  {
    var s := Run(events).value;
    assert ClientOk(s, client);
  }

  /** In every run, a response to any prompt but the pending one changes nothing. To
      the pending one, success is only noted, and failure rejects exactly that prompt,
      with that error. */
  lemma ResponseConcernsItsPrompt(events: seq<Event>, client: nat, id: nat, success: bool, error: string)
    requires Run(events).Some? && Enabled(Run(events).value, AgentResponds(client, id, success, error))
    ensures var s := Run(events).value;
            var c, t := s.clients[client], Next(s, AgentResponds(client, id, success, error));
            && (c.pending.None? || c.pending.value.id != id ==> t == s)
            && (c.pending.Some? && c.pending.value.id == id && success ==>
                  t == s.(clients := s.clients[client := c.(pending := Some(Pending(id, true)))]))
            && (c.pending.Some? && c.pending.value.id == id && !success ==>
                  && id !in c.settled
                  && t == s.(clients := s.clients[client :=
                             c.(pending := None, settled := c.settled[id := Rejected(error)])]))
  {
    var s := Run(events).value;
    assert ClientOk(s, client);
    assert s.clients[client := s.clients[client]] == s.clients;
  }

  /** In every run, a timer ends its prompt only while that prompt is pending: it is
      rejected, and its client closed. */
  lemma TimeoutConcernsItsPrompt(events: seq<Event>, client: nat, id: nat)
    requires Run(events).Some? && Enabled(Run(events).value, PromptTimesOut(client, id))
    ensures var s := Run(events).value;
            var c, t := s.clients[client], Next(s, PromptTimesOut(client, id));
            && (c.pending.None? || c.pending.value.id != id ==> t == s)
            && (c.pending.Some? && c.pending.value.id == id ==>
                  t == s.(clients := s.clients[client :=
                    Client(true, None, c.requestCount, c.settled[id := Rejected("timed out")])]))
  {
    var s := Run(events).value;
    assert ClientOk(s, client);
    assert s.clients[client := s.clients[client]] == s.clients;
  }

  /** In every run, a failed write frees the slot if its prompt holds it, and rejects the
      prompt unless it is settled; the client stays open. */
  lemma WriteErrorConcernsItsPrompt(events: seq<Event>, client: nat, id: nat, error: string)
    requires Run(events).Some? && Enabled(Run(events).value, WriteFails(client, id, error))
    ensures var s := Run(events).value;
            var c, t := s.clients[client], Next(s, WriteFails(client, id, error));
            && (c.pending.Some? && c.pending.value.id == id ==>
                  t == s.(clients := s.clients[client :=
                    Client(c.closed, None, c.requestCount, c.settled[id := Rejected(error)])]))
            && (c.pending.None? || c.pending.value.id != id ==> t == s)
  {
    var s := Run(events).value;
    assert ClientOk(s, client);
    assert s.clients[client := s.clients[client]] == s.clients;
  }

  /** In every run, the process rejects what is pending when it fails or ends, and
      its end closes the client. */
  lemma ProcessRejectsPending(events: seq<Event>, client: nat, error: string)
    requires Run(events).Some? && client < |Run(events).value.clients|
    ensures var s := Run(events).value;
            var c := s.clients[client];
            var settled := if c.pending.Some? then c.settled[c.pending.value.id := Rejected(error)] else c.settled;
            && Next(s, ProcessFails(client, error)) ==
               s.(clients := s.clients[client := Client(c.closed, None, c.requestCount, settled)])
            && Next(s, ProcessCloses(client, error)) ==
               s.(clients := s.clients[client := Client(true, None, c.requestCount, settled)])
  {
    assert ClientOk(Run(events).value, client);
  }

  /** A reset closes the current client, if there is one, and leaves the driver without. */
  lemma ResetDropsTheClient(events: seq<Event>)
    requires Run(events).Some? && Enabled(Run(events).value, DriverReset)
    ensures var s := Run(events).value;
            var t := Next(s, DriverReset);
            && Enabled(t, DriverResetDone)
            && Next(t, DriverResetDone).current == None && Next(t, DriverResetDone).log == s.log + [ClientReset]
            && (s.current.None? ==> t.clients == s.clients)
            && (s.current.Some? ==>
                  t.clients == s.clients[s.current.value := s.clients[s.current.value].(closed := true)])
  {
    StepKeepsInv(Run(events).value, DriverReset);
  }

  /** In every run, a prompt to an open client takes the next number and the slot,
      and one to a closed client fails without being written. */
  lemma PromptTakesTheSlot(events: seq<Event>)
    requires Run(events).Some? && Enabled(Run(events).value, DriverPrompt)
    ensures var s := Run(events).value;
            var t, at := Next(s, DriverPrompt), s.current.value;
            var c := s.clients[at];
            && c.pending.None?
            && (c.closed ==> t == s.(log := s.log + [PromptFailed]))
            && (!c.closed ==>
                  t == s.(clients := s.clients[at := Client(false, Some(Pending(c.requestCount + 1, false)),
                                                            c.requestCount + 1, c.settled)],
                          phase := Waiting(at, c.requestCount + 1)))
  {
    var s := Run(events).value;
    assert ClientOk(s, s.current.value);
  }

  /** In every run, a prompt that was resolved holds the agent's own reply to it,
      and at most one prompt is pending over all clients. */
  lemma RunsAttributeReplies(events: seq<Event>)
    requires Run(events).Some?
    ensures var s := Run(events).value;
            && IsDisciplined(s.log)
            && (forall at: nat | at < |s.clients| :: RepliesOk(s.clients[at], at, s.answered))
            && (forall i: nat, j: nat | i < |s.clients| && j < |s.clients| &&
                  s.clients[i].pending.Some? && s.clients[j].pending.Some? :: i == j)
  {
    var s := Run(events).value;
    forall at: nat | at < |s.clients|
      ensures RepliesOk(s.clients[at], at, s.answered)
      ensures s.clients[at].pending.Some? ==> s.phase.Waiting? && s.phase.client == at
    {
      assert ClientOk(s, at);
    }
  }

  /** A promise settles once: no later event changes how it settled. */
  lemma SettlementIsFinal(s: System, e: Event, at: nat, id: nat)
    requires Inv(s) && Enabled(s, e) && at < |s.clients| && id in s.clients[at].settled
    ensures var t := Next(s, e);
            at < |t.clients| && id in t.clients[at].settled && t.clients[at].settled[id] == s.clients[at].settled[id]
  {
    assert ClientOk(s, at);
  }

  /** Prompt `p` is settled with `reply`. */
  ghost predicate IsSettledWith(s: System, p: (nat, nat), reply: string) {
    p.0 < |s.clients| && p.1 in s.clients[p.0].settled && s.clients[p.0].settled[p.1] == Resolved(reply)
  }

  /** The replies in the log are the settlements of as many different prompts. */
  ghost predicate LogOk(s: System) {
    && |s.accepted| == |Replies(s.log)|
    && (forall k | 0 <= k < |s.accepted| :: IsSettledWith(s, s.accepted[k], Replies(s.log)[k]))
    && (forall j, k | 0 <= j < k < |s.accepted| :: s.accepted[j] != s.accepted[k])
    && (s.phase.Waiting? ==> (s.phase.client, s.phase.id) !in s.accepted)
  }

  lemma SettledStays(s: System, e: Event)
    requires Inv(s) && Enabled(s, e)
    ensures forall p: (nat, nat), reply | IsSettledWith(s, p, reply) :: IsSettledWith(Next(s, e), p, reply)
  {
    forall p: (nat, nat), reply | IsSettledWith(s, p, reply) ensures IsSettledWith(Next(s, e), p, reply) {
      SettlementIsFinal(s, e, p.0, p.1);
    }
  }

  /** A prompt that is written now was not accepted before. */
  lemma NewPromptIsNew(s: System)
    requires Inv(s) && LogOk(s) && Enabled(s, DriverPrompt)
    ensures LogOk(Next(s, DriverPrompt))
  {
    var t := Next(s, DriverPrompt);
    SettledStays(s, DriverPrompt);
    RepliesAppend(s.log, PromptFailed);
    if t.phase.Waiting? {
      var p := (t.phase.client, t.phase.id);
      assert ClientOk(s, p.0);
      assert p.1 !in s.clients[p.0].settled;
      assert forall k | 0 <= k < |s.accepted| :: IsSettledWith(s, s.accepted[k], Replies(s.log)[k]);
    }
  }

  lemma AcceptedReplyIsLogged(s: System)
    requires Inv(s) && LogOk(s) && Enabled(s, DriverObserve(true))
    ensures LogOk(Next(s, DriverObserve(true)))
  {
    var t := Next(s, DriverObserve(true));
    SettledStays(s, DriverObserve(true));
    RepliesAppend(s.log, t.log[|s.log|]);
    assert IsSettledWith(t, (s.phase.client, s.phase.id), t.log[|s.log|].reply);
  }

  lemma StepKeepsLog(s: System, e: Event)
    requires Inv(s) && LogOk(s) && Enabled(s, e)
    ensures LogOk(Next(s, e))
  {
    if e == DriverPrompt {
      NewPromptIsNew(s);
    } else if e == DriverObserve(true) {
      AcceptedReplyIsLogged(s);
    } else {
      SettledStays(s, e);
      RepliesAppend(s.log, PromptFailed);
      RepliesAppend(s.log, ClientReset);
    }
  }

  lemma {:induction false} RunsKeepLog(events: seq<Event>)
    requires Run(events).Some?
    ensures LogOk(Run(events).value)
  {
    if events != [] {
      var before := events[..|events| - 1];
      RunsKeepLog(before);
      StepKeepsLog(Run(before).value, events[|events| - 1]);
    }
  }

  /** Each reply in the log is what the agent said to a prompt of its own. */
  ghost predicate LogHoldsReplies(s: System) {
    && |s.accepted| == |Replies(s.log)|
    && (forall k | 0 <= k < |s.accepted| ::
          && IsSettledWith(s, s.accepted[k], Replies(s.log)[k])
          && s.accepted[k] in s.answered && s.answered[s.accepted[k]] == Ok(Replies(s.log)[k]))
    && (forall j, k | 0 <= j < k < |s.accepted| :: s.accepted[j] != s.accepted[k])
  }

  /** In every run, the replies the driver accepted are, one by one and in order,
      the agents' own replies to different prompts. */
  lemma RunsLogReplies(events: seq<Event>)
    requires Run(events).Some?
    ensures LogHoldsReplies(Run(events).value)
  {
    var s := Run(events).value;
    RunsKeepLog(events);
    forall k | 0 <= k < |s.accepted|
      ensures s.accepted[k] in s.answered && s.answered[s.accepted[k]] == Ok(Replies(s.log)[k])
    {
      assert IsSettledWith(s, s.accepted[k], Replies(s.log)[k]);
      assert ClientOk(s, s.accepted[k].0);
    }
  }

  /** A client the driver has given up, or must give up before it prompts again. */
  ghost predicate IsRetired(s: System, at: nat) {
    at < |s.clients| &&
    (s.current != Some(at) || s.phase.Resetting? || (s.phase.Idle? && !MayPrompt(s.log)))
  }

  lemma RetiredStep(s: System, e: Event, at: nat)
    requires Inv(s) && Enabled(s, e) && IsRetired(s, at)
    ensures IsRetired(Next(s, e), at)
    ensures Next(s, e).clients[at].requestCount == s.clients[at].requestCount
  {
  }

  /** Once a prompt has failed, by rejection or by a reply the driver could not
      use, its client is never written to again. */
  lemma {:induction false} FailedClientIsNeverPrompted(events: seq<Event>, more: seq<Event>, at: nat)
    requires Run(events).Some? && Run(events + more).Some?
    requires IsRetired(Run(events).value, at)
    ensures IsRetired(Run(events + more).value, at)
    ensures Run(events + more).value.clients[at].requestCount == Run(events).value.clients[at].requestCount
    decreases |more|
  {
    if more == [] {
      assert events + more == events;
    } else {
      var fewer := more[..|more| - 1];
      assert (events + more)[..|events + more| - 1] == events + fewer;
      FailedClientIsNeverPrompted(events, fewer, at);
      RetiredStep(Run(events + fewer).value, more[|more| - 1], at);
    }
  }

  /** The driver sees a prompt fail: rejected, answered by something it cannot
      use, or refused by a client that closed since it was started. */
  predicate IsFailure(s: System, e: Event)
    requires s.current.Some? ==> s.current.value < |s.clients|
  {
    || e == DriverObserve(false)
    || (e.DriverPrompt? && s.current.Some? && s.clients[s.current.value].closed)
  }

  /** Every prompt that ends badly retires its client on the spot. */
  lemma FailureRetires(events: seq<Event>, e: Event)
    requires Run(events).Some? && Enabled(Run(events).value, e) && IsFailure(Run(events).value, e)
    ensures var s := Run(events).value;
            s.current.Some? && IsRetired(Next(s, e), s.current.value)
    ensures Next(Run(events).value, e).log == Run(events).value.log + [PromptFailed]
  {
  }

  // ---- every disciplined log is the log of a run -------------------------------

  /** Some run of the system has this log, and its replies are those of the agents
      to the prompts of that run. */
  ghost predicate IsLogOfRun(log: seq<DriverAction>) {
    exists events :: Run(events).Some? && Run(events).value.log == log && LogHoldsReplies(Run(events).value)
  }

  /** A run that leaves the driver free, with no client or an open one. */
  ghost predicate LeadsTo(events: seq<Event>, log: seq<DriverAction>) {
    && Run(events).Some?
    && var s := Run(events).value;
       s.log == log && s.phase.Idle? && (s.current.Some? ==> !s.clients[s.current.value].closed)
  }

  lemma RunExtends(events: seq<Event>, e: Event)
    requires Run(events).Some? && Enabled(Run(events).value, e)
    ensures Run(events + [e]) == Some(Next(Run(events).value, e))
  {
    assert (events + [e])[..|events|] == events;
  }

  lemma WithClient(events: seq<Event>, log: seq<DriverAction>) returns (ready: seq<Event>)
    requires LeadsTo(events, log) && MayPrompt(log)
    ensures LeadsTo(ready, log) && Run(ready).value.current.Some?
  {
    ready := events;
    if Run(events).value.current.None? {
      RunExtends(events, DriverStart);
      ready := events + [DriverStart];
    }
  }

  /** A prompt that the agent answers, with a usable reply or an error. */
  lemma PromptRuns(events: seq<Event>, log: seq<DriverAction>, action: DriverAction) returns (longer: seq<Event>)
    requires LeadsTo(events, log) && MayPrompt(log) && action != ClientReset
    ensures LeadsTo(longer, log + [action])
  {
    var ready := WithClient(events, log);
    var s := Run(ready).value;
    var at := s.current.value;
    var id := s.clients[at].requestCount + 1;
    RunExtends(ready, DriverPrompt);
    assert ClientOk(s, at);
    NothingAnsweredYet(ready, at, id);
    longer := ReplyRuns(ready + [DriverPrompt], log, at, id, action);
  }

  /** A run in which the driver waits for a prompt that is pending and unanswered. */
  ghost predicate Awaits(events: seq<Event>, log: seq<DriverAction>, at: nat, id: nat) {
    && Run(events).Some?
    && var s := Run(events).value;
       && s.log == log && s.phase == Waiting(at, id) && s.current == Some(at) && at < |s.clients|
       && IsWritten(s, at, id) && (at, id) !in s.answered
       && !s.clients[at].closed && s.clients[at].pending.Some? && s.clients[at].pending.value.id == id
       && id !in s.clients[at].settled
  }

  lemma ReplyRuns(events: seq<Event>, log: seq<DriverAction>, at: nat, id: nat, action: DriverAction)
    returns (longer: seq<Event>)
    requires Awaits(events, log, at, id) && action != ClientReset
    ensures LeadsTo(longer, log + [action])
  {
    var reply := AgentReplies(at, id, if action.PromptAccepted? then Ok(action.reply) else Err(""));
    var observe := DriverObserve(action.PromptAccepted?);
    RunExtends(events, reply);
    RunExtends(events + [reply], observe);
    longer := events + [reply] + [observe];
  }

  lemma StepKeepsWritten(s: System, e: Event, client: nat, id: nat)
    requires Inv(s) && Enabled(s, e) && IsWritten(s, client, id)
    ensures IsWritten(Next(s, e), client, id)
  {
  }

  lemma StepAnswersWritten(s: System, e: Event, client: nat, id: nat)
    requires Inv(s) && Enabled(s, e) && (client, id) in Next(s, e).answered
    ensures (client, id) in s.answered || IsWritten(s, client, id)
  {
  }

  /** No agent has answered a prompt that was not written. */
  lemma {:induction false} NothingAnsweredYet(events: seq<Event>, client: nat, id: nat)
    requires Run(events).Some? && !IsWritten(Run(events).value, client, id)
    ensures (client, id) !in Run(events).value.answered
  {
    if events != [] {
      var before, last := events[..|events| - 1], events[|events| - 1];
      var s := Run(before).value;
      if IsWritten(s, client, id) {
        StepKeepsWritten(s, last, client, id);
      } else {
        NothingAnsweredYet(before, client, id);
        if (client, id) in Next(s, last).answered { StepAnswersWritten(s, last, client, id); }
      }
    }
  }

  /** The driver's discipline is all that the system asks of a log: whatever a
      disciplined driver does is part of some run, so what holds of all runs
      holds of it. */
  lemma {:induction false} DisciplinedLogIsOfRun(log: seq<DriverAction>) returns (events: seq<Event>)
    requires IsDisciplined(log)
    ensures LeadsTo(events, log)
  {
    if log == [] {
      events := [];
    } else {
      var n := |log| - 1;
      assert forall i | 0 <= i < n - 1 && log[..n][i] == PromptFailed :: log[..n][i + 1] == ClientReset;
      var init := DisciplinedLogIsOfRun(log[..n]);
      assert log == log[..n] + [log[n]];
      if log[n] == ClientReset {
        RunExtends(init, DriverReset);
        RunExtends(init + [DriverReset], DriverResetDone);
        events := init + [DriverReset] + [DriverResetDone];
      } else {
        assert n > 0 ==> log[n - 1] != PromptFailed;
        events := PromptRuns(init, log[..n], log[n]);
      }
    }
  }

  lemma DisciplineSuffices(log: seq<DriverAction>)
    requires IsDisciplined(log)
    ensures IsLogOfRun(log)
  {
    var events := DisciplinedLogIsOfRun(log);
    RunsLogReplies(events);
  }

  /** Why the reset matters: a client prompted again after a rejected prompt
      resolves the new prompt with the agent's late reply to the old one. */
  lemma WithoutResetRepliesGoAstray(late: string)
    ensures var first := AfterPrompt(NEW_CLIENT);
            var failed := AfterLine(first, Response(1, false, "pi prompt failed"));
            var second := AfterPrompt(failed);
            && failed.settled[1].Rejected?
            && second.pending == Some(Pending(2, false))
            && AfterLine(second, AgentEnd(Ok(late))).settled[2] == Resolved(late)
  {
  }
}
