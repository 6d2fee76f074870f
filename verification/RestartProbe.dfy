/**
 * Measuring one restart by polling a health path (scripts/bench-gateway-restart.ts). A trace lists
 * what each turn of the loop finds; it ends where the deadline passes.
 */
module RestartProbe {
  import opened Outcomes

  datatype Attempt = Attempt(status: Option<int>, errorKind: Option<string>)

  /** One turn: has the process gone, is the restart known to be over, and what the request gave. */
  datatype Poll = Poll(processDone: bool, done: bool, attempt: Attempt, ms: real)

  datatype Transition = Transition(ms: real, status: Option<int>, errorKind: Option<string>)

  datatype ProbeResult = ProbeResult(
    downtimeMs: Option<real>,
    firstErrorKind: Option<string>,
    firstRecoveryMs: Option<real>,
    ms: Option<real>,
    status: Option<int>,
    transitions: seq<Transition>,
    unavailableMs: Option<real>)

  /** The `status:errorKind` text that two equal states share; a missing error kind reads as `ok`. */
  datatype StateKey = StateKey(status: Option<int>, kind: string)

  function KeyOf(poll: Poll): StateKey {
    StateKey(poll.attempt.status, if poll.attempt.errorKind.Some? then poll.attempt.errorKind.value else "ok")
  }

  predicate NamesError(poll: Poll) {
    poll.attempt.errorKind.Some? && poll.attempt.errorKind.value != ""
  }

  function TransitionOf(poll: Poll): Transition {
    Transition(poll.ms, poll.attempt.status, if NamesError(poll) then poll.attempt.errorKind else None)
  }

  // ---- what a probe reports, in terms of the polls it made ----------------------------

  predicate IsUp(poll: Poll) {
    poll.attempt.status == Some(200)
  }

  ghost predicate AllUp(seen: seq<Poll>) {
    forall i | 0 <= i < |seen| :: IsUp(seen[i])
  }

  ghost predicate HasRecovered(seen: seq<Poll>) {
    seen != [] && IsUp(seen[|seen| - 1]) && !AllUp(seen)
  }

  /** The loop makes no more attempts after the first `n` turns. */
  ghost predicate StopsAfter(polls: seq<Poll>, n: nat)
    requires n <= |polls|
  {
    || n == |polls|
    || HasRecovered(polls[..n])
    || polls[n].processDone
    || (polls[n].done && n > 0 && AllUp(polls[..n]))
  }

  ghost predicate IsAttemptCount(polls: seq<Poll>, n: nat) {
    n <= |polls| && StopsAfter(polls, n) && forall k: nat | k < n :: !StopsAfter(polls, k)
  }

  ghost predicate IsFirstDown(seen: seq<Poll>, i: nat) {
    i < |seen| && !IsUp(seen[i]) && forall k | 0 <= k < i :: IsUp(seen[k])
  }

  ghost predicate IsFirstError(seen: seq<Poll>, i: nat) {
    i < |seen| && NamesError(seen[i]) && forall k | 0 <= k < i :: !NamesError(seen[k])
  }

  ghost predicate ReportsFirstDown(unavailableMs: Option<real>, seen: seq<Poll>) {
    match unavailableMs
    case None => AllUp(seen)
    case Some(ms) => exists i: nat :: IsFirstDown(seen, i) && seen[i].ms == ms
  }

  ghost predicate ReportsFirstError(kind: Option<string>, seen: seq<Poll>) {
    match kind
    case None => forall i | 0 <= i < |seen| :: !NamesError(seen[i])
    case Some(_) => exists i: nat :: IsFirstError(seen, i) && seen[i].attempt.errorKind == kind
  }

  /** Where the state changes; the first poll always counts. */
  ghost predicate IsChange(seen: seq<Poll>, i: nat) {
    i < |seen| && (i == 0 || KeyOf(seen[i]) != KeyOf(seen[i - 1]))
  }

  /** The changes in order, each once. */
  ghost predicate AreChanges(starts: seq<nat>, seen: seq<Poll>) {
    && (forall j, k | 0 <= j < k < |starts| :: starts[j] < starts[k])
    && (forall j | 0 <= j < |starts| :: IsChange(seen, starts[j]))
    && (forall i: nat | IsChange(seen, i) :: i in starts)
  }

  ghost predicate AreTransitionsAt(transitions: seq<Transition>, starts: seq<nat>, seen: seq<Poll>) {
    && |transitions| == |starts|
    && forall j | 0 <= j < |starts| :: starts[j] < |seen| && transitions[j] == TransitionOf(seen[starts[j]])
  }

  ghost predicate ReportsChanges(transitions: seq<Transition>, seen: seq<Poll>) {
    exists starts: seq<nat> :: AreChanges(starts, seen) && AreTransitionsAt(transitions, starts, seen)
  }

  function LastStatus(seen: seq<Poll>): Option<int> {
    if seen == [] then None else seen[|seen| - 1].attempt.status
  }

  function LastMs(seen: seq<Poll>): Option<real> {
    if seen == [] then None else Some(seen[|seen| - 1].ms)
  }

  ghost predicate ReportsTimes(r: ProbeResult, seen: seq<Poll>) {
    if HasRecovered(seen) then
      && r.ms == r.firstRecoveryMs == LastMs(seen)
      && r.unavailableMs.Some?
      && r.downtimeMs == Some(seen[|seen| - 1].ms - r.unavailableMs.value)
    else
      && r.firstRecoveryMs == r.downtimeMs == None
      && r.ms == if AllUp(seen) then LastMs(seen) else None
  }

  ghost predicate Reports(r: ProbeResult, seen: seq<Poll>) {
    && ReportsFirstDown(r.unavailableMs, seen)
    && ReportsFirstError(r.firstErrorKind, seen)
    && ReportsChanges(r.transitions, seen)
    && ReportsTimes(r, seen)
    && r.status == LastStatus(seen)
  }

  // ---- steps of the loop --------------------------------------------------------------

  lemma FirstDownStep(unavailableMs: Option<real>, seen: seq<Poll>, poll: Poll)
    requires ReportsFirstDown(unavailableMs, seen)
    ensures ReportsFirstDown(if unavailableMs.None? && !IsUp(poll) then Some(poll.ms) else unavailableMs, seen + [poll])
  {
    if unavailableMs.Some? {
      var i: nat :| IsFirstDown(seen, i) && seen[i].ms == unavailableMs.value;
      assert IsFirstDown(seen + [poll], i);
    } else if !IsUp(poll) {
      assert IsFirstDown(seen + [poll], |seen|);
    }
  }

  lemma FirstErrorStep(kind: Option<string>, seen: seq<Poll>, poll: Poll)
    requires ReportsFirstError(kind, seen)
    ensures ReportsFirstError(if kind.None? && NamesError(poll) then poll.attempt.errorKind else kind, seen + [poll])
  {
    if kind.Some? {
      var i: nat :| IsFirstError(seen, i) && seen[i].attempt.errorKind == kind;
      assert IsFirstError(seen + [poll], i);
    } else if NamesError(poll) {
      assert IsFirstError(seen + [poll], |seen|);
    }
  }

  lemma ChangesGrow(starts: seq<nat>, seen: seq<Poll>, poll: Poll)
    requires AreChanges(starts, seen)
    ensures var longer := seen + [poll];
            AreChanges(if IsChange(longer, |seen|) then starts + [|seen|] else starts, longer)
  {
    var longer := seen + [poll];
    forall i: nat | IsChange(longer, i) && i < |seen| ensures i in starts {
      assert IsChange(seen, i);
    }
    forall j | 0 <= j < |starts| ensures IsChange(longer, starts[j]) && starts[j] < |seen| {
      assert IsChange(seen, starts[j]);
    }
    forall i: nat | IsChange(longer, i)
      ensures i in starts || (i == |seen| && IsChange(longer, |seen|))
    {
    }
  }

  lemma TransitionsGrow(transitions: seq<Transition>, starts: seq<nat>, seen: seq<Poll>, poll: Poll)
    requires AreTransitionsAt(transitions, starts, seen)
    ensures AreTransitionsAt(transitions, starts, seen + [poll])
    ensures AreTransitionsAt(transitions + [TransitionOf(poll)], starts + [|seen|], seen + [poll])
  {
  }

  lemma ChangesStep(transitions: seq<Transition>, seen: seq<Poll>, poll: Poll)
    requires ReportsChanges(transitions, seen)
    ensures IsChange(seen + [poll], |seen|) ==> ReportsChanges(transitions + [TransitionOf(poll)], seen + [poll])
    ensures !IsChange(seen + [poll], |seen|) ==> ReportsChanges(transitions, seen + [poll])
  {
    var starts: seq<nat> :| AreChanges(starts, seen) && AreTransitionsAt(transitions, starts, seen);
    ChangesGrow(starts, seen, poll);
    TransitionsGrow(transitions, starts, seen, poll);
  }

  /** The loop's variables after the turns in `seen`. */
  datatype Tally = Tally(
    firstErrorKind: Option<string>,
    lastStatus: Option<int>,
    lastStateKey: Option<StateKey>,
    lastSuccessMs: Option<real>,
    unavailableMs: Option<real>,
    transitions: seq<Transition>)

  ghost predicate Tracks(tally: Tally, seen: seq<Poll>) {
    && ReportsFirstDown(tally.unavailableMs, seen)
    && ReportsFirstError(tally.firstErrorKind, seen)
    && ReportsChanges(tally.transitions, seen)
    && tally.lastStatus == LastStatus(seen)
    && tally.lastStateKey == (if seen == [] then None else Some(KeyOf(seen[|seen| - 1])))
    && (AllUp(seen) ==> tally.lastSuccessMs == LastMs(seen))
  }

  lemma TracksNothing()
    ensures Tracks(Tally(None, None, None, None, None, []), [])
  {
    var none: seq<nat> := [];
    assert AreChanges(none, []) && AreTransitionsAt([], none, []);
  }

  lemma SeenOneMore(seen: seq<Poll>, poll: Poll, key: Option<StateKey>)
    requires key == if seen == [] then None else Some(KeyOf(seen[|seen| - 1]))
    ensures IsChange(seen + [poll], |seen|) <==> key != Some(KeyOf(poll))
    ensures AllUp(seen + [poll]) ==> IsUp(poll)
    ensures LastStatus(seen + [poll]) == poll.attempt.status && LastMs(seen + [poll]) == Some(poll.ms)
  {
    assert (seen + [poll])[|seen|] == poll;
  }

  /** What one attempt does to the loop's variables. */
  method RecordAttempt(tally: Tally, poll: Poll, ghost seen: seq<Poll>) returns (next: Tally)
    requires Tracks(tally, seen)
    ensures Tracks(next, seen + [poll])
    ensures next.unavailableMs.None? <==> tally.unavailableMs.None? && IsUp(poll)
  {
    FirstDownStep(tally.unavailableMs, seen, poll);
    FirstErrorStep(tally.firstErrorKind, seen, poll);
    ChangesStep(tally.transitions, seen, poll);
    SeenOneMore(seen, poll, tally.lastStateKey);
    next := tally.(lastStatus := poll.attempt.status);
    if next.lastStateKey != Some(KeyOf(poll)) {
      next := next.(transitions := next.transitions + [TransitionOf(poll)], lastStateKey := Some(KeyOf(poll)));
    }
    if NamesError(poll) && next.firstErrorKind.None? {
      next := next.(firstErrorKind := poll.attempt.errorKind);
    }
    if !IsUp(poll) && next.unavailableMs.None? {
      next := next.(unavailableMs := Some(poll.ms));
    }
    if IsUp(poll) {
      next := next.(lastSuccessMs := Some(poll.ms));
    }
  }

  /** Nothing stopped the loop in its first `n` turns. */
  ghost predicate StillPolling(polls: seq<Poll>, n: nat, tally: Tally) {
    && n <= |polls| && !HasRecovered(polls[..n]) && (forall k: nat | k < n :: !StopsAfter(polls, k))
    && Tracks(tally, polls[..n])
  }

  ghost predicate IsResult(r: ProbeResult, polls: seq<Poll>) {
    exists n: nat :: IsAttemptCount(polls, n) && Reports(r, polls[..n])
  }

  /** The loop's own test for a restart that passed without an outage. */
  predicate StayedUp(poll: Poll, tally: Tally) {
    poll.done && tally.unavailableMs.None? && tally.lastSuccessMs.Some?
  }

  function Unrecovered(tally: Tally): ProbeResult {
    ProbeResult(None, tally.firstErrorKind, None, if tally.unavailableMs.None? then tally.lastSuccessMs else None,
                tally.lastStatus, tally.transitions, tally.unavailableMs)
  }

  lemma StopsWaiting(polls: seq<Poll>, n: nat, tally: Tally)
    requires StillPolling(polls, n, tally)
    requires n == |polls| || polls[n].processDone || StayedUp(polls[n], tally)
    ensures IsResult(Unrecovered(tally), polls)
    ensures n < |polls| && StayedUp(polls[n], tally) ==> tally.lastStatus == Some(200)
  {
    assert IsAttemptCount(polls, n);
  }

  function Recovered(poll: Poll, tally: Tally): ProbeResult
    requires tally.unavailableMs.Some?
  {
    ProbeResult(Some(poll.ms - tally.unavailableMs.value), tally.firstErrorKind, Some(poll.ms), Some(poll.ms),
                poll.attempt.status, tally.transitions, tally.unavailableMs)
  }

  /** One more attempt either ends the outage or leaves the loop polling. */
  lemma AfterAttempt(polls: seq<Poll>, n: nat, tally: Tally, next: Tally)
    requires n < |polls| && StillPolling(polls, n, tally)
    requires !polls[n].processDone && !StayedUp(polls[n], tally)
    requires Tracks(next, polls[..n + 1])
    ensures IsUp(polls[n]) && next.unavailableMs.Some? ==> IsResult(Recovered(polls[n], next), polls)
    ensures !(IsUp(polls[n]) && next.unavailableMs.Some?) ==> StillPolling(polls, n + 1, next)
  {
    assert !StopsAfter(polls, n);
    assert polls[..n + 1][n] == polls[n];
    if IsUp(polls[n]) && next.unavailableMs.Some? {
      assert IsAttemptCount(polls, n + 1);
    }
  }

  /** The trace's attempts up to the first reason to stop, summed up in one result. */
  method WaitForRestartProbe(polls: seq<Poll>) returns (r: ProbeResult)
    ensures IsResult(r, polls)
  {
    var tally := Tally(None, None, None, None, None, []);
    var n := 0;
    TracksNothing();
    while n < |polls|
      invariant StillPolling(polls, n, tally)
    {
      if polls[n].processDone {
        break;
      }
      if StayedUp(polls[n], tally) {
        StopsWaiting(polls, n, tally);
        return ProbeResult(None, tally.firstErrorKind, None, tally.lastSuccessMs, Some(200), tally.transitions, None);
      }
      ghost var before := tally;
      tally := RecordAttempt(tally, polls[n], polls[..n]);
      assert polls[..n + 1] == polls[..n] + [polls[n]];
      AfterAttempt(polls, n, before, tally);
      if IsUp(polls[n]) && tally.unavailableMs.Some? {
        return Recovered(polls[n], tally);
      }
      n := n + 1;
    }
    StopsWaiting(polls, n, tally);
    return Unrecovered(tally);
  }

  // ---- what a result then says about the trace ----------------------------------------

  ghost predicate InOrder(polls: seq<Poll>) {
    forall i, j | 0 <= i <= j < |polls| :: polls[i].ms <= polls[j].ms
  }

  lemma NothingRecoveredBefore(polls: seq<Poll>, n: nat, k: nat)
    requires IsAttemptCount(polls, n) && k < n
    ensures !HasRecovered(polls[..n][..k])
  {
    assert polls[..n][..k] == polls[..k];
    assert !StopsAfter(polls, k);
  }

  /** An outage: up before `i`, down from `i` until just before `j`, up at `j`. */
  ghost predicate IsOutage(polls: seq<Poll>, i: nat, j: nat) {
    && i < j < |polls|
    && (forall k | 0 <= k < i :: IsUp(polls[k]))
    && (forall k | i <= k < j :: !IsUp(polls[k]))
    && IsUp(polls[j])
  }

  lemma RecoveryEndsTheOutage(polls: seq<Poll>, n: nat, i: nat)
    requires IsAttemptCount(polls, n) && HasRecovered(polls[..n]) && IsFirstDown(polls[..n], i)
    ensures IsOutage(polls, i, n - 1)
  {
    var seen := polls[..n];
    assert forall k | 0 <= k < n :: seen[k] == polls[k];
    forall k | i <= k < n - 1 ensures !IsUp(polls[k]) {
      NothingRecoveredBefore(polls, n, k + 1);
      var part := seen[..k + 1];
      assert part[i] == seen[i] && part[k] == seen[k];
    }
  }

  ghost predicate MeasuresOutage(r: ProbeResult, polls: seq<Poll>, i: nat, j: nat) {
    && IsOutage(polls, i, j)
    && r.unavailableMs == Some(polls[i].ms)
    && r.ms == r.firstRecoveryMs == Some(polls[j].ms)
    && r.downtimeMs == Some(polls[j].ms - polls[i].ms)
    && r.status == Some(200)
  }

  /** A recovery is the first success after the first failure: everything between them failed. */
  lemma RecoveryIsFirst(polls: seq<Poll>, n: nat, r: ProbeResult)
    requires IsAttemptCount(polls, n) && Reports(r, polls[..n])
    ensures r.downtimeMs.Some? <==> r.firstRecoveryMs.Some?
    ensures r.downtimeMs.Some? ==> exists i: nat, j: nat :: j == n - 1 && MeasuresOutage(r, polls, i, j)
  {
    var seen := polls[..n];
    if HasRecovered(seen) {
      var i: nat :| IsFirstDown(seen, i) && seen[i].ms == r.unavailableMs.value;
      RecoveryEndsTheOutage(polls, n, i);
      assert seen[n - 1] == polls[n - 1] && seen[i] == polls[i];
      assert MeasuresOutage(r, polls, i, n - 1);
    }
  }

  lemma DowntimeIsNotNegative(polls: seq<Poll>, n: nat, r: ProbeResult)
    requires IsAttemptCount(polls, n) && Reports(r, polls[..n]) && InOrder(polls)
    ensures r.downtimeMs.Some? ==> r.downtimeMs.value >= 0.0
  {
    RecoveryIsFirst(polls, n, r);
    if r.downtimeMs.Some? {
      var i: nat, j: nat :| j == n - 1 && MeasuresOutage(r, polls, i, j);
    }
  }

  /** A time without an outage means that every attempt succeeded, and it is the last one's time. */
  lemma SteadyMeansAllUp(polls: seq<Poll>, n: nat, r: ProbeResult)
    requires IsAttemptCount(polls, n) && Reports(r, polls[..n])
    ensures r.ms.Some? && r.unavailableMs.None?
            <==> n > 0 && forall k | 0 <= k < n :: IsUp(polls[k])
    ensures r.ms.Some? && r.unavailableMs.None? ==> r.ms == Some(polls[n - 1].ms) && r.status == Some(200)
  {
    var seen := polls[..n];
    assert forall k | 0 <= k < n :: seen[k] == polls[k];
    if r.unavailableMs.Some? {
      var i: nat :| IsFirstDown(seen, i) && seen[i].ms == r.unavailableMs.value;
      assert !IsUp(polls[i]);
    }
  }

  lemma AttemptCountIsUnique(polls: seq<Poll>, a: nat, b: nat)
    requires IsAttemptCount(polls, a) && IsAttemptCount(polls, b)
    ensures a == b
  {
  }

  lemma {:induction false} ChangesAreUnique(a: seq<nat>, b: seq<nat>, seen: seq<Poll>)
    requires AreChanges(a, seen) && AreChanges(b, seen)
    ensures a == b
  {
    SameLastChange(a, b, seen);
    if a != [] {
      FewerChanges(a, seen);
      FewerChanges(b, seen);
      ChangesAreUnique(a[..|a| - 1], b[..|b| - 1], seen[..a[|a| - 1]]);
      FrontAndLast(a, b);
    }
  }

  lemma FrontAndLast<T>(a: seq<T>, b: seq<T>)
    requires a != [] && b != [] && a[..|a| - 1] == b[..|b| - 1] && a[|a| - 1] == b[|b| - 1]
    ensures a == b
  {
    assert a == a[..|a| - 1] + [a[|a| - 1]] && b == b[..|b| - 1] + [b[|b| - 1]];
  }

  lemma SameLastChange(a: seq<nat>, b: seq<nat>, seen: seq<Poll>)
    requires AreChanges(a, seen) && AreChanges(b, seen)
    ensures a == [] <==> b == []
    ensures a != [] ==> a[|a| - 1] == b[|b| - 1]
  {
    if a != [] { LastChangeIsHighest(a, b, seen); }
    if b != [] { LastChangeIsHighest(b, a, seen); }
  }

  lemma LastChangeIsHighest(a: seq<nat>, b: seq<nat>, seen: seq<Poll>)
    requires AreChanges(a, seen) && AreChanges(b, seen) && a != []
    ensures b != [] && a[|a| - 1] <= b[|b| - 1]
  {
    var last := a[|a| - 1];
    assert IsChange(seen, last);
    assert last in b;
  }

  lemma FewerChanges(a: seq<nat>, seen: seq<Poll>)
    requires AreChanges(a, seen) && a != []
    ensures a[|a| - 1] < |seen| && AreChanges(a[..|a| - 1], seen[..a[|a| - 1]])
  {
    var last, front := a[|a| - 1], a[..|a| - 1];
    assert IsChange(seen, last);
    var part := seen[..last];
    forall j | 0 <= j < |front| ensures IsChange(part, front[j]) {
      assert IsChange(seen, a[j]);
    }
    forall i: nat | IsChange(part, i) ensures i in front {
      assert IsChange(seen, i);
      assert i in a;
    }
  }

  /** A trace has one result: the report leaves nothing open. */
  lemma ReportIsUnique(polls: seq<Poll>, m: nat, n: nat, r: ProbeResult, s: ProbeResult)
    requires IsAttemptCount(polls, m) && Reports(r, polls[..m])
    requires IsAttemptCount(polls, n) && Reports(s, polls[..n])
    ensures r == s
  {
    AttemptCountIsUnique(polls, m, n);
    FirstDownIsUnique(r.unavailableMs, s.unavailableMs, polls[..n]);
    FirstErrorIsUnique(r.firstErrorKind, s.firstErrorKind, polls[..n]);
    TransitionsAreUnique(r.transitions, s.transitions, polls[..n]);
  }

  lemma TransitionsAreUnique(a: seq<Transition>, b: seq<Transition>, seen: seq<Poll>)
    requires ReportsChanges(a, seen) && ReportsChanges(b, seen)
    ensures a == b
  {
    var p: seq<nat> :| AreChanges(p, seen) && AreTransitionsAt(a, p, seen);
    var q: seq<nat> :| AreChanges(q, seen) && AreTransitionsAt(b, q, seen);
    ChangesAreUnique(p, q, seen);
    TransitionsAtAreUnique(a, b, p, seen);
  }

  lemma TransitionsAtAreUnique(a: seq<Transition>, b: seq<Transition>, starts: seq<nat>, seen: seq<Poll>)
    requires AreTransitionsAt(a, starts, seen) && AreTransitionsAt(b, starts, seen)
    ensures a == b
  {
    assert forall j | 0 <= j < |a| :: a[j] == TransitionOf(seen[starts[j]]);
  }

  lemma FirstDownIsUnique(a: Option<real>, b: Option<real>, seen: seq<Poll>)
    requires ReportsFirstDown(a, seen) && ReportsFirstDown(b, seen)
    ensures a == b
  {
    if !AllUp(seen) {
      var i: nat :| IsFirstDown(seen, i) && seen[i].ms == a.value;
      var j: nat :| IsFirstDown(seen, j) && seen[j].ms == b.value;
      assert i == j;
    }
  }

  lemma FirstErrorIsUnique(a: Option<string>, b: Option<string>, seen: seq<Poll>)
    requires ReportsFirstError(a, seen) && ReportsFirstError(b, seen)
    ensures a == b
  {
    if a.Some? && b.Some? {
      var i: nat :| IsFirstError(seen, i) && seen[i].attempt.errorKind == a;
      var j: nat :| IsFirstError(seen, j) && seen[j].attempt.errorKind == b;
      assert i == j;
    }
  }

  // ---- the same in terms of the polls alone -------------------------------------------

  /** At turn `k` the loop makes no attempt: the process is gone, the outage before it is over,
      or the restart is known to be over and there was none. */
  ghost predicate EndsAt(polls: seq<Poll>, k: nat)
    requires k < |polls|
  {
    || polls[k].processDone
    || (k > 0 && polls[k - 1].attempt.status == Some(200) &&
        (polls[k].done || exists i: nat :: i < k && polls[i].attempt.status != Some(200)))
  }

  lemma AttemptsEnd(polls: seq<Poll>, n: nat)
    requires IsAttemptCount(polls, n)
    ensures n <= |polls| && (n < |polls| ==> EndsAt(polls, n))
    ensures forall k: nat | k < n :: !EndsAt(polls, k)
  {
    if n < |polls| {
      StopsMeansEnds(polls, n);
    }
    forall k: nat | k < n ensures !EndsAt(polls, k) {
      StopsMeansEnds(polls, k);
    }
  }

  lemma StopsMeansEnds(polls: seq<Poll>, k: nat)
    requires k < |polls|
    ensures StopsAfter(polls, k) <==> EndsAt(polls, k)
  {
    var seen := polls[..k];
    assert forall i | 0 <= i < k :: seen[i] == polls[i];
    if AllUp(seen) {
      assert forall i | 0 <= i < k :: IsUp(seen[i]);
    } else {
      var i: nat :| i < k && !IsUp(seen[i]);
      assert polls[i].attempt.status != Some(200);
    }
  }

  /** The first attempt that did not give status 200, and whether there was one. */
  lemma FirstDownSays(polls: seq<Poll>, n: nat, r: ProbeResult)
    requires n <= |polls| && Reports(r, polls[..n])
    ensures r.unavailableMs.None? <==> forall k | 0 <= k < n :: polls[k].attempt.status == Some(200)
    ensures forall i: nat | i < n && polls[i].attempt.status != Some(200)
                            && (forall k | 0 <= k < i :: polls[k].attempt.status == Some(200)) ::
              r.unavailableMs == Some(polls[i].ms)
  {
    var seen := polls[..n];
    assert forall i | 0 <= i < n :: seen[i] == polls[i];
    if r.unavailableMs.Some? {
      var j: nat :| IsFirstDown(seen, j) && seen[j].ms == r.unavailableMs.value;
      assert polls[j].attempt.status != Some(200);
    }
    forall i: nat | i < n && polls[i].attempt.status != Some(200)
                    && forall k | 0 <= k < i :: polls[k].attempt.status == Some(200)
      ensures r.unavailableMs == Some(polls[i].ms)
    {
      assert IsFirstDown(seen, i);
      FirstDownIsUnique(r.unavailableMs, Some(seen[i].ms), seen);
    }
  }

  predicate NoKind(poll: Poll) {
    poll.attempt.errorKind == None || poll.attempt.errorKind == Some("")
  }

  lemma NamesErrorExactly(poll: Poll)
    ensures NamesError(poll) <==> !NoKind(poll)
  {
    if poll.attempt.errorKind.Some? && poll.attempt.errorKind.value == "" {
      assert poll.attempt.errorKind == Some("");
    }
  }

  /** The first attempt with an error kind, an empty one not counting, and whether there was one. */
  lemma FirstErrorSays(polls: seq<Poll>, n: nat, r: ProbeResult)
    requires n <= |polls| && Reports(r, polls[..n])
    ensures r.firstErrorKind.None? <==> forall k | 0 <= k < n :: NoKind(polls[k])
    ensures forall i: nat | i < n && !NoKind(polls[i])
                            && (forall k | 0 <= k < i :: NoKind(polls[k])) ::
              r.firstErrorKind == polls[i].attempt.errorKind
  {
    var seen := polls[..n];
    forall i | 0 <= i < n ensures seen[i] == polls[i] && (NamesError(seen[i]) <==> !NoKind(polls[i])) {
      NamesErrorExactly(polls[i]);
    }
    if r.firstErrorKind.Some? {
      var j: nat :| IsFirstError(seen, j) && seen[j].attempt.errorKind == r.firstErrorKind;
      assert !NoKind(polls[j]);
    }
    forall i: nat | i < n && !NoKind(polls[i])
                    && forall k | 0 <= k < i :: NoKind(polls[k])
      ensures r.firstErrorKind == polls[i].attempt.errorKind
    {
      assert IsFirstError(seen, i);
      FirstErrorIsUnique(r.firstErrorKind, seen[i].attempt.errorKind, seen);
    }
  }

  /** The times: of the last attempt, if it ended an outage or if there was none. */
  lemma TimesSay(polls: seq<Poll>, n: nat, r: ProbeResult)
    requires n <= |polls| && Reports(r, polls[..n])
    ensures r.status == if n == 0 then None else polls[n - 1].attempt.status
    ensures r.downtimeMs.Some? <==> r.firstRecoveryMs.Some?
    ensures r.firstRecoveryMs.Some? <==>
            n > 0 && polls[n - 1].attempt.status == Some(200) && r.unavailableMs.Some?
    ensures r.firstRecoveryMs.Some? ==>
              && r.ms == r.firstRecoveryMs == Some(polls[n - 1].ms)
              && r.downtimeMs == Some(polls[n - 1].ms - r.unavailableMs.value)
    ensures r.firstRecoveryMs.None? ==>
              r.ms == if n > 0 && r.unavailableMs.None? then Some(polls[n - 1].ms) else None
  {
    var seen := polls[..n];
    if n > 0 {
      assert seen[n - 1] == polls[n - 1];
    }
    if r.unavailableMs.Some? {
      var j: nat :| IsFirstDown(seen, j) && seen[j].ms == r.unavailableMs.value;
    }
  }

  predicate SameState(a: Poll, b: Poll) {
    && a.attempt.status == b.attempt.status
    && (a.attempt.errorKind == b.attempt.errorKind ||
        {a.attempt.errorKind, b.attempt.errorKind} == {None, Some("ok")})
  }

  /** From `from` up to `to` the state stays the same, and `to` brings another. */
  ghost predicate IsRun(seen: seq<Poll>, from: nat, to: nat) {
    && from < to <= |seen|
    && (forall i | from <= i < to :: SameState(seen[from], seen[i]))
    && (to < |seen| ==> !SameState(seen[to - 1], seen[to]))
  }

  predicate IsTransitionOf(t: Transition, poll: Poll) {
    && t.ms == poll.ms && t.status == poll.attempt.status
    && t.errorKind == if poll.attempt.errorKind == Some("") then None else poll.attempt.errorKind
  }

  /** The attempts are cut into runs of one state each, and a transition tells where one begins. */
  ghost predicate CompressesRuns(transitions: seq<Transition>, starts: seq<nat>, seen: seq<Poll>) {
    && |transitions| == |starts|
    && (seen != [] ==> starts != [] && starts[0] == 0)
    && forall j: nat | j < |starts| ::
         && IsRun(seen, starts[j], if j + 1 < |starts| then starts[j + 1] else |seen|)
         && IsTransitionOf(transitions[j], seen[starts[j]])
  }

  lemma KeysAreStates(a: Poll, b: Poll)
    ensures KeyOf(a) == KeyOf(b) <==> SameState(a, b)
  {
    if SameState(a, b) && a.attempt.errorKind != b.attempt.errorKind {
      assert a.attempt.errorKind in {None, Some("ok")} && b.attempt.errorKind in {None, Some("ok")};
    }
  }

  lemma {:induction false} KeyUntilNext(seen: seq<Poll>, from: nat, i: nat)
    requires from <= i < |seen| && forall k: nat | from < k <= i :: !IsChange(seen, k)
    ensures KeyOf(seen[from]) == KeyOf(seen[i])
  {
    if from < i {
      KeyUntilNext(seen, from, i - 1);
      assert !IsChange(seen, i);
    }
  }

  lemma NoChangeBetween(starts: seq<nat>, seen: seq<Poll>, j: nat, k: nat)
    requires AreChanges(starts, seen) && j < |starts| && starts[j] < k < |seen|
    requires j + 1 < |starts| ==> k < starts[j + 1]
    ensures !IsChange(seen, k)
  {
    forall m | 0 <= m < |starts| ensures starts[m] != k {
      assert m < j ==> starts[m] < starts[j];
      assert j + 1 < m ==> starts[j + 1] < starts[m];
    }
  }

  lemma ChangesBoundRuns(starts: seq<nat>, seen: seq<Poll>, j: nat)
    requires AreChanges(starts, seen) && j < |starts|
    ensures IsRun(seen, starts[j], if j + 1 < |starts| then starts[j + 1] else |seen|)
  {
    var from, to := starts[j], if j + 1 < |starts| then starts[j + 1] else |seen|;
    assert IsChange(seen, from);
    forall k: nat | from < k < to ensures !IsChange(seen, k) {
      NoChangeBetween(starts, seen, j, k);
    }
    forall i: nat | from <= i < to ensures SameState(seen[from], seen[i]) {
      KeyUntilNext(seen, from, i);
      KeysAreStates(seen[from], seen[i]);
    }
    if j + 1 < |starts| {
      assert IsChange(seen, to);
      KeysAreStates(seen[to - 1], seen[to]);
    }
  }

  lemma FirstChange(starts: seq<nat>, seen: seq<Poll>)
    requires AreChanges(starts, seen) && seen != []
    ensures starts != [] && starts[0] == 0
  {
    assert IsChange(seen, 0);
    assert 0 in starts;
  }

  lemma TransitionSays(poll: Poll)
    ensures IsTransitionOf(TransitionOf(poll), poll)
  {
    if poll.attempt.errorKind.Some? && poll.attempt.errorKind.value == "" {
      assert poll.attempt.errorKind == Some("");
    }
  }

  lemma ChangesCompress(transitions: seq<Transition>, starts: seq<nat>, seen: seq<Poll>)
    requires AreChanges(starts, seen) && AreTransitionsAt(transitions, starts, seen)
    ensures CompressesRuns(transitions, starts, seen)
  {
    if seen != [] {
      FirstChange(starts, seen);
    }
    forall j: nat | j < |starts|
      ensures && IsRun(seen, starts[j], if j + 1 < |starts| then starts[j + 1] else |seen|)
              && IsTransitionOf(transitions[j], seen[starts[j]])
    {
      ChangesBoundRuns(starts, seen, j);
      TransitionSays(seen[starts[j]]);
    }
  }

  /** The transitions are the run-length compression of the attempts. */
  lemma TransitionsCompress(transitions: seq<Transition>, seen: seq<Poll>)
    requires ReportsChanges(transitions, seen)
    ensures exists starts: seq<nat> :: CompressesRuns(transitions, starts, seen)
  {
    var starts: seq<nat> :| AreChanges(starts, seen) && AreTransitionsAt(transitions, starts, seen);
    ChangesCompress(transitions, starts, seen);
  }
}
