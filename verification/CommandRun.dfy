/** The supervisor of one child process (`scripts/openclaw-cross-os-release-checks.ts`,
    `runCommand`): a promise settled once, a deadline, a wait after the kill and a heartbeat.

    An event carries the time at which its callback runs. The clock is the
    timers' own: time does not pass the due time of a timer that is set. A kill whose
    signal cannot be sent reports the error while the deadline's callback is running. */
module CommandRun {
  import opened Options

  /** A timeout that is absent, 0 or infinite is `None`; a heartbeat of 0 is none. */
  datatype Config = Config(timeout: Option<nat>, check: bool, heartbeat: nat)

  datatype Event =
    | Output(text: string)
    | ErrorOutput(text: string)
    | Deadline(killError: Option<string>)
    | KillWait
    | Heartbeat
    | ChildError(message: string)
    | Close(exitCode: Option<int>)

  datatype TimedEvent = TimedEvent(at: nat, event: Event)

  datatype Outcome =
    | Resolved(exitCode: int, stdout: string, stderr: string)
    | ChildFailed(message: string)
    | TimedOut
    | CouldNotKill
    | CommandFailed(exitCode: int, stdout: string, stderr: string)

  datatype State = State(
    now: nat,
    timedOut: bool,
    settled: bool,
    timer: Option<nat>,          // when the deadline is due
    killWaitTimer: Option<nat>,
    heartbeatTimer: Option<nat>,
    beats: nat,                  // heartbeats so far
    stdout: string,
    stderr: string,
    logOpen: bool,
    lateWrites: nat,             // writes to the log after it was ended
    outcomes: seq<Outcome>)      // calls of resolve and reject

  const KILL_WAIT_MS := 15_000

  function Initial(config: Config): State {
    State(0, false, false, config.timeout, None, if config.heartbeat > 0 then Some(config.heartbeat) else None,
          0, "", "", true, 0, [])
  }

  function Finalize(s: State, outcome: Outcome): State {
    if s.settled then s
    else s.(settled := true, timer := None, killWaitTimer := None, heartbeatTimer := None,
            logOpen := false, outcomes := s.outcomes + [outcome])
  }

  function CloseOutcome(config: Config, timedOut: bool, stdout: string, stderr: string, exitCode: Option<int>): Outcome {
    if timedOut then TimedOut
    else if config.check && exitCode.GetOr(1) != 0 then CommandFailed(exitCode.GetOr(1), stdout, stderr)
    else Resolved(exitCode.GetOr(1), stdout, stderr)
  }

  predicate NotPast(timer: Option<nat>, at: nat) {
    timer.Some? ==> at <= timer.value
  }

  predicate Enabled(s: State, t: TimedEvent) {
    && s.now <= t.at
    && NotPast(s.timer, t.at) && NotPast(s.killWaitTimer, t.at) && NotPast(s.heartbeatTimer, t.at)
    && match t.event
       case Deadline(_) => s.timer == Some(t.at)
       case KillWait => s.killWaitTimer == Some(t.at)
       case Heartbeat => s.heartbeatTimer == Some(t.at)
       case _ => true
  }

  function LogWrite(s: State): State {
    if s.logOpen then s else s.(lateWrites := s.lateWrites + 1)
  }

  /** `requestKill`, which fails at once or not at all. */
  function RequestKill(s: State, killError: Option<string>): State {
    if killError.Some? then Finalize(s, ChildFailed(killError.value)) else s
  }

  function Step(config: Config, s: State, t: TimedEvent): State {
    var s := s.(now := t.at);
    match t.event
    case Output(text) => LogWrite(s).(stdout := s.stdout + text)
    case ErrorOutput(text) => LogWrite(s).(stderr := s.stderr + text)
    case Deadline(killError) =>
      RequestKill(LogWrite(s).(timer := None, timedOut := true), killError).(killWaitTimer := Some(t.at + KILL_WAIT_MS))
    case KillWait => Finalize(s.(killWaitTimer := None), CouldNotKill)
    case Heartbeat => LogWrite(s).(heartbeatTimer := Some(t.at + config.heartbeat), beats := s.beats + 1)
    case ChildError(message) => Finalize(s, ChildFailed(message))
    case Close(exitCode) => Finalize(s, CloseOutcome(config, s.timedOut, s.stdout, s.stderr, exitCode))
  }

  // ----- Runs -----

  ghost predicate Possible(config: Config, run: seq<TimedEvent>) {
    run == [] ||
    (Possible(config, run[..|run| - 1]) && Enabled(After(config, run[..|run| - 1]), run[|run| - 1]))
  }

  ghost function After(config: Config, run: seq<TimedEvent>): State {
    if run == [] then Initial(config)
    else Step(config, After(config, run[..|run| - 1]), run[|run| - 1])
  }

  lemma Extend(config: Config, run: seq<TimedEvent>, t: TimedEvent)
    requires Possible(config, run) && Enabled(After(config, run), t)
    ensures Possible(config, run + [t]) && After(config, run + [t]) == Step(config, After(config, run), t)
  {
    assert (run + [t])[..|run|] == run;
  }

  predicate AnyTimer(s: State) {
    s.timer.Some? || s.killWaitTimer.Some? || s.heartbeatTimer.Some?
  }

  /** What every reachable state satisfies. */
  predicate Inv(config: Config, s: State) {
    && |s.outcomes| == (if s.settled then 1 else 0)
    && (s.logOpen <==> !s.settled)
    && (s.settled ==> s.timer.None? && s.heartbeatTimer.None?)
    && (s.settled && s.killWaitTimer.Some? ==>
          && s.timedOut && config.timeout.Some? && s.killWaitTimer == Some(config.timeout.value + KILL_WAIT_MS)
          && s.outcomes[0].ChildFailed?)
    && (!s.settled ==>
          && (config.heartbeat > 0 ==> s.heartbeatTimer.Some? && s.now <= s.heartbeatTimer.value)
          && (config.heartbeat == 0 ==> s.heartbeatTimer.None?)
          && (config.timeout.None? ==> s.timer.None? && s.killWaitTimer.None? && !s.timedOut)
          && (config.timeout.Some? ==>
                if s.timedOut then s.timer.None? && s.killWaitTimer == Some(config.timeout.value + KILL_WAIT_MS) && s.now <= config.timeout.value + KILL_WAIT_MS
                else s.timer == config.timeout && s.killWaitTimer.None? && s.now <= config.timeout.value))
    && (s.timedOut ==> config.timeout.Some? && forall i :: 0 <= i < |s.outcomes| ==> !s.outcomes[i].Resolved? && !s.outcomes[i].CommandFailed?)
  }

  lemma StepKeepsInv(config: Config, s: State, t: TimedEvent)
    requires Inv(config, s) && Enabled(s, t)
    ensures Inv(config, Step(config, s, t))
  {
  }

  lemma {:induction false} AlwaysInv(config: Config, run: seq<TimedEvent>)
    requires Possible(config, run)
    ensures Inv(config, After(config, run))
  {
    if run != [] {
      AlwaysInv(config, run[..|run| - 1]);
      StepKeepsInv(config, After(config, run[..|run| - 1]), run[|run| - 1]);
    }
  }

  // ----- How the promise settles -----

  /** The deadline, with a kill that fails. */
  predicate KillFails(e: Event) {
    e.Deadline? && e.killError.Some?
  }

  predicate IsFinal(e: Event) {
    e.KillWait? || e.ChildError? || e.Close? || KillFails(e)
  }

  predicate AnyFinal(run: seq<TimedEvent>) {
    exists k :: 0 <= k < |run| && IsFinal(run[k].event)
  }

  /** The first event that ends the command. */
  predicate SettlesAt(run: seq<TimedEvent>, k: int) {
    0 <= k < |run| && IsFinal(run[k].event) && !AnyFinal(run[..k])
  }

  predicate DeadlineIn(run: seq<TimedEvent>) {
    exists j :: 0 <= j < |run| && run[j].event.Deadline?
  }

  function OutputOf(run: seq<TimedEvent>): string {
    if run == [] then "" else OutputOf(run[..|run| - 1]) + (if run[|run| - 1].event.Output? then run[|run| - 1].event.text else "")
  }

  function ErrorOutputOf(run: seq<TimedEvent>): string {
    if run == [] then "" else ErrorOutputOf(run[..|run| - 1]) + (if run[|run| - 1].event.ErrorOutput? then run[|run| - 1].event.text else "")
  }

  /** What the caller learns when `before` and then `e` happened to the child. */
  function Verdict(config: Config, before: seq<TimedEvent>, e: Event): Outcome
    requires IsFinal(e)
  {
    match e
    case ChildError(message) => ChildFailed(message)
    case Deadline(killError) => ChildFailed(killError.value)
    case KillWait => CouldNotKill
    case Close(exitCode) =>
      if DeadlineIn(before) then TimedOut
      else if exitCode == Some(0) || !config.check then Resolved(exitCode.GetOr(1), OutputOf(before), ErrorOutputOf(before))
      else CommandFailed(exitCode.GetOr(1), OutputOf(before), ErrorOutputOf(before))
  }

  lemma LastOf(run: seq<TimedEvent>)
    requires run != []
    ensures var front, last := run[..|run| - 1], run[|run| - 1].event;
      && (DeadlineIn(run) <==> DeadlineIn(front) || last.Deadline?)
      && (AnyFinal(run) <==> AnyFinal(front) || IsFinal(last))
  {
    assert forall j :: 0 <= j < |run| - 1 ==> run[..|run| - 1][j] == run[j];
  }

  lemma StepTracks(config: Config, s: State, t: TimedEvent)
    ensures var after := Step(config, s, t);
      && after.stdout == s.stdout + (if t.event.Output? then t.event.text else "")
      && after.stderr == s.stderr + (if t.event.ErrorOutput? then t.event.text else "")
      && (after.timedOut <==> s.timedOut || t.event.Deadline?)
      && (after.settled <==> s.settled || IsFinal(t.event))
  {
    assert s.stdout + "" == s.stdout && s.stderr + "" == s.stderr;
  }

  lemma {:induction false} TracksRun(config: Config, run: seq<TimedEvent>)
    ensures var s := After(config, run);
      && s.stdout == OutputOf(run) && s.stderr == ErrorOutputOf(run)
      && (s.timedOut <==> DeadlineIn(run)) && (s.settled <==> AnyFinal(run))
  {
    if run != [] {
      TracksRun(config, run[..|run| - 1]);
      LastOf(run);
      StepTracks(config, After(config, run[..|run| - 1]), run[|run| - 1]);
    }
  }

  lemma StepKeepsSettlement(config: Config, s: State, t: TimedEvent)
    ensures s.settled || !IsFinal(t.event) ==> Step(config, s, t).outcomes == s.outcomes
  {
  }

  /** The first ending event decides the settlement, whatever comes later, and comes in time. */
  lemma {:induction false} FirstEndDecides(config: Config, run: seq<TimedEvent>, k: int)
    requires Possible(config, run) && SettlesAt(run, k)
    ensures After(config, run).outcomes == [Verdict(config, run[..k], run[k].event)]
    ensures config.timeout.Some? ==> run[k].at <= config.timeout.value + KILL_WAIT_MS
    decreases |run|
  {
    var n := |run| - 1;
    var front := run[..n];
    TracksRun(config, front);
    if k == n {
      AlwaysInv(config, front);
    } else {
      assert front[..k] == run[..k] && front[k] == run[k];
      FirstEndDecides(config, front, k);
      StepKeepsSettlement(config, After(config, front), run[n]);
    }
  }

  predicate ResolvesAt(config: Config, run: seq<TimedEvent>, k: int) {
    && SettlesAt(run, k) && run[k].event.Close?
    && !DeadlineIn(run[..k])
    && (run[k].event.exitCode == Some(0) || !config.check)
  }

  lemma {:induction false} FirstEnd(run: seq<TimedEvent>) returns (k: int)
    requires AnyFinal(run)
    ensures SettlesAt(run, k)
  {
    LastOf(run);
    if AnyFinal(run[..|run| - 1]) {
      k := FirstEnd(run[..|run| - 1]);
      assert run[..|run| - 1][..k] == run[..k];
    } else {
      k := |run| - 1;
    }
  }

  lemma FinalBefore(run: seq<TimedEvent>, i: int, k: int)
    requires 0 <= i < k <= |run| && IsFinal(run[i].event)
    ensures AnyFinal(run[..k])
  {
    assert run[..k][i] == run[i];
  }

  lemma OneFirstEnd(run: seq<TimedEvent>, i: int, k: int)
    requires SettlesAt(run, i) && SettlesAt(run, k)
    ensures i == k
  {
    if i < k {
      FinalBefore(run, i, k);
    } else if k < i {
      FinalBefore(run, k, i);
    }
  }

  lemma VerdictResolves(config: Config, run: seq<TimedEvent>, k: int)
    requires SettlesAt(run, k)
    ensures Verdict(config, run[..k], run[k].event).Resolved? <==> ResolvesAt(config, run, k)
  {
  }

  /** The promise resolves exactly when the child closes before the deadline
      with exit code 0, or with any code when the check is off. */
  lemma ResolvesIff(config: Config, run: seq<TimedEvent>)
    requires Possible(config, run)
    ensures (exists r :: r in After(config, run).outcomes && r.Resolved?) <==> exists k :: ResolvesAt(config, run, k)
  {
    AlwaysInv(config, run);
    TracksRun(config, run);
    if AnyFinal(run) {
      var k := FirstEnd(run);
      FirstEndDecides(config, run, k);
      VerdictResolves(config, run, k);
      assert After(config, run).outcomes[0] == Verdict(config, run[..k], run[k].event);
      if exists i :: ResolvesAt(config, run, i) {
        var i :| ResolvesAt(config, run, i);
        OneFirstEnd(run, i, k);
      }
    }
  }

  lemma StepAfterSettlement(config: Config, s: State, e: TimedEvent)
    requires Inv(config, s) && Enabled(s, e) && s.settled
    ensures var t := Step(config, s, e);
      && t.settled && t.outcomes == s.outcomes && t.timer.None? && t.heartbeatTimer.None?
      && (t.killWaitTimer.Some? ==> t.killWaitTimer == s.killWaitTimer)
  {
  }

  lemma OneEventLess(run: seq<TimedEvent>, later: seq<TimedEvent>)
    requires later != []
    ensures var whole, n := run + later, |later| - 1;
      whole[..|whole| - 1] == run + later[..n] && whole[|whole| - 1] == later[n]
  {
  }

  /** Whatever happens after the settlement changes it no more, and sets no timer that was
      not set when it settled. */
  lemma {:induction false} SettlementStands(config: Config, run: seq<TimedEvent>, later: seq<TimedEvent>)
    requires Possible(config, run + later) && After(config, run).settled
    ensures var s, t := After(config, run), After(config, run + later);
      && t.settled && t.outcomes == s.outcomes && t.timer.None? && t.heartbeatTimer.None?
      && (t.killWaitTimer.Some? ==> t.killWaitTimer == s.killWaitTimer)
  {
    if later == [] {
      assert run + later == run;
      AlwaysInv(config, run);
    } else {
      var n := |later| - 1;
      OneEventLess(run, later);
      SettlementStands(config, run, later[..n]);
      AlwaysInv(config, run + later[..n]);
      StepAfterSettlement(config, After(config, run + later[..n]), later[n]);
    }
  }

  // ----- A timer that outlives the settlement -----

  predicate KillFailedIn(run: seq<TimedEvent>) {
    exists k :: 0 <= k < |run| && KillFails(run[k].event)
  }

  predicate KillWaitIn(run: seq<TimedEvent>) {
    exists k :: 0 <= k < |run| && run[k].event.KillWait?
  }

  lemma KillEventsOf(run: seq<TimedEvent>)
    requires run != []
    ensures var front, last := run[..|run| - 1], run[|run| - 1].event;
      && (KillFailedIn(run) <==> KillFailedIn(front) || KillFails(last))
      && (KillWaitIn(run) <==> KillWaitIn(front) || last.KillWait?)
  {
    assert forall j :: 0 <= j < |run| - 1 ==> run[..|run| - 1][j] == run[j];
  }

  /** How the two events on which it depends stand in a state. */
  ghost predicate TracksKill(s: State, run: seq<TimedEvent>) {
    && (KillFailedIn(run) ==> s.settled && s.timedOut)
    && (KillWaitIn(run) ==> s.settled && s.killWaitTimer.None?)
    && (s.settled && s.killWaitTimer.Some? <==> KillFailedIn(run) && !KillWaitIn(run))
  }

  lemma StepTracksKill(config: Config, s: State, run: seq<TimedEvent>)
    requires run != [] && Inv(config, s) && TracksKill(s, run[..|run| - 1]) && Enabled(s, run[|run| - 1])
    ensures TracksKill(Step(config, s, run[|run| - 1]), run)
  {
    KillEventsOf(run);
  }

  lemma {:induction false} AlwaysTracksKill(config: Config, run: seq<TimedEvent>)
    requires Possible(config, run)
    ensures TracksKill(After(config, run), run)
  {
    if run != [] {
      var front := run[..|run| - 1];
      AlwaysTracksKill(config, front);
      AlwaysInv(config, front);
      StepTracksKill(config, After(config, front), run);
    }
  }

  /** The kill is requested before the wait after it is set. So a timer is live after the
      settlement exactly when the kill failed and the wait has not run out since. */
  lemma TimerOutlivesIff(config: Config, run: seq<TimedEvent>)
    requires Possible(config, run)
    ensures After(config, run).settled && AnyTimer(After(config, run)) <==> KillFailedIn(run) && !KillWaitIn(run)
  {
    AlwaysTracksKill(config, run);
    AlwaysInv(config, run);
  }

  // ----- Time -----

  /** A command with a timeout has settled by the timeout and 15 seconds. */
  lemma SettledInTime(config: Config, run: seq<TimedEvent>)
    requires Possible(config, run) && config.timeout.Some?
    requires After(config, run).now > config.timeout.value + KILL_WAIT_MS
    ensures After(config, run).settled
  {
    AlwaysInv(config, run);
  }

  /** A timer fires, and a kill that it requests does not fail. */
  predicate IsTimer(e: Event) {
    (e.Deadline? && e.killError.None?) || e.KillWait? || e.Heartbeat?
  }

  /** How far the kill has come: 1 before the deadline, 0 after it. */
  function Stage(s: State): nat {
    if s.timedOut then 0 else 1
  }

  /** How long heartbeats can still come before the command must have settled. */
  function Slack(config: Config, s: State): nat
    requires config.timeout.Some?
  {
    var limit := config.timeout.value + KILL_WAIT_MS;
    if s.heartbeatTimer.Some? && s.heartbeatTimer.value <= limit then limit + 1 - s.heartbeatTimer.value else 0
  }

  /** Until a command with a timeout settles some timer can fire, and firing it brings
      the settlement nearer. */
  lemma NextTimer(config: Config, s: State) returns (next: TimedEvent)
    requires Inv(config, s) && config.timeout.Some? && !s.settled
    ensures IsTimer(next.event) && Enabled(s, next)
    ensures var t := Step(config, s, next);
      t.settled || Stage(t) < Stage(s) || (Stage(t) == Stage(s) && Slack(config, t) < Slack(config, s))
  {
    next := if s.timedOut then TimedEvent(s.killWaitTimer.value, KillWait) else TimedEvent(s.timer.value, Deadline(None));
    if s.heartbeatTimer.Some? && s.heartbeatTimer.value < next.at {
      next := TimedEvent(s.heartbeatTimer.value, Heartbeat);
    }
  }

  predicate OnlyTimers(run: seq<TimedEvent>) {
    forall i :: 0 <= i < |run| ==> IsTimer(run[i].event)
  }

  lemma OneThenRest(run: seq<TimedEvent>, next: TimedEvent, rest: seq<TimedEvent>)
    ensures run + ([next] + rest) == run + [next] + rest
  {
  }

  lemma OneTimerFirst(run: seq<TimedEvent>, next: TimedEvent, rest: seq<TimedEvent>)
    requires IsTimer(next.event) && OnlyTimers(rest)
    ensures OnlyTimers([next] + rest) && run + ([next] + rest) == run + [next] + rest
  {
    OneThenRest(run, next, rest);
  }

  /** Timers alone settle every run of a command with a timeout. */
  lemma {:induction false} TimersSettle(config: Config, run: seq<TimedEvent>) returns (more: seq<TimedEvent>)
    requires Possible(config, run) && config.timeout.Some?
    ensures OnlyTimers(more) && Possible(config, run + more) && After(config, run + more).settled
    decreases if After(config, run).settled then 0 else 1, Stage(After(config, run)), Slack(config, After(config, run))
  {
    if After(config, run).settled {
      more := [];
      assert run + more == run;
    } else {
      AlwaysInv(config, run);
      var next := NextTimer(config, After(config, run));
      Extend(config, run, next);
      var rest := TimersSettle(config, run + [next]);
      more := [next] + rest;
      OneTimerFirst(run, next, rest);
    }
  }

  /** A heartbeat that is due before the deadline brings the deadline nearer. */
  lemma BeatBeforeDeadline(config: Config, s: State, beat: TimedEvent)
    requires Inv(config, s) && config.timeout.Some? && !s.settled && !s.timedOut
    requires s.heartbeatTimer.Some? && s.heartbeatTimer.value < config.timeout.value
    requires beat == TimedEvent(s.heartbeatTimer.value, Heartbeat)
    ensures Enabled(s, beat)
    ensures var t := Step(config, s, beat); !t.settled && !t.timedOut && Slack(config, t) < Slack(config, s)
  {
  }

  lemma DeadlineIsDue(config: Config, s: State, killError: Option<string>)
    requires Inv(config, s) && config.timeout.Some? && !s.settled && !s.timedOut
    requires s.heartbeatTimer.Some? ==> s.heartbeatTimer.value >= config.timeout.value
    ensures Enabled(s, TimedEvent(config.timeout.value, Deadline(killError)))
  {
  }

  /** Heartbeats alone can bring a command up to its deadline. */
  lemma {:induction false} ReachDeadline(config: Config, run: seq<TimedEvent>, killError: Option<string>)
      returns (more: seq<TimedEvent>)
    requires Possible(config, run) && config.timeout.Some?
    requires !After(config, run).settled && !After(config, run).timedOut
    ensures Possible(config, run + more) && !After(config, run + more).settled
    ensures Enabled(After(config, run + more), TimedEvent(config.timeout.value, Deadline(killError)))
    decreases Slack(config, After(config, run))
  {
    AlwaysInv(config, run);
    var s := After(config, run);
    if s.heartbeatTimer.Some? && s.heartbeatTimer.value < config.timeout.value {
      var beat := TimedEvent(s.heartbeatTimer.value, Heartbeat);
      BeatBeforeDeadline(config, s, beat);
      Extend(config, run, beat);
      var rest := ReachDeadline(config, run + [beat], killError);
      more := [beat] + rest;
      OneThenRest(run, beat, rest);
    } else {
      DeadlineIsDue(config, s, killError);
      more := [];
      assert run + more == run;
    }
  }

  /** A kill that fails leaves a timer behind, for any timeout and heartbeat. */
  lemma FailedKillLeavesTimer(config: Config, error: string) returns (run: seq<TimedEvent>)
    requires config.timeout.Some?
    ensures Possible(config, run) && After(config, run).outcomes == [ChildFailed(error)]
    ensures After(config, run).settled && AnyTimer(After(config, run))
  {
    var deadline := TimedEvent(config.timeout.value, Deadline(Some(error)));
    var before := ReachDeadline(config, [], Some(error));
    assert [] + before == before;
    AlwaysInv(config, before);
    Extend(config, before, deadline);
    run := before + [deadline];
  }

  /** What a caller can check before the call: a timer can outlive the settlement exactly
      when a timeout is set. */
  lemma TimersOutliveForTimeouts(config: Config)
    ensures (exists run :: Possible(config, run) && After(config, run).settled && AnyTimer(After(config, run)))
       <==> config.timeout.Some?
  {
    if config.timeout.Some? {
      var run := FailedKillLeavesTimer(config, "kill EPERM");
    } else {
      forall run | Possible(config, run) && After(config, run).settled
        ensures !AnyTimer(After(config, run))
      {
        AlwaysInv(config, run);
      }
    }
  }

  predicate BeatsKeepTime(config: Config, s: State) {
    && s.beats * config.heartbeat <= s.now
    && (s.heartbeatTimer.Some? ==> s.heartbeatTimer.value == (s.beats + 1) * config.heartbeat)
  }

  lemma StepKeepsBeats(config: Config, s: State, t: TimedEvent)
    requires BeatsKeepTime(config, s) && Enabled(s, t)
    ensures BeatsKeepTime(config, Step(config, s, t))
  {
    assert (s.beats + 1) * config.heartbeat + config.heartbeat == (s.beats + 1 + 1) * config.heartbeat;
    var after := Step(config, s, t);
    if t.event == Heartbeat {
      assert after.beats == s.beats + 1;
    } else {
      assert after.beats == s.beats;
    }
  }

  lemma {:induction false} HeartbeatsKeepTime(config: Config, run: seq<TimedEvent>)
    requires Possible(config, run)
    ensures BeatsKeepTime(config, After(config, run))
  {
    if run != [] {
      HeartbeatsKeepTime(config, run[..|run| - 1]);
      StepKeepsBeats(config, After(config, run[..|run| - 1]), run[|run| - 1]);
    }
  }

  function HeartbeatsIn(run: seq<TimedEvent>): nat {
    if run == [] then 0 else HeartbeatsIn(run[..|run| - 1]) + if run[|run| - 1].event.Heartbeat? then 1 else 0
  }

  lemma {:induction false} BeatsAreCounted(config: Config, run: seq<TimedEvent>)
    ensures After(config, run).beats == HeartbeatsIn(run)
  {
    if run != [] {
      BeatsAreCounted(config, run[..|run| - 1]);
      StepCountsBeats(config, After(config, run[..|run| - 1]), run[|run| - 1]);
    }
  }

  lemma StepCountsBeats(config: Config, s: State, t: TimedEvent)
    ensures Step(config, s, t).beats == s.beats + if t.event.Heartbeat? then 1 else 0
  {
  }

  /** When the timers fire: the deadline at the timeout, the wait after the kill 15 seconds
      later, and the n-th heartbeat after n periods. */
  lemma {:induction false} TimersAreDue(config: Config, run: seq<TimedEvent>, k: nat)
    requires Possible(config, run) && k < |run|
    ensures run[k].event.Deadline? ==> config.timeout == Some(run[k].at)
    ensures run[k].event.KillWait? ==> config.timeout.Some? && run[k].at == config.timeout.value + 15_000
    ensures run[k].event.Heartbeat? ==> config.heartbeat > 0 && run[k].at == (HeartbeatsIn(run[..k]) + 1) * config.heartbeat
  {
    var n := |run| - 1;
    if k < n {
      TimersAreDue(config, run[..n], k);
      assert run[..n][..k] == run[..k];
    } else {
      AlwaysInv(config, run[..n]);
      HeartbeatsKeepTime(config, run[..n]);
      BeatsAreCounted(config, run[..n]);
    }
  }

  /** Heartbeats come one period apart, so a command with a timeout logs boundedly many. */
  lemma HeartbeatsAreBounded(config: Config, run: seq<TimedEvent>)
    requires Possible(config, run) && config.timeout.Some? && !After(config, run).settled
    ensures After(config, run).beats * config.heartbeat <= config.timeout.value + KILL_WAIT_MS
  {
    AlwaysInv(config, run);
    HeartbeatsKeepTime(config, run);
  }

  // ----- The log -----

  predicate IsOutput(e: Event) {
    e.Output? || e.ErrorOutput?
  }

  /** Output that arrives after an ending event. */
  predicate LateOutput(run: seq<TimedEvent>) {
    exists j :: 0 <= j < |run| && IsOutput(run[j].event) && AnyFinal(run[..j])
  }

  lemma LateOutputOf(run: seq<TimedEvent>)
    requires run != []
    ensures var front := run[..|run| - 1];
      LateOutput(run) <==> LateOutput(front) || (IsOutput(run[|run| - 1].event) && AnyFinal(front))
  {
    var front := run[..|run| - 1];
    assert forall j :: 0 <= j < |front| ==> front[j] == run[j] && front[..j] == run[..j];
  }

  lemma StepWritesLate(config: Config, s: State, t: TimedEvent)
    requires Inv(config, s) && Enabled(s, t)
    ensures Step(config, s, t).lateWrites == s.lateWrites + if IsOutput(t.event) && s.settled then 1 else 0
  {
  }

  /** The log is written to after it was ended exactly when output arrives after an ending event. */
  lemma {:induction false} LateWritesIff(config: Config, run: seq<TimedEvent>)
    requires Possible(config, run)
    ensures After(config, run).lateWrites > 0 <==> LateOutput(run)
  {
    if run != [] {
      var front := run[..|run| - 1];
      LateWritesIff(config, front);
      LateOutputOf(run);
      TracksRun(config, front);
      AlwaysInv(config, front);
      StepWritesLate(config, After(config, front), run[|run| - 1]);
    }
  }

  /** A child that ends by closing, after its output has ended, leaves no late write. */
  lemma ClosedChildWritesInTime(config: Config, run: seq<TimedEvent>, k: int)
    requires Possible(config, run) && SettlesAt(run, k) && run[k].event.Close?
    requires forall j :: k < j < |run| ==> !IsOutput(run[j].event)
    ensures After(config, run).lateWrites == 0
  {
    LateWritesIff(config, run);
    if LateOutput(run) {
      var j :| 0 <= j < |run| && IsOutput(run[j].event) && AnyFinal(run[..j]);
      var i :| 0 <= i < j && IsFinal(run[..j][i].event);
      if i < k {
        FinalBefore(run, i, k);
      }
    }
  }

  /** A child as the runtime has it: no output follows its close, and none follows an
      error before the deadline, when nothing has tried to kill it. */
  predicate WellBehaved(run: seq<TimedEvent>) {
    forall i, j :: 0 <= i < j < |run| && IsOutput(run[j].event) ==> !run[i].event.Close? && !FailsToStart(run, i)
  }

  predicate FailsToStart(run: seq<TimedEvent>, i: int)
    requires 0 <= i < |run|
  {
    run[i].event.ChildError? && !DeadlineIn(run[..i])
  }

  lemma {:induction false} NoDeadlineWithoutTimeout(config: Config, run: seq<TimedEvent>, i: int)
    requires Possible(config, run) && config.timeout.None? && 0 <= i < |run|
    ensures !run[i].event.Deadline? && !run[i].event.KillWait?
  {
    var front := run[..|run| - 1];
    if i < |front| {
      NoDeadlineWithoutTimeout(config, front, i);
    } else {
      AlwaysInv(config, front);
    }
  }

  lemma NeverDeadline(config: Config, run: seq<TimedEvent>, n: int)
    requires Possible(config, run) && config.timeout.None? && 0 <= n <= |run|
    ensures !DeadlineIn(run[..n])
  {
    forall k | 0 <= k < n
      ensures !run[..n][k].event.Deadline?
    {
      NoDeadlineWithoutTimeout(config, run, k);
    }
  }

  lemma OutputComesFirst(config: Config, run: seq<TimedEvent>, i: int, j: int)
    requires Possible(config, run) && WellBehaved(run) && config.timeout.None?
    requires 0 <= i < j < |run| && IsOutput(run[j].event)
    ensures !IsFinal(run[..j][i].event)
  {
    NeverDeadline(config, run, i);
    NoDeadlineWithoutTimeout(config, run, i);
    assert !FailsToStart(run, i);
  }

  /** Without a timeout a well-behaved child is never written after the log has ended. */
  lemma NoLateWriteWithoutTimeout(config: Config, run: seq<TimedEvent>)
    requires Possible(config, run) && WellBehaved(run) && config.timeout.None?
    ensures After(config, run).lateWrites == 0
  {
    LateWritesIff(config, run);
    if LateOutput(run) {
      var j :| 0 <= j < |run| && IsOutput(run[j].event) && AnyFinal(run[..j]);
      var i :| 0 <= i < j && IsFinal(run[..j][i].event);
      OutputComesFirst(config, run, i, j);
    }
  }

  lemma OnlyTimersCannotKill(config: Config, run: seq<TimedEvent>)
    requires Possible(config, run) && After(config, run).settled && OnlyTimers(run)
    ensures After(config, run).outcomes == [CouldNotKill]
  {
    TracksRun(config, run);
    var k := FirstEnd(run);
    FirstEndDecides(config, run, k);
  }

  /** With a timeout, a child that outlives the wait after the kill and then prints has
      its output written to the ended log, whatever the heartbeat. */
  lemma SurvivorWritesLate(config: Config, text: string) returns (run: seq<TimedEvent>)
    requires config.timeout.Some?
    ensures Possible(config, run) && WellBehaved(run)
    ensures After(config, run).outcomes == [CouldNotKill] && After(config, run).lateWrites > 0
  {
    var waited := TimersSettle(config, []);
    assert [] + waited == waited;
    OnlyTimersCannotKill(config, waited);
    AlwaysInv(config, waited);
    var output := TimedEvent(After(config, waited).now, Output(text));
    Extend(config, waited, output);
    LastOutputIsFine(waited, output);
    run := waited + [output];
  }

  lemma LastOutputIsFine(waited: seq<TimedEvent>, output: TimedEvent)
    requires OnlyTimers(waited)
    ensures WellBehaved(waited + [output])
  {
  }

  /** What a caller has to check before the call: a well-behaved child can be written to
      the ended log exactly when a timeout is set. */
  lemma LateWritesAreForTimeouts(config: Config)
    ensures (exists run :: Possible(config, run) && WellBehaved(run) && After(config, run).lateWrites > 0)
       <==> config.timeout.Some?
  {
    if config.timeout.Some? {
      var run := SurvivorWritesLate(config, "late");
    } else {
      forall run | Possible(config, run) && WellBehaved(run)
        ensures After(config, run).lateWrites == 0
      {
        NoLateWriteWithoutTimeout(config, run);
      }
    }
  }

  // ----- The running supervisor -----

  /** The variables of one call; each method is one callback. */
  class Supervisor {
    const config: Config
    var now: nat
    var timedOut: bool
    var settled: bool
    var timer: Option<nat>
    var killWaitTimer: Option<nat>
    var heartbeatTimer: Option<nat>
    var beats: nat
    var stdout: string
    var stderr: string
    var logOpen: bool
    var lateWrites: nat
    var outcomes: seq<Outcome>
    ghost var history: seq<TimedEvent>

    function Now(): State
      reads this
    {
      State(now, timedOut, settled, timer, killWaitTimer, heartbeatTimer, beats, stdout, stderr, logOpen, lateWrites, outcomes)
    }

    ghost predicate Valid()
      reads this
    {
      Possible(config, history) && Now() == After(config, history)
    }

    constructor (config: Config)
      ensures Valid() && this.config == config && history == []
    {
      this.config := config;
      now, timedOut, settled, beats, stdout, stderr := 0, false, false, 0, "", "";
      timer, killWaitTimer := config.timeout, None;
      heartbeatTimer := if config.heartbeat > 0 then Some(config.heartbeat) else None;
      logOpen, lateWrites, outcomes, history := true, 0, [], [];
    }

    /** Notes the event that has just changed the variables. */
    ghost method Record(t: TimedEvent)
      requires Possible(config, history) && Enabled(After(config, history), t)
      requires Now() == Step(config, After(config, history), t)
      modifies this`history
      ensures Valid() && history == old(history) + [t] && Now() == old(Now())
    {
      Extend(config, history, t);
      history := history + [t];
    }

    method ClearTimers()
      modifies this
      ensures Now() == old(Now()).(timer := None, killWaitTimer := None, heartbeatTimer := None)
      ensures history == old(history)
    {
      timer, killWaitTimer, heartbeatTimer := None, None, None;
    }

    method FinalizeWith(outcome: Outcome)
      modifies this
      ensures Now() == Finalize(old(Now()), outcome) && history == old(history)
    {
      if settled {
        return;
      }
      settled := true;
      ClearTimers();
      logOpen := false;
      outcomes := outcomes + [outcome];
    }

    method WriteLog()
      modifies this
      ensures Now() == LogWrite(old(Now())) && history == old(history)
    {
      if !logOpen {
        lateWrites := lateWrites + 1;
      }
    }

    /** The kill; its error, if it fails at once, goes to the error handler. */
    method KillChild(killError: Option<string>)
      modifies this
      ensures Now() == RequestKill(old(Now()), killError) && history == old(history)
    {
      if killError.Some? {
        FinalizeWith(ChildFailed(killError.value));
      }
    }

    method HandleDeadline(at: nat, killError: Option<string>)
      requires Valid() && Enabled(Now(), TimedEvent(at, Deadline(killError)))
      modifies this
      ensures Valid() && history == old(history) + [TimedEvent(at, Deadline(killError))]
      ensures Now() == Step(config, old(Now()), TimedEvent(at, Deadline(killError)))
    {
      now := at;
      timer := None;
      timedOut := true;
      WriteLog();
      KillChild(killError);
      killWaitTimer := Some(at + KILL_WAIT_MS);
      Record(TimedEvent(at, Deadline(killError)));
    }

    method HandleKillWait(at: nat)
      requires Valid() && Enabled(Now(), TimedEvent(at, KillWait))
      modifies this
      ensures Valid() && history == old(history) + [TimedEvent(at, KillWait)]
      ensures Now() == Step(config, old(Now()), TimedEvent(at, KillWait))
    {
      now := at;
      killWaitTimer := None;
      FinalizeWith(CouldNotKill);
      Record(TimedEvent(at, KillWait));
    }

    method HandleHeartbeat(at: nat)
      requires Valid() && Enabled(Now(), TimedEvent(at, Heartbeat))
      modifies this
      ensures Valid() && history == old(history) + [TimedEvent(at, Heartbeat)]
      ensures Now() == Step(config, old(Now()), TimedEvent(at, Heartbeat))
    {
      now := at;
      heartbeatTimer := Some(at + config.heartbeat);
      beats := beats + 1;
      WriteLog();
      Record(TimedEvent(at, Heartbeat));
    }

    method HandleData(at: nat, chunk: Event)
      requires Valid() && IsOutput(chunk) && Enabled(Now(), TimedEvent(at, chunk))
      modifies this
      ensures Valid() && history == old(history) + [TimedEvent(at, chunk)]
      ensures Now() == Step(config, old(Now()), TimedEvent(at, chunk))
    {
      now := at;
      match chunk {
        case Output(text) => stdout := stdout + text;
        case ErrorOutput(text) => stderr := stderr + text;
      }
      WriteLog();
      Record(TimedEvent(at, chunk));
    }

    method HandleError(at: nat, message: string)
      requires Valid() && Enabled(Now(), TimedEvent(at, ChildError(message)))
      modifies this
      ensures Valid() && history == old(history) + [TimedEvent(at, ChildError(message))]
      ensures Now() == Step(config, old(Now()), TimedEvent(at, ChildError(message)))
    {
      now := at;
      FinalizeWith(ChildFailed(message));
      Record(TimedEvent(at, ChildError(message)));
    }

    method HandleClose(at: nat, exitCode: Option<int>)
      requires Valid() && Enabled(Now(), TimedEvent(at, Close(exitCode)))
      modifies this
      ensures Valid() && history == old(history) + [TimedEvent(at, Close(exitCode))]
      ensures Now() == Step(config, old(Now()), TimedEvent(at, Close(exitCode)))
    {
      now := at;
      var code := if exitCode.Some? then exitCode.value else 1;
      if timedOut {
        FinalizeWith(TimedOut);
      } else if config.check && code != 0 {
        FinalizeWith(CommandFailed(code, stdout, stderr));
      } else {
        FinalizeWith(Resolved(code, stdout, stderr));
      }
      Record(TimedEvent(at, Close(exitCode)));
    }
  }
}
