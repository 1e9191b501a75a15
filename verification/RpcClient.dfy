/** The client that talks to one `pi` process over its pipes
    (`scripts/control-ui-i18n.ts`, `PiRpcClient`).

    Everything that can happen to a client is an `Event`; `Step` says what one
    event does. Requests are numbered by the order of the calls to `prompt`
    (their ticket); a ticket whose body starts on an open client also gets a
    wire id, 1, 2, 3 and so on. The class `PiRpcClient` is the client itself. */
module RpcClient {
  import opened Options
  import opened Text

  datatype Outcome = Resolved(text: string) | Rejected(message: string)

  datatype Settlement = Settlement(ticket: nat, outcome: Outcome)

  datatype PendingPrompt = PendingPrompt(id: nat, ticket: nat, responseReceived: bool)

  datatype State = State(
    closed: bool,
    pending: Option<PendingPrompt>,
    messages: seq<string>,       // what prompt was called with, by ticket
    started: nat,                // tickets whose body has begun
    issued: seq<nat>,            // issued[id - 1] is the ticket written under that id
    written: seq<string>,        // written[id - 1] is the message written under that id
    timers: set<nat>,            // ids whose timeout is armed
    heartbeats: set<nat>,        // ids whose progress interval is running
    settled: seq<Settlement>,    // promises in the order in which they settled
    stderr: seq<string>)         // the lines the process has written to its error stream

  datatype Event =
    | Submit(message: string)
    | Start
    | Response(id: nat, success: bool, error: string)
    | AgentEnd(reply: Outcome)
    | TimerFires(id: nat)
    | HeartbeatTicks(id: nat)
    | WriteDone(id: nat, failure: Option<string>)
    | ProcessError(message: string)
    | ProcessClose
    | StderrLine(line: string)
    | Close

  const UNAVAILABLE := "pi process unavailable"
  const PROCESS_CLOSED := "pi process closed"
  const TIMED_OUT := "translation prompt timed out"

  const INITIAL := State(false, None, [], 0, [], [], {}, {}, [], [])

  function ErrorText(stderr: seq<string>): string {
    Trim(Join(stderr, "\n"))
  }

  /** A reason for a rejection, with what the process has said about it. */
  function WithErrors(reason: string, lead: string, stderr: seq<string>): string {
    if ErrorText(stderr) == "" then reason else reason + " (" + lead + ErrorText(stderr) + ")"
  }

  function TimeoutReason(stderr: seq<string>): string {
    WithErrors(TIMED_OUT, "pi stderr: ", stderr)
  }

  predicate IsSettled(settled: seq<Settlement>, ticket: nat) {
    exists i :: 0 <= i < |settled| && settled[i].ticket == ticket
  }

  /** A promise keeps its first settlement. */
  function Settle(settled: seq<Settlement>, ticket: nat, outcome: Outcome): seq<Settlement> {
    if IsSettled(settled, ticket) then settled else settled + [Settlement(ticket, outcome)]
  }

  function SettlePending(s: State, outcome: Outcome): State {
    match s.pending
    case None => s
    case Some(p) =>
      s.(pending := None, timers := s.timers - {p.id}, heartbeats := s.heartbeats - {p.id},
         settled := Settle(s.settled, p.ticket, outcome))
  }

  /** A body starts once the promise before it in the chain has settled; a timer
      only fires while it is armed; a write reports on a request that was written. */
  predicate Enabled(s: State, e: Event) {
    match e
    case Start => s.started < |s.messages| && (s.started == 0 || IsSettled(s.settled, s.started - 1))
    case TimerFires(id) => id in s.timers
    case HeartbeatTicks(id) => id in s.heartbeats
    case WriteDone(id, _) => 1 <= id <= |s.issued|
    case _ => true
  }

  function Step(s: State, e: Event): State
    requires Enabled(s, e)
  {
    match e
    case Submit(message) => s.(messages := s.messages + [message])
    case Start =>
      if s.closed then
        s.(started := s.started + 1, settled := Settle(s.settled, s.started, Rejected(WithErrors(UNAVAILABLE, "", s.stderr))))
      else
        var id := |s.issued| + 1;
        s.(started := s.started + 1, issued := s.issued + [s.started], written := s.written + [s.messages[s.started]],
           timers := s.timers + {id}, heartbeats := s.heartbeats + {id},
           pending := Some(PendingPrompt(id, s.started, false)))
    case Response(id, success, error) =>
      if s.pending.None? || s.pending.value.id != id then s
      else if !success then SettlePending(s, Rejected(error))
      else s.(pending := Some(s.pending.value.(responseReceived := true)))
    case AgentEnd(reply) => SettlePending(s, reply)
    case TimerFires(id) =>
      if s.pending.Some? && s.pending.value.id == id then
        SettlePending(s, Rejected(TimeoutReason(s.stderr))).(closed := true)
      else s.(timers := s.timers - {id})
    case HeartbeatTicks(_) => s
    case WriteDone(id, failure) =>
      if failure.None? then s
      else
        s.(timers := s.timers - {id}, heartbeats := s.heartbeats - {id},
           pending := if s.pending.Some? && s.pending.value.id == id then None else s.pending,
           settled := Settle(s.settled, s.issued[id - 1], Rejected(failure.value)))
    case ProcessError(message) => SettlePending(s, Rejected(message))
    case ProcessClose => SettlePending(s, Rejected(WithErrors(PROCESS_CLOSED, "", s.stderr))).(closed := true)
    case StderrLine(line) => s.(stderr := s.stderr + [line])
    case Close => s.(closed := true)
  }

  /** The histories a client can have, and the state each leads to. */
  ghost predicate Possible(events: seq<Event>)
    decreases |events|, 0
  {
    events == [] ||
    var earlier := events[..|events| - 1];
    Possible(earlier) && Enabled(After(earlier), events[|events| - 1])
  }

  ghost function After(events: seq<Event>): State
    requires Possible(events)
    decreases |events|, 1
  {
    if events == [] then INITIAL
    else Step(After(events[..|events| - 1]), events[|events| - 1])
  }

  ghost predicate Running(s: State) {
    |s.settled| < s.started
  }

  ghost predicate Inv(s: State) {
    && |s.settled| <= s.started <= |s.messages|
    && s.started <= |s.settled| + 1
    && (forall i :: 0 <= i < |s.settled| ==> s.settled[i].ticket == i)
    && (forall i :: 0 <= i < |s.issued| ==> s.issued[i] < s.started)
    && (forall i, j :: 0 <= i < j < |s.issued| ==> s.issued[i] < s.issued[j])
    && (s.pending.Some? <==> Running(s))
    && (s.pending.Some? ==>
          && s.pending.value.ticket == |s.settled|
          && s.pending.value.id == |s.issued| > 0
          && s.issued[|s.issued| - 1] == |s.settled|)
    && s.timers == s.heartbeats == (if s.pending.Some? then {s.pending.value.id} else {})
  }

  lemma TicketsInOrder(settled: seq<Settlement>)
    requires forall i :: 0 <= i < |settled| ==> settled[i].ticket == i
    ensures forall t: nat {:trigger IsSettled(settled, t)} :: IsSettled(settled, t) <==> t < |settled|
  {
    forall t: nat | t < |settled|
      ensures IsSettled(settled, t)
    {
      assert settled[t].ticket == t;
    }
  }

  lemma SettlingKeepsInv(s: State, outcome: Outcome)
    requires Inv(s)
    ensures Inv(SettlePending(s, outcome)) && SettlePending(s, outcome).pending.None?
  {
    TicketsInOrder(s.settled);
  }

  lemma StartKeepsInv(s: State)
    requires Inv(s) && Enabled(s, Start)
    ensures Inv(Step(s, Start))
  {
    TicketsInOrder(s.settled);
  }

  /** A write that fails is the pending one's, or that of a request which has settled. */
  lemma FailedWriteKeepsInv(s: State, id: nat, failure: string)
    requires Inv(s) && 1 <= id <= |s.issued|
    ensures Inv(Step(s, WriteDone(id, Some(failure))))
  {
    TicketsInOrder(s.settled);
    if s.pending.Some? && s.pending.value.id == id {
      SettlingKeepsInv(s, Rejected(failure));
      assert Step(s, WriteDone(id, Some(failure))) == SettlePending(s, Rejected(failure));
    } else {
      assert s.issued[id - 1] < |s.settled|;
    }
  }

  lemma StepKeepsInv(s: State, e: Event)
    requires Inv(s) && Enabled(s, e)
    ensures Inv(Step(s, e))
  {
    match e
    case Start => StartKeepsInv(s);
    case WriteDone(id, Some(failure)) => FailedWriteKeepsInv(s, id, failure);
    case Response(_, _, error) => SettlingKeepsInv(s, Rejected(error));
    case AgentEnd(reply) => SettlingKeepsInv(s, reply);
    case TimerFires(_) => SettlingKeepsInv(s, Rejected(TimeoutReason(s.stderr)));
    case ProcessError(message) => SettlingKeepsInv(s, Rejected(message));
    case ProcessClose => SettlingKeepsInv(s, Rejected(WithErrors(PROCESS_CLOSED, "", s.stderr)));
    case _ =>
  }

  lemma {:induction false} AlwaysInv(events: seq<Event>)
    requires Possible(events)
    ensures Inv(After(events))
  {
    if events != [] {
      AlwaysInv(events[..|events| - 1]);
      StepKeepsInv(After(events[..|events| - 1]), events[|events| - 1]);
    }
  }

  /** What is written under an id is the message of the call that got the id. */
  predicate WritesMessages(s: State) {
    && |s.written| == |s.issued|
    && forall i :: 0 <= i < |s.issued| ==> s.issued[i] < |s.messages| && s.written[i] == s.messages[s.issued[i]]
  }

  lemma StepWritesMessages(s: State, e: Event)
    requires WritesMessages(s) && Enabled(s, e)
    ensures WritesMessages(Step(s, e)) && s.messages <= Step(s, e).messages
  {
  }

  lemma {:induction false} AlwaysWritesMessages(events: seq<Event>)
    requires Possible(events)
    ensures WritesMessages(After(events))
  {
    if events != [] {
      AlwaysWritesMessages(events[..|events| - 1]);
      StepWritesMessages(After(events[..|events| - 1]), events[|events| - 1]);
    }
  }

  /** Every prefix of a history is a history. */
  lemma {:induction false} EarlierIsPossible(before: seq<Event>, after: seq<Event>)
    requires Possible(before + after)
    ensures Possible(before)
    decreases |after|
  {
    if after == [] {
      assert before + after == before;
    } else {
      assert (before + after)[..|before + after| - 1] == before + after[..|after| - 1];
      EarlierIsPossible(before, after[..|after| - 1]);
    }
  }

  /** At most one request is pending, and it is the oldest one not settled;
      requests settle in submission order; only its own timer and heartbeat live. */
  lemma SingleSlotInOrder(events: seq<Event>)
    requires Possible(events)
    ensures var s := After(events);
      && |s.settled| <= s.started <= |s.messages|
      && (forall i :: 0 <= i < |s.settled| ==> s.settled[i].ticket == i)
      && (forall t :: 0 <= t < |s.messages| ==> (IsSettled(s.settled, t) <==> t < |s.settled|))
      && (s.pending.Some? <==> |s.settled| < s.started)
      && (s.pending.Some? ==> s.pending.value.ticket == |s.settled| == s.started - 1)
      && s.timers == s.heartbeats == (if s.pending.Some? then {s.pending.value.id} else {})
  {
    AlwaysInv(events);
    var s := After(events);
    forall t | 0 <= t < |s.settled|
      ensures IsSettled(s.settled, t)
    {
      assert s.settled[t].ticket == t;
    }
  }

  lemma StepKeepsSettled(s: State, e: Event)
    requires Enabled(s, e)
    ensures s.settled <= Step(s, e).settled
  {
  }

  /** Whatever happens later, a settlement stands: no request settles twice. */
  lemma {:induction false} SettlementsStand(before: seq<Event>, after: seq<Event>)
    requires Possible(before + after) && Possible(before)
    ensures After(before).settled <= After(before + after).settled
    decreases |after|
  {
    if after == [] {
      assert before + after == before;
    } else {
      var front := after[..|after| - 1];
      LaterStep(before, after);
      SettlementsStand(before, front);
      StepKeepsSettled(After(before + front), after[|after| - 1]);
    }
  }

  lemma StepAfterClose(s: State, e: Event)
    requires Enabled(s, e) && s.closed
    ensures var t := Step(s, e);
      && t.closed && t.issued == s.issued
      && (t.pending.Some? ==> s.pending.Some? && t.pending.value.id == s.pending.value.id)
  {
  }

  lemma FrontOfWhole(before: seq<Event>, after: seq<Event>)
    requires after != []
    ensures var whole := before + after;
      whole[..|whole| - 1] == before + after[..|after| - 1] && whole[|whole| - 1] == after[|after| - 1]
  {
  }

  lemma LastStep(events: seq<Event>)
    requires events != [] && Possible(events)
    ensures var front, last := events[..|events| - 1], events[|events| - 1];
      Possible(front) && Enabled(After(front), last) && After(events) == Step(After(front), last)
  {
  }

  /** One event of the later part of a history. */
  lemma LaterStep(before: seq<Event>, after: seq<Event>)
    requires after != [] && Possible(before + after)
    ensures var front, last := before + after[..|after| - 1], after[|after| - 1];
      && Possible(front) && Enabled(After(front), last) && After(before + after) == Step(After(front), last)
  {
    FrontOfWhole(before, after);
    LastStep(before + after);
  }

  /** Once the client is closed nothing more is written: the wire ids are frozen and
      a request can only be pending if it already was when the client closed. */
  lemma {:induction false} NothingStartsAfterClose(before: seq<Event>, after: seq<Event>)
    requires Possible(before + after) && Possible(before) && After(before).closed
    ensures var s, t := After(before), After(before + after);
      && t.closed && t.issued == s.issued
      && (t.pending.Some? ==> s.pending.Some? && t.pending.value.id == s.pending.value.id)
    decreases |after|
  {
    if after == [] {
      assert before + after == before;
    } else {
      var front := after[..|after| - 1];
      LaterStep(before, after);
      NothingStartsAfterClose(before, front);
      StepAfterClose(After(before + front), after[|after| - 1]);
    }
  }

  /** A response, write report or timer that names a request other than the pending
      one changes nothing at all. */
  lemma LateEventsAreHarmless(events: seq<Event>, e: Event)
    requires Possible(events) && Enabled(After(events), e)
    requires e.Response? || e.WriteDone? || e.TimerFires?
    requires After(events).pending.Some? ==> After(events).pending.value.id != e.id
    ensures Step(After(events), e) == After(events)
  {
    AlwaysInv(events);
    var s := After(events);
    if e.WriteDone? {
      var ticket := s.issued[e.id - 1];
      assert ticket < |s.settled|;
      assert s.settled[ticket].ticket == ticket;
    }
  }

  /** While requests wait, one can start or the open one's timeout can fire; that
      starts or settles one. */
  lemma NextInQueue(s: State) returns (next: Event)
    requires Inv(s) && |s.settled| < |s.messages|
    ensures (next.Start? || next.TimerFires?) && Enabled(s, next)
    ensures var t := Step(s, next); t.messages == s.messages && t.started + |t.settled| > s.started + |s.settled|
  {
    next := if s.pending.Some? then TimerFires(s.pending.value.id) else Start;
    if s.started > 0 && s.pending.None? {
      assert s.settled[s.started - 1].ticket == s.started - 1;
    }
    TicketsInOrder(s.settled);
  }

  predicate OnlyTimeouts(events: seq<Event>) {
    forall i :: 0 <= i < |events| ==> events[i].Start? || events[i].TimerFires?
  }

  lemma OneThenRest(events: seq<Event>, next: Event, rest: seq<Event>)
    ensures events + ([next] + rest) == events + [next] + rest
    ensures OnlyTimeouts(rest) && (next.Start? || next.TimerFires?) ==> OnlyTimeouts([next] + rest)
  {
  }

  /** No request waits for ever: timers alone settle every submitted request. */
  lemma {:induction false} TimersDrainTheQueue(events: seq<Event>) returns (more: seq<Event>)
    requires Possible(events)
    ensures OnlyTimeouts(more) && Possible(events + more)
    ensures |After(events + more).messages| == |After(events).messages| == |After(events + more).settled|
    decreases 2 * |After(events).messages| - After(events).started - |After(events).settled|
  {
    AlwaysInv(events);
    if |After(events).settled| == |After(events).messages| {
      more := [];
      assert events + more == events;
    } else {
      var next := NextInQueue(After(events));
      Extend(events, next);
      AlwaysInv(events + [next]);
      var rest := TimersDrainTheQueue(events + [next]);
      more := [next] + rest;
      OneThenRest(events, next, rest);
    }
  }

  // ----- How a prompt ends -----

  /** What ends the request with this id: it is refused, a turn ends, its timeout fires,
      writing it fails, or the process fails or closes. */
  predicate EndsRequest(e: Event, id: nat) {
    || (e.Response? && e.id == id && !e.success)
    || e.AgentEnd?
    || (e.TimerFires? && e.id == id)
    || (e.WriteDone? && e.id == id && e.failure.Some?)
    || e.ProcessError?
    || e.ProcessClose?
  }

  /** A reason is followed by what the process wrote, trimmed and in parentheses, if it
      wrote anything but white space. */
  lemma ReasonsNameErrors(reason: string, lead: string, stderr: seq<string>) returns (before: string, said: string, after: string)
    ensures Join(stderr, "\n") == before + said + after && IsBlank(before) && IsBlank(after) && IsTrimmed(said)
    ensures WithErrors(reason, lead, stderr) == if said == "" then reason else reason + " (" + lead + said + ")"
  {
    before, after := TrimCuts(Join(stderr, "\n"));
    said := Trim(Join(stderr, "\n"));
  }

  /** What the caller learns from it, when the process has written `stderr` so far. */
  function Ending(e: Event, stderr: seq<string>): Outcome
    requires exists id: nat :: EndsRequest(e, id)
  {
    match e
    case AgentEnd(reply) => reply
    case Response(_, _, error) => Rejected(error)
    case WriteDone(_, failure) => Rejected(failure.value)
    case ProcessError(message) => Rejected(message)
    case TimerFires(_) => Rejected(WithErrors("translation prompt timed out", "pi stderr: ", stderr))
    case ProcessClose => Rejected(WithErrors("pi process closed", "", stderr))
  }

  predicate NoneEnds(events: seq<Event>, id: nat) {
    forall i :: 0 <= i < |events| ==> !EndsRequest(events[i], id)
  }

  predicate IsAccepted(events: seq<Event>, id: nat) {
    exists i :: 0 <= i < |events| && events[i].Response? && events[i].id == id && events[i].success
  }

  /** The lines of error output in a history. */
  function ErrorLines(events: seq<Event>): seq<string> {
    if events == [] then []
    else
      var last := events[|events| - 1];
      ErrorLines(events[..|events| - 1]) + (if last.StderrLine? then [last.line] else [])
  }

  lemma {:induction false} KeepsErrorLines(events: seq<Event>)
    requires Possible(events)
    ensures After(events).stderr == ErrorLines(events)
  {
    if events != [] {
      KeepsErrorLines(events[..|events| - 1]);
    }
  }

  lemma StepOnOpenRequest(s: State, e: Event)
    requires Inv(s) && Enabled(s, e) && s.pending.Some?
    ensures var t, p := Step(s, e), s.pending.value;
      if EndsRequest(e, p.id) then
        t.pending.None? && t.settled == s.settled + [Settlement(p.ticket, Ending(e, s.stderr))]
      else
        && t.settled == s.settled && t.pending.Some? && t.pending.value.id == p.id && t.pending.value.ticket == p.ticket
        && (t.pending.value.responseReceived <==> p.responseReceived || (e.Response? && e.id == p.id && e.success))
  {
    TicketsInOrder(s.settled);
  }

  lemma StartOnOpenClient(s: State)
    requires Inv(s) && Enabled(s, Start) && !s.closed
    ensures var t := Step(s, Start);
      && t.pending == Some(PendingPrompt(|s.issued| + 1, s.started, false)) && t.settled == s.settled
      && s.started == |s.settled|
  {
    TicketsInOrder(s.settled);
  }

  lemma AcceptedOf(events: seq<Event>, id: nat)
    requires events != []
    ensures var front, last := events[..|events| - 1], events[|events| - 1];
      && (IsAccepted(events, id) <==> IsAccepted(front, id) || (last.Response? && last.id == id && last.success))
      && (NoneEnds(events, id) <==> NoneEnds(front, id) && !EndsRequest(last, id))
  {
    assert forall i :: 0 <= i < |events| - 1 ==> events[..|events| - 1][i] == events[i];
  }

  /** A body that starts on an open client keeps the slot until the first event that ends
      its request, and remembers whether the prompt was accepted. */
  lemma {:induction false} PendingUntilEnded(before: seq<Event>, after: seq<Event>)
    requires Possible(before) && Enabled(After(before), Start) && !After(before).closed
    requires Possible(before + [Start] + after) && NoneEnds(after, |After(before).issued| + 1)
    ensures var s, t := After(before), After(before + [Start] + after);
      && t.pending == Some(PendingPrompt(|s.issued| + 1, s.started, IsAccepted(after, |s.issued| + 1)))
      && t.settled == s.settled && s.started == |s.settled|
    decreases |after|
  {
    AlwaysInv(before);
    Extend(before, Start);
    StartOnOpenClient(After(before));
    if after == [] {
      assert before + [Start] + after == before + [Start];
    } else {
      var front, id := after[..|after| - 1], |After(before).issued| + 1;
      LaterStep(before + [Start], after);
      AcceptedOf(after, id);
      PendingUntilEnded(before, front);
      AlwaysInv(before + [Start] + front);
      StepOnOpenRequest(After(before + [Start] + front), after[|after| - 1]);
    }
  }

  /** That event settles it, with what it says itself. */
  lemma FirstEndSettles(before: seq<Event>, after: seq<Event>, e: Event)
    requires Possible(before) && Enabled(After(before), Start) && !After(before).closed
    requires Possible(before + [Start] + after + [e])
    requires NoneEnds(after, |After(before).issued| + 1) && EndsRequest(e, |After(before).issued| + 1)
    ensures var s, t := After(before), After(before + [Start] + after + [e]);
      && t.pending.None?
      && t.settled == s.settled + [Settlement(s.started, Ending(e, ErrorLines(before + [Start] + after)))]
  {
    var whole := before + [Start] + after;
    FrontOfWhole(whole, [e]);
    assert [e][..0] == [] && whole + [] == whole;
    LastStep(whole + [e]);
    PendingUntilEnded(before, after);
    KeepsErrorLines(whole);
    AlwaysInv(whole);
    StepOnOpenRequest(After(whole), e);
  }

  /** A body that starts on a closed client is rejected. */
  lemma ClosedClientRejects(before: seq<Event>)
    requires Possible(before) && Enabled(After(before), Start) && After(before).closed
    ensures Possible(before + [Start])
    ensures After(before + [Start]).settled
         == After(before).settled + [Settlement(After(before).started, Rejected(WithErrors("pi process unavailable", "", ErrorLines(before))))]
  {
    AlwaysInv(before);
    Extend(before, Start);
    KeepsErrorLines(before);
    TicketsInOrder(After(before).settled);
  }

  /** The first event that ends the request with this id, at `k`. */
  predicate EndsFirstAt(events: seq<Event>, id: nat, k: int) {
    0 <= k < |events| && EndsRequest(events[k], id) && NoneEnds(events[..k], id)
  }

  lemma {:induction false} FirstEndOf(events: seq<Event>, id: nat) returns (k: int)
    requires !NoneEnds(events, id)
    ensures EndsFirstAt(events, id, k)
  {
    AcceptedOf(events, id);
    if NoneEnds(events[..|events| - 1], id) {
      k := |events| - 1;
    } else {
      k := FirstEndOf(events[..|events| - 1], id);
      assert events[..|events| - 1][..k] == events[..k];
    }
  }

  lemma OneFirstEnd(events: seq<Event>, id: nat, i: int, k: int)
    requires EndsFirstAt(events, id, i) && EndsFirstAt(events, id, k)
    ensures i == k
  {
    if i < k {
      NoneBefore(events, id, i, k);
    } else if k < i {
      NoneBefore(events, id, k, i);
    }
  }

  lemma NoneBefore(events: seq<Event>, id: nat, i: int, k: int)
    requires 0 <= i < k <= |events| && NoneEnds(events[..k], id)
    ensures !EndsRequest(events[i], id)
  {
    assert events[..k][i] == events[i];
  }

  lemma CutAtEnd(before: seq<Event>, after: seq<Event>, k: nat)
    requires k < |after|
    ensures before + [Start] + after == before + [Start] + after[..k] + [after[k]] + after[k + 1..]
  {
  }

  /** When does a prompt succeed, and with what? Exactly when a turn that ends well is the
      first thing to end its request, and with the text of that turn. */
  lemma PromptResolvesIff(before: seq<Event>, after: seq<Event>, text: string)
    requires Possible(before) && Enabled(After(before), Start) && !After(before).closed
    requires Possible(before + [Start] + after)
    ensures var settled, ticket, id := After(before + [Start] + after).settled, After(before).started, |After(before).issued| + 1;
      (ticket < |settled| && settled[ticket] == Settlement(ticket, Resolved(text))) <==>
        exists k :: EndsFirstAt(after, id, k) && after[k] == AgentEnd(Resolved(text))
  {
    var id, ticket := |After(before).issued| + 1, After(before).started;
    AlwaysInv(before);
    if NoneEnds(after, id) {
      PendingUntilEnded(before, after);
    } else {
      var k := FirstEndOf(after, id);
      SettledByFirstEnd(before, after, k);
      forall i | EndsFirstAt(after, id, i)
        ensures i == k
      {
        OneFirstEnd(after, id, i, k);
      }
    }
  }

  lemma SettledByFirstEnd(before: seq<Event>, after: seq<Event>, k: nat)
    requires Possible(before) && Enabled(After(before), Start) && !After(before).closed
    requires Possible(before + [Start] + after) && EndsFirstAt(after, |After(before).issued| + 1, k)
    ensures var settled, ticket := After(before + [Start] + after).settled, After(before).started;
      && ticket < |settled|
      && settled[ticket] == Settlement(ticket, Ending(after[k], ErrorLines(before + [Start] + after[..k])))
  {
    var upTo := before + [Start] + after[..k] + [after[k]];
    CutAtEnd(before, after, k);
    EarlierIsPossible(upTo, after[k + 1..]);
    FirstEndSettles(before, after[..k], after[k]);
    PendingUntilEnded(before, []) by {
      EarlierIsPossible(before + [Start], after);
      assert before + [Start] + [] == before + [Start];
    }
    SettlementsStand(upTo, after[k + 1..]);
  }

  /** When is a client closed? Once it was closed, its process closed, or a timeout fired
      for the request that was open. */
  predicate ClosesClient(s: State, e: Event) {
    e.Close? || e.ProcessClose? || (e.TimerFires? && s.pending.Some? && s.pending.value.id == e.id)
  }

  ghost predicate ClosesAt(events: seq<Event>, i: int) {
    0 <= i < |events| && Possible(events[..i]) && ClosesClient(After(events[..i]), events[i])
  }

  lemma StepCloses(s: State, e: Event)
    requires Enabled(s, e)
    ensures Step(s, e).closed <==> s.closed || ClosesClient(s, e)
  {
  }

  lemma ClosesEarlier(events: seq<Event>, i: int)
    requires events != []
    ensures var n := |events| - 1;
      ClosesAt(events, i) <==>
        ClosesAt(events[..n], i) || (i == n && Possible(events[..n]) && ClosesClient(After(events[..n]), events[n]))
  {
    var n := |events| - 1;
    if 0 <= i < n {
      assert events[..n][..i] == events[..i] && events[..n][i] == events[i];
    }
  }

  lemma {:induction false} ClosedIff(events: seq<Event>)
    requires Possible(events)
    ensures After(events).closed <==> exists i :: ClosesAt(events, i)
  {
    if events != [] {
      var n := |events| - 1;
      ClosedIff(events[..n]);
      LastStep(events);
      StepCloses(After(events[..n]), events[n]);
      forall i
        ensures ClosesAt(events, i) <==> ClosesAt(events[..n], i) || (i == n && ClosesClient(After(events[..n]), events[n]))
      {
        ClosesEarlier(events, i);
      }
      if ClosesClient(After(events[..n]), events[n]) {
        assert ClosesAt(events, n);
      }
    }
  }

  // ----- Whose answer is it? -----

  /** The `agent_end` messages a client has received, oldest first. */
  ghost function Replies(events: seq<Event>): seq<Outcome> {
    if events == [] then []
    else
      var e := events[|events| - 1];
      Replies(events[..|events| - 1]) + (if e.AgentEnd? then [e.reply] else [])
  }

  /** A peer that answers the prompts it was sent one by one and in order: its k-th
      `agent_end` comes after the k-th prompt was written. */
  ghost predicate AnswersInOrder(events: seq<Event>)
    requires Possible(events)
  {
    events == [] ||
    var earlier := events[..|events| - 1];
    && AnswersInOrder(earlier)
    && (events[|events| - 1].AgentEnd? ==> |Replies(earlier)| < |After(earlier).issued|)
  }

  ghost predicate AllResolved(settled: seq<Settlement>) {
    forall i :: 0 <= i < |settled| ==> settled[i].outcome.Resolved?
  }

  /** The caller's discipline: a client is given a new prompt only when all its
      earlier prompts have succeeded. */
  ghost predicate ResetOnFailure(events: seq<Event>)
    requires Possible(events)
  {
    events == [] ||
    var earlier := events[..|events| - 1];
    && ResetOnFailure(earlier)
    && (events[|events| - 1].Submit? ==>
          |After(earlier).messages| == |After(earlier).settled| && AllResolved(After(earlier).settled))
  }

  ghost predicate Matched(s: State, replies: seq<Outcome>) {
    && |s.messages| <= |s.settled| + 1
    && (forall i :: 0 <= i < |s.issued| ==> s.issued[i] == i)
    && (forall i :: 0 <= i < |s.settled| - 1 ==> s.settled[i].outcome.Resolved?)
    && (forall i :: 0 <= i < |s.settled| && s.settled[i].outcome.Resolved? ==>
          i < |s.issued| && i < |replies| && s.settled[i].outcome == replies[i])
    && (AllResolved(s.settled) ==> |replies| == |s.settled| && |s.issued| == s.started)
    && (!AllResolved(s.settled) ==> |s.messages| == |s.settled|)
  }

  /** An event settles at most the oldest unsettled request, and only an
      `agent_end` can make it succeed. */
  lemma StepSettles(s: State, e: Event)
    requires Inv(s) && Enabled(s, e)
    ensures var t := Step(s, e);
      || (t.settled == s.settled && (t.pending.Some? <==> e.Start? || s.pending.Some?))
      || (exists o :: t.settled == s.settled + [Settlement(|s.settled|, o)]
            && (o.Resolved? ==> e.AgentEnd? && o == e.reply && s.pending.Some?))
  {
    StepKeepsInv(s, e);
    var t := Step(s, e);
    if |t.settled| > |s.settled| {
      assert t.settled == s.settled + [Settlement(|s.settled|, t.settled[|s.settled|].outcome)];
    }
  }

  /** A step that settles nothing. */
  lemma MatchedKeeps(s: State, t: State, replies: seq<Outcome>, more: seq<Outcome>)
    requires Matched(s, replies) && t.settled == s.settled && |s.issued| <= |t.issued|
    requires forall i :: 0 <= i < |t.issued| ==> t.issued[i] == i
    requires replies <= more
    requires if AllResolved(s.settled) then more == replies && |t.issued| == t.started && |t.messages| <= |t.settled| + 1
             else |t.messages| == |s.messages|
    ensures Matched(t, more)
  {
  }

  /** A step that settles the one open request. */
  lemma MatchedSettles(s: State, t: State, replies: seq<Outcome>, more: seq<Outcome>, o: Outcome)
    requires Matched(s, replies) && AllResolved(s.settled) && t.settled == s.settled + [Settlement(|s.settled|, o)]
    requires t.issued == s.issued && |t.messages| == |t.settled|
    requires replies <= more
    requires o.Resolved? ==> more == replies + [o] && t.started == s.started == |t.settled|
    ensures Matched(t, more)
  {
    var n := |s.settled|;
    assert forall i :: 0 <= i < n ==> t.settled[i] == s.settled[i];
    assert t.settled[n].outcome == o;
    assert AllResolved(t.settled) <==> o.Resolved?;
    assert forall i :: 0 <= i < |replies| ==> more[i] == replies[i];
  }

  lemma MatchedStep(s: State, e: Event, replies: seq<Outcome>)
    requires Inv(s) && Enabled(s, e) && Matched(s, replies)
    requires e.AgentEnd? ==> |replies| < |s.issued|
    requires e.Submit? ==> |s.messages| == |s.settled| && AllResolved(s.settled)
    ensures Matched(Step(s, e), replies + (if e.AgentEnd? then [e.reply] else []))
  {
    var t, more := Step(s, e), replies + (if e.AgentEnd? then [e.reply] else []);
    StepSettles(s, e);
    StepIssues(s, e);
    if t.settled == s.settled {
      MatchedKeeps(s, t, replies, more);
    } else {
      var o :| t.settled == s.settled + [Settlement(|s.settled|, o)]
        && (o.Resolved? ==> e.AgentEnd? && o == e.reply && s.pending.Some?);
      MatchedSettles(s, t, replies, more, o);
    }
  }

  /** Only a call changes how many there are, and only a start on an open client issues an id. */
  lemma StepIssues(s: State, e: Event)
    requires Inv(s) && Enabled(s, e)
    ensures var t := Step(s, e);
      && |t.messages| == |s.messages| + (if e.Submit? then 1 else 0)
      && t.started == s.started + (if e.Start? then 1 else 0)
      && t.issued == s.issued + (if e.Start? && !s.closed then [s.started] else [])
      && (e.Start? ==> (t.settled == s.settled <==> !s.closed) && s.started == |s.settled|)
      && (t.settled != s.settled ==> e.Start? || s.started == |s.settled| + 1)
      && (e.AgentEnd? && s.pending.Some? ==> t.settled != s.settled)
  {
    assert s.issued + [] == s.issued;
    TicketsInOrder(s.settled);
  }

  lemma {:induction false} MatchedAlways(events: seq<Event>)
    requires Possible(events) && AnswersInOrder(events) && ResetOnFailure(events)
    ensures Matched(After(events), Replies(events))
  {
    if events != [] {
      var earlier := events[..|events| - 1];
      MatchedAlways(earlier);
      AlwaysInv(earlier);
      MatchedStep(After(earlier), events[|events| - 1], Replies(earlier));
    }
  }

  lemma MatchedAnswers(s: State, replies: seq<Outcome>, ticket: nat)
    requires Inv(s) && Matched(s, replies) && WritesMessages(s)
    requires ticket < |s.settled| && s.settled[ticket].outcome.Resolved?
    ensures ticket < |replies| && s.settled[ticket].outcome == replies[ticket]
    ensures ticket < |s.written| && ticket < |s.messages| && s.written[ticket] == s.messages[ticket]
  {
  }

  /** `agent_end` carries no request id, yet every prompt that succeeds gets the
      answer the peer gave to that very prompt: the k-th answer goes to the k-th
      call, whose message was the k-th to be written. */
  lemma AnswersReachTheirPrompt(events: seq<Event>, ticket: nat)
    requires Possible(events) && AnswersInOrder(events) && ResetOnFailure(events)
    requires ticket < |After(events).settled| && After(events).settled[ticket].outcome.Resolved?
    ensures ticket < |Replies(events)| && After(events).settled[ticket].outcome == Replies(events)[ticket]
    ensures ticket < |After(events).written| && ticket < |After(events).messages|
    ensures After(events).written[ticket] == After(events).messages[ticket]
  {
    MatchedAlways(events);
    AlwaysInv(events);
    AlwaysWritesMessages(events);
    MatchedAnswers(After(events), Replies(events), ticket);
  }

  lemma Extend(events: seq<Event>, e: Event)
    requires Possible(events) && Enabled(After(events), e)
    ensures Possible(events + [e])
    ensures After(events + [e]) == Step(After(events), e)
    ensures Replies(events + [e]) == Replies(events) + (if e.AgentEnd? then [e.reply] else [])
    ensures AnswersInOrder(events + [e]) <==>
      AnswersInOrder(events) && (e.AgentEnd? ==> |Replies(events)| < |After(events).issued|)
    ensures ResetOnFailure(events + [e]) <==>
      ResetOnFailure(events) && (e.Submit? ==>
        |After(events).messages| == |After(events).settled| && AllResolved(After(events).settled))
  {
    assert (events + [e])[..|events|] == events;
  }

  /** Asking a client that has nothing open makes the new request its only one. */
  lemma AskIsServedNext(s: State, message: string)
    requires Inv(s) && |s.messages| == |s.settled|
    ensures var asked := Step(s, Submit(message));
      && Enabled(asked, Start)
      && var begun := Step(asked, Start);
      && |begun.messages| == begun.started == |s.settled| + 1
      && s.settled <= begun.settled
      && (begun.settled == s.settled || !AllResolved(begun.settled))
  {
    var asked := Step(s, Submit(message));
    assert s.started > 0 ==> s.settled[s.started - 1].ticket == s.started - 1;
    var begun := Step(asked, Start);
    if begun.settled != s.settled {
      assert begun.settled[|s.settled|].outcome.Rejected?;
    }
  }

  /** The timeout of the pending request can always fire, and settles it. */
  lemma TimeoutSettles(s: State)
    requires Inv(s) && s.pending.Some?
    ensures Enabled(s, TimerFires(s.pending.value.id))
    ensures var t := Step(s, TimerFires(s.pending.value.id));
      && t.settled == s.settled + [Settlement(|s.settled|, Rejected(TimeoutReason(s.stderr)))]
      && |t.messages| == |s.messages| && t.pending.None? && t.closed
  {
    StepKeepsInv(s, TimerFires(s.pending.value.id));
  }

  lemma APromptCanBeRefused(message: string) returns (events: seq<Event>)
    ensures Possible(events) && AnswersInOrder(events) && Replies(events) == []
    ensures After(events) == State(false, None, [message], 1, [0], [message], {}, {}, [Settlement(0, Rejected("busy"))], [])
  {
    var asked := [Submit(message)];
    Extend([], Submit(message));
    assert [] + asked == asked;
    Extend(asked, Start);
    Extend(asked + [Start], Response(1, false, "busy"));
    events := asked + [Start] + [Response(1, false, "busy")];
  }

  lemma AskedAfterRefusal(first: string, second: string) returns (events: seq<Event>)
    ensures Possible(events) && AnswersInOrder(events) && !ResetOnFailure(events) && Replies(events) == []
    ensures After(events) == State(false, Some(PendingPrompt(2, 1, false)), [first, second], 2, [0, 1], [first, second],
                                   {2}, {2}, [Settlement(0, Rejected("busy"))], [])
  {
    var refused := APromptCanBeRefused(first);
    Extend(refused, Submit(second));
    var asked := refused + [Submit(second)];
    assert After(refused).settled[0].outcome.Rejected?;
    assert After(asked).settled[0].ticket == 0;
    Extend(asked, Start);
    events := asked + [Start];
  }

  /** The discipline is needed: keep using a client after the peer refused a
      prompt, and the refused prompt's late answer is taken for the next one's. */
  lemma AnswersCanBeSwappedWithoutReset(first: string, second: string, late: string) returns (events: seq<Event>)
    ensures Possible(events) && AnswersInOrder(events) && !ResetOnFailure(events)
    ensures After(events).settled == [Settlement(0, Rejected("busy")), Settlement(1, Resolved(late))]
    ensures Replies(events) == [Resolved(late)] && After(events).written == [first, second]
  {
    var written := AskedAfterRefusal(first, second);
    Extend(written, AgentEnd(Resolved(late)));
    events := written + [AgentEnd(Resolved(late))];
  }

  // ----- Which clients can be used again? -----

  /** An open client on which every prompt has settled. */
  ghost predicate IsQuiet(s: State) {
    !s.closed && |s.messages| == |s.settled|
  }

  /** The prompt's answer is the one the peer gave to the message written for it. */
  ghost predicate GotItsOwn(s: State, replies: seq<Outcome>, ticket: nat)
    requires ticket < |s.settled|
  {
    exists w :: 0 <= w < |s.issued| && s.issued[w] == ticket && w < |replies| && s.settled[ticket].outcome == replies[w]
  }

  /** `events` is a history of an in-order peer in which the prompt succeeded with an
      answer that is not its own. */
  ghost predicate TakesAnothers(events: seq<Event>, ticket: nat) {
    && Possible(events) && AnswersInOrder(events)
    && ticket < |After(events).settled| && After(events).settled[ticket].outcome.Resolved?
    && !GotItsOwn(After(events), Replies(events), ticket)
  }

  /** How prompt `n` and its answer stand if `w` messages had been written, and as many
      answers received, before it was asked. */
  ghost predicate OnCourse(s: State, replies: seq<Outcome>, n: nat, w: nat) {
    && (|s.settled| > n && s.settled[n].outcome.Resolved? ==> GotItsOwn(s, replies, n))
    && n <= |s.settled|
    && (|s.settled| == n ==> |replies| == w && |s.issued| == w + (if s.started > n then 1 else 0))
    && (|s.settled| == n && s.started > n ==> s.issued[w] == n)
  }

  lemma OwnAnswerStays(s: State, t: State, replies: seq<Outcome>, more: seq<Outcome>, n: nat)
    requires n < |s.settled| && s.settled <= t.settled && s.issued <= t.issued && replies <= more
    ensures GotItsOwn(s, replies, n) ==> GotItsOwn(t, more, n)
  {
    if GotItsOwn(s, replies, n) {
      var w :| 0 <= w < |s.issued| && s.issued[w] == n && w < |replies| && s.settled[n].outcome == replies[w];
      assert t.issued[w] == n && more[w] == replies[w] && t.settled[n] == s.settled[n];
    }
  }

  lemma StepStaysOnCourse(s: State, e: Event, replies: seq<Outcome>, n: nat, w: nat)
    requires Inv(s) && Enabled(s, e) && OnCourse(s, replies, n, w)
    requires e.AgentEnd? ==> |replies| < |s.issued|
    ensures OnCourse(Step(s, e), replies + (if e.AgentEnd? then [e.reply] else []), n, w)
  {
    var t, more := Step(s, e), replies + (if e.AgentEnd? then [e.reply] else []);
    StepSettles(s, e);
    StepIssues(s, e);
    StepKeepsInv(s, e);
    if |s.settled| > n {
      OwnAnswerStays(s, t, replies, more, n);
    } else if |t.settled| > n && t.settled[n].outcome.Resolved? {
      assert t.issued[w] == n && more[w] == t.settled[n].outcome;
    }
  }

  lemma LaterAnswer(before: seq<Event>, after: seq<Event>)
    requires after != [] && Possible(before + after) && AnswersInOrder(before + after)
    ensures var front, last := before + after[..|after| - 1], after[|after| - 1];
      && Possible(front) && Enabled(After(front), last) && After(before + after) == Step(After(front), last)
      && AnswersInOrder(front) && (last.AgentEnd? ==> |Replies(front)| < |After(front).issued|)
      && Replies(before + after) == Replies(front) + (if last.AgentEnd? then [last.reply] else [])
  {
    LaterStep(before, after);
    FrontOfWhole(before, after);
  }

  lemma {:induction false} StaysOnCourse(events: seq<Event>, more: seq<Event>)
    requires Possible(events) && IsQuiet(After(events)) && |Replies(events)| == |After(events).issued|
    requires Possible(events + more) && AnswersInOrder(events + more)
    ensures OnCourse(After(events + more), Replies(events + more), |After(events).settled|, |After(events).issued|)
    decreases |more|
  {
    AlwaysInv(events);
    if more == [] {
      assert events + more == events;
    } else {
      var front, last := more[..|more| - 1], more[|more| - 1];
      LaterAnswer(events, more);
      StaysOnCourse(events, front);
      AlwaysInv(events + front);
      StepStaysOnCourse(After(events + front), last, Replies(events + front), |After(events).settled|, |After(events).issued|);
    }
  }

  /** An answer that is still owed to an earlier prompt is taken for the next one's. */
  lemma OwedAnswerIsTaken(events: seq<Event>, message: string, late: string) returns (more: seq<Event>)
    requires Possible(events) && AnswersInOrder(events) && IsQuiet(After(events))
    requires |Replies(events)| < |After(events).issued|
    ensures more == [Submit(message), Start, AgentEnd(Resolved(late))]
    ensures TakesAnothers(events + more, |After(events).settled|)
  {
    AlwaysInv(events);
    AskIsServedNext(After(events), message);
    var asked := events + [Submit(message)];
    var begun := asked + [Start];
    Extend(events, Submit(message));
    Extend(asked, Start);
    AlwaysInv(begun);
    TicketsInOrder(After(begun).settled);
    Extend(begun, AgentEnd(Resolved(late)));
    var after := begun + [AgentEnd(Resolved(late))];
    AlwaysInv(after);
    more := [Submit(message), Start, AgentEnd(Resolved(late))];
    assert events + more == after;
  }

  /** When is it safe to use a client again? With a peer that answers in order, the next
      prompt of a quiet client can succeed with an answer that is not its own exactly
      when the peer still owes one. So a failure by `agent_end` does no harm, while a
      refusal or a failed write does. */
  lemma NextPromptIsUnsafeIff(events: seq<Event>)
    requires Possible(events) && AnswersInOrder(events) && IsQuiet(After(events))
    ensures (exists more :: TakesAnothers(events + more, |After(events).settled|))
       <==> |Replies(events)| < |After(events).issued|
  {
    NoMoreRepliesThanWritten(events);
    if |Replies(events)| < |After(events).issued| {
      var more := OwedAnswerIsTaken(events, "next", "late");
    } else {
      forall more
        ensures !TakesAnothers(events + more, |After(events).settled|)
      {
        if Possible(events + more) && AnswersInOrder(events + more) {
          StaysOnCourse(events, more);
        }
      }
    }
  }

  lemma {:induction false} NoMoreRepliesThanWritten(events: seq<Event>)
    requires Possible(events) && AnswersInOrder(events)
    ensures |Replies(events)| <= |After(events).issued|
  {
    if events != [] {
      var earlier := events[..|events| - 1];
      NoMoreRepliesThanWritten(earlier);
      AlwaysInv(earlier);
      StepIssues(After(earlier), events[|events| - 1]);
    }
  }

  /** Under the caller's discipline no answer is owed when a client is asked again. */
  lemma DisciplineOwesNothing(events: seq<Event>)
    requires Possible(events) && AnswersInOrder(events) && ResetOnFailure(events)
    requires |After(events).messages| == |After(events).settled| && AllResolved(After(events).settled)
    ensures |Replies(events)| == |After(events).issued|
  {
    MatchedAlways(events);
    AlwaysInv(events);
  }

  /** The client object. `history` records what has happened to it. */
  class PiRpcClient {
    var closed: bool
    var pending: Option<PendingPrompt>
    var messages: seq<string>
    var started: nat
    var issued: seq<nat>
    var written: seq<string>
    var timers: set<nat>
    var heartbeats: set<nat>
    var settled: seq<Settlement>
    var stderr: seq<string>
    ghost var history: seq<Event>

    function Now(): State
      reads this
    {
      State(closed, pending, messages, started, issued, written, timers, heartbeats, settled, stderr)
    }

    ghost predicate Valid()
      reads this
    {
      Possible(history) && Now() == After(history)
    }

    constructor ()
      ensures Valid() && history == []
    {
      closed, pending, messages, started := false, None, [], 0;
      issued, written, timers, heartbeats, settled, stderr := [], [], {}, {}, [], [];
      history := [];
    }

    /** Notes the event that has just changed the fields. */
    ghost method Record(e: Event)
      requires Possible(history) && Enabled(After(history), e) && Now() == Step(After(history), e)
      modifies this`history
      ensures Valid() && history == old(history) + [e] && Now() == old(Now())
    {
      Extend(history, e);
      history := history + [e];
    }

    /** `pending.resolve` and `pending.reject`: both stop the request's clocks first. */
    method SettleIfPending(outcome: Outcome)
      modifies this
      ensures Now() == SettlePending(old(Now()), outcome) && history == old(history)
    {
      var current := pending;
      pending := None;
      if current.Some? {
        timers := timers - {current.value.id};
        heartbeats := heartbeats - {current.value.id};
        settled := Settle(settled, current.value.ticket, outcome);
      }
    }

    /** A call to `prompt`, up to the point where it waits for its turn. */
    method SubmitPrompt(message: string) returns (ticket: nat)
      requires Valid()
      modifies this
      ensures Valid() && history == old(history) + [Submit(message)] && ticket == |old(messages)|
      ensures Now() == Step(old(Now()), Submit(message))
    {
      ticket := |messages|;
      messages := messages + [message];
      Record(Submit(message));
    }

    /** The body of the oldest waiting `prompt` call. */
    method StartPrompt()
      requires Valid() && Enabled(Now(), Start)
      modifies this
      ensures Valid() && history == old(history) + [Start]
      ensures Now() == Step(old(Now()), Start)
    {
      var ticket := started;
      started := started + 1;
      if closed {
        settled := Settle(settled, ticket, Rejected(WithErrors(UNAVAILABLE, "", stderr)));
      } else {
        issued := issued + [ticket];
        written := written + [messages[ticket]];
        var id: nat := |issued|;
        timers := timers + {id};
        heartbeats := heartbeats + {id};
        pending := Some(PendingPrompt(id, ticket, false));
      }
      Record(Start);
    }

    method HandleStdoutLine(line: Event)
      requires Valid() && (line.Response? || line.AgentEnd?)
      modifies this
      ensures Valid() && history == old(history) + [line]
      ensures Now() == Step(old(Now()), line)
    {
      if pending.Some? {
        match line
        case Response(id, success, error) =>
          if id == pending.value.id {
            if !success {
              SettleIfPending(Rejected(error));
            } else {
              pending := Some(pending.value.(responseReceived := true));
            }
          }
        case AgentEnd(reply) =>
          SettleIfPending(reply);
      }
      Record(line);
    }

    method HandleTimer(id: nat)
      requires Valid() && id in timers
      modifies this
      ensures Valid() && history == old(history) + [TimerFires(id)]
      ensures Now() == Step(old(Now()), TimerFires(id))
    {
      if pending.Some? && pending.value.id == id {
        SettleIfPending(Rejected(TimeoutReason(stderr)));
        closed := true;
      } else {
        timers := timers - {id};
      }
      Record(TimerFires(id));
    }

    /** The progress interval only logs. */
    method HandleHeartbeat(id: nat)
      requires Valid() && id in heartbeats
      modifies `history
      ensures Valid() && history == old(history) + [HeartbeatTicks(id)]
      ensures Now() == Step(old(Now()), HeartbeatTicks(id))
    {
      Record(HeartbeatTicks(id));
    }

    method HandleWriteDone(id: nat, failure: Option<string>)
      requires Valid() && 1 <= id <= |issued|
      modifies this
      ensures Valid() && history == old(history) + [WriteDone(id, failure)]
      ensures Now() == Step(old(Now()), WriteDone(id, failure))
    {
      if failure.Some? {
        timers := timers - {id};
        heartbeats := heartbeats - {id};
        if pending.Some? && pending.value.id == id {
          pending := None;
        }
        settled := Settle(settled, issued[id - 1], Rejected(failure.value));
      }
      Record(WriteDone(id, failure));
    }

    method HandleProcessError(message: string)
      requires Valid()
      modifies this
      ensures Valid() && history == old(history) + [ProcessError(message)]
      ensures Now() == Step(old(Now()), ProcessError(message))
    {
      SettleIfPending(Rejected(message));
      Record(ProcessError(message));
    }

    method HandleProcessClose()
      requires Valid()
      modifies this
      ensures Valid() && history == old(history) + [ProcessClose]
      ensures Now() == Step(old(Now()), ProcessClose)
    {
      closed := true;
      SettleIfPending(Rejected(WithErrors(PROCESS_CLOSED, "", stderr)));
      Record(ProcessClose);
    }

    method HandleStderrLine(line: string)
      requires Valid()
      modifies this
      ensures Valid() && history == old(history) + [StderrLine(line)]
      ensures Now() == Step(old(Now()), StderrLine(line))
    {
      stderr := stderr + [line];
      Record(StderrLine(line));
    }

    method CloseClient()
      requires Valid()
      modifies this
      ensures Valid() && history == old(history) + [Close]
      ensures Now() == Step(old(Now()), Close)
    {
      closed := true;
      Record(Close);
    }
  }
}
