/** The conversation of one locale run with its translators: clients are created
    when needed, prompted one prompt at a time and dropped after any failure
    (`scripts/control-ui-i18n.ts`, the `clientAccess` object of `syncLocale` and the
    `try` block of `translateBatch`).

    What arrives from outside is a `World`; what a run makes of it is a function of
    the world, which the methods at the end compute. */
module TranslationSession {
  import opened Options
  import opened RpcClient
  import opened Text
  import opened TranslationBatches

  /** What `JSON.parse` makes of an answer; only properties that are strings matter. */
  datatype Answer = NotAnObject(message: string) | Properties(values: map<string, string>)

  /** Everything outside the script, as arbitrary functions of the attempt number. */
  datatype World = World(
    boot: nat -> Option<string>,       // why the process could not be started, if it could not
    idle: nat -> seq<Event>,           // what reaches the client before the prompt is sent
    busy: nat -> seq<Event>,           // what reaches it afterwards, before the timeout
    render: seq<Item> -> string,       // the text of a prompt
    parse: string -> Answer)

  // ----- One prompt on one client -----

  /** A client with no open request and no failed one. */
  ghost predicate IsIdle(s: State) {
    |s.messages| == |s.settled| && AllResolved(s.settled)
  }

  /** A history in which each prompt was asked after successes only. */
  ghost predicate Orderly(history: seq<Event>) {
    Possible(history) && ResetOnFailure(history)
  }

  ghost predicate Ready(history: seq<Event>) {
    Orderly(history) && IsIdle(After(history))
  }

  predicate IsDelivery(e: Event) {
    !e.Submit? && !e.Start? && !e.Close?
  }

  /** The promises and calls of `before` are still there in `after`. */
  ghost predicate Grows(before: seq<Event>, after: seq<Event>) {
    && Orderly(before) && Orderly(after)
    && After(before).settled <= After(after).settled
    && After(before).messages <= After(after).messages
  }

  lemma DeliveryKeeps(history: seq<Event>, e: Event)
    requires Orderly(history) && IsDelivery(e) && Enabled(After(history), e)
    ensures Grows(history, history + [e])
    ensures After(history + [e]).messages == After(history).messages && After(history + [e]).started == After(history).started
  {
    Extend(history, e);
    StepKeepsSettled(After(history), e);
  }

  /** The history once `events` have reached the client, as far as they can happen. */
  ghost function Delivered(history: seq<Event>, events: seq<Event>): (r: seq<Event>)
    requires Orderly(history)
    ensures Orderly(r)
  {
    if events == [] then history
    else
      var earlier, e := Delivered(history, events[..|events| - 1]), events[|events| - 1];
      if IsDelivery(e) && Enabled(After(earlier), e) then
        DeliveryKeeps(earlier, e);
        earlier + [e]
      else earlier
  }

  lemma {:induction false} DeliveredKeeps(history: seq<Event>, events: seq<Event>)
    requires Orderly(history)
    ensures var r := Delivered(history, events);
      && Grows(history, r) && After(r).messages == After(history).messages && After(r).started == After(history).started
  {
    if events != [] {
      var earlier, e := Delivered(history, events[..|events| - 1]), events[|events| - 1];
      DeliveredKeeps(history, events[..|events| - 1]);
      if IsDelivery(e) && Enabled(After(earlier), e) {
        DeliveryKeeps(earlier, e);
      }
    }
  }

  lemma IdleStaysReady(history: seq<Event>, idle: seq<Event>)
    requires Ready(history)
    ensures Ready(Delivered(history, idle)) && After(Delivered(history, idle)).settled == After(history).settled
  {
    DeliveredKeeps(history, idle);
    AlwaysInv(Delivered(history, idle));
  }

  lemma AskingStarts(history: seq<Event>, message: string)
    requires Ready(history)
    ensures var asked, n := history + [Submit(message)] + [Start], |After(history).settled|;
      && Grows(history, asked) && After(asked).messages == After(history).messages + [message]
      && After(asked).started == n + 1
  {
    AlwaysInv(history);
    AskIsServedNext(After(history), message);
    Extend(history, Submit(message));
    Extend(history + [Submit(message)], Start);
  }

  /** The history after a call of `prompt` that is served at once. */
  ghost function Asked(history: seq<Event>, message: string): (r: seq<Event>)
    requires Ready(history)
    ensures Orderly(r)
  {
    AskingStarts(history, message);
    history + [Submit(message)] + [Start]
  }

  /** The timeout settles a request that nothing else has settled. */
  ghost function Awaited(history: seq<Event>): (r: seq<Event>)
    requires Orderly(history)
    ensures Orderly(r)
  {
    var s := After(history);
    if s.pending.None? then history
    else
      AlwaysInv(history);
      TimeoutSettles(s);
      Extend(history, TimerFires(s.pending.value.id));
      history + [TimerFires(s.pending.value.id)]
  }

  lemma AwaitedSettles(history: seq<Event>)
    requires Orderly(history) && After(history).started == |After(history).messages|
    ensures Grows(history, Awaited(history))
    ensures After(Awaited(history)).messages == After(history).messages
    ensures |After(Awaited(history)).settled| == |After(history).messages|
  {
    AlwaysInv(history);
    var s := After(history);
    if s.pending.Some? {
      TimeoutSettles(s);
      Extend(history, TimerFires(s.pending.value.id));
    }
  }

  /** The history after one prompt, from the call to its settlement. */
  ghost function Prompted(history: seq<Event>, idle: seq<Event>, message: string, busy: seq<Event>): (r: seq<Event>)
    requires Ready(history)
    ensures Orderly(r)
  {
    IdleStaysReady(history, idle);
    Awaited(Delivered(Asked(Delivered(history, idle), message), busy))
  }

  /** One prompt adds one message and one settlement. */
  lemma PromptedSettles(history: seq<Event>, idle: seq<Event>, message: string, busy: seq<Event>)
    requires Ready(history)
    ensures var r, n := Prompted(history, idle, message, busy), |After(history).settled|;
      && Grows(history, r) && After(r).messages == After(history).messages + [message]
      && |After(r).settled| == n + 1 == |After(r).messages|
  {
    IdleStaysReady(history, idle);
    DeliveredKeeps(history, idle);
    var ready := Delivered(history, idle);
    AskingStarts(ready, message);
    var asked := Asked(ready, message);
    DeliveredKeeps(asked, busy);
    AwaitedSettles(Delivered(asked, busy));
  }

  /** Everything that can happen to a client while the script waits. */
  ghost predicate CanArrive(history: seq<Event>, events: seq<Event>) {
    Possible(history + events) && forall i :: 0 <= i < |events| ==> !events[i].Submit? && !events[i].Start? && !events[i].Close?
  }

  lemma FrontArrives(history: seq<Event>, events: seq<Event>)
    requires CanArrive(history, events) && events != []
    ensures var front, e := events[..|events| - 1], events[|events| - 1];
      && history + events == history + front + [e]
      && CanArrive(history, front) && IsDelivery(e) && Enabled(After(history + front), e)
  {
    assert (history + events)[..|history + events| - 1] == history + events[..|events| - 1];
  }

  lemma {:induction false} EverythingArrives(history: seq<Event>, events: seq<Event>)
    requires Orderly(history) && CanArrive(history, events)
    ensures Delivered(history, events) == history + events
  {
    if events == [] {
      assert history + events == history;
    } else {
      FrontArrives(history, events);
      EverythingArrives(history, events[..|events| - 1]);
    }
  }

  /** A prompt is what arrives before it, the call, its start and what arrives then; if that
      leaves it open, its timeout is the end. */
  lemma PromptIsWhatHappens(history: seq<Event>, idle: seq<Event>, message: string, busy: seq<Event>)
    requires Ready(history) && CanArrive(history, idle) && CanArrive(history + idle + [Submit(message)] + [Start], busy)
    ensures var all := history + idle + [Submit(message)] + [Start] + busy;
      && Possible(all)
      && Prompted(history, idle, message, busy) ==
           if After(all).pending.None? then all else all + [TimerFires(After(all).pending.value.id)]
  {
    EverythingArrives(history, idle);
    IdleStaysReady(history, idle);
    EverythingArrives(Asked(history + idle, message), busy);
  }

  // ----- Reading an answer -----

  ghost function KeysOf(items: seq<Item>): set<string> {
    set i | 0 <= i < |items| :: items[i].key
  }

  function ReadAll(items: seq<Item>, values: map<string, string>): Result<map<string, string>> {
    if items == [] then Success(map[])
    else
      var earlier, key := ReadAll(items[..|items| - 1], values), items[|items| - 1].key;
      if earlier.Failure? then earlier
      else if key !in values || IsBlank(values[key]) then Failure("missing translation for " + key)
      else Success(earlier.value[key := values[key]])
  }

  /** What an attempt makes of the reply. */
  function Read(items: seq<Item>, reply: Outcome, parse: string -> Answer): Result<map<string, string>> {
    match reply
    case Rejected(message) => Failure(message)
    case Resolved(text) =>
      match parse(text)
      case NotAnObject(message) => Failure(message)
      case Properties(values) => ReadAll(items, values)
  }

  predicate HasText(values: map<string, string>, key: string) {
    key in values && !IsBlank(values[key])
  }

  /** The answer has a non-blank text for every key asked for. */
  predicate HasAll(items: seq<Item>, values: map<string, string>) {
    forall i :: 0 <= i < |items| ==> HasText(values, items[i].key)
  }

  /** The map holds just the keys asked for, with the answer's texts. */
  ghost predicate ReadsFrom(read: map<string, string>, items: seq<Item>, values: map<string, string>) {
    && read.Keys == KeysOf(items)
    && forall key :: key in read ==> HasText(values, key) && read[key] == values[key]
  }

  lemma KeysOfFront(items: seq<Item>)
    requires items != []
    ensures KeysOf(items) == KeysOf(items[..|items| - 1]) + {items[|items| - 1].key}
  {
    var front := items[..|items| - 1];
    forall key | key in KeysOf(items)
      ensures key in KeysOf(front) + {items[|items| - 1].key}
    {
      var i :| 0 <= i < |items| && items[i].key == key;
      assert i < |front| ==> front[i].key == key;
    }
  }

  lemma HasAllOfFront(items: seq<Item>, values: map<string, string>)
    requires items != []
    ensures HasAll(items, values) <==> HasAll(items[..|items| - 1], values) && HasText(values, items[|items| - 1].key)
  {
    assert forall i :: 0 <= i < |items| - 1 ==> items[..|items| - 1][i] == items[i];
  }

  lemma ReadsOneMore(
    read: map<string, string>, front: seq<Item>, items: seq<Item>, key: string, values: map<string, string>)
    requires ReadsFrom(read, front, values) && HasText(values, key) && KeysOf(items) == KeysOf(front) + {key}
    ensures ReadsFrom(read[key := values[key]], items, values)
  {
  }

  lemma {:induction false} ReadAllIff(items: seq<Item>, values: map<string, string>)
    ensures ReadAll(items, values).Success? <==> HasAll(items, values)
    ensures ReadAll(items, values).Success? ==> ReadsFrom(ReadAll(items, values).value, items, values)
  {
    if items != [] {
      var front, key := items[..|items| - 1], items[|items| - 1].key;
      ReadAllIff(front, values);
      HasAllOfFront(items, values);
      if HasAll(items, values) {
        KeysOfFront(items);
        ReadsOneMore(ReadAll(front, values).value, front, items, key, values);
      }
    }
  }

  /** An attempt succeeds exactly when the reply is an object with a non-blank text for
      every key, and reads just those. */
  lemma ReadIff(items: seq<Item>, reply: Outcome, parse: string -> Answer)
    ensures Read(items, reply, parse).Success? <==>
      reply.Resolved? && parse(reply.text).Properties? && HasAll(items, parse(reply.text).values)
    ensures Read(items, reply, parse).Success? ==>
      ReadsFrom(Read(items, reply, parse).value, items, parse(reply.text).values)
  {
    if reply.Resolved? && parse(reply.text).Properties? {
      ReadAllIff(items, parse(reply.text).values);
    }
  }

  /** Item `i` is the first whose key the answer has no text for. */
  predicate IsFirstGap(items: seq<Item>, values: map<string, string>, i: nat)
    requires i < |items|
  {
    !HasText(values, items[i].key) && forall j :: 0 <= j < i ==> HasText(values, items[j].key)
  }

  lemma {:induction false} FirstGapIsNamed(items: seq<Item>, values: map<string, string>) returns (i: nat)
    requires ReadAll(items, values).Failure?
    ensures i < |items| && IsFirstGap(items, values, i)
    ensures ReadAll(items, values).message == "missing translation for " + items[i].key
  {
    var front := items[..|items| - 1];
    if ReadAll(front, values).Failure? {
      i := FirstGapIsNamed(front, values);
    } else {
      i := |front|;
      ReadAllIff(front, values);
      assert forall j :: 0 <= j < i ==> front[j] == items[j] && HasText(values, front[j].key);
    }
  }

  /** An attempt that fails says why: as the prompt did, as the parser did, or with the
      first key that has no text. */
  lemma FailureIsNamed(items: seq<Item>, reply: Outcome, parse: string -> Answer)
    requires Read(items, reply, parse).Failure?
    ensures var message := Read(items, reply, parse).message;
      match reply
      case Rejected(reason) => message == reason
      case Resolved(text) =>
        match parse(text)
        case NotAnObject(reason) => message == reason
        case Properties(values) =>
          exists i :: 0 <= i < |items| && IsFirstGap(items, values, i) && message == "missing translation for " + items[i].key
  {
    if reply.Resolved? && parse(reply.text).Properties? {
      var i := FirstGapIsNamed(items, parse(reply.text).values);
    }
  }

  // ----- The session -----

  /** Which call of `prompt` on which client of the run. */
  datatype PromptId = PromptId(client: nat, ticket: nat)

  datatype Attempt = Attempt(items: seq<Item>, depth: nat, prompt: Option<PromptId>, reply: Outcome)

  /** What happened to each client so far, whether the last one is in use, and the
      attempts made. */
  datatype Session = Session(histories: seq<seq<Event>>, open: bool, log: seq<Attempt>)

  datatype Run<T> = Run(session: Session, result: Result<T>)

  const FRESH := Session([], false, [])

  ghost predicate Consistent(s: Session) {
    && (s.open ==> s.histories != [])
    && forall i {:trigger s.histories[i]} :: 0 <= i < |s.histories| ==> Orderly(s.histories[i])
  }

  /** Between attempts an open client has only succeeded so far. */
  ghost predicate Usable(s: Session) {
    Consistent(s) && (s.open ==> Ready(s.histories[|s.histories| - 1]))
  }

  lemma NewIsReady()
    ensures Ready([])
  {
  }

  /** The histories once a client is open. */
  ghost function WithClient(s: Session): (r: seq<seq<Event>>)
    requires Usable(s)
    ensures r != [] && Ready(r[|r| - 1]) && forall i {:trigger r[i]} :: 0 <= i < |r| ==> Orderly(r[i])
  {
    NewIsReady();
    if s.open then s.histories else s.histories + [[]]
  }

  lemma ClientIsReady(s: Session)
    requires Usable(s)
    ensures WithClient(s) != [] && Ready(WithClient(s)[|WithClient(s)| - 1])
  {
  }

  /** The client that is asked next is owed no answer. */
  lemma ClientOwesNothing(s: Session)
    requires Usable(s)
    ensures var h := WithClient(s)[|WithClient(s)| - 1];
      AnswersInOrder(h) ==> |Replies(h)| == |After(h).issued|
  {
    ClientIsReady(s);
    var h := WithClient(s)[|WithClient(s)| - 1];
    if AnswersInOrder(h) {
      DisciplineOwesNothing(h);
    }
  }

  datatype Asking = Asking(session: Session, prompt: Option<PromptId>, reply: Outcome)

  /** Gets a client and prompts it. */
  ghost function AskOf(world: World, s: Session, items: seq<Item>): (r: Asking)
    requires Usable(s)
    ensures Consistent(r.session) && r.session.log == s.log
  {
    var n := |s.log|;
    if !s.open && world.boot(n).Some? then Asking(s, None, Rejected(world.boot(n).value))
    else
      var hs := WithClient(s);
      var c := |hs| - 1;
      var h := Prompted(hs[c], world.idle(n), world.render(items), world.busy(n));
      var ticket := |After(hs[c]).settled|;
      PromptedSettles(hs[c], world.idle(n), world.render(items), world.busy(n));
      Asking(Session(hs[c := h], true, s.log), Some(PromptId(c, ticket)), After(h).settled[ticket].outcome)
  }

  /** What asking does once there is a client. */
  lemma AskWithClient(world: World, s: Session, items: seq<Item>)
    requires Usable(s) && (s.open || world.boot(|s.log|).None?)
    ensures var hs, n := WithClient(s), |s.log|;
      var c := |hs| - 1;
      var h, ticket := Prompted(hs[c], world.idle(n), world.render(items), world.busy(n)), |After(hs[c]).settled|;
      && ticket < |After(h).settled|
      && AskOf(world, s, items)
           == Asking(Session(hs[c := h], true, s.log), Some(PromptId(c, ticket)), After(h).settled[ticket].outcome)
  {
    var hs, n := WithClient(s), |s.log|;
    ClientIsReady(s);
    PromptedSettles(hs[|hs| - 1], world.idle(n), world.render(items), world.busy(n));
  }

  lemma LastReplaced(histories: seq<seq<Event>>, h: seq<Event>)
    requires histories != []
    ensures var after := histories[|histories| - 1 := h]; after != [] && after[|after| - 1] == h
  {
  }

  lemma AskEnds(world: World, s: Session, items: seq<Item>, history: seq<Event>, h: seq<Event>)
    requires Usable(s) && (s.open || world.boot(|s.log|).None?)
    requires Ready(history) && history == WithClient(s)[|WithClient(s)| - 1]
    requires h == Prompted(history, world.idle(|s.log|), world.render(items), world.busy(|s.log|))
    ensures var asking := AskOf(world, s, items);
      && asking.session.open && asking.session.histories != [] && asking.session.log == s.log
      && asking.session.histories[|asking.session.histories| - 1] == h
      && |After(history).settled| < |After(h).settled|
      && asking.reply == After(h).settled[|After(history).settled|].outcome
  {
    LastReplaced(WithClient(s), h);
    AskWithClient(world, s, items);
  }

  lemma ClosingKeeps(history: seq<Event>)
    requires Orderly(history)
    ensures Grows(history, history + [Close])
    ensures After(history + [Close]).settled == After(history).settled
  {
    Extend(history, Close);
  }

  /** The session once its client is closed and forgotten. */
  ghost function Closed(s: Session): (r: Session)
    requires Consistent(s)
    ensures Usable(r) && !r.open && r.log == s.log
  {
    if !s.open then s
    else
      var c := |s.histories| - 1;
      ClosingKeeps(s.histories[c]);
      Session(s.histories[c := s.histories[c] + [Close]], false, s.log)
  }

  ghost function Recorded(s: Session, a: Attempt): (r: Session)
    requires Consistent(s)
    ensures Consistent(r)
  {
    s.(log := s.log + [a])
  }

  /** A prompt that was answered leaves its client ready for the next. */
  lemma AnsweredIsReady(history: seq<Event>, idle: seq<Event>, message: string, busy: seq<Event>)
    requires Ready(history)
    requires var r, n := Prompted(history, idle, message, busy), |After(history).settled|;
      n < |After(r).settled| && After(r).settled[n].outcome.Resolved?
    ensures Ready(Prompted(history, idle, message, busy))
  {
    PromptedSettles(history, idle, message, busy);
    OneMoreResolved(After(history).settled, After(Prompted(history, idle, message, busy)).settled);
  }

  lemma OneMoreResolved(before: seq<Settlement>, after: seq<Settlement>)
    requires AllResolved(before) && before <= after && |after| == |before| + 1
    requires after[|before|].outcome.Resolved?
    ensures AllResolved(after)
  {
  }

  lemma AskedIsGood(world: World, s: Session, items: seq<Item>)
    requires Usable(s) && AskOf(world, s, items).reply.Resolved?
    ensures Usable(AskOf(world, s, items).session)
  {
    var hs, n := WithClient(s), |s.log|;
    PromptedSettles(hs[|hs| - 1], world.idle(n), world.render(items), world.busy(n));
    AnsweredIsReady(hs[|hs| - 1], world.idle(n), world.render(items), world.busy(n));
  }

  /** One pass through the `try` block, with the `catch` block's reset. */
  ghost function TryOf(world: World, s: Session, items: seq<Item>, depth: nat): (r: Run<map<string, string>>)
    requires Usable(s)
    ensures Usable(r.session) && |r.session.log| == |s.log| + 1
    ensures r.result.Failure? ==> !r.session.open
  {
    var asking := AskOf(world, s, items);
    var t := Recorded(asking.session, Attempt(items, depth, asking.prompt, asking.reply));
    var read := Read(items, asking.reply, world.parse);
    if read.Failure? then Run(Closed(t), read)
    else
      AskedIsGood(world, s, items);
      Run(t, read)
  }

  lemma TryEnds(world: World, s: Session, items: seq<Item>, depth: nat)
    requires Usable(s)
    ensures var asking, run := AskOf(world, s, items), TryOf(world, s, items, depth);
      && run.result == Read(items, asking.reply, world.parse)
      && run.session.log == s.log + [Attempt(items, depth, asking.prompt, asking.reply)]
      && Usable(run.session) && (run.result.Failure? ==> !run.session.open)
      && (run.result.Success? ==>
            run.session.histories == asking.session.histories && run.session.open == asking.session.open)
  {
    if Read(items, AskOf(world, s, items).reply, world.parse).Success? {
      AskedIsGood(world, s, items);
    }
  }

  // ----- Every answer belongs to its prompt -----

  /** The attempt's reply is what its own prompt settled with, a prompt that was asked
      with the attempt's keys; without a prompt it is the reason why there was no client. */
  ghost predicate Tied(world: World, histories: seq<seq<Event>>, i: nat, a: Attempt) {
    match a.prompt
    case None => world.boot(i).Some? && a.reply == Rejected(world.boot(i).value)
    case Some(id) =>
      && id.client < |histories| && Orderly(histories[id.client])
      && var s := After(histories[id.client]);
         && id.ticket < |s.settled| && s.settled[id.ticket].outcome == a.reply
         && id.ticket < |s.messages| && s.messages[id.ticket] == world.render(a.items)
  }

  ghost predicate AllTied(world: World, s: Session) {
    forall i {:trigger s.log[i]} :: 0 <= i < |s.log| ==> Tied(world, s.histories, i, s.log[i])
  }

  /** No two attempts share a prompt. */
  predicate OwnPrompts(log: seq<Attempt>) {
    forall i, j :: 0 <= i < j < |log| && log[i].prompt.Some? ==> log[i].prompt != log[j].prompt
  }

  ghost predicate Traceable(world: World, s: Session) {
    Usable(s) && AllTied(world, s) && OwnPrompts(s.log)
  }

  /** Histories that only grow keep every attempt tied. */
  ghost predicate AllGrow(before: seq<seq<Event>>, after: seq<seq<Event>>) {
    && |before| <= |after|
    && forall c {:trigger before[c]} :: 0 <= c < |before| && Orderly(before[c]) ==> Grows(before[c], after[c])
  }

  lemma StaysTied(world: World, before: seq<seq<Event>>, after: seq<seq<Event>>, i: nat, a: Attempt)
    requires Tied(world, before, i, a) && AllGrow(before, after)
    ensures Tied(world, after, i, a)
  {
    if a.prompt.Some? {
      var c := a.prompt.value.client;
      assert Grows(before[c], after[c]);
    }
  }

  lemma AskedGrows(world: World, s: Session, items: seq<Item>)
    requires Usable(s)
    ensures AllGrow(s.histories, AskOf(world, s, items).session.histories)
  {
    if s.open || world.boot(|s.log|).None? {
      var hs, n := WithClient(s), |s.log|;
      var c := |hs| - 1;
      PromptedSettles(hs[c], world.idle(n), world.render(items), world.busy(n));
      OneGrows(hs, c, Prompted(hs[c], world.idle(n), world.render(items), world.busy(n)));
      assert forall i :: 0 <= i < |s.histories| ==> s.histories[i] == hs[i];
    }
  }

  lemma OneGrows(histories: seq<seq<Event>>, c: nat, h: seq<Event>)
    requires c < |histories| && Grows(histories[c], h)
    ensures AllGrow(histories, histories[c := h])
  {
  }

  lemma ClosedGrows(s: Session)
    requires Consistent(s)
    ensures AllGrow(s.histories, Closed(s).histories)
  {
    if s.open {
      var c := |s.histories| - 1;
      ClosingKeeps(s.histories[c]);
      OneGrows(s.histories, c, s.histories[c] + [Close]);
    }
  }

  /** The next prompt of the open client is not one of the attempts so far. */
  lemma NextPromptIsNew(world: World, s: Session, i: nat)
    requires Traceable(world, s) && i < |s.log| && s.log[i].prompt.Some?
    ensures var hs := WithClient(s);
      s.log[i].prompt != Some(PromptId(|hs| - 1, |After(hs[|hs| - 1]).settled|))
  {
    assert Tied(world, s.histories, i, s.log[i]);
  }

  lemma AskedReplyIsTied(world: World, s: Session, items: seq<Item>, depth: nat)
    requires Traceable(world, s)
    ensures var asking := AskOf(world, s, items);
      Tied(world, asking.session.histories, |s.log|, Attempt(items, depth, asking.prompt, asking.reply))
  {
    if s.open || world.boot(|s.log|).None? {
      PromptedReplyIsTied(world, s, items, depth);
    } else {
      NoClientIsTied(world, s, items, depth);
    }
  }

  lemma NoClientIsTied(world: World, s: Session, items: seq<Item>, depth: nat)
    requires Usable(s) && !s.open && world.boot(|s.log|).Some?
    ensures var asking := AskOf(world, s, items);
      Tied(world, asking.session.histories, |s.log|, Attempt(items, depth, asking.prompt, asking.reply))
  {
  }

  /** With a client, the parts of what asking gives. */
  lemma AskedParts(world: World, s: Session, items: seq<Item>, hs: seq<seq<Event>>, c: nat, h: seq<Event>, ticket: nat)
    requires Usable(s) && (s.open || world.boot(|s.log|).None?)
    requires hs == WithClient(s) && c + 1 == |hs| && Ready(hs[c]) && ticket == |After(hs[c]).settled|
    requires h == Prompted(hs[c], world.idle(|s.log|), world.render(items), world.busy(|s.log|))
    ensures Orderly(h) && ticket < |After(h).settled|
    ensures var asking := AskOf(world, s, items);
      && asking.session.histories == hs[c := h] && asking.prompt == Some(PromptId(c, ticket))
      && asking.reply == After(h).settled[ticket].outcome
  {
    AskWithClient(world, s, items);
  }

  lemma PromptedReplyIsTied(world: World, s: Session, items: seq<Item>, depth: nat)
    requires Usable(s) && (s.open || world.boot(|s.log|).None?)
    ensures var asking := AskOf(world, s, items);
      Tied(world, asking.session.histories, |s.log|, Attempt(items, depth, asking.prompt, asking.reply))
  {
    var hs, n := WithClient(s), |s.log|;
    var c := |hs| - 1;
    ClientIsReady(s);
    var h, ticket := Prompted(hs[c], world.idle(n), world.render(items), world.busy(n)), |After(hs[c]).settled|;
    AskedParts(world, s, items, hs, c, h, ticket);
    PromptedMessage(hs[c], world.idle(n), world.render(items), world.busy(n));
    PromptIsTied(world, hs, c, h, ticket, n, items, depth, AskOf(world, s, items));
  }

  lemma PromptedMessage(history: seq<Event>, idle: seq<Event>, message: string, busy: seq<Event>)
    requires Ready(history)
    ensures var h, ticket := Prompted(history, idle, message, busy), |After(history).settled|;
      ticket < |After(h).messages| && After(h).messages[ticket] == message
  {
    PromptedSettles(history, idle, message, busy);
  }

  /** The attempt that a prompt on client `c` makes. */
  lemma PromptIsTied(
    world: World, hs: seq<seq<Event>>, c: nat, h: seq<Event>, ticket: nat, i: nat, items: seq<Item>, depth: nat, asking: Asking)
    requires c < |hs| && Orderly(h) && ticket < |After(h).settled| && ticket < |After(h).messages|
    requires After(h).messages[ticket] == world.render(items)
    requires asking.session.histories == hs[c := h]
    requires asking.prompt == Some(PromptId(c, ticket)) && asking.reply == After(h).settled[ticket].outcome
    ensures Tied(world, asking.session.histories, i, Attempt(items, depth, asking.prompt, asking.reply))
  {
    assert asking.session.histories[c] == h;
  }

  lemma AskedPromptIsNew(world: World, s: Session, items: seq<Item>, i: nat)
    requires Traceable(world, s) && i < |s.log| && s.log[i].prompt.Some?
    ensures s.log[i].prompt != AskOf(world, s, items).prompt
  {
    if s.open || world.boot(|s.log|).None? {
      AskWithClient(world, s, items);
      NextPromptIsNew(world, s, i);
    }
  }

  /** The new attempt is tied to its own, new prompt. */
  lemma AskedIsTied(world: World, s: Session, items: seq<Item>, depth: nat)
    requires Traceable(world, s)
    ensures var asking := AskOf(world, s, items);
      && Tied(world, asking.session.histories, |s.log|, Attempt(items, depth, asking.prompt, asking.reply))
      && forall i :: 0 <= i < |s.log| && s.log[i].prompt.Some? ==> s.log[i].prompt != asking.prompt
  {
    AskedReplyIsTied(world, s, items, depth);
    forall i | 0 <= i < |s.log| && s.log[i].prompt.Some?
      ensures s.log[i].prompt != AskOf(world, s, items).prompt
    {
      AskedPromptIsNew(world, s, items, i);
    }
  }

  /** An attempt leaves the session traceable: every reply recorded so far is the
      settlement of a prompt of its own. */
  lemma TryIsTraceable(world: World, s: Session, items: seq<Item>, depth: nat)
    requires Traceable(world, s)
    ensures Traceable(world, TryOf(world, s, items, depth).session)
  {
    var asking := AskOf(world, s, items);
    var a := Attempt(items, depth, asking.prompt, asking.reply);
    var t := Recorded(asking.session, a);
    var after := TryOf(world, s, items, depth).session;
    AskedGrows(world, s, items);
    AskedIsTied(world, s, items, depth);
    ClosedGrows(t);
    RecordedIsTied(world, s, t, after, a);
  }

  lemma ClosedIsTraceable(world: World, s: Session)
    requires Traceable(world, s)
    ensures Traceable(world, Closed(s))
  {
    ClosedGrows(s);
    forall i | 0 <= i < |s.log|
      ensures Tied(world, Closed(s).histories, i, s.log[i])
    {
      if s.open {
        StaysTied(world, s.histories, Closed(s).histories, i, s.log[i]);
      }
    }
  }

  lemma RecordedIsTied(world: World, s: Session, t: Session, after: Session, a: Attempt)
    requires AllTied(world, s) && t.log == s.log + [a] == after.log
    requires AllGrow(s.histories, t.histories) && Tied(world, t.histories, |s.log|, a)
    requires after == t || AllGrow(t.histories, after.histories)
    ensures AllTied(world, after)
  {
    forall i | 0 <= i < |after.log|
      ensures Tied(world, after.histories, i, after.log[i])
    {
      if i < |s.log| {
        assert after.log[i] == s.log[i];
        StaysTied(world, s.histories, t.histories, i, s.log[i]);
      }
      if after != t {
        StaysTied(world, t.histories, after.histories, i, after.log[i]);
      }
    }
  }

  // ----- The script's own code -----

  /** The callback for one event. */
  method Dispatch(c: PiRpcClient, e: Event)
    requires c.Valid() && IsDelivery(e) && Enabled(c.Now(), e)
    modifies c
    ensures c.Valid() && c.history == old(c.history) + [e]
  {
    match e
    case Response(_, _, _) => c.HandleStdoutLine(e);
    case AgentEnd(_) => c.HandleStdoutLine(e);
    case TimerFires(id) => c.HandleTimer(id);
    case HeartbeatTicks(id) => c.HandleHeartbeat(id);
    case WriteDone(id, failure) => c.HandleWriteDone(id, failure);
    case ProcessError(message) => c.HandleProcessError(message);
    case ProcessClose => c.HandleProcessClose();
    case StderrLine(line) => c.HandleStderrLine(line);
  }

  /** Passes on what happens to a client while the script waits. */
  method Deliver(c: PiRpcClient, events: seq<Event>)
    requires c.Valid() && Orderly(c.history)
    modifies c
    ensures c.Valid() && c.history == Delivered(old(c.history), events)
  {
    assert events[..0] == [];
    for i := 0 to |events|
      invariant c.Valid() && c.history == Delivered(old(c.history), events[..i])
    {
      var e := events[i];
      assert events[..i + 1][..i] == events[..i];
      if IsDelivery(e) && Enabled(c.Now(), e) {
        Dispatch(c, e);
      }
    }
    assert events[..|events|] == events;
  }

  /** Queues a prompt on a client that has none open, and starts it. */
  method BeginPrompt(c: PiRpcClient, message: string)
    requires c.Valid() && Ready(c.history)
    modifies c
    ensures c.Valid() && c.history == Asked(old(c.history), message)
  {
    AlwaysInv(c.history);
    AskIsServedNext(c.Now(), message);
    Extend(c.history, Submit(message));
    var ticket := c.SubmitPrompt(message);
    c.StartPrompt();
  }

  /** Waits for the open request: it settles by itself or its timeout settles it. */
  method AwaitPrompt(c: PiRpcClient)
    requires c.Valid() && Orderly(c.history)
    modifies c
    ensures c.Valid() && c.history == Awaited(old(c.history))
  {
    AlwaysInv(c.history);
    if c.pending.Some? {
      TimeoutSettles(c.Now());
      c.HandleTimer(c.pending.value.id);
    }
  }

  /** One prompt on one client, from the call to its settlement. */
  method Prompt(c: PiRpcClient, idle: seq<Event>, message: string, busy: seq<Event>) returns (reply: Outcome)
    requires c.Valid() && Ready(c.history)
    modifies c
    ensures c.Valid() && c.history == Prompted(old(c.history), idle, message, busy)
    ensures c.settled == After(c.history).settled && |c.settled| == |old(c.settled)| + 1
    ensures reply == c.settled[|old(c.settled)|].outcome
  {
    PromptedSettles(c.history, idle, message, busy);
    IdleStaysReady(c.history, idle);
    Deliver(c, idle);
    BeginPrompt(c, message);
    Deliver(c, busy);
    AwaitPrompt(c);
    reply := c.settled[|c.settled| - 1].outcome;
  }

  /** Reads the translations of exactly the batch's keys out of an answer. */
  method ReadAnswer(items: seq<Item>, reply: Outcome, parse: string -> Answer)
    returns (r: Result<map<string, string>>)
    ensures r == Read(items, reply, parse)
    ensures r.Success? <==> reply.Resolved? && parse(reply.text).Properties? && HasAll(items, parse(reply.text).values)
  {
    ReadIff(items, reply, parse);
    if reply.Rejected? {
      return Failure(reply.message);
    }
    var answer := parse(reply.text);
    if answer.NotAnObject? {
      return Failure(answer.message);
    }
    var translated: map<string, string> := map[];
    for i := 0 to |items|
      invariant ReadAll(items[..i], answer.values) == Success(translated)
    {
      var key := items[i].key;
      assert items[..i + 1][..i] == items[..i];
      if key !in answer.values || IsBlank(answer.values[key]) {
        FirstGapStands(items, answer.values, i + 1);
        return Failure("missing translation for " + key);
      }
      translated := translated[key := answer.values[key]];
    }
    assert items[..|items|] == items;
    return Success(translated);
  }

  /** The first key without a text decides how reading fails. */
  lemma {:induction false} FirstGapStands(items: seq<Item>, values: map<string, string>, n: nat)
    requires n <= |items| && ReadAll(items[..n], values).Failure?
    ensures ReadAll(items, values) == ReadAll(items[..n], values)
    decreases |items|
  {
    if n == |items| {
      assert items[..n] == items;
    } else {
      var front := items[..|items| - 1];
      assert front[..n] == items[..n];
      FirstGapStands(front, values, n);
    }
  }

  /** Holds the one client of a locale run and replaces it when asked to. */
  class ClientAccess {
    const world: World
    var client: PiRpcClient?
    var attempts: nat
    ghost var session: Session

    /** The object is where its session is. */
    ghost predicate Agrees()
      reads this, client
    {
      && |session.log| == attempts && (client != null <==> session.open)
      && (client != null ==>
            session.histories != [] && client.Valid() && client.history == session.histories[|session.histories| - 1])
    }

    ghost predicate Valid()
      reads this, client
    {
      Traceable(world, session) && Agrees()
    }

    constructor (world: World)
      ensures Valid() && this.world == world && client == null && session == FRESH
    {
      this.world := world;
      client, attempts, session := null, 0, FRESH;
    }

    method GetClient() returns (failure: Option<string>)
      requires Usable(session) && Agrees()
      modifies this
      ensures Agrees() && attempts == old(attempts)
      ensures failure.Some? <==> !old(session).open && world.boot(attempts).Some?
      ensures failure.Some? ==> failure == world.boot(attempts) && session == old(session) && client == null
      ensures failure.None? ==> session == Session(WithClient(old(session)), true, old(session).log)
      ensures client != null ==> client == old(client) || fresh(client)
    {
      failure := None;
      if client == null {
        failure := world.boot(attempts);
        if failure.None? {
          client := new PiRpcClient();
          session := Session(session.histories + [[]], true, session.log);
        }
      }
    }

    method ResetClient()
      requires Consistent(session) && Agrees()
      modifies this, client
      ensures Agrees() && session == Closed(old(session)) && client == null && attempts == old(attempts)
    {
      if client != null {
        ghost var c := |session.histories| - 1;
        client.CloseClient();
        session := Session(session.histories[c := client.history], false, session.log);
        client := null;
      }
    }

    /** Prompts the open client. */
    method PromptClient(items: seq<Item>) returns (reply: Outcome, ghost prompt: Option<PromptId>)
      requires Agrees() && client != null && Ready(client.history)
      modifies this, client
      ensures Agrees() && attempts == old(attempts) && client == old(client)
      ensures var hs, n := old(session.histories), attempts;
        var c := |hs| - 1;
        var h, ticket := Prompted(hs[c], world.idle(n), world.render(items), world.busy(n)), |After(hs[c]).settled|;
        && ticket < |After(h).settled| && prompt == Some(PromptId(c, ticket)) && reply == After(h).settled[ticket].outcome
        && session == Session(hs[c := h], true, old(session.log))
    {
      ghost var c := |session.histories| - 1;
      prompt := Some(PromptId(c, |client.settled|));
      reply := Prompt(client, world.idle(attempts), world.render(items), world.busy(attempts));
      session := Session(session.histories[c := client.history], true, session.log);
    }

    /** Gets a client and prompts it. */
    method Ask(items: seq<Item>) returns (reply: Outcome, ghost prompt: Option<PromptId>)
      requires Usable(session) && Agrees()
      modifies this, client
      ensures Agrees() && attempts == old(attempts)
      ensures Asking(session, prompt, reply) == AskOf(world, old(session), items)
      ensures client != null ==> client == old(client) || fresh(client)
    {
      var failure := GetClient();
      if failure.Some? {
        return Rejected(failure.value), None;
      }
      ClientIsReady(old(session));
      AskWithClient(world, old(session), items);
      reply, prompt := PromptClient(items);
    }

    /** One pass through the `try` block, with the `catch` block's reset. */
    method TryOnce(items: seq<Item>, depth: nat) returns (r: Result<map<string, string>>)
      requires Valid()
      modifies this, client
      ensures Valid() && Run(session, r) == TryOf(world, old(session), items, depth)
      ensures client != null ==> client == old(client) || fresh(client)
    {
      TryIsTraceable(world, session, items, depth);
      ghost var prompt;
      var reply;
      reply, prompt := Ask(items);
      r := ReadAnswer(items, reply, world.parse);
      session := Recorded(session, Attempt(items, depth, prompt, reply));
      attempts := attempts + 1;
      if r.Failure? {
        ResetClient();
      }
    }
  }
}
