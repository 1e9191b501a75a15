/** What the whole of `syncLocale` does, conversation and files together: whose texts it
    stores, when it succeeds and what a second run finds (`scripts/control-ui-i18n.ts`). */
module LocaleRun {
  import opened Options
  import opened Sorting
  import opened RpcClient
  import opened TranslationTree
  import opened TranslationBatches
  import opened TranslationSession
  import opened BatchTranslation
  import opened LocaleSync
  import opened LocaleSyncFixpoint

  // ----- Whose answer is it? -----

  /** The attempt asked for the key, and its peer, if it ends its turns in order,
      answered the very message of the attempt, as it was written, with this text. */
  ghost predicate GivenBy(world: World, s: Session, a: Attempt, key: string, text: string) {
    && Says(a, world.parse, key, text)
    && a.prompt.Some? && a.prompt.value.client < |s.histories|
    && var h, t := s.histories[a.prompt.value.client], a.prompt.value.ticket;
       && Orderly(h)
       && (AnswersInOrder(h) ==>
             && t < |Replies(h)| && Replies(h)[t] == a.reply
             && t < |After(h).written| && After(h).written[t] == world.render(a.items))
  }

  ghost predicate Given(world: World, s: Session, from: nat, key: string, text: string) {
    exists i :: from <= i < |s.log| && GivenBy(world, s, s.log[i], key, text)
  }

  /** In a traceable session every answer that was read is the peer's answer to the prompt of
      its attempt, although an answer names no prompt and clients come and go. */
  lemma AnswersReachTheirPrompts(world: World, s: Session, i: nat, key: string, text: string)
    requires Traceable(world, s) && i < |s.log| && Says(s.log[i], world.parse, key, text)
    ensures GivenBy(world, s, s.log[i], key, text)
  {
    var a := s.log[i];
    assert Tied(world, s.histories, i, a);
    var h, t := s.histories[a.prompt.value.client], a.prompt.value.ticket;
    if AnswersInOrder(h) {
      AnswersReachTheirPrompt(h, t);
    }
  }

  lemma GivenAt(world: World, s: Session, from: nat, i: nat, key: string, text: string)
    requires from <= i < |s.log| && GivenBy(world, s, s.log[i], key, text)
    ensures Given(world, s, from, key, text)
  {
  }

  /** Every text that translating the pending keys gives was given by a peer for its key. */
  lemma AnswersAreThePeers(world: World, s: Session, run: Run<seq<string>>, items: seq<Item>, i: nat)
    requires Answered(world, s, run, items) && run.result.Success? && i < |items|
    ensures |run.result.value| == |items|
    ensures Given(world, run.session, |s.log|, items[i].key, run.result.value[i])
  {
    assert IsAnswered(items[i], run.result.value[i], Made(s, run.session), world.parse);
    SaidIsGiven(world, s, run.session, items[i].key, run.result.value[i]);
  }

  lemma SaidIsGiven(world: World, s: Session, t: Session, key: string, text: string)
    requires Traceable(world, t) && s.log <= t.log && SaidIn(Made(s, t), world.parse, key, text)
    ensures Given(world, t, |s.log|, key, text)
  {
    var i := SaidAt(s, t, world.parse, key, text);
    AnswersReachTheirPrompts(world, t, i, key, text);
    GivenAt(world, t, |s.log|, i, key, text);
  }

  lemma SaidAt(s: Session, t: Session, parse: string -> Answer, key: string, text: string) returns (i: nat)
    requires s.log <= t.log && SaidIn(Made(s, t), parse, key, text)
    ensures |s.log| <= i < |t.log| && Says(t.log[i], parse, key, text)
  {
    var j :| 0 <= j < |Made(s, t)| && Says(Made(s, t)[j], parse, key, text);
    i := |s.log| + j;
    assert t.log[i] == Made(s, t)[j];
  }

  // ----- Where the answers go -----

  /** The pending items stand for different keys. */
  predicate DifferentKeys(items: seq<Item>) {
    forall i, j :: 0 <= i < j < |items| ==> items[i].key != items[j].key
  }

  ghost predicate ComesFromSource(inp: Inputs, entries: seq<Entry>, item: Item) {
    exists i :: 0 <= i < |entries| && item == ItemOf(inp, entries[i])
  }

  ghost predicate PendingFrom(inp: Inputs, entries: seq<Entry>, pending: seq<Item>) {
    && DifferentKeys(pending)
    && forall i :: 0 <= i < |pending| ==> ComesFromSource(inp, entries, pending[i])
  }

  lemma ScanKeyPending(inp: Inputs, s: Progress, e: Entry)
    ensures var pending := ScanKey(inp, s, e).pending; pending == s.pending || pending == s.pending + [ItemOf(inp, e)]
  {
  }

  lemma OneMorePending(inp: Inputs, entries: seq<Entry>, pending: seq<Item>, e: Entry)
    requires PendingFrom(inp, entries, pending) && forall i :: 0 <= i < |entries| ==> entries[i].key != e.key
    ensures PendingFrom(inp, entries + [e], pending) && PendingFrom(inp, entries + [e], pending + [ItemOf(inp, e)])
  {
    var more := entries + [e];
    forall i | 0 <= i < |pending|
      ensures ComesFromSource(inp, more, pending[i]) && pending[i].key != e.key
    {
      assert ComesFromSource(inp, entries, pending[i]);
      var k :| 0 <= k < |entries| && pending[i] == ItemOf(inp, entries[k]);
      assert more[k] == entries[k];
    }
    assert more[|entries|] == e;
  }

  lemma {:induction false} PendingAreSourceKeys(inp: Inputs, tm: seq<TmEntry>, entries: seq<Entry>)
    requires DistinctKeys(entries)
    ensures PendingFrom(inp, entries, Scan(inp, tm, entries).pending)
  {
    if entries != [] {
      var n := |entries| - 1;
      PendingAreSourceKeys(inp, tm, entries[..n]);
      assert entries == entries[..n] + [entries[n]];
      ScanKeyPending(inp, Scan(inp, tm, entries[..n]), entries[n]);
      OneMorePending(inp, entries[..n], Scan(inp, tm, entries[..n]).pending, entries[n]);
    }
  }

  lemma {:induction false} StoredIsKept(inp: Inputs, s: Progress, values: seq<string>, clock: nat -> string, i: nat)
    requires |values| <= |s.pending| && i < |values| && DifferentKeys(s.pending)
    ensures var next := Store(inp, s, values, clock).next;
      s.pending[i].key in next && next[s.pending[i].key] == values[i]
  {
    var n := |values| - 1;
    if i < n {
      StoredIsKept(inp, s, values[..n], clock, i);
    }
  }

  lemma {:induction false} StoredKeys(inp: Inputs, s: Progress, values: seq<string>, clock: nat -> string)
    requires |values| == |s.pending| && DifferentKeys(s.pending)
    ensures forall item <- s.pending :: item.key in Store(inp, s, values, clock).next
  {
    forall item | item in s.pending
      ensures item.key in Store(inp, s, values, clock).next
    {
      var i :| 0 <= i < |s.pending| && s.pending[i] == item;
      StoredIsKept(inp, s, values, clock, i);
    }
  }

  /** With a provider, the resolution has for each pending key the text it was answered. */
  lemma AnswersAreResolved(
    site: Site, env: Env, mode: Mode, source: Source, disk: Disk, values: seq<string>, clock: nat -> string, i: nat)
    requires DistinctKeys(source.entries) && Answers(site, env, source, disk, values) && env.allowTranslate && i < |values|
    ensures var item, next := FirstPass(site, env, source, disk).pending[i], Resolve(site, env, mode, source, disk, values, clock).next;
      item.key in next && next[item.key] == values[i]
  {
    var inp, scan := InputsOf(site, env, disk), FirstPass(site, env, source, disk);
    PendingAreSourceKeys(inp, LoadedTm(disk), source.entries);
    StoredKeys(inp, scan, values, clock);
    FallBackIdle(inp, mode.force, Store(inp, scan, values, clock), scan.pending);
    StoredIsKept(inp, scan, values, clock, i);
  }

  // ----- The whole run -----

  /** What the theorems below assume of a run. */
  ghost predicate Runs(site: Site, env: Env, source: Source) {
    GoodRun(site, env, source) && TotalPreorder(site.localeLe) && Addressable(source.entries) && env.budget > 0.0
  }

  /** A run asks at most four prompts per pending key, each of them its own, keeps every
      earlier attempt, and asks none without a provider or pending keys. */
  lemma RunIsFrugal(
    world: World, s: Session, site: Site, env: Env, mode: Mode, source: Source, disk: Disk, clock: nat -> string)
    requires Traceable(world, s) && !s.open && env.budget > 0.0
    ensures var run, pending := RunOf(world, s, site, env, mode, source, disk, clock), FirstPass(site, env, source, disk).pending;
      && Traceable(world, run.session) && !run.session.open && s.log <= run.session.log
      && |Made(s, run.session)| <= 4 * |pending|
      && (!env.allowTranslate || pending == [] ==> run.session == s)
  {
    AnswersFit(world, s, site, env, source, disk);
  }

  /** The replies that the prompts of this run received form a successful course: every
      batch got a good answer, after at most one failure each for it or its halves. */
  ghost predicate RepliesSuffice(world: World, s: Session, run: Session, pending: seq<Item>, budget: real)
    requires |s.log| <= |run.log|
  {
    PackIsOptimal(pending, budget);
    RunCourse(Pack(pending, budget), Verdicts(Made(s, run), world.parse), true)
  }

  lemma AskedSucceedsIff(world: World, s: Session, pending: seq<Item>, budget: real)
    requires Traceable(world, s)
    ensures var run := TranslationOf(world, s, pending, budget);
      && s.log <= run.session.log
      && (run.result.Success? <==> RepliesSuffice(world, s, run.session, pending, budget))
  {
    PackIsOptimal(pending, budget);
    AnswersSucceedIff(world, s, Pack(pending, budget));
  }

  /** When does a run succeed? Exactly when the replies it received suffice, if it had to
      ask at all, and the placeholders agree. A run that fails changes no file. */
  lemma RunSucceedsIff(
    world: World, s: Session, site: Site, env: Env, mode: Mode, source: Source, disk: Disk, clock: nat -> string)
    requires Traceable(world, s) && !s.open && env.budget > 0.0
    ensures var answers, run := AnswersFor(world, s, site, env, source, disk), RunOf(world, s, site, env, mode, source, disk, clock);
      var pending := FirstPass(site, env, source, disk).pending;
      && run.session == answers.session && s.log <= run.session.log
      && (answers.result.Success? ==> Answers(site, env, source, disk, answers.result.value))
      && (answers.result.Success? <==>
            !env.allowTranslate || pending == [] || RepliesSuffice(world, s, run.session, pending, env.budget))
      && (run.result.Success? <==>
            && answers.result.Success?
            && PlaceholdersAgree(site, source.entries, Resolve(site, env, mode, source, disk, answers.result.value, clock).next))
      && (!env.allowTranslate || pending == [] ==> answers == Run(s, Success([])))
      && (run.result.Failure? ==> run.disk == disk)
      && (answers.result.Failure? ==> run.result == Failure(answers.result.message))
      && (answers.result.Success? && run.result.Failure? ==>
            run.result.message == "control-ui-i18n placeholder mismatch detected for " + site.locale)
  {
    AnswersFit(world, s, site, env, source, disk);
    AskedSucceedsIff(world, s, FirstPass(site, env, source, disk).pending, env.budget);
  }

  /** The text a locale file has under a key. */
  function TextIn(disk: Disk, key: string): Option<string> {
    Lookup(Flat(disk.locale.Content().GetOr([])), key)
  }

  /** After a writing run with a provider, the locale file has under every key that was
      pending a text that a peer gave in answer to a prompt for that very key. */
  lemma WrittenTextsAreThePeers(
    world: World, s: Session, site: Site, env: Env, mode: Mode, source: Source, disk: Disk, clock: nat -> string, i: nat)
    requires Traceable(world, s) && !s.open && Runs(site, env, source) && env.allowTranslate
    requires mode.write && !mode.checkOnly && RunOf(world, s, site, env, mode, source, disk, clock).result.Success?
    requires i < |FirstPass(site, env, source, disk).pending|
    ensures var run, key := RunOf(world, s, site, env, mode, source, disk, clock), FirstPass(site, env, source, disk).pending[i].key;
      TextIn(run.disk, key).Some? && Given(world, run.session, |s.log|, key, TextIn(run.disk, key).value)
  {
    var pending := FirstPass(site, env, source, disk).pending;
    var answers := AnswersFor(world, s, site, env, source, disk);
    AnswersFit(world, s, site, env, source, disk);
    TranslationAnswers(world, s, pending, env.budget);
    AnswersAreThePeers(world, s, answers, pending, i);
    ResolvedIsWritten(site, env, mode, source, disk, answers.result.value, clock, i);
  }

  lemma ResolvedIsWritten(
    site: Site, env: Env, mode: Mode, source: Source, disk: Disk, values: seq<string>, clock: nat -> string, i: nat)
    requires Runs(site, env, source) && Answers(site, env, source, disk, values) && env.allowTranslate && i < |values|
    requires mode.write && !mode.checkOnly && Sync(site, env, mode, source, disk, values, clock).Some?
    ensures var after := Sync(site, env, mode, source, disk, values, clock).value.1;
      TextIn(after, FirstPass(site, env, source, disk).pending[i].key) == Some(values[i])
  {
    var inp, item := InputsOf(site, env, disk), FirstPass(site, env, source, disk).pending[i];
    PendingAreSourceKeys(inp, LoadedTm(disk), source.entries);
    assert ComesFromSource(inp, source.entries, item);
    var k :| 0 <= k < |source.entries| && item == ItemOf(inp, source.entries[k]);
    var e := source.entries[k];
    var after := Sync(site, env, mode, source, disk, values, clock).value.1;
    var r := Resolve(site, env, mode, source, disk, values, clock);
    RunBringsUpToDate(site, env, mode, source, disk, values, clock);
    LaterInputs(site, env, source, after, r);
    AnswersAreResolved(site, env, mode, source, disk, values, clock, i);
    assert Lookup(InputsOf(site, env, after).existing, e.key) == Some(r.next[e.key]);
  }

  /** A run that may change files. */
  predicate MayWrite(mode: Mode) {
    mode.write && !mode.checkOnly
  }

  lemma PublishWritesIff(site: Site, env: Env, mode: Mode, source: Source, disk: Disk, r: Progress, stamp: string)
    ensures var (outcome, after) := Publish(site, env, mode, source, disk, r, stamp);
      && (after != disk <==> MayWrite(mode) && outcome.changed) && (outcome.wrote <==> MayWrite(mode) && outcome.changed)
  {
    var expected := Expected(site, env, source, disk, r, stamp);
    if !Drifted(disk, expected) {
      assert disk.(tm := if disk.tm.Absent? then Canonical([]) else disk.tm) == expected;
    }
  }

  lemma PublishReports(
    site: Site, env: Env, mode: Mode, other: Mode, source: Source, disk: Disk, r: Progress, stamp: string)
    ensures Publish(site, env, mode, source, disk, r, stamp).0.changed == Publish(site, env, other, source, disk, r, stamp).0.changed
    ensures Publish(site, env, mode, source, disk, r, stamp).0.fallbackCount
         == Publish(site, env, other, source, disk, r, stamp).0.fallbackCount
  {
  }

  /** When does a run touch the files? Exactly when it succeeds, may write and has found a
      change; and that is when it says that it wrote. */
  lemma FilesChangeIff(
    world: World, s: Session, site: Site, env: Env, mode: Mode, source: Source, disk: Disk, clock: nat -> string)
    requires Traceable(world, s) && !s.open && env.budget > 0.0
    ensures var run := RunOf(world, s, site, env, mode, source, disk, clock);
      && (run.disk != disk <==> run.result.Success? && mode.write && !mode.checkOnly && run.result.value.changed)
      && (run.result.Success? ==> (run.result.value.wrote <==> run.disk != disk))
  {
    var answers := AnswersFor(world, s, site, env, source, disk);
    AnswersFit(world, s, site, env, source, disk);
    if answers.result.Success? {
      var values := answers.result.value;
      PublishWritesIff(site, env, mode, source, disk, Resolve(site, env, mode, source, disk, values, clock), clock(|values|));
    }
  }

  /** What a run reports, also one that only checks, is what a writing run of the same
      inputs would do: it has the same outcome, and there is a change exactly if that run
      would not leave the files as they are. */
  lemma ChangedIffWritingWould(
    world: World, s: Session, site: Site, env: Env, mode: Mode, writing: Mode, source: Source, disk: Disk, clock: nat -> string)
    requires Traceable(world, s) && !s.open && env.budget > 0.0 && GoodRun(site, env, source)
    requires writing.write && !writing.checkOnly
    ensures var run, would := RunOf(world, s, site, env, mode, source, disk, clock), RunOf(world, s, site, env, writing, source, disk, clock);
      && run.session == would.session && (run.result.Success? <==> would.result.Success?)
      && (run.result.Success? ==>
            && (run.result.value.changed <==> would.disk != disk)
            && run.result.value.fallbackCount == would.result.value.fallbackCount)
      && (run.result.Failure? ==> run.result == would.result)
  {
    var answers := AnswersFor(world, s, site, env, source, disk);
    AnswersFit(world, s, site, env, source, disk);
    FilesChangeIff(world, s, site, env, writing, source, disk, clock);
    if answers.result.Success? {
      var values := answers.result.value;
      ModeChangesNoValue(site, env, mode, writing, source, disk, values, clock);
      PublishReports(site, env, mode, writing, source, disk, Resolve(site, env, mode, source, disk, values, clock), clock(|values|));
    }
  }

  lemma ModeChangesNoValue(
    site: Site, env: Env, mode: Mode, other: Mode, source: Source, disk: Disk, values: seq<string>, clock: nat -> string)
    requires GoodRun(site, env, source) && Answers(site, env, source, disk, values)
    ensures Resolve(site, env, mode, source, disk, values, clock) == Resolve(site, env, other, source, disk, values, clock)
  {
    RunFinishes(site, env, mode, source, disk, values, clock);
  }

  /** The second run: after a successful writing run, a run with the same source and
      settings succeeds in whatever mode, asks nothing, reports no change and the same
      number of fallbacks, and leaves the files and the conversation as they are. */
  lemma SecondRunIsClean(
    world: World, s: Session, site: Site, env: Env, mode: Mode, source: Source, disk: Disk, clock: nat -> string,
    laterMode: Mode, laterClock: nat -> string)
    requires Traceable(world, s) && !s.open && Runs(site, env, source) && NoTiedFallback(site, env, source)
    requires mode.write && !mode.checkOnly && RunOf(world, s, site, env, mode, source, disk, clock).result.Success?
    ensures var first := RunOf(world, s, site, env, mode, source, disk, clock);
      && Traceable(world, first.session) && !first.session.open
      && RunOf(world, first.session, site, env, laterMode, source, first.disk, laterClock)
         == SyncRun(Success(SyncOutcome(false, first.result.value.fallbackCount, false)), first.disk, first.session)
  {
    RunIsFrugal(world, s, site, env, mode, source, disk, clock);
    AnswersFit(world, s, site, env, source, disk);
    var values := AnswersFor(world, s, site, env, source, disk).result.value;
    var r := Resolve(site, env, mode, source, disk, values, clock);
    var first := RunOf(world, s, site, env, mode, source, disk, clock);
    RunBringsUpToDate(site, env, mode, source, disk, values, clock);
    ValidResolve(site, env, source, first.disk, r);
    SyncIsAFixpoint(site, env, mode, source, disk, values, clock, laterMode, [], laterClock);
  }

  /** Two runs of the script in a row: if the first writes, the second finds nothing to do. */
  method SyncTwice(
    ws: Workspace, site: Site, env: Env, mode: Mode, laterMode: Mode, sourceHash: string, sourceMap: seq<Field>,
    access: ClientAccess, clock: nat -> string, laterClock: nat -> string)
    returns (first: Result<SyncOutcome>, second: Result<SyncOutcome>, ghost between: (Disk, Session))
    requires access.Valid() && access.client == null && Runs(site, env, Source(sourceHash, Flat(sourceMap)))
    requires NoTiedFallback(site, env, Source(sourceHash, Flat(sourceMap)))
    requires mode.write && !mode.checkOnly
    modifies ws, access, access.client
    ensures first.Success? ==>
      second == Success(SyncOutcome(false, first.value.fallbackCount, false)) && (ws.Files(), access.session) == between
  {
    ghost var source := Source(sourceHash, Flat(sourceMap));
    ghost var s, disk := access.session, ws.Files();
    first := SyncLocale(ws, site, env, mode, sourceHash, sourceMap, access, clock);
    between := (ws.Files(), access.session);
    if first.Success? {
      SecondRunIsClean(access.world, s, site, env, mode, source, disk, clock, laterMode, laterClock);
    }
    second := SyncLocale(ws, site, env, laterMode, sourceHash, sourceMap, access, laterClock);
  }
}
