/** How long the clients of a run live (`scripts/control-ui-i18n.ts`, the `clientAccess`
    object of `syncLocale` with its `finally` block): each is closed in the end, none is used
    after that, and none is started without need. */
module ClientLifetimes {
  import opened Options
  import opened RpcClient
  import opened TranslationTree
  import opened TranslationBatches
  import opened TranslationSession
  import opened BatchTranslation
  import opened LocaleSync

  /** The client was closed, and nothing has happened to it since. */
  ghost predicate IsRetired(history: seq<Event>) {
    Possible(history) && history != [] && history[|history| - 1] == Close && After(history).closed
  }

  /** How many clients are no longer in use. */
  function RetiredCount(s: Session): int {
    |s.histories| - if s.open then 1 else 0
  }

  /** Every client but the one in use is closed. */
  ghost predicate IsTidy(s: Session) {
    && (s.open ==> s.histories != [])
    && forall c :: 0 <= c < RetiredCount(s) ==> IsRetired(s.histories[c])
  }

  /** How many attempts did not succeed. */
  function Failures(verdicts: seq<Verdict>): nat {
    if verdicts == [] then 0
    else Failures(verdicts[..|verdicts| - 1]) + if verdicts[|verdicts| - 1] == Good then 0 else 1
  }

  lemma {:induction false} FailuresTogether(a: seq<Verdict>, b: seq<Verdict>)
    ensures Failures(a + b) == Failures(a) + Failures(b)
  {
    if b == [] {
      assert a + b == a;
    } else {
      assert (a + b)[..|a + b| - 1] == a + b[..|b| - 1];
      FailuresTogether(a, b[..|b| - 1]);
    }
  }

  lemma FailuresOfOne(v: Verdict)
    ensures Failures([v]) == if v == Good then 0 else 1
  {
    assert [v][..0] == [] && Failures([v][..0]) == 0;
  }

  /** From `s` to `t` the closed clients were left alone, and no more clients were closed
      than `most`. */
  ghost predicate Tends(s: Session, t: Session, most: nat) {
    && IsTidy(s) && IsTidy(t)
    && RetiredCount(s) <= RetiredCount(t) <= RetiredCount(s) + most
    && forall c :: 0 <= c < RetiredCount(s) ==> t.histories[c] == s.histories[c]
  }

  lemma TendsInTurn(s: Session, t: Session, u: Session, first: nat, second: nat)
    requires Tends(s, t, first) && Tends(t, u, second)
    ensures Tends(s, u, first + second)
  {
  }

  /** Asking uses the open client, or a new one if there is none. */
  lemma AskTends(world: World, s: Session, items: seq<Item>)
    requires Usable(s) && IsTidy(s)
    ensures Tends(s, AskOf(world, s, items).session, 0)
  {
    if s.open || world.boot(|s.log|).None? {
      AskWithClient(world, s, items);
    }
  }

  /** Closing retires the open client. */
  lemma ClosedTends(s: Session)
    requires Consistent(s) && IsTidy(s)
    ensures Tends(s, Closed(s), 1)
  {
    if s.open {
      var h := s.histories[|s.histories| - 1];
      ClosingKeeps(h);
      Extend(h, Close);
      assert IsRetired(h + [Close]);
    }
  }

  lemma RecordedTends(s: Session, t: Session, a: Attempt, most: nat)
    requires Consistent(t) && Tends(s, t, most)
    ensures Tends(s, Recorded(t, a), most)
  {
    assert Recorded(t, a).histories == t.histories && Recorded(t, a).open == t.open;
  }

  /** A client is closed exactly after an attempt that fails. */
  lemma TryTends(world: World, s: Session, items: seq<Item>, depth: nat)
    requires Usable(s) && IsTidy(s)
    ensures var run := TryOf(world, s, items, depth); Tends(s, run.session, if run.result.Success? then 0 else 1)
  {
    var asking := AskOf(world, s, items);
    var a := Attempt(items, depth, asking.prompt, asking.reply);
    AskTends(world, s, items);
    RecordedTends(s, asking.session, a, 0);
    ClosedTends(Recorded(asking.session, a));
    TendsInTurn(s, Recorded(asking.session, a), Closed(Recorded(asking.session, a)), 0, 1);
  }

  // ----- A batch -----

  /** What was made of the clients from `s` to the end of a run, with its failures. */
  ghost predicate RunTends(world: World, s: Session, t: Session) {
    && s.log <= t.log && Traceable(world, t)
    && Tends(s, t, Failures(Verdicts(Made(s, t), world.parse)))
  }

  lemma RunsTend(world: World, s: Session, t: Session, u: Session)
    requires RunTends(world, s, t) && RunTends(world, t, u)
    ensures RunTends(world, s, u)
  {
    VerdictsInTurn(s, t, u, world.parse);
    var a, b := Verdicts(Made(s, t), world.parse), Verdicts(Made(t, u), world.parse);
    FailuresTogether(a, b);
    TendsInTurn(s, t, u, Failures(a), Failures(b));
  }

  lemma TryRunTends(world: World, s: Session, items: seq<Item>, depth: nat)
    requires Traceable(world, s) && IsTidy(s)
    ensures RunTends(world, s, TryOf(world, s, items, depth).session)
  {
    TryTends(world, s, items, depth);
    TryRan(world, s, items, depth);
    FailuresOfOne(VerdictOf(TryOf(world, s, items, depth).result));
  }

  lemma RepeatTends(world: World, s: Session, items: seq<Item>, depth: nat)
    requires Traceable(world, s) && IsTidy(s)
    ensures RunTends(world, s, RepeatOf(world, s, items, depth, 0).session)
  {
    TryRunTends(world, s, items, depth);
    var first := TryOf(world, s, items, depth);
    if VerdictOf(first.result) == Failed {
      var second := TryOf(world, first.session, items, depth);
      assert RepeatOf(world, s, items, depth, 0) == RepeatOf(world, first.session, items, depth, 1) == second;
      TryRunTends(world, first.session, items, depth);
      RunsTend(world, s, first.session, second.session);
    }
  }

  lemma {:induction false} BatchTends(world: World, s: Session, items: seq<Item>, depth: nat)
    requires Traceable(world, s) && IsTidy(s) && items != []
    ensures RunTends(world, s, BatchOf(world, s, items, depth).session)
    decreases |items|, 1
  {
    RepeatTends(world, s, items, depth);
    var first := RepeatOf(world, s, items, depth, 0);
    if VerdictOf(first.result) == TimedOut && |items| > 1 {
      HalvesTend(world, first.session, items, depth);
      RunsTend(world, s, first.session, HalvesOf(world, first.session, items, depth).session);
    }
  }

  lemma {:induction false} HalvesTend(world: World, s: Session, items: seq<Item>, depth: nat)
    requires Traceable(world, s) && IsTidy(s) && |items| > 1
    ensures RunTends(world, s, HalvesOf(world, s, items, depth).session)
    decreases |items|, 0
  {
    var midpoint := (|items| + 1) / 2;
    var left := BatchOf(world, s, items[..midpoint], depth + 1);
    HalvesInTurn(world, s, items, depth);
    BatchTends(world, s, items[..midpoint], depth + 1);
    if left.result.Success? {
      var right := BatchOf(world, left.session, items[midpoint..], depth + 1);
      BatchTends(world, left.session, items[midpoint..], depth + 1);
      RunsTend(world, s, left.session, right.session);
    }
  }

  // ----- A run -----

  lemma {:induction false} BatchesTend(world: World, s: Session, batches: seq<seq<Item>>)
    requires Traceable(world, s) && IsTidy(s) && forall i :: 0 <= i < |batches| ==> batches[i] != []
    ensures RunTends(world, s, AnswersOf(world, s, batches).session)
  {
    if batches == [] {
      NothingTends(world, s);
    } else {
      var front, batch := batches[..|batches| - 1], batches[|batches| - 1];
      var earlier := AnswersOf(world, s, front);
      BatchesTend(world, s, front);
      if earlier.result.Success? {
        BatchTends(world, earlier.session, batch, 0);
        RunsTend(world, s, earlier.session, BatchOf(world, earlier.session, batch, 0).session);
      }
    }
  }

  lemma NothingTends(world: World, s: Session)
    requires Traceable(world, s) && IsTidy(s)
    ensures RunTends(world, s, s)
  {
  }

  lemma TranslationTends(world: World, s: Session, pending: seq<Item>, budget: real)
    requires Traceable(world, s) && IsTidy(s)
    ensures var t := TranslationOf(world, s, pending, budget).session;
      s.log <= t.log && !t.open && Tends(s, t, Failures(Verdicts(Made(s, t), world.parse)) + 1)
  {
    var t := AnswersOf(world, s, Pack(pending, budget)).session;
    PackIsOptimal(pending, budget);
    BatchesTend(world, s, Pack(pending, budget));
    ClosedTends(t);
    assert Made(s, Closed(t)) == Made(s, t);
    TendsInTurn(s, t, Closed(t), Failures(Verdicts(Made(s, t), world.parse)), 1);
  }

  /** Between sessions without a client in use. */
  lemma AllAreRetired(s: Session, t: Session, most: nat)
    requires Tends(s, t, most) && !s.open && !t.open
    ensures s.histories <= t.histories && |t.histories| <= |s.histories| + most
    ensures forall c :: 0 <= c < |t.histories| ==> IsRetired(t.histories[c])
  {
    assert forall c :: 0 <= c < |s.histories| ==> t.histories[c] == s.histories[c];
  }

  /** A run over a locale, successful or not, closes every client that it starts, and the
      clients of earlier runs are left alone. It starts at most one more client than it has
      attempts that fail, and none without a provider or pending keys. */
  lemma EveryClientIsClosed(
    world: World, s: Session, site: Site, env: Env, mode: Mode, source: Source, disk: Disk, clock: nat -> string)
    requires Traceable(world, s) && !s.open && IsTidy(s) && env.budget > 0.0
    ensures var run, pending := RunOf(world, s, site, env, mode, source, disk, clock), FirstPass(site, env, source, disk).pending;
      && s.log <= run.session.log && s.histories <= run.session.histories
      && (forall c :: 0 <= c < |run.session.histories| ==> IsRetired(run.session.histories[c]))
      && |run.session.histories| <= |s.histories| + Failures(Verdicts(Made(s, run.session), world.parse)) + 1
      && (!env.allowTranslate || pending == [] ==> run.session.histories == s.histories)
  {
    var pending := FirstPass(site, env, source, disk).pending;
    AnswersFit(world, s, site, env, source, disk);
    if env.allowTranslate && pending != [] {
      TranslationTends(world, s, pending, env.budget);
      AllAreRetired(s, TranslationOf(world, s, pending, env.budget).session,
                    Failures(Verdicts(Made(s, TranslationOf(world, s, pending, env.budget).session), world.parse)) + 1);
    }
  }

  /** The first run starts without clients. */
  lemma FreshIsTidy()
    ensures IsTidy(FRESH) && RetiredCount(FRESH) == 0
  {
  }
}
