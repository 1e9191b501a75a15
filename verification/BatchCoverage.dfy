/** Which items the attempts of a batch ask for, and which of them bring the translations
    (`scripts/control-ui-i18n.ts`, `translateBatch`). */
module BatchCoverage {
  import opened Options
  import opened Sequences
  import opened TranslationBatches
  import opened TranslationSession
  import opened BatchTranslation

  function BroughtBy(a: Attempt, parse: string -> Answer): seq<Item> {
    if AttemptVerdict(a, parse) == Good then a.items else []
  }

  /** The items of the attempts that got a good answer, in the order of the attempts. */
  function Translated(log: seq<Attempt>, parse: string -> Answer): seq<Item> {
    if log == [] then []
    else
      Translated(log[..|log| - 1], parse) + BroughtBy(log[|log| - 1], parse)
  }

  /** What an attempt may be followed by: a failed one by another for the same items, and one
      that timed out by one for the first half of its items, rounded up, a level deeper. */
  predicate Follows(a: Attempt, b: Attempt, parse: string -> Answer) {
    match AttemptVerdict(a, parse)
    case Good => true
    case Failed => b.items == a.items && b.depth == a.depth
    case TimedOut => |a.items| > 1 && b.items == a.items[..(|a.items| + 1) / 2] && b.depth == a.depth + 1
  }

  predicate StepByStep(log: seq<Attempt>, parse: string -> Answer) {
    forall i :: 0 <= i < |log| - 1 ==> Follows(log[i], log[i + 1], parse)
  }

  /** The attempts start with these items at this depth and bring, in order, all of `items`
      if they succeed and only some of the first ones otherwise. */
  predicate Cover(log: seq<Attempt>, first: seq<Item>, depth: nat, items: seq<Item>, parse: string -> Answer, ok: bool) {
    && log != [] && log[0].items == first && log[0].depth == depth && StepByStep(log, parse)
    && (AttemptVerdict(log[|log| - 1], parse) == Good <==> ok)
    && if ok then Translated(log, parse) == items else Translated(log, parse) < items
  }

  lemma {:induction false} TranslatedTogether(a: seq<Attempt>, b: seq<Attempt>, parse: string -> Answer)
    ensures Translated(a + b, parse) == Translated(a, parse) + Translated(b, parse)
  {
    if b == [] {
      assert a + b == a;
    } else {
      var n := |b| - 1;
      FrontOfBoth(a, b);
      TranslatedTogether(a, b[..n], parse);
      ConcatIsAssociative(Translated(a, parse), Translated(b[..n], parse), BroughtBy(b[n], parse));
    }
  }

  lemma FrontOfBoth<T>(a: seq<T>, b: seq<T>)
    requires b != []
    ensures (a + b)[..|a + b| - 1] == a + b[..|b| - 1] && (a + b)[|a + b| - 1] == b[|b| - 1]
  {
  }

  lemma StepsTogether(a: seq<Attempt>, b: seq<Attempt>, parse: string -> Answer)
    requires a != [] && b != [] && StepByStep(a, parse) && StepByStep(b, parse) && Follows(a[|a| - 1], b[0], parse)
    ensures StepByStep(a + b, parse)
  {
    var all := a + b;
    forall i | 0 <= i < |all| - 1
      ensures Follows(all[i], all[i + 1], parse)
    {
      if i < |a| - 1 {
        assert Follows(a[i], a[i + 1], parse);
      } else if i >= |a| {
        assert Follows(b[i - |a|], b[i - |a| + 1], parse);
      }
    }
  }

  // ----- One batch -----

  lemma OneTranslates(a: Attempt, parse: string -> Answer)
    ensures Translated([a], parse) == BroughtBy(a, parse)
  {
    assert [a][..0] == [] && [] + BroughtBy(a, parse) == BroughtBy(a, parse);
  }

  /** An attempt behind a failed one for the same items. */
  lemma RetryTranslates(a: Attempt, b: Attempt, parse: string -> Answer)
    requires AttemptVerdict(a, parse) == Failed && a.items == b.items && a.depth == b.depth
    ensures Translated([a, b], parse) == BroughtBy(b, parse) && StepByStep([a, b], parse)
  {
    OneTranslates(a, parse);
    assert [a, b][..1] == [a] && BroughtBy(a, parse) == [];
  }

  /** The attempts for some items ended with this verdict. */
  predicate EndWith(log: seq<Attempt>, items: seq<Item>, depth: nat, parse: string -> Answer, last: Verdict) {
    && log != [] && log[0].items == items && log[0].depth == depth && StepByStep(log, parse)
    && log[|log| - 1].items == items && log[|log| - 1].depth == depth && AttemptVerdict(log[|log| - 1], parse) == last
    && Translated(log, parse) == if last == Good then items else []
  }

  lemma TryAsks(world: World, s: Session, items: seq<Item>, depth: nat) returns (a: Attempt)
    requires Traceable(world, s)
    ensures var run := TryOf(world, s, items, depth);
      && Traceable(world, run.session) && s.log <= run.session.log && Made(s, run.session) == [a]
      && a.items == items && a.depth == depth && AttemptVerdict(a, world.parse) == VerdictOf(run.result)
  {
    TryRan(world, s, items, depth);
    var run := TryOf(world, s, items, depth);
    a := Made(s, run.session)[0];
    assert Verdicts(Made(s, run.session), world.parse)[0] == AttemptVerdict(a, world.parse);
  }

  /** The loop of attempts makes one attempt or, after a failure, two, for the same items. */
  lemma RepeatAsks(world: World, s: Session, items: seq<Item>, depth: nat)
    requires Traceable(world, s)
    ensures var run := RepeatOf(world, s, items, depth, 0);
      && s.log <= run.session.log && Traceable(world, run.session)
      && EndWith(Made(s, run.session), items, depth, world.parse, VerdictOf(run.result))
  {
    var a := TryAsks(world, s, items, depth);
    var first := TryOf(world, s, items, depth);
    OneTranslates(a, world.parse);
    if VerdictOf(first.result) == Failed {
      var second := TryOf(world, first.session, items, depth);
      assert RepeatOf(world, s, items, depth, 0) == RepeatOf(world, first.session, items, depth, 1) == second;
      var b := TryAsks(world, first.session, items, depth);
      MadeInTurn(s, first.session, second.session);
      RetryTranslates(a, b, world.parse);
      assert [a] + [b] == [a, b];
    }
  }

  /** The attempts for a batch go through it step by step, and the good ones bring exactly
      its items, each once and in order, if the batch succeeds, and otherwise only some of
      the first ones. */
  lemma {:induction false} AttemptsCoverBatch(world: World, s: Session, items: seq<Item>, depth: nat)
    requires Traceable(world, s) && items != []
    ensures var run := BatchOf(world, s, items, depth);
      && s.log <= run.session.log
      && Cover(Made(s, run.session), items, depth, items, world.parse, run.result.Success?)
    decreases |items|, 1
  {
    RepeatAsks(world, s, items, depth);
    var first := RepeatOf(world, s, items, depth, 0);
    if VerdictOf(first.result) == TimedOut && |items| > 1 {
      var run := HalvesOf(world, first.session, items, depth);
      HalvesCover(world, first.session, items, depth);
      SplitCovers(s, first.session, run.session, items, depth, world.parse, run.result.Success?);
    } else {
      EndCovers(Made(s, first.session), items, depth, world.parse, VerdictOf(first.result));
    }
  }

  lemma EndCovers(log: seq<Attempt>, items: seq<Item>, depth: nat, parse: string -> Answer, last: Verdict)
    requires items != [] && EndWith(log, items, depth, parse, last)
    ensures Cover(log, items, depth, items, parse, last == Good)
  {
  }

  lemma SplitCovers(s: Session, t: Session, u: Session, items: seq<Item>, depth: nat, parse: string -> Answer, ok: bool)
    requires |items| > 1 && s.log <= t.log && t.log <= u.log
    requires EndWith(Made(s, t), items, depth, parse, TimedOut)
    requires Cover(Made(t, u), items[..(|items| + 1) / 2], depth + 1, items, parse, ok)
    ensures s.log <= u.log && Cover(Made(s, u), items, depth, items, parse, ok)
  {
    MadeInTurn(s, t, u);
    AfterTimeoutCover(Made(s, t), Made(t, u), items, depth, parse, ok);
  }

  lemma AfterTimeoutCover(
    a: seq<Attempt>, b: seq<Attempt>, items: seq<Item>, depth: nat, parse: string -> Answer, ok: bool)
    requires |items| > 1 && EndWith(a, items, depth, parse, TimedOut)
    requires Cover(b, items[..(|items| + 1) / 2], depth + 1, items, parse, ok)
    ensures Cover(a + b, items, depth, items, parse, ok)
  {
    StepsTogether(a, b, parse);
    TranslatedTogether(a, b, parse);
    assert [] + Translated(b, parse) == Translated(b, parse);
  }

  lemma {:induction false} HalvesCover(world: World, s: Session, items: seq<Item>, depth: nat)
    requires Traceable(world, s) && |items| > 1
    ensures var run := HalvesOf(world, s, items, depth);
      && s.log <= run.session.log
      && Cover(Made(s, run.session), items[..(|items| + 1) / 2], depth + 1, items, world.parse, run.result.Success?)
    decreases |items|, 0
  {
    var midpoint := (|items| + 1) / 2;
    var a, b := items[..midpoint], items[midpoint..];
    assert items == a + b;
    var left := BatchOf(world, s, a, depth + 1);
    BatchGrows(world, s, a, depth + 1);
    AttemptsCoverBatch(world, s, a, depth + 1);
    HalvesInTurn(world, s, items, depth);
    if left.result.Success? {
      var right := BatchOf(world, left.session, b, depth + 1);
      AttemptsCoverBatch(world, left.session, b, depth + 1);
      MadeInTurn(s, left.session, right.session);
      HalvesCoverTogether(Made(s, left.session), Made(left.session, right.session), a, b, depth + 1, world.parse, right.result.Success?);
    }
  }

  lemma HalvesCoverTogether(
    l: seq<Attempt>, r: seq<Attempt>, a: seq<Item>, b: seq<Item>, depth: nat, parse: string -> Answer, ok: bool)
    requires Cover(l, a, depth, a, parse, true) && Cover(r, b, depth, b, parse, ok)
    ensures Cover(l + r, a, depth, a + b, parse, ok)
  {
    StepsTogether(l, r, parse);
    TranslatedTogether(l, r, parse);
  }
}
