/** Translating one batch: retry once, split on a timeout, never reuse a client
    that failed (`scripts/control-ui-i18n.ts`, `translateBatch`). */
module BatchTranslation {
  import opened Options
  import opened RpcClient
  import opened Text
  import opened TranslationBatches
  import opened TranslationSession

  const TRANSLATE_MAX_ATTEMPTS := 2

  predicate IsPromptTimeoutError(message: string) {
    Contains(ToLowerAscii(message), "timed out")
  }

  // ----- What counts as a timeout -----

  /** Whether `at` is where "timed out" stands, in capitals or not. */
  predicate SaysTimedOut(text: string, at: nat)
    requires at + 9 <= |text|
  {
    && text[at] in "tT" && text[at + 1] in "iI" && text[at + 2] in "mM" && text[at + 3] in "eE" && text[at + 4] in "dD"
    && text[at + 5] == ' ' && text[at + 6] in "oO" && text[at + 7] in "uU" && text[at + 8] in "tT"
  }

  predicate SaysItSomewhere(text: string) {
    exists at: nat :: at + 9 <= |text| && SaysTimedOut(text, at)
  }

  predicate IsLowerOf(lower: char, c: char) {
    && (lower == 't' <==> c in "tT") && (lower == 'i' <==> c in "iI") && (lower == 'm' <==> c in "mM")
    && (lower == 'e' <==> c in "eE") && (lower == 'd' <==> c in "dD") && (lower == 'o' <==> c in "oO")
    && (lower == 'u' <==> c in "uU") && (lower == ' ' <==> c == ' ')
  }

  lemma LowerCase(text: string, i: nat)
    requires i < |text|
    ensures IsLowerOf(ToLowerAscii(text)[i], text[i])
  {
  }

  predicate ReadsTimedOut(told: string, at: nat)
    requires at + 9 <= |told|
  {
    && told[at] == 't' && told[at + 1] == 'i' && told[at + 2] == 'm' && told[at + 3] == 'e' && told[at + 4] == 'd'
    && told[at + 5] == ' ' && told[at + 6] == 'o' && told[at + 7] == 'u' && told[at + 8] == 't'
  }

  lemma OccursIffReads(told: string, at: nat)
    requires at + 9 <= |told|
    ensures OccursAt(told, "timed out", at) <==> ReadsTimedOut(told, at)
  {
    var pattern := "timed out";
    OccursIff(told, pattern, at);
    assert pattern[0] == 't' && pattern[1] == 'i' && pattern[2] == 'm' && pattern[3] == 'e' && pattern[4] == 'd';
    assert pattern[5] == ' ' && pattern[6] == 'o' && pattern[7] == 'u' && pattern[8] == 't';
  }

  lemma ReadsIffSays(text: string, at: nat)
    requires at + 9 <= |text|
    ensures ReadsTimedOut(ToLowerAscii(text), at) <==> SaysTimedOut(text, at)
  {
    forall i | at <= i < at + 9
      ensures IsLowerOf(ToLowerAscii(text)[i], text[i])
    {
      LowerCase(text, i);
    }
  }

  /** A text counts as a timeout exactly when it says so somewhere. */
  lemma TimeoutErrorIff(text: string)
    ensures IsPromptTimeoutError(text) <==> SaysItSomewhere(text)
  {
    var told := ToLowerAscii(text);
    if Contains(told, "timed out") {
      var at :| 0 <= at <= |told| - 9 && OccursAt(told, "timed out", at);
      OccursIffReads(told, at);
      ReadsIffSays(text, at);
    }
    if SaysItSomewhere(text) {
      var at: nat :| at + 9 <= |text| && SaysTimedOut(text, at);
      OccursIffReads(told, at);
      ReadsIffSays(text, at);
    }
  }

  lemma TimeoutsHaveT(text: string)
    ensures IsPromptTimeoutError(text) ==> 't' in ToLowerAscii(text)
  {
    var told := ToLowerAscii(text);
    if Contains(told, "timed out") {
      var at :| 0 <= at <= |told| - 9 && OccursAt(told, "timed out", at);
      assert told[at..at + 9][0] == told[at];
    }
  }

  /** In parentheses behind a reason, a text counts as it does alone. */
  lemma InParentheses(reason: string, inner: string)
    ensures IsPromptTimeoutError(reason + " (" + inner + ")") <==>
      IsPromptTimeoutError(reason + " ") || IsPromptTimeoutError(inner)
  {
    var pattern, text := "timed out", reason + " (" + inner + ")";
    var a, b := ToLowerAscii(reason + " "), ToLowerAscii(inner);
    assert text == (reason + " ") + ['('] + (inner + [')']);
    LowerOfParts((reason + " ") + ['('], inner + [')']);
    LowerOfParts(reason + " ", ['(']);
    LowerOfParts(inner, [')']);
    assert ToLowerAscii(text) == a + ['('] + (b + [')']) && b + [')'] == b + [')'] + "";
    ContainedInEitherPart(a, '(', b + [')'], pattern);
    ContainedInEitherPart(b, ')', "", pattern);
  }

  /** A prompt whose own timeout fires always counts as timed out. */
  lemma TimeoutsCount(stderr: seq<string>)
    ensures IsPromptTimeoutError(TimeoutReason(stderr))
  {
    var told := ToLowerAscii(TIMED_OUT);
    assert told[19..28] == "timed out";
    assert OccursAt(told, "timed out", 19);
    var more := " (pi stderr: " + ErrorText(stderr) + ")";
    if ErrorText(stderr) != "" {
      assert TimeoutReason(stderr) == TIMED_OUT + more;
      LowerOfParts(TIMED_OUT, more);
      assert OccursAt(told + ToLowerAscii(more), "timed out", 19);
    }
  }

  /** A process that has gone away counts as a timeout, which splits the batch, exactly
      when it has written that something timed out. */
  lemma ClosedProcessCountsIff(stderr: seq<string>)
    ensures IsPromptTimeoutError(WithErrors(PROCESS_CLOSED, "", stderr)) <==> IsPromptTimeoutError(ErrorText(stderr))
    ensures IsPromptTimeoutError(WithErrors(UNAVAILABLE, "", stderr)) <==> IsPromptTimeoutError(ErrorText(stderr))
  {
    ReasonCountsIff(PROCESS_CLOSED, stderr);
    ReasonCountsIff(UNAVAILABLE, stderr);
  }

  lemma ReasonCountsIff(reason: string, stderr: seq<string>)
    requires reason == PROCESS_CLOSED || reason == UNAVAILABLE
    ensures IsPromptTimeoutError(WithErrors(reason, "", stderr)) <==> IsPromptTimeoutError(ErrorText(stderr))
  {
    TimeoutsHaveT(reason);
    TimeoutsHaveT(reason + " ");
    TimeoutsHaveT("");
    InParentheses(reason, ErrorText(stderr));
    assert reason + " (" + "" == reason + " (";
  }

  // ----- The shape of a run, as a sequence of verdicts -----

  datatype Verdict = Good | TimedOut | Failed

  ghost predicate SplitCourse(n: nat, verdicts: seq<Verdict>, ok: bool)
    requires n >= 2
    decreases n, 0
  {
    || (!ok && IsCourse((n + 1) / 2, verdicts, false))
    || (exists k :: 0 <= k <= |verdicts|
          && IsCourse((n + 1) / 2, verdicts[..k], true) && IsCourse(n / 2, verdicts[k..], ok))
  }

  /** `verdicts` is a complete course of prompts for a batch of `n` items that
      ends in success or in an exception. */
  ghost predicate IsCourse(n: nat, verdicts: seq<Verdict>, ok: bool)
    requires n >= 1
    decreases n, 1
  {
    || (ok && (verdicts == [Good] || verdicts == [Failed, Good]))
    || (!ok && verdicts == [Failed, Failed])
    || (n == 1 && !ok && (verdicts == [TimedOut] || verdicts == [Failed, TimedOut]))
    || (n >= 2 && [TimedOut] <= verdicts && SplitCourse(n, verdicts[1..], ok))
    || (n >= 2 && [Failed, TimedOut] <= verdicts && SplitCourse(n, verdicts[2..], ok))
  }

  /** However the translator behaves, a batch of `n` costs at most 4n - 2 prompts. */
  lemma {:induction false} CourseIsShort(n: nat, verdicts: seq<Verdict>, ok: bool)
    requires n >= 1 && IsCourse(n, verdicts, ok)
    ensures 1 <= |verdicts| <= 4 * n - 2
    decreases n, 1
  {
    if n >= 2 && [TimedOut] <= verdicts && SplitCourse(n, verdicts[1..], ok) {
      SplitIsShort(n, verdicts[1..], ok);
    } else if n >= 2 && [Failed, TimedOut] <= verdicts && SplitCourse(n, verdicts[2..], ok) {
      SplitIsShort(n, verdicts[2..], ok);
    }
  }

  lemma {:induction false} SplitIsShort(n: nat, verdicts: seq<Verdict>, ok: bool)
    requires n >= 2 && SplitCourse(n, verdicts, ok)
    ensures |verdicts| <= 4 * n - 4
    decreases n, 0
  {
    var first, leftOk, rest := HalvesHead(n, verdicts, ok);
    CourseIsShort((n + 1) / 2, first, leftOk);
    if leftOk {
      CourseIsShort(n / 2, rest, ok);
    }
  }

  /** The bound is reached, by a course that even succeeds. */
  lemma {:induction false} LongestCourse(n: nat) returns (verdicts: seq<Verdict>)
    requires n >= 1
    ensures IsCourse(n, verdicts, true) && |verdicts| == 4 * n - 2
  {
    if n == 1 {
      verdicts := [Failed, Good];
      RetryIsCourse(n);
    } else {
      var a, b := (n + 1) / 2, n / 2;
      assert a + b == n;
      var left := LongestCourse(a);
      var right := LongestCourse(b);
      verdicts := JoinedCourse(n, a, b, left, right);
    }
  }

  lemma RetryIsCourse(n: nat)
    requires n >= 1
    ensures IsCourse(n, [Failed, Good], true)
  {
  }

  lemma JoinedCourse(n: nat, a: nat, b: nat, left: seq<Verdict>, right: seq<Verdict>) returns (whole: seq<Verdict>)
    requires n >= 2 && a == (n + 1) / 2 && b == n / 2 && IsCourse(a, left, true) && IsCourse(b, right, true)
    ensures IsCourse(n, whole, true) && |whole| == 2 + |left| + |right|
  {
    whole := [Failed, TimedOut] + (left + right);
    BothHalves(n, left, right, true);
    AfterTimeout(n, [Failed, TimedOut], left + right, true);
  }

  lemma BothHalves(n: nat, left: seq<Verdict>, right: seq<Verdict>, ok: bool)
    requires n >= 2 && IsCourse((n + 1) / 2, left, true) && IsCourse(n / 2, right, ok)
    ensures SplitCourse(n, left + right, ok)
  {
    assert (left + right)[..|left|] == left && (left + right)[|left|..] == right;
  }

  lemma AfterTimeout(n: nat, before: seq<Verdict>, halves: seq<Verdict>, ok: bool)
    requires n >= 2 && SplitCourse(n, halves, ok)
    requires before == [TimedOut] || before == [Failed, TimedOut]
    ensures IsCourse(n, before + halves, ok)
  {
    assert (before + halves)[|before|..] == halves;
  }

  /** Half a batch, rounded up, as often as it takes to get down to one item. */
  function CeilLog2(n: nat): (depth: nat)
    requires n >= 1
  {
    if n == 1 then 0 else 1 + CeilLog2((n + 1) / 2)
  }

  function Pow2(k: nat): (power: nat)
    ensures power >= 1
  {
    if k == 0 then 1 else 2 * Pow2(k - 1)
  }

  lemma {:induction false} CeilLog2IsLeast(n: nat, k: nat)
    requires n >= 1
    ensures n <= Pow2(k) <==> CeilLog2(n) <= k
    decreases k
  {
    if n > 1 && k > 0 {
      CeilLog2IsLeast((n + 1) / 2, k - 1);
    }
  }

  lemma {:induction false} CeilLog2Monotone(m: nat, n: nat)
    requires 1 <= m <= n
    ensures CeilLog2(m) <= CeilLog2(n)
  {
    if m > 1 {
      CeilLog2Monotone((m + 1) / 2, (n + 1) / 2);
    }
  }

  // ----- What a run makes of the world -----

  function VerdictOf(r: Result<map<string, string>>): Verdict {
    if r.Success? then Good else if IsPromptTimeoutError(r.message) then TimedOut else Failed
  }

  function AttemptVerdict(a: Attempt, parse: string -> Answer): Verdict {
    VerdictOf(Read(a.items, a.reply, parse))
  }

  function Verdicts(log: seq<Attempt>, parse: string -> Answer): seq<Verdict> {
    seq(|log|, i requires 0 <= i < |log| => AttemptVerdict(log[i], parse))
  }

  /** The loop of attempts, from attempt number `attempt` on. */
  ghost function RepeatOf(world: World, s: Session, items: seq<Item>, depth: nat, attempt: nat): (r: Run<map<string, string>>)
    requires Usable(s) && attempt < TRANSLATE_MAX_ATTEMPTS
    ensures Usable(r.session) && (r.result.Failure? ==> !r.session.open)
    decreases TRANSLATE_MAX_ATTEMPTS - attempt
  {
    var run := TryOf(world, s, items, depth);
    if VerdictOf(run.result) != Failed || attempt + 1 == TRANSLATE_MAX_ATTEMPTS then run
    else RepeatOf(world, run.session, items, depth, attempt + 1)
  }

  /** `translateBatch` */
  ghost function BatchOf(world: World, s: Session, items: seq<Item>, depth: nat): (r: Run<map<string, string>>)
    requires Usable(s)
    ensures Usable(r.session) && (r.result.Failure? ==> !r.session.open)
    decreases |items|, 1
  {
    var run := RepeatOf(world, s, items, depth, 0);
    if VerdictOf(run.result) == TimedOut && |items| > 1 then HalvesOf(world, run.session, items, depth) else run
  }

  ghost function HalvesOf(world: World, s: Session, items: seq<Item>, depth: nat): (r: Run<map<string, string>>)
    requires Usable(s) && |items| > 1
    ensures Usable(r.session) && (r.result.Failure? ==> !r.session.open)
    decreases |items|, 0
  {
    var midpoint := (|items| + 1) / 2;
    var left := BatchOf(world, s, items[..midpoint], depth + 1);
    if left.result.Failure? then left
    else
      var right := BatchOf(world, left.session, items[midpoint..], depth + 1);
      if right.result.Failure? then right
      else Run(right.session, Success(left.result.value + right.result.value))
  }

  /** The result of two halves of which the first has succeeded. */
  ghost function Both(left: Run<map<string, string>>, right: Run<map<string, string>>): Run<map<string, string>>
    requires left.result.Success?
  {
    if right.result.Failure? then right else Run(right.session, Success(left.result.value + right.result.value))
  }

  // ----- The attempts of a run -----

  /** The attempts made between two sessions. */
  function Made(s: Session, t: Session): seq<Attempt>
    requires |s.log| <= |t.log|
  {
    t.log[|s.log|..]
  }

  ghost predicate DepthsWithin(log: seq<Attempt>, low: nat, high: nat) {
    forall a <- log :: low <= a.depth <= high
  }

  /** The attempt asked for the key, and its answer has this text for it. */
  ghost predicate Says(a: Attempt, parse: string -> Answer, key: string, text: string) {
    && a.reply.Resolved? && parse(a.reply.text).Properties? && key in KeysOf(a.items)
    && key in parse(a.reply.text).values && parse(a.reply.text).values[key] == text
  }

  ghost predicate SaidIn(log: seq<Attempt>, parse: string -> Answer, key: string, text: string) {
    exists i :: 0 <= i < |log| && Says(log[i], parse, key, text)
  }

  /** `translated` answers exactly the keys of `items`, each with a non-blank text
      that one of the attempts was given for that key. */
  ghost predicate Translates(translated: map<string, string>, items: seq<Item>, log: seq<Attempt>, parse: string -> Answer) {
    && translated.Keys == KeysOf(items)
    && forall key :: key in translated ==> !IsBlank(translated[key]) && SaidIn(log, parse, key, translated[key])
  }

  /** What running `items` from session `s` leads to, with its attempts at these depths. */
  ghost predicate Ran(world: World, s: Session, run: Run<map<string, string>>, items: seq<Item>, low: nat, high: nat) {
    && Traceable(world, run.session) && s.log <= run.session.log
    && DepthsWithin(Made(s, run.session), low, high)
    && (run.result.Success? ==> Translates(run.result.value, items, Made(s, run.session), world.parse))
  }

  lemma TryRan(world: World, s: Session, items: seq<Item>, depth: nat)
    requires Traceable(world, s)
    ensures var run := TryOf(world, s, items, depth);
      Ran(world, s, run, items, depth, depth) && Verdicts(Made(s, run.session), world.parse) == [VerdictOf(run.result)]
  {
    TryIsTraceable(world, s, items, depth);
    var asking := AskOf(world, s, items);
    var a := Attempt(items, depth, asking.prompt, asking.reply);
    var run := TryOf(world, s, items, depth);
    assert run.session.log == s.log + [a] && Made(s, run.session) == [a];
    ReadIff(items, asking.reply, world.parse);
    if run.result.Success? {
      forall key | key in run.result.value
        ensures SaidIn([a], world.parse, key, run.result.value[key])
      {
        assert Says([a][0], world.parse, key, run.result.value[key]);
      }
    }
  }

  lemma MadeInTurn(s: Session, t: Session, u: Session)
    requires s.log <= t.log && t.log <= u.log
    ensures s.log <= u.log && Made(s, u) == Made(s, t) + Made(t, u)
  {
  }

  lemma VerdictsJoin(a: seq<Attempt>, b: seq<Attempt>, parse: string -> Answer)
    ensures Verdicts(a + b, parse) == Verdicts(a, parse) + Verdicts(b, parse)
  {
  }

  lemma SaidInMore(a: seq<Attempt>, b: seq<Attempt>, c: seq<Attempt>, parse: string -> Answer, key: string, text: string)
    requires SaidIn(b, parse, key, text)
    ensures SaidIn(a + b + c, parse, key, text)
  {
    var i :| 0 <= i < |b| && Says(b[i], parse, key, text);
    assert (a + b + c)[|a| + i] == b[i];
  }

  lemma TranslatesMore(
    translated: map<string, string>, items: seq<Item>, a: seq<Attempt>, b: seq<Attempt>, c: seq<Attempt>, parse: string -> Answer)
    requires Translates(translated, items, b, parse)
    ensures Translates(translated, items, a + b + c, parse)
  {
    forall key | key in translated
      ensures SaidIn(a + b + c, parse, key, translated[key])
    {
      SaidInMore(a, b, c, parse, key, translated[key]);
    }
  }

  /** Two runs in turn, of which the second gives the result. */
  lemma RanInTurn(
    world: World, s: Session, t: Session, run: Run<map<string, string>>, items: seq<Item>, low: nat, lowT: nat, highS: nat, high: nat)
    requires s.log <= t.log && DepthsWithin(Made(s, t), low, highS) && low <= lowT && highS <= high
    requires Ran(world, t, run, items, lowT, high)
    ensures Ran(world, s, run, items, low, high)
    ensures Verdicts(Made(s, run.session), world.parse)
         == Verdicts(Made(s, t), world.parse) + Verdicts(Made(t, run.session), world.parse)
  {
    var first, second := Made(s, t), Made(t, run.session);
    MadeInTurn(s, t, run.session);
    VerdictsJoin(first, second, world.parse);
    if run.result.Success? {
      TranslatesMore(run.result.value, items, first, second, [], world.parse);
      assert first + second + [] == first + second;
    }
  }

  /** The loop of attempts ends in a success, in a timeout or after two failures. */
  lemma RepeatRan(world: World, s: Session, items: seq<Item>, depth: nat)
    requires Traceable(world, s)
    ensures var run := RepeatOf(world, s, items, depth, 0);
      && Ran(world, s, run, items, depth, depth)
      && var verdicts := Verdicts(Made(s, run.session), world.parse);
         if VerdictOf(run.result) == Failed then verdicts == [Failed, Failed]
         else verdicts == [VerdictOf(run.result)] || verdicts == [Failed, VerdictOf(run.result)]
  {
    TryRan(world, s, items, depth);
    var first := TryOf(world, s, items, depth);
    if VerdictOf(first.result) == Failed {
      var second := TryOf(world, first.session, items, depth);
      assert RepeatOf(world, s, items, depth, 0) == RepeatOf(world, first.session, items, depth, 1) == second;
      TryRan(world, first.session, items, depth);
      RanInTurn(world, s, first.session, second, items, depth, depth, depth, depth);
    }
  }

  /** Whatever the world does, a result has exactly the batch's keys, each with a non-blank
      text it was given for that key; and every attempt is tied to its own prompt. */
  lemma {:induction false} BatchIsTied(world: World, s: Session, items: seq<Item>, depth: nat, high: nat)
    requires Traceable(world, s) && items != [] && depth + CeilLog2(|items|) <= high
    ensures Ran(world, s, BatchOf(world, s, items, depth), items, depth, high)
    decreases |items|, 1
  {
    RepeatRan(world, s, items, depth);
    var first := RepeatOf(world, s, items, depth, 0);
    if VerdictOf(first.result) == TimedOut && |items| > 1 {
      HalvesAreTied(world, first.session, items, depth, high);
      RanInTurn(world, s, first.session, HalvesOf(world, first.session, items, depth), items, depth, depth + 1, depth, high);
    } else {
      RanWithin(world, s, first, items, depth, depth, high);
    }
  }

  lemma {:induction false} HalvesAreTied(world: World, s: Session, items: seq<Item>, depth: nat, high: nat)
    requires Traceable(world, s) && |items| > 1 && depth + CeilLog2(|items|) <= high
    ensures Ran(world, s, HalvesOf(world, s, items, depth), items, depth + 1, high)
    decreases |items|, 0
  {
    var midpoint := (|items| + 1) / 2;
    var a, b := items[..midpoint], items[midpoint..];
    var left := BatchOf(world, s, a, depth + 1);
    HalfDepths(items, midpoint);
    HalvesInTurn(world, s, items, depth);
    BatchIsTied(world, s, a, depth + 1, high);
    if left.result.Failure? {
      FailedRan(world, s, left, a, items, depth + 1, high);
    } else {
      BatchIsTied(world, left.session, b, depth + 1, high);
      BothRan(world, s, left, BatchOf(world, left.session, b, depth + 1), items, midpoint, depth + 1, high);
    }
  }

  lemma HalfDepths(items: seq<Item>, midpoint: nat)
    requires |items| > 1 && midpoint == (|items| + 1) / 2
    ensures 1 <= midpoint < |items|
    ensures 1 + CeilLog2(|items[..midpoint]|) <= CeilLog2(|items|) && 1 + CeilLog2(|items[midpoint..]|) <= CeilLog2(|items|)
  {
    assert |items[midpoint..]| == |items| / 2;
    CeilLog2Monotone(|items| / 2, midpoint);
  }

  /** A failure says nothing about the items. */
  lemma FailedRan(
    world: World, s: Session, run: Run<map<string, string>>, items: seq<Item>, others: seq<Item>, low: nat, high: nat)
    requires Ran(world, s, run, items, low, high) && run.result.Failure?
    ensures Ran(world, s, run, others, low, high)
  {
  }

  lemma BatchGrows(world: World, s: Session, items: seq<Item>, depth: nat)
    requires Traceable(world, s) && items != []
    ensures var run := BatchOf(world, s, items, depth); Traceable(world, run.session) && s.log <= run.session.log
  {
    BatchIsTied(world, s, items, depth, depth + CeilLog2(|items|));
  }

  lemma HalvesInTurn(world: World, s: Session, items: seq<Item>, depth: nat)
    requires Usable(s) && |items| > 1
    ensures var run, midpoint := HalvesOf(world, s, items, depth), (|items| + 1) / 2;
      var left := BatchOf(world, s, items[..midpoint], depth + 1);
      if left.result.Failure? then run == left
      else run == Both(left, BatchOf(world, left.session, items[midpoint..], depth + 1))
  {
  }

  lemma VerdictsInTurn(s: Session, t: Session, u: Session, parse: string -> Answer)
    requires s.log <= t.log && t.log <= u.log
    ensures s.log <= u.log && Verdicts(Made(s, u), parse) == Verdicts(Made(s, t), parse) + Verdicts(Made(t, u), parse)
  {
    MadeInTurn(s, t, u);
    VerdictsJoin(Made(s, t), Made(t, u), parse);
  }

  /** The attempts of a batch form a complete course that fits its result. */
  lemma {:induction false} BatchHasCourse(world: World, s: Session, items: seq<Item>, depth: nat)
    requires Traceable(world, s) && items != []
    ensures var run := BatchOf(world, s, items, depth);
      && s.log <= run.session.log
      && IsCourse(|items|, Verdicts(Made(s, run.session), world.parse), run.result.Success?)
    decreases |items|, 1
  {
    RepeatRan(world, s, items, depth);
    var first := RepeatOf(world, s, items, depth, 0);
    if VerdictOf(first.result) == TimedOut && |items| > 1 {
      var run := HalvesOf(world, first.session, items, depth);
      HalvesHaveCourse(world, first.session, items, depth);
      VerdictsInTurn(s, first.session, run.session, world.parse);
      AfterTimeout(|items|, Verdicts(Made(s, first.session), world.parse),
                   Verdicts(Made(first.session, run.session), world.parse), run.result.Success?);
    }
  }

  lemma {:induction false} HalvesHaveCourse(world: World, s: Session, items: seq<Item>, depth: nat)
    requires Traceable(world, s) && |items| > 1
    ensures var run := HalvesOf(world, s, items, depth);
      && s.log <= run.session.log
      && SplitCourse(|items|, Verdicts(Made(s, run.session), world.parse), run.result.Success?)
    decreases |items|, 0
  {
    var n := |items|;
    var a, b := items[..(n + 1) / 2], items[(n + 1) / 2..];
    var left := BatchOf(world, s, a, depth + 1);
    assert |a| == (n + 1) / 2 && |b| == n / 2;
    BatchGrows(world, s, a, depth + 1);
    BatchHasCourse(world, s, a, depth + 1);
    HalvesInTurn(world, s, items, depth);
    if left.result.Failure? {
      FirstHalfFails(n, Verdicts(Made(s, left.session), world.parse));
    } else {
      var right := BatchOf(world, left.session, b, depth + 1);
      BatchHasCourse(world, left.session, b, depth + 1);
      HalvesJoin(n, s, left, right, world.parse);
    }
  }

  lemma FirstHalfFails(n: nat, verdicts: seq<Verdict>)
    requires n >= 2 && IsCourse((n + 1) / 2, verdicts, false)
    ensures SplitCourse(n, verdicts, false)
  {
  }

  lemma HalvesJoin(
    n: nat, s: Session, left: Run<map<string, string>>, right: Run<map<string, string>>, parse: string -> Answer)
    requires n >= 2 && left.result.Success? && s.log <= left.session.log && left.session.log <= right.session.log
    requires IsCourse((n + 1) / 2, Verdicts(Made(s, left.session), parse), true)
    requires IsCourse(n / 2, Verdicts(Made(left.session, right.session), parse), right.result.Success?)
    ensures var run := Both(left, right);
      && s.log <= run.session.log && SplitCourse(n, Verdicts(Made(s, run.session), parse), run.result.Success?)
  {
    VerdictsInTurn(s, left.session, right.session, parse);
    BothHalves(n, Verdicts(Made(s, left.session), parse), Verdicts(Made(left.session, right.session), parse),
               right.result.Success?);
  }

  /** Whatever the world does, the attempts of a batch form a complete course that fits
      its result, no deeper than the rounded-up binary logarithm of its size; a result
      has exactly the batch's keys, each with a non-blank text it was given for that
      key; and every attempt is tied to its own prompt. */
  lemma BatchRan(world: World, s: Session, items: seq<Item>, depth: nat)
    requires Traceable(world, s) && items != []
    ensures var run := BatchOf(world, s, items, depth);
      && Ran(world, s, run, items, depth, depth + CeilLog2(|items|))
      && IsCourse(|items|, Verdicts(Made(s, run.session), world.parse), run.result.Success?)
  {
    BatchIsTied(world, s, items, depth, depth + CeilLog2(|items|));
    BatchHasCourse(world, s, items, depth);
  }

  lemma RanWithin(world: World, s: Session, run: Run<map<string, string>>, items: seq<Item>, low: nat, high: nat, higher: nat)
    requires Ran(world, s, run, items, low, high) && high <= higher
    ensures Ran(world, s, run, items, low, higher)
  {
  }

  lemma BothRan(
    world: World, s: Session, left: Run<map<string, string>>, right: Run<map<string, string>>, items: seq<Item>,
    midpoint: nat, low: nat, high: nat)
    requires midpoint <= |items| && left.result.Success?
    requires Ran(world, s, left, items[..midpoint], low, high)
    requires Ran(world, left.session, right, items[midpoint..], low, high)
    ensures Ran(world, s, Both(left, right), items, low, high)
  {
    RanInTurn(world, s, left.session, right, items[midpoint..], low, low, high, high);
    if right.result.Success? {
      HalvesTranslate(world, s, left, right, items, midpoint);
    }
  }

  lemma HalvesTranslate(
    world: World, s: Session, left: Run<map<string, string>>, right: Run<map<string, string>>, items: seq<Item>, midpoint: nat)
    requires midpoint <= |items| && s.log <= left.session.log && left.session.log <= right.session.log
    requires left.result.Success? && right.result.Success?
    requires Translates(left.result.value, items[..midpoint], Made(s, left.session), world.parse)
    requires Translates(right.result.value, items[midpoint..], Made(s, right.session), world.parse)
    ensures Translates(left.result.value + right.result.value, items, Made(s, right.session), world.parse)
  {
    var first, second := Made(s, left.session), Made(left.session, right.session);
    MadeInTurn(s, left.session, right.session);
    TranslatesMore(left.result.value, items[..midpoint], [], first, second, world.parse);
    assert [] + first + second == first + second;
    KeysOfBoth(items, midpoint);
  }

  lemma KeysOfBoth(items: seq<Item>, middle: nat)
    requires middle <= |items|
    ensures KeysOf(items) == KeysOf(items[..middle]) + KeysOf(items[middle..])
  {
    forall key | key in KeysOf(items)
      ensures key in KeysOf(items[..middle]) + KeysOf(items[middle..])
    {
      var i :| 0 <= i < |items| && items[i].key == key;
      if i < middle {
        assert items[..middle][i].key == key;
      } else {
        assert items[middle..][i - middle].key == key;
      }
    }
  }

  /** A batch of `n` items costs at most 4n - 2 prompts. */
  lemma BatchIsShort(world: World, s: Session, items: seq<Item>, depth: nat)
    requires Traceable(world, s) && items != []
    ensures 1 <= |BatchOf(world, s, items, depth).session.log| - |s.log| <= 4 * |items| - 2
  {
    BatchRan(world, s, items, depth);
    var run := BatchOf(world, s, items, depth);
    CourseIsShort(|items|, Verdicts(Made(s, run.session), world.parse), run.result.Success?);
  }

  // ----- Every course happens -----

  /** What a peer does for a prompt to end like that. */
  function Deed(v: Verdict): seq<Event> {
    match v
    case Good => [AgentEnd(Resolved("done"))]
    case Failed => [AgentEnd(Rejected("refused"))]
    case TimedOut => []
  }

  /** The world whose attempts end as the script says, and whose answers are `texts`. */
  function Scripted(script: seq<Verdict>, texts: map<string, string>): World {
    World((n: nat) => None, (n: nat) => [], (n: nat) => if n < |script| then Deed(script[n]) else [],
          (items: seq<Item>) => "", (text: string) => Properties(texts))
  }

  /** A client that is not closed, and whose process has written no errors. */
  ghost predicate IsSilent(s: State) {
    !s.closed && s.stderr == []
  }

  /** So far every attempt has ended as the script says, and an open client is silent. */
  ghost predicate OnScript(script: seq<Verdict>, texts: map<string, string>, s: Session) {
    && Usable(s) && (s.open ==> IsSilent(After(s.histories[|s.histories| - 1])))
    && |s.log| <= |script| && Verdicts(s.log, Scripted(script, texts).parse) == script[..|s.log|]
  }

  lemma MessagesAreTold()
    ensures IsPromptTimeoutError(TIMED_OUT) && !IsPromptTimeoutError("refused")
  {
    var told := ToLowerAscii(TIMED_OUT);
    assert told[19..28] == "timed out";
    assert OccursAt(told, "timed out", 19);
  }

  lemma ScriptedStart(history: seq<Event>)
    requires Ready(history) && IsSilent(After(history))
    ensures var s := After(Asked(history, ""));
      s.settled == After(history).settled && s.pending.Some? && IsSilent(s)
  {
    AlwaysInv(history);
    AskIsServedNext(After(history), "");
    Extend(history, Submit(""));
    Extend(history + [Submit("")], Start);
    TicketsInOrder(After(history).settled);
  }

  lemma SilentTimeout()
    ensures TimeoutReason([]) == TIMED_OUT
  {
    assert Join([], "\n") == "" && Trim("") == "";
  }

  lemma ScriptedEnd(asked: seq<Event>, v: Verdict)
    requires Orderly(asked) && After(asked).pending.Some? && IsSilent(After(asked))
    ensures var r, n := Awaited(Delivered(asked, Deed(v))), |After(asked).settled|;
      && |After(r).settled| == n + 1 && (v == Good ==> IsSilent(After(r)))
      && After(r).settled[n].outcome == Reply(v)
  {
    AlwaysInv(asked);
    assert Delivered(asked, []) == asked;
    if v == TimedOut {
      SilentTimeout();
      TimeoutSettles(After(asked));
      Extend(asked, TimerFires(After(asked).pending.value.id));
    } else {
      var e := Deed(v)[0];
      Extend(asked, e);
      DeliveredOne(asked, e);
      TicketsInOrder(After(asked).settled);
    }
  }

  lemma DeliveredOne(history: seq<Event>, e: Event)
    requires Orderly(history) && IsDelivery(e) && Enabled(After(history), e)
    ensures Delivered(history, [e]) == history + [e]
  {
    assert [e][..0] == [] && Delivered(history, []) == history;
  }

  lemma ScriptedPrompt(history: seq<Event>, v: Verdict)
    requires Ready(history) && IsSilent(After(history))
    ensures var r, n := Prompted(history, [], "", Deed(v)), |After(history).settled|;
      && |After(r).settled| == n + 1 && (v == Good ==> IsSilent(After(r)))
      && After(r).settled[n].outcome == Reply(v)
  {
    assert Delivered(history, []) == history;
    ScriptedStart(history);
    ScriptedEnd(Asked(history, ""), v);
  }

  lemma ScriptedTry(script: seq<Verdict>, texts: map<string, string>, s: Session, items: seq<Item>, depth: nat)
    requires OnScript(script, texts, s) && |s.log| < |script| && HasAll(items, texts)
    ensures var run := TryOf(Scripted(script, texts), s, items, depth);
      && VerdictOf(run.result) == script[|s.log|]
      && OnScript(script, texts, run.session) && |run.session.log| == |s.log| + 1
  {
    var world, v := Scripted(script, texts), script[|s.log|];
    ScriptedAsk(script, texts, s, items);
    ScriptedRead(script, texts, items, v);
    TryEnds(world, s, items, depth);
    var asking := AskOf(world, s, items);
    OneMoreOnScript(script, s.log, Attempt(items, depth, asking.prompt, asking.reply), world.parse);
  }

  function Reply(v: Verdict): Outcome {
    match v case Good => Resolved("done") case Failed => Rejected("refused") case TimedOut => Rejected(TIMED_OUT)
  }

  lemma ScriptedWorldSays(script: seq<Verdict>, texts: map<string, string>, n: nat, items: seq<Item>)
    requires n < |script|
    ensures var world := Scripted(script, texts);
      && world.boot(n) == None && world.idle(n) == [] && world.busy(n) == Deed(script[n]) && world.render(items) == ""
  {
  }

  lemma ScriptedAsk(script: seq<Verdict>, texts: map<string, string>, s: Session, items: seq<Item>)
    requires OnScript(script, texts, s) && |s.log| < |script|
    ensures var asking := AskOf(Scripted(script, texts), s, items);
      && asking.reply == Reply(script[|s.log|]) && asking.session.open && asking.session.histories != []
      && (script[|s.log|] == Good ==> IsSilent(After(asking.session.histories[|asking.session.histories| - 1])))
  {
    var n, hs := |s.log|, WithClient(s);
    var history := hs[|hs| - 1];
    ScriptedClient(script, texts, s);
    ScriptedWorldSays(script, texts, n, items);
    ScriptedPrompt(history, script[n]);
    AskEnds(Scripted(script, texts), s, items, history, Prompted(history, [], "", Deed(script[n])));
  }

  lemma ScriptedClient(script: seq<Verdict>, texts: map<string, string>, s: Session)
    requires OnScript(script, texts, s)
    ensures var hs := WithClient(s); hs != [] && Ready(hs[|hs| - 1]) && IsSilent(After(hs[|hs| - 1]))
  {
    ClientIsReady(s);
  }

  lemma ScriptedRead(script: seq<Verdict>, texts: map<string, string>, items: seq<Item>, v: Verdict)
    requires HasAll(items, texts)
    ensures VerdictOf(Read(items, Reply(v), Scripted(script, texts).parse)) == v
  {
    ReadIff(items, Reply(v), Scripted(script, texts).parse);
    MessagesAreTold();
  }

  lemma OneMoreOnScript(script: seq<Verdict>, log: seq<Attempt>, a: Attempt, parse: string -> Answer)
    requires |log| < |script| && Verdicts(log, parse) == script[..|log|] && AttemptVerdict(a, parse) == script[|log|]
    ensures Verdicts(log + [a], parse) == script[..|log| + 1]
  {
    VerdictsJoin(log, [a], parse);
    assert Verdicts([a], parse) == [script[|log|]];
  }

  lemma ScriptedRepeat(script: seq<Verdict>, texts: map<string, string>, s: Session, items: seq<Item>, depth: nat)
    requires OnScript(script, texts, s) && HasAll(items, texts)
    requires var k := |s.log|; k < |script| && (script[k] == Failed ==> k + 1 < |script|)
    ensures var run, k := RepeatOf(Scripted(script, texts), s, items, depth, 0), |s.log|;
      var last := if script[k] == Failed then k + 1 else k;
      VerdictOf(run.result) == script[last] && OnScript(script, texts, run.session) && |run.session.log| == last + 1
  {
    var world := Scripted(script, texts);
    ScriptedTry(script, texts, s, items, depth);
    if script[|s.log|] == Failed {
      var first := TryOf(world, s, items, depth);
      assert RepeatOf(world, s, items, depth, 0) == RepeatOf(world, first.session, items, depth, 1)
                                                 == TryOf(world, first.session, items, depth);
      ScriptedTry(script, texts, first.session, items, depth);
    }
  }

  /** From here the script continues with `course`. */
  predicate Continues(script: seq<Verdict>, s: Session, course: seq<Verdict>) {
    |s.log| + |course| <= |script| && script[|s.log|..|s.log| + |course|] == course
  }

  lemma ContinuesAt(script: seq<Verdict>, s: Session, t: Session, course: seq<Verdict>, k: nat)
    requires Continues(script, s, course) && k <= |course|
    ensures Continues(script, s, course[..k])
    ensures |t.log| == |s.log| + k ==> Continues(script, t, course[k..])
  {
    var n := |s.log|;
    assert script[n..n + |course|][..k] == script[n..n + k];
    assert script[n..n + |course|][k..] == script[n + k..n + |course|];
  }

  lemma NextOnScript(script: seq<Verdict>, s: Session, course: seq<Verdict>, i: nat)
    requires Continues(script, s, course) && i < |course|
    ensures script[|s.log| + i] == course[i]
  {
    assert script[|s.log|..|s.log| + |course|][i] == script[|s.log| + i];
  }

  /** The run has followed the script for `n` attempts and ended like that. */
  ghost predicate Follows(
    script: seq<Verdict>, texts: map<string, string>, s: Session, run: Run<map<string, string>>, n: nat, ok: bool) {
    run.result.Success? == ok && OnScript(script, texts, run.session) && |run.session.log| == |s.log| + n
  }

  /** A script that continues with a course is followed through it. */
  lemma {:induction false} ScriptedBatch(
    script: seq<Verdict>, texts: map<string, string>, s: Session, items: seq<Item>, depth: nat, course: seq<Verdict>, ok: bool)
    requires OnScript(script, texts, s) && HasAll(items, texts) && items != []
    requires IsCourse(|items|, course, ok) && Continues(script, s, course)
    ensures Follows(script, texts, s, BatchOf(Scripted(script, texts), s, items, depth), |course|, ok)
    decreases |items|, 1
  {
    var n := CourseHead(|items|, course, ok);
    var run := RepeatOf(Scripted(script, texts), s, items, depth, 0);
    ScriptedHead(script, texts, s, items, depth, course, n);
    if course[n - 1] == TimedOut && |items| > 1 {
      var a, first, leftOk, b, rest := HalvesPlan(items, course[n..], ok);
      ScriptedHalves(script, texts, run.session, items, depth, a, first, leftOk, b, rest, ok);
    }
  }

  lemma ScriptedHead(
    script: seq<Verdict>, texts: map<string, string>, s: Session, items: seq<Item>, depth: nat, course: seq<Verdict>, n: nat)
    requires OnScript(script, texts, s) && HasAll(items, texts) && Continues(script, s, course)
    requires 1 <= n <= |course| && n == if course[0] == Failed then 2 else 1
    ensures var run := RepeatOf(Scripted(script, texts), s, items, depth, 0);
      && Follows(script, texts, s, run, n, course[n - 1] == Good) && VerdictOf(run.result) == course[n - 1]
      && Continues(script, run.session, course[n..])
  {
    var run := RepeatOf(Scripted(script, texts), s, items, depth, 0);
    NextOnScript(script, s, course, 0);
    NextOnScript(script, s, course, n - 1);
    ScriptedRepeat(script, texts, s, items, depth);
    ContinuesAt(script, s, run.session, course, n);
  }

  /** How many verdicts of a course belong to the whole batch. */
  lemma CourseHead(size: nat, course: seq<Verdict>, ok: bool) returns (n: nat)
    requires size >= 1 && IsCourse(size, course, ok)
    ensures 1 <= n <= |course| && n <= 2 && n == if course[0] == Failed then 2 else 1
    ensures if course[n - 1] == TimedOut && size > 1 then SplitCourse(size, course[n..], ok)
            else n == |course| && (ok <==> course[n - 1] == Good)
  {
    n := if course[0] == Failed then 2 else 1;
  }

  /** Both halves follow the script, the second if the first succeeded. */
  lemma {:induction false} ScriptedHalves(
    script: seq<Verdict>, texts: map<string, string>, s: Session, items: seq<Item>, depth: nat,
    a: seq<Item>, first: seq<Verdict>, leftOk: bool, b: seq<Item>, rest: seq<Verdict>, ok: bool)
    requires OnScript(script, texts, s) && HasAll(items, texts) && |items| > 1
    requires a == items[..(|items| + 1) / 2] && IsCourse(|a|, first, leftOk) && Continues(script, s, first + rest)
    requires b == items[(|items| + 1) / 2..] && if leftOk then IsCourse(|b|, rest, ok) else rest == [] && !ok
    ensures Follows(script, texts, s, HalvesOf(Scripted(script, texts), s, items, depth), |first| + |rest|, ok)
    decreases |items|, 0
  {
    var left := BatchOf(Scripted(script, texts), s, a, depth + 1);
    HasAllParts(items, (|items| + 1) / 2, texts);
    ContinuesInTurn(script, s, left.session, first, rest);
    ScriptedBatch(script, texts, s, a, depth + 1, first, leftOk);
    if leftOk {
      ScriptedBatch(script, texts, left.session, b, depth + 1, rest, ok);
    }
    HalvesFollow(script, texts, s, items, depth, |first|, |rest|, leftOk, ok);
  }

  lemma ContinuesInTurn(script: seq<Verdict>, s: Session, t: Session, first: seq<Verdict>, rest: seq<Verdict>)
    requires Continues(script, s, first + rest)
    ensures Continues(script, s, first)
    ensures |t.log| == |s.log| + |first| ==> Continues(script, t, rest)
  {
    ContinuesAt(script, s, t, first + rest, |first|);
    assert (first + rest)[..|first|] == first && (first + rest)[|first|..] == rest;
  }

  lemma HalvesFollow(
    script: seq<Verdict>, texts: map<string, string>, s: Session, items: seq<Item>, depth: nat,
    k: nat, more: nat, leftOk: bool, ok: bool)
    requires Usable(s) && |items| > 1 && (!leftOk ==> more == 0 && !ok)
    requires var midpoint := (|items| + 1) / 2;
      var left := BatchOf(Scripted(script, texts), s, items[..midpoint], depth + 1);
      && Follows(script, texts, s, left, k, leftOk)
      && (leftOk ==>
            Follows(script, texts, left.session, BatchOf(Scripted(script, texts), left.session, items[midpoint..], depth + 1), more, ok))
    ensures Follows(script, texts, s, HalvesOf(Scripted(script, texts), s, items, depth), k + more, ok)
  {
  }

  lemma HasAllParts(items: seq<Item>, midpoint: nat, texts: map<string, string>)
    requires HasAll(items, texts) && midpoint <= |items|
    ensures HasAll(items[..midpoint], texts) && HasAll(items[midpoint..], texts)
  {
  }

  /** The verdicts of either half; there are none for the second if the first failed. */
  lemma HalvesHead(size: nat, course: seq<Verdict>, ok: bool)
      returns (first: seq<Verdict>, leftOk: bool, rest: seq<Verdict>)
    requires size >= 2 && SplitCourse(size, course, ok)
    ensures course == first + rest && IsCourse((size + 1) / 2, first, leftOk)
    ensures if leftOk then IsCourse(size / 2, rest, ok) else rest == [] && !ok
  {
    if !ok && IsCourse((size + 1) / 2, course, false) {
      first, leftOk, rest := course, false, [];
      CutAt(course, |course|);
    } else {
      var k :| 0 <= k <= |course| && IsCourse((size + 1) / 2, course[..k], true) && IsCourse(size / 2, course[k..], ok);
      first, leftOk, rest := course[..k], true, course[k..];
      CutAt(course, k);
    }
  }

  lemma CutAt(course: seq<Verdict>, k: nat)
    requires k <= |course|
    ensures course == course[..k] + course[k..] && course == course + []
  {
  }

  lemma HalvesPlan(items: seq<Item>, course: seq<Verdict>, ok: bool)
      returns (a: seq<Item>, first: seq<Verdict>, leftOk: bool, b: seq<Item>, rest: seq<Verdict>)
    requires |items| >= 2 && SplitCourse(|items|, course, ok)
    ensures a == items[..(|items| + 1) / 2] && b == items[(|items| + 1) / 2..]
    ensures course == first + rest && IsCourse(|a|, first, leftOk)
    ensures if leftOk then IsCourse(|b|, rest, ok) else rest == [] && !ok
  {
    first, leftOk, rest := HalvesHead(|items|, course, ok);
    a, b := items[..(|items| + 1) / 2], items[(|items| + 1) / 2..];
    assert |a| == (|items| + 1) / 2 && |b| == |items| / 2;
  }

  lemma CourseHappens(items: seq<Item>, course: seq<Verdict>, ok: bool) returns (world: World)
    requires items != [] && IsCourse(|items|, course, ok)
    ensures var run := BatchOf(world, FRESH, items, 0);
      Verdicts(run.session.log, world.parse) == course && run.result.Success? == ok
  {
    var texts := map key | key in KeysOf(items) :: "x";
    world := Scripted(course, texts);
    TextsForAll(items, texts);
    FreshIsOnScript(course, texts);
    ScriptedBatch(course, texts, FRESH, items, 0, course, ok);
    WholeScript(course, texts, BatchOf(world, FRESH, items, 0).session);
  }

  lemma FreshIsOnScript(script: seq<Verdict>, texts: map<string, string>)
    ensures OnScript(script, texts, FRESH) && Continues(script, FRESH, script)
  {
    assert script[0..0 + |script|] == script;
    assert Verdicts([], Scripted(script, texts).parse) == script[..0];
  }

  lemma WholeScript(script: seq<Verdict>, texts: map<string, string>, s: Session)
    requires OnScript(script, texts, s) && |s.log| == |script|
    ensures Verdicts(s.log, Scripted(script, texts).parse) == script
  {
    assert script[..|script|] == script;
  }

  lemma TextsForAll(items: seq<Item>, texts: map<string, string>)
    requires forall key :: key in KeysOf(items) ==> key in texts && texts[key] == "x"
    ensures HasAll(items, texts)
  {
    assert !IsSpace("x"[0]);
    assert forall i :: 0 <= i < |items| ==> items[i].key in KeysOf(items);
  }

  lemma HappenedIsCourse(items: seq<Item>, world: World)
    requires items != []
    ensures var run := BatchOf(world, FRESH, items, 0);
      IsCourse(|items|, Verdicts(run.session.log, world.parse), run.result.Success?)
  {
    BatchRan(world, FRESH, items, 0);
    var run := BatchOf(world, FRESH, items, 0);
    assert Made(FRESH, run.session) == run.session.log;
  }

  ghost predicate Happens(world: World, items: seq<Item>, course: seq<Verdict>, ok: bool) {
    var run := BatchOf(world, FRESH, items, 0);
    Verdicts(run.session.log, world.parse) == course && run.result.Success? == ok
  }

  /** Exactly the complete courses can happen: each is what some world makes of the batch. */
  lemma CoursesAreWhatHappens(items: seq<Item>, course: seq<Verdict>, ok: bool)
    requires items != []
    ensures IsCourse(|items|, course, ok) <==> exists world :: Happens(world, items, course, ok)
  {
    if IsCourse(|items|, course, ok) {
      var world := CourseHappens(items, course, ok);
      assert Happens(world, items, course, ok);
    }
    forall world | Happens(world, items, course, ok)
      ensures IsCourse(|items|, course, ok)
    {
      HappenedIsCourse(items, world);
    }
  }

  /** The bound on the prompts is reached: some world makes a batch take 4n - 2 and still succeed. */
  lemma LongestRun(items: seq<Item>) returns (world: World)
    requires items != []
    ensures |BatchOf(world, FRESH, items, 0).session.log| == 4 * |items| - 2
    ensures BatchOf(world, FRESH, items, 0).result.Success?
  {
    var course := LongestCourse(|items|);
    world := CourseHappens(items, course, true);
    assert |Verdicts(BatchOf(world, FRESH, items, 0).session.log, world.parse)| == |course|;
  }

  // ----- A course ends in one way only -----

  lemma {:induction false} CoursesArePrefixFree(n: nat, v: seq<Verdict>, w: seq<Verdict>, vOk: bool, wOk: bool)
    requires n >= 1 && IsCourse(n, v, vOk) && IsCourse(n, w, wOk) && v <= w
    ensures v == w && vOk == wOk
    decreases n, 1
  {
    var k := CourseHead(n, v, vOk);
    var m := CourseHead(n, w, wOk);
    assert k == m && v[k - 1] == w[k - 1];
    if v[k - 1] == TimedOut && n > 1 {
      CutAt(v, k);
      CutAt(w, k);
      SplitsArePrefixFree(n, v[k..], w[k..], vOk, wOk);
    }
  }

  lemma EitherIsPrefix(a: seq<Verdict>, b: seq<Verdict>, whole: seq<Verdict>)
    requires a <= whole && b <= whole
    ensures a <= b || b <= a
  {
  }

  lemma SameStart(a: seq<Verdict>, b: seq<Verdict>, c: seq<Verdict>)
    requires a + b <= a + c
    ensures b <= c && (b == c ==> a + b == a + c)
  {
    assert (a + b)[|a|..] == b && (a + c)[|a|..] == c;
  }

  lemma {:induction false} SplitsArePrefixFree(n: nat, v: seq<Verdict>, w: seq<Verdict>, vOk: bool, wOk: bool)
    requires n >= 2 && SplitCourse(n, v, vOk) && SplitCourse(n, w, wOk) && v <= w
    ensures v == w && vOk == wOk
    decreases n, 0
  {
    var a, aOk, b := HalvesHead(n, v, vOk);
    var c, cOk, d := HalvesHead(n, w, wOk);
    EitherIsPrefix(a, c, w);
    if a <= c {
      CoursesArePrefixFree((n + 1) / 2, a, c, aOk, cOk);
    } else {
      CoursesArePrefixFree((n + 1) / 2, c, a, cOk, aOk);
    }
    if aOk {
      SameStart(a, b, d);
      CoursesArePrefixFree(n / 2, b, d, vOk, wOk);
    }
  }

  /** A batch succeeds exactly when the answers its prompts received form a successful course. */
  lemma BatchSucceedsIff(world: World, s: Session, items: seq<Item>, depth: nat)
    requires Traceable(world, s) && items != []
    ensures var run := BatchOf(world, s, items, depth);
      && s.log <= run.session.log
      && (run.result.Success? <==> IsCourse(|items|, Verdicts(Made(s, run.session), world.parse), true))
  {
    BatchRan(world, s, items, depth);
    var run := BatchOf(world, s, items, depth);
    var verdicts := Verdicts(Made(s, run.session), world.parse);
    if IsCourse(|items|, verdicts, true) {
      CoursesArePrefixFree(|items|, verdicts, verdicts, true, run.result.Success?);
    }
  }

  // ----- The script's own code -----

  /** The loop of attempts. */
  method TryRepeatedly(access: ClientAccess, items: seq<Item>, depth: nat) returns (r: Result<map<string, string>>)
    requires access.Valid()
    modifies access, access.client
    ensures access.Valid() && Run(access.session, r) == RepeatOf(access.world, old(access.session), items, depth, 0)
    ensures access.client != null ==> access.client == old(access.client) || fresh(access.client)
  {
    var attempt := 0;
    r := Failure("translation failed");
    while attempt < TRANSLATE_MAX_ATTEMPTS
      invariant 0 <= attempt <= TRANSLATE_MAX_ATTEMPTS && access.Valid()
      invariant access.client != null ==> access.client == old(access.client) || fresh(access.client)
      invariant RepeatOf(access.world, old(access.session), items, depth, 0)
             == if attempt < TRANSLATE_MAX_ATTEMPTS then RepeatOf(access.world, access.session, items, depth, attempt)
                else Run(access.session, r)
    {
      r := access.TryOnce(items, depth);
      if r.Success? || IsPromptTimeoutError(r.message) {
        return;
      }
      attempt := attempt + 1;
    }
  }

  /** `translateBatch`: two attempts, but a timeout of a batch of several items
      splits it and a timeout of a single item gives up. */
  method TranslateBatch(access: ClientAccess, items: seq<Item>, depth: nat) returns (r: Result<map<string, string>>)
    requires access.Valid()
    modifies access, access.client
    decreases |items|, 1
    ensures access.Valid() && Run(access.session, r) == BatchOf(access.world, old(access.session), items, depth)
    ensures access.client != null ==> access.client == old(access.client) || fresh(access.client)
  {
    r := TryRepeatedly(access, items, depth);
    if r.Failure? && IsPromptTimeoutError(r.message) && |items| > 1 {
      r := TranslateHalves(access, items, depth);
    }
  }

  /** The branch taken after a timeout of several items. */
  method TranslateHalves(access: ClientAccess, items: seq<Item>, depth: nat) returns (r: Result<map<string, string>>)
    requires access.Valid() && |items| > 1
    modifies access, access.client
    decreases |items|, 0
    ensures access.Valid() && Run(access.session, r) == HalvesOf(access.world, old(access.session), items, depth)
    ensures access.client != null ==> access.client == old(access.client) || fresh(access.client)
  {
    var midpoint := (|items| + 1) / 2;
    var left := TranslateBatch(access, items[..midpoint], depth + 1);
    if left.Failure? {
      return left;
    }
    var right := TranslateBatch(access, items[midpoint..], depth + 1);
    if right.Failure? {
      return right;
    }
    return Success(left.value + right.value);
  }
}
