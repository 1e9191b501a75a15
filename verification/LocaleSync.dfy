/** Synchronising one locale with the source language
    (`scripts/control-ui-i18n.ts`, `syncLocale`). */
module LocaleSync {
  import opened Options
  import opened Sorting
  import opened Text
  import opened TranslationTree
  import opened TranslationBatches
  import opened TranslationSession
  import opened BatchTranslation

  // ----- Files -----

  datatype TmEntry = TmEntry(
    cacheKey: string, model: string, provider: string, segmentId: string, sourcePath: string,
    srcLang: string, text: string, textHash: string, tgtLang: string, translated: string, updatedAt: string)

  datatype Meta = Meta(
    fallbackKeys: seq<string>, generatedAt: string, locale: string, model: string, provider: string,
    sourceHash: string, totalKeys: int, translatedKeys: int, workflow: int)

  datatype Term = Term(source: string, target: string)

  /** A file as the script sees it: `Canonical` is exactly the text the script
      renders for a value, `Handwritten` any other text that reads as the value. */
  datatype File<T> = Absent | Canonical(value: T) | Handwritten(value: T) {
    function Content(): Option<T> {
      match this
      case Absent => None
      case Canonical(v) => Some(v)
      case Handwritten(v) => Some(v)
    }
  }

  datatype Disk = Disk(
    locale: File<seq<Field>>, meta: File<Meta>, glossary: File<seq<Term>>, tm: File<seq<TmEntry>>)

  const WORKFLOW := 1
  const SOURCE_LOCALE := "en"
  const DEFAULT_GLOSSARY := [
    Term("OpenClaw", "OpenClaw"), Term("Gateway", "Gateway"), Term("Control UI", "Control UI"),
    Term("Skills", "Skills"), Term("Tailscale", "Tailscale"), Term("WhatsApp", "WhatsApp"),
    Term("Telegram", "Telegram"), Term("Discord", "Discord"), Term("Signal", "Signal"),
    Term("iMessage", "iMessage")]

  // ----- What a run is given -----

  /** The locale, and the library functions the script relies on. */
  datatype Site = Site(
    locale: string, fileName: string,
    sha256: string -> string,
    placeholders: string -> seq<string>,
    localeLe: (string, string) -> bool)

  datatype Env = Env(provider: string, model: string, allowTranslate: bool, budget: real)

  datatype Mode = Mode(checkOnly: bool, force: bool, write: bool)

  /** The source locale: the hash of its file, and its flattened entries. */
  datatype Source = Source(hash: string, entries: seq<Entry>)

  function CollapseSpaces(s: string): string {
    if s == "" then ""
    else if !IsSpace(s[0]) then [s[0]] + CollapseSpaces(s[1..])
    else if |s| > 1 && IsSpace(s[1]) then CollapseSpaces(s[1..])
    else " " + CollapseSpaces(s[1..])
  }

  function HashText(site: Site, text: string): string {
    site.sha256(CollapseSpaces(Trim(text)))
  }

  function CacheKey(site: Site, env: Env, key: string, textHash: string): string {
    site.sha256("wf=1|engine=pi|provider=" + env.provider + "|model=" + env.model + "|" + SOURCE_LOCALE
                + "|" + site.locale + "|" + key + "|" + textHash)
  }

  function KeyOf(site: Site, env: Env, e: Entry): string {
    CacheKey(site, env, e.key, HashText(site, e.text))
  }

  function SourcePath(site: Site): string {
    "ui/src/i18n/locales/" + site.fileName
  }

  // ----- The translation memory, a map in insertion order -----

  function SetTm(tm: seq<TmEntry>, e: TmEntry): seq<TmEntry> {
    if tm == [] then [e]
    else if tm[0].cacheKey == e.cacheKey then [e] + tm[1..]
    else [tm[0]] + SetTm(tm[1..], e)
  }

  function GetTm(tm: seq<TmEntry>, cacheKey: string): Option<TmEntry> {
    if tm == [] then None
    else if tm[0].cacheKey == cacheKey then Some(tm[0])
    else GetTm(tm[1..], cacheKey)
  }

  /** A line that loading keeps. */
  predicate IsUsable(e: TmEntry) {
    e.cacheKey != "" && !IsBlank(e.translated)
  }

  function LoadTm(lines: seq<TmEntry>): seq<TmEntry> {
    if lines == [] then []
    else
      var tm := LoadTm(lines[..|lines| - 1]);
      var e := lines[|lines| - 1];
      if IsUsable(e) then SetTm(tm, e) else tm
  }

  function RenderTm(tm: seq<TmEntry>, site: Site): seq<TmEntry> {
    Sort(tm, (a: TmEntry, b: TmEntry) => site.localeLe(a.cacheKey, b.cacheKey))
  }

  predicate Reusable(e: TmEntry, locale: string) {
    e.tgtLang == locale && e.textHash != "" && !IsBlank(e.translated)
  }

  function ByTextHash(tm: seq<TmEntry>, locale: string): map<string, TmEntry> {
    if tm == [] then map[]
    else
      var e := tm[|tm| - 1];
      var earlier := ByTextHash(tm[..|tm| - 1], locale);
      if Reusable(e, locale) then earlier[e.textHash := e] else earlier
  }

  // ----- The decision for each key -----

  /** What the first loop reads and never changes. */
  datatype Inputs = Inputs(
    site: Site, env: Env, byText: map<string, TmEntry>, existing: seq<Entry>, previousFallback: seq<string>)

  /** What it builds. */
  datatype Progress = Progress(
    next: map<string, string>, tm: seq<TmEntry>, pending: seq<Item>, fallback: seq<string>)

  function ScanKey(inp: Inputs, s: Progress, e: Entry): Progress {
    var textHash := HashText(inp.site, e.text);
    var cacheKey := CacheKey(inp.site, inp.env, e.key, textHash);
    var cached := GetTm(s.tm, cacheKey);
    var existing := Lookup(inp.existing, e.key);
    var refresh := e.key in inp.previousFallback;
    var noted := if refresh then s.fallback + [e.key] else s.fallback;
    if cached.Some? && !(inp.env.allowTranslate && refresh) then
      s.(next := s.next[e.key := cached.value.translated], fallback := noted)
    else if textHash in inp.byText && (refresh || existing.None?) then
      var copy := inp.byText[textHash].(cacheKey := cacheKey, segmentId := e.key, sourcePath := SourcePath(inp.site));
      s.(next := s.next[e.key := copy.translated], tm := SetTm(s.tm, copy))
    else if existing.Some? && !(inp.env.allowTranslate && refresh) then
      s.(next := s.next[e.key := existing.value], fallback := noted)
    else
      s.(pending := s.pending + [Item(cacheKey, e.key, e.text, textHash)])
  }

  function Scan(inp: Inputs, tm: seq<TmEntry>, entries: seq<Entry>): Progress {
    if entries == [] then Progress(map[], tm, [], [])
    else ScanKey(inp, Scan(inp, tm, entries[..|entries| - 1]), entries[|entries| - 1])
  }

  function StoreOne(inp: Inputs, s: Progress, item: Item, value: string, stamp: string): Progress {
    var e := TmEntry(item.cacheKey, inp.env.model, inp.env.provider, item.key, SourcePath(inp.site),
                     SOURCE_LOCALE, item.text, item.textHash, inp.site.locale, value, stamp);
    s.(next := s.next[item.key := value], tm := SetTm(s.tm, e))
  }

  /** Records the translations of the first `|values|` pending items. */
  function Store(inp: Inputs, s: Progress, values: seq<string>, clock: nat -> string): Progress {
    if values == [] || |values| > |s.pending| then s
    else
      var i := |values| - 1;
      StoreOne(inp, Store(inp, s, values[..i], clock), s.pending[i], values[i], clock(i))
  }

  function FallBackOne(inp: Inputs, force: bool, s: Progress, item: Item): Progress {
    var existing := Lookup(inp.existing, item.key);
    if item.key in s.next then s
    else if existing.Some? && !force then
      s.(next := s.next[item.key := existing.value],
         fallback := if item.key in inp.previousFallback then s.fallback + [item.key] else s.fallback)
    else s.(next := s.next[item.key := item.text], fallback := s.fallback + [item.key])
  }

  function FallBack(inp: Inputs, force: bool, s: Progress, items: seq<Item>): Progress {
    if items == [] then s
    else FallBackOne(inp, force, FallBack(inp, force, s, items[..|items| - 1]), items[|items| - 1])
  }

  // ----- The outcome -----

  function Assigned(entries: seq<Entry>, next: map<string, string>): seq<Entry> {
    seq(|entries|, i requires 0 <= i < |entries| =>
      Entry(entries[i].key, if entries[i].key in next then next[entries[i].key] else entries[i].text))
  }

  predicate PlaceholdersAgree(site: Site, entries: seq<Entry>, next: map<string, string>) {
    forall i :: 0 <= i < |entries| ==>
      site.placeholders(entries[i].text)
      == site.placeholders(if entries[i].key in next then next[entries[i].key] else "")
  }

  /** `[...new Set(keys)]` */
  function Distinct(keys: seq<string>): seq<string> {
    if keys == [] then []
    else
      var earlier := Distinct(keys[..|keys| - 1]);
      var last := keys[|keys| - 1];
      if last in earlier then earlier else earlier + [last]
  }

  function NextMeta(site: Site, env: Env, source: Source, previous: Option<Meta>, fallback: seq<string>, stamp: string): Meta {
    var sorted := Sort(Distinct(fallback), site.localeLe);
    var provider := if env.allowTranslate then env.provider else if previous.Some? then previous.value.provider else "";
    var model := if env.allowTranslate then env.model else if previous.Some? then previous.value.model else "";
    var current := Meta(sorted, stamp, site.locale, model, provider, source.hash, |source.entries|,
                      |source.entries| - |sorted|, WORKFLOW);
    if previous.Some? && previous.value.(generatedAt := stamp) == current
    then current.(generatedAt := previous.value.generatedAt) else current
  }

  function LoadedTm(disk: Disk): seq<TmEntry> {
    LoadTm(disk.tm.Content().GetOr([]))
  }

  function PreviousFallback(disk: Disk): seq<string> {
    if disk.meta.Content().Some? then disk.meta.Content().value.fallbackKeys else []
  }

  function InputsOf(site: Site, env: Env, disk: Disk): Inputs {
    Inputs(site, env, ByTextHash(LoadedTm(disk), site.locale), Flat(disk.locale.Content().GetOr([])),
           PreviousFallback(disk))
  }

  function FirstPass(site: Site, env: Env, source: Source, disk: Disk): Progress {
    Scan(InputsOf(site, env, disk), LoadedTm(disk), source.entries)
  }

  /** Are these answers for every key that waits for one? */
  predicate Answers(site: Site, env: Env, source: Source, disk: Disk, values: seq<string>) {
    && |values| == (if env.allowTranslate then |FirstPass(site, env, source, disk).pending| else 0)
    && forall i :: 0 <= i < |values| ==> !IsBlank(values[i])
  }

  function Resolve(
    site: Site, env: Env, mode: Mode, source: Source, disk: Disk, values: seq<string>, clock: nat -> string): Progress
    requires Answers(site, env, source, disk, values)
  {
    var inp := InputsOf(site, env, disk);
    var scan := FirstPass(site, env, source, disk);
    FallBack(inp, mode.force, Store(inp, scan, values, clock), scan.pending)
  }

  datatype SyncOutcome = SyncOutcome(changed: bool, fallbackCount: nat, wrote: bool)

  /** The four files a resolution renders to. */
  function Expected(site: Site, env: Env, source: Source, disk: Disk, r: Progress, stamp: string): Disk {
    var glossary := disk.glossary.Content().GetOr([]);
    Disk(Canonical(Rebuild(Assigned(source.entries, r.next))),
         Canonical(NextMeta(site, env, source, disk.meta.Content(), r.fallback, stamp)),
         Canonical(if glossary == [] then DEFAULT_GLOSSARY else glossary),
         Canonical(RenderTm(r.tm, site)))
  }

  /** A missing file reads as the empty text, which is also an empty translation memory. */
  function Drifted(disk: Disk, expected: Disk): bool {
    disk.(tm := if disk.tm.Absent? then Canonical([]) else disk.tm) != expected
  }

  /** Compares the files with what they should be, and writes them if asked to. */
  function Publish(site: Site, env: Env, mode: Mode, source: Source, disk: Disk, r: Progress, stamp: string)
    : (SyncOutcome, Disk)
  {
    var expected := Expected(site, env, source, disk, r, stamp);
    var changed := Drifted(disk, expected);
    var count := |expected.meta.value.fallbackKeys|;
    if !changed
       || (disk.meta.Content().Some? && disk.meta.Content().value.sourceHash == source.hash
           && !mode.force && !mode.checkOnly && !mode.write) then
      (SyncOutcome(changed, count, false), disk)
    else if !mode.checkOnly && mode.write then
      (SyncOutcome(changed, count, true),
       if disk.tm.Absent? && expected.tm.value == [] then expected.(tm := Absent) else expected)
    else
      (SyncOutcome(changed, count, false), disk)
  }

  /** The whole run: `None` when the placeholders of some text disagree. */
  function Sync(
    site: Site, env: Env, mode: Mode, source: Source, disk: Disk, values: seq<string>, clock: nat -> string)
    : Option<(SyncOutcome, Disk)>
    requires Answers(site, env, source, disk, values)
  {
    var r := Resolve(site, env, mode, source, disk, values, clock);
    if !PlaceholdersAgree(site, source.entries, r.next) then None
    else Some(Publish(site, env, mode, source, disk, r, clock(|values|)))
  }

  // ----- The script -----

  method LoadTranslationMemory(lines: seq<TmEntry>) returns (tm: seq<TmEntry>)
    ensures tm == LoadTm(lines)
  {
    tm := [];
    for i := 0 to |lines|
      invariant tm == LoadTm(lines[..i])
    {
      assert lines[..i + 1][..i] == lines[..i];
      if IsUsable(lines[i]) {
        tm := SetTm(tm, lines[i]);
      }
    }
    assert lines[..|lines|] == lines;
  }

  method BuildTranslationMemoryByTextHash(tm: seq<TmEntry>, locale: string) returns (byText: map<string, TmEntry>)
    ensures byText == ByTextHash(tm, locale)
  {
    byText := map[];
    for i := 0 to |tm|
      invariant byText == ByTextHash(tm[..i], locale)
    {
      assert tm[..i + 1][..i] == tm[..i];
      if Reusable(tm[i], locale) {
        byText := byText[tm[i].textHash := tm[i]];
      }
    }
    assert tm[..|tm|] == tm;
  }

  /** The loop over the source keys. */
  method ScanSource(inp: Inputs, loaded: seq<TmEntry>, entries: seq<Entry>) returns (s: Progress)
    ensures s == Scan(inp, loaded, entries)
  {
    var next: map<string, string>, tm, pending: seq<Item>, fallback: seq<string> := map[], loaded, [], [];
    for i := 0 to |entries|
      invariant Progress(next, tm, pending, fallback) == Scan(inp, loaded, entries[..i])
    {
      assert entries[..i + 1][..i] == entries[..i];
      var key, text := entries[i].key, entries[i].text;
      var textHash := HashText(inp.site, text);
      var segmentCacheKey := CacheKey(inp.site, inp.env, key, textHash);
      var cached := GetTm(tm, segmentCacheKey);
      var existing := Lookup(inp.existing, key);
      var shouldRefreshFallback := key in inp.previousFallback;
      if cached.Some? && !(inp.env.allowTranslate && shouldRefreshFallback) {
        next := next[key := cached.value.translated];
        if shouldRefreshFallback {
          fallback := fallback + [key];
        }
      } else if textHash in inp.byText && (shouldRefreshFallback || existing.None?) {
        var cachedByText := inp.byText[textHash];
        next := next[key := cachedByText.translated];
        tm := SetTm(tm, cachedByText.(cacheKey := segmentCacheKey, segmentId := key, sourcePath := SourcePath(inp.site)));
      } else if existing.Some? && !(inp.env.allowTranslate && shouldRefreshFallback) {
        next := next[key := existing.value];
        if shouldRefreshFallback {
          fallback := fallback + [key];
        }
      } else {
        pending := pending + [Item(segmentCacheKey, key, text, textHash)];
      }
    }
    assert entries[..|entries|] == entries;
    s := Progress(next, tm, pending, fallback);
  }

  lemma StoreStep(inp: Inputs, scan: Progress, values: seq<string>, value: string, clock: nat -> string)
    requires |values| < |scan.pending|
    ensures Store(inp, scan, values + [value], clock)
         == StoreOne(inp, Store(inp, scan, values, clock), scan.pending[|values|], value, clock(|values|))
  {
    assert (values + [value])[..|values|] == values;
  }

  // ----- The answers for the pending keys -----

  function ValuesOf(batch: seq<Item>, translated: map<string, string>): (values: seq<string>)
    ensures |values| == |batch|
  {
    seq(|batch|, i requires 0 <= i < |batch| => if batch[i].key in translated then translated[batch[i].key] else "")
  }

  /** The texts for the items of the batches, or why one of the batches failed. */
  ghost function AnswersOf(world: World, s: Session, batches: seq<seq<Item>>): (r: Run<seq<string>>)
    requires Usable(s)
    ensures Usable(r.session)
  {
    if batches == [] then Run(s, Success([]))
    else
      var earlier, batch := AnswersOf(world, s, batches[..|batches| - 1]), batches[|batches| - 1];
      if earlier.result.Failure? then earlier
      else
        var run := BatchOf(world, earlier.session, batch, 0);
        match run.result
        case Failure(message) => Run(run.session, Failure(message))
        case Success(translated) => Run(run.session, Success(earlier.result.value + ValuesOf(batch, translated)))
  }

  /** The first batch that fails ends the run. */
  lemma {:induction false} FailureEndsRun(world: World, s: Session, batches: seq<seq<Item>>, n: nat)
    requires Usable(s) && n <= |batches| && AnswersOf(world, s, batches[..n]).result.Failure?
    ensures AnswersOf(world, s, batches) == AnswersOf(world, s, batches[..n])
    decreases |batches|
  {
    if n == |batches| {
      assert batches[..n] == batches;
    } else {
      var front := batches[..|batches| - 1];
      assert front[..n] == batches[..n];
      FailureEndsRun(world, s, front, n);
    }
  }

  /** A text that is not blank and that one of the attempts was given for this key. */
  ghost predicate IsAnswered(item: Item, value: string, log: seq<Attempt>, parse: string -> Answer) {
    !IsBlank(value) && SaidIn(log, parse, item.key, value)
  }

  ghost predicate AllAnswered(items: seq<Item>, values: seq<string>, log: seq<Attempt>, parse: string -> Answer) {
    |values| == |items| && forall i :: 0 <= i < |items| ==> IsAnswered(items[i], values[i], log, parse)
  }

  /** What translating the batches from session `s` leads to. */
  ghost predicate Answered(world: World, s: Session, run: Run<seq<string>>, items: seq<Item>) {
    && Traceable(world, run.session) && s.log <= run.session.log
    && |Made(s, run.session)| <= 4 * |items|
    && (run.result.Success? ==> AllAnswered(items, run.result.value, Made(s, run.session), world.parse))
  }

  lemma ValuesAreAnswered(batch: seq<Item>, translated: map<string, string>, log: seq<Attempt>, parse: string -> Answer)
    requires Translates(translated, batch, log, parse)
    ensures AllAnswered(batch, ValuesOf(batch, translated), log, parse)
  {
    forall i | 0 <= i < |batch|
      ensures IsAnswered(batch[i], ValuesOf(batch, translated)[i], log, parse)
    {
      assert batch[i].key in KeysOf(batch);
    }
  }

  lemma AnsweredTogether(
    a: seq<Item>, b: seq<Item>, x: seq<string>, y: seq<string>, first: seq<Attempt>, second: seq<Attempt>, parse: string -> Answer)
    requires AllAnswered(a, x, first, parse) && AllAnswered(b, y, second, parse)
    ensures AllAnswered(a + b, x + y, first + second, parse)
  {
    forall i | 0 <= i < |a + b|
      ensures IsAnswered((a + b)[i], (x + y)[i], first + second, parse)
    {
      if i < |a| {
        assert IsAnswered(a[i], x[i], first, parse);
        SaidInMore([], first, second, parse, a[i].key, x[i]);
        assert [] + first + second == first + second;
      } else {
        assert IsAnswered(b[i - |a|], y[i - |a|], second, parse);
        SaidInMore(first, second, [], parse, b[i - |a|].key, y[i - |a|]);
        assert first + second + [] == first + second;
      }
    }
  }

  /** Every stored text was given for its key, and the prompts are at most four per item. */
  lemma {:induction false} BatchesAnswered(world: World, s: Session, batches: seq<seq<Item>>)
    requires Traceable(world, s) && forall i :: 0 <= i < |batches| ==> batches[i] != []
    ensures Answered(world, s, AnswersOf(world, s, batches), Flatten(batches))
  {
    if batches != [] {
      var front, batch := batches[..|batches| - 1], batches[|batches| - 1];
      assert batches == front + [batch];
      FlattenAppend(front, batch);
      BatchesAnswered(world, s, front);
      var earlier := AnswersOf(world, s, front);
      if earlier.result.Success? {
        OneMoreBatch(world, s, earlier, Flatten(front), batch);
      }
    }
  }

  lemma OneMoreBatch(world: World, s: Session, earlier: Run<seq<string>>, items: seq<Item>, batch: seq<Item>)
    requires batch != [] && earlier.result.Success? && Answered(world, s, earlier, items)
    ensures var run := BatchOf(world, earlier.session, batch, 0);
      && (run.result.Failure? ==> Answered(world, s, Run(run.session, Failure(run.result.message)), items + batch))
      && (run.result.Success? ==>
            Answered(world, s, Run(run.session, Success(earlier.result.value + ValuesOf(batch, run.result.value))), items + batch))
  {
    var run := BatchOf(world, earlier.session, batch, 0);
    BatchRan(world, earlier.session, batch, 0);
    BatchIsShort(world, earlier.session, batch, 0);
    MadeInTurn(s, earlier.session, run.session);
    var first, second := Made(s, earlier.session), Made(earlier.session, run.session);
    if run.result.Success? {
      ValuesAreAnswered(batch, run.result.value, second, world.parse);
      AnsweredTogether(items, batch, earlier.result.value, ValuesOf(batch, run.result.value), first, second, world.parse);
    }
  }

  /** `verdicts` is a complete course of prompts for the batches, one after the other. */
  ghost predicate RunCourse(batches: seq<seq<Item>>, verdicts: seq<Verdict>, ok: bool)
    requires forall i :: 0 <= i < |batches| ==> batches[i] != []
  {
    if batches == [] then ok && verdicts == []
    else
      var front, batch := batches[..|batches| - 1], batches[|batches| - 1];
      || (!ok && RunCourse(front, verdicts, false))
      || (exists k :: 0 <= k <= |verdicts| && RunCourse(front, verdicts[..k], true) && IsCourse(|batch|, verdicts[k..], ok))
  }

  /** The verdicts of the last batch; there are none if an earlier one failed. */
  lemma LastBatch(batches: seq<seq<Item>>, verdicts: seq<Verdict>, ok: bool)
      returns (first: seq<Verdict>, earlierOk: bool, rest: seq<Verdict>)
    requires batches != [] && (forall i :: 0 <= i < |batches| ==> batches[i] != []) && RunCourse(batches, verdicts, ok)
    ensures verdicts == first + rest && RunCourse(batches[..|batches| - 1], first, earlierOk)
    ensures if earlierOk then IsCourse(|batches[|batches| - 1]|, rest, ok) else rest == [] && !ok
  {
    var front, batch := batches[..|batches| - 1], batches[|batches| - 1];
    if !ok && RunCourse(front, verdicts, false) {
      first, earlierOk, rest := verdicts, false, [];
      CutAt(verdicts, |verdicts|);
    } else {
      var k :| 0 <= k <= |verdicts| && RunCourse(front, verdicts[..k], true) && IsCourse(|batch|, verdicts[k..], ok);
      first, earlierOk, rest := verdicts[..k], true, verdicts[k..];
      CutAt(verdicts, k);
    }
  }

  lemma {:induction false} RunCoursesArePrefixFree(
    batches: seq<seq<Item>>, v: seq<Verdict>, w: seq<Verdict>, vOk: bool, wOk: bool)
    requires forall i :: 0 <= i < |batches| ==> batches[i] != []
    requires RunCourse(batches, v, vOk) && RunCourse(batches, w, wOk) && v <= w
    ensures v == w && vOk == wOk
  {
    if batches != [] {
      var front, batch := batches[..|batches| - 1], batches[|batches| - 1];
      var a, aOk, b := LastBatch(batches, v, vOk);
      var c, cOk, d := LastBatch(batches, w, wOk);
      EitherIsPrefix(a, c, w);
      if a <= c {
        RunCoursesArePrefixFree(front, a, c, aOk, cOk);
      } else {
        RunCoursesArePrefixFree(front, c, a, cOk, aOk);
      }
      if aOk {
        SameStart(a, b, d);
        CoursesArePrefixFree(|batch|, b, d, vOk, wOk);
      }
    }
  }

  /** The attempts of a run form such a course, which ends as the run does. */
  lemma {:induction false} RunHasCourse(world: World, s: Session, batches: seq<seq<Item>>)
    requires Traceable(world, s) && forall i :: 0 <= i < |batches| ==> batches[i] != []
    ensures var run := AnswersOf(world, s, batches);
      && s.log <= run.session.log
      && RunCourse(batches, Verdicts(Made(s, run.session), world.parse), run.result.Success?)
  {
    BatchesAnswered(world, s, batches);
    if batches != [] {
      var front, batch := batches[..|batches| - 1], batches[|batches| - 1];
      var earlier := AnswersOf(world, s, front);
      RunHasCourse(world, s, front);
      BatchesAnswered(world, s, front);
      if earlier.result.Success? {
        var run := BatchOf(world, earlier.session, batch, 0);
        BatchRan(world, earlier.session, batch, 0);
        MadeInTurn(s, earlier.session, run.session);
        var a, b := Made(s, earlier.session), Made(earlier.session, run.session);
        VerdictsJoin(a, b, world.parse);
        OneBatchMore(batches, Verdicts(a, world.parse), Verdicts(b, world.parse), run.result.Success?);
      }
    }
  }

  lemma OneBatchMore(batches: seq<seq<Item>>, a: seq<Verdict>, b: seq<Verdict>, ok: bool)
    requires batches != [] && forall i :: 0 <= i < |batches| ==> batches[i] != []
    requires RunCourse(batches[..|batches| - 1], a, true) && IsCourse(|batches[|batches| - 1]|, b, ok)
    ensures RunCourse(batches, a + b, ok)
  {
    assert (a + b)[..|a|] == a && (a + b)[|a|..] == b;
  }

  /** So the run gets all its answers exactly when the replies its prompts received form
      a successful course. */
  lemma AnswersSucceedIff(world: World, s: Session, batches: seq<seq<Item>>)
    requires Traceable(world, s) && forall i :: 0 <= i < |batches| ==> batches[i] != []
    ensures var run := AnswersOf(world, s, batches);
      && s.log <= run.session.log
      && (run.result.Success? <==> RunCourse(batches, Verdicts(Made(s, run.session), world.parse), true))
  {
    RunHasCourse(world, s, batches);
    var run := AnswersOf(world, s, batches);
    var verdicts := Verdicts(Made(s, run.session), world.parse);
    if RunCourse(batches, verdicts, true) {
      RunCoursesArePrefixFree(batches, verdicts, verdicts, true, run.result.Success?);
    }
  }

  /** The translation of the pending keys, after which no client is left open. */
  ghost function TranslationOf(world: World, s: Session, pending: seq<Item>, budget: real): (r: Run<seq<string>>)
    requires Usable(s)
    ensures Usable(r.session) && !r.session.open
  {
    var run := AnswersOf(world, s, Pack(pending, budget));
    Run(Closed(run.session), run.result)
  }

  lemma TranslationAnswers(world: World, s: Session, pending: seq<Item>, budget: real)
    requires Traceable(world, s)
    ensures Answered(world, s, TranslationOf(world, s, pending, budget), pending)
  {
    PackIsOptimal(pending, budget);
    BatchesAnswered(world, s, Pack(pending, budget));
    ClosedIsTraceable(world, AnswersOf(world, s, Pack(pending, budget)).session);
  }

  lemma StoreNext(inp: Inputs, scan: Progress, before: seq<string>, values: seq<string>, i: nat, clock: nat -> string)
    requires i < |values| && |before| + |values| <= |scan.pending|
    ensures Store(inp, scan, before + values[..i + 1], clock)
         == StoreOne(inp, Store(inp, scan, before + values[..i], clock), scan.pending[|before| + i], values[i], clock(|before| + i))
  {
    StoreStep(inp, scan, before + values[..i], values[i], clock);
    assert before + values[..i + 1] == before + values[..i] + [values[i]];
  }

  lemma StoreItem(
    inp: Inputs, scan: Progress, t: Progress, before: seq<string>, values: seq<string>, i: nat, clock: nat -> string,
    stored: nat, item: Item, value: string)
    requires i < |values| && |before| + |values| <= |scan.pending|
    requires stored == |before| && item == scan.pending[stored + i] && value == values[i]
    requires t == Store(inp, scan, before + values[..i], clock)
    ensures StoreOne(inp, t, item, value, clock(stored + i)) == Store(inp, scan, before + values[..i + 1], clock)
  {
    StoreNext(inp, scan, before, values, i, clock);
  }

  /** Stores one batch's answers. */
  method StoreBatch(
    inp: Inputs, scan: Progress, s: Progress, batch: seq<Item>, translated: map<string, string>,
    clock: nat -> string, stored: nat, ghost before: seq<string>)
    returns (t: Progress)
    requires stored == |before| && stored + |batch| <= |scan.pending|
    requires forall i :: 0 <= i < |batch| ==> scan.pending[stored + i] == batch[i] && batch[i].key in translated
    requires s == Store(inp, scan, before, clock)
    ensures t == Store(inp, scan, before + ValuesOf(batch, translated), clock)
  {
    t := s;
    ghost var values := ValuesOf(batch, translated);
    assert before + values[..0] == before;
    for i := 0 to |batch|
      invariant t == Store(inp, scan, before + values[..i], clock)
    {
      // The batch's map has a non-blank text for every item, so none is skipped.
      var item, value := batch[i], translated[batch[i].key];
      StoreItem(inp, scan, t, before, values, i, clock, stored, item, value);
      t := StoreOne(inp, t, item, value, clock(stored + i));
    }
    assert values[..|batch|] == values;
  }

  lemma NextBatch(pending: seq<Item>, stored: nat, batches: seq<seq<Item>>, b: nat)
    requires stored <= |pending| && b < |batches| && pending[stored..] == Flatten(batches[b..])
    ensures stored + |batches[b]| <= |pending| && pending[stored..stored + |batches[b]|] == batches[b]
    ensures pending[stored + |batches[b]|..] == Flatten(batches[b + 1..])
  {
    var batch := batches[b];
    assert batches[b..][1..] == batches[b + 1..];
    assert pending[stored..][..|batch|] == batch == pending[stored..stored + |batch|];
    assert pending[stored..][|batch|..] == pending[stored + |batch|..];
  }

  /** The batches in which the pending keys are sent. */
  method PlanBatches(pending: seq<Item>, budget: real) returns (batches: seq<seq<Item>>)
    requires budget > 0.0
    ensures batches == Pack(pending, budget) && IsPartition(batches, pending, budget)
    ensures forall i :: 0 <= i < |batches| ==> batches[i] != []
  {
    batches := BuildTranslationBatches(pending, budget);
  }

  lemma NextAnswers(world: World, s: Session, batches: seq<seq<Item>>, b: nat)
    requires Usable(s) && b < |batches| && AnswersOf(world, s, batches[..b]).result.Success?
    ensures var earlier := AnswersOf(world, s, batches[..b]);
      var run := BatchOf(world, earlier.session, batches[b], 0);
      AnswersOf(world, s, batches[..b + 1])
        == match run.result
           case Failure(message) => Run(run.session, Failure(message))
           case Success(translated) => Run(run.session, Success(earlier.result.value + ValuesOf(batches[b], translated)))
  {
    assert batches[..b + 1][..b] == batches[..b];
  }

  /** The first `b` batches were answered, and the answers are stored in `p`. */
  ghost predicate StoredTo(
    inp: Inputs, scan: Progress, clock: nat -> string, world: World, start: Session, batches: seq<seq<Item>>, b: nat,
    session: Session, stored: nat, p: Progress)
  {
    && Usable(start) && b <= |batches| && stored <= |scan.pending| && scan.pending[stored..] == Flatten(batches[b..])
    && var run := AnswersOf(world, start, batches[..b]);
       && run.session == session && run.result.Success? && |run.result.value| == stored
       && p == Store(inp, scan, run.result.value, clock)
  }

  lemma StoredNext(
    inp: Inputs, scan: Progress, clock: nat -> string, world: World, start: Session, batches: seq<seq<Item>>, b: nat,
    session: Session, stored: nat, p: Progress, translated: map<string, string>, q: Progress)
    requires b < |batches| && StoredTo(inp, scan, clock, world, start, batches, b, session, stored, p)
    requires BatchOf(world, session, batches[b], 0).result == Success(translated)
    requires q == Store(inp, scan, AnswersOf(world, start, batches[..b]).result.value + ValuesOf(batches[b], translated), clock)
    ensures StoredTo(inp, scan, clock, world, start, batches, b + 1,
                     BatchOf(world, session, batches[b], 0).session, stored + |batches[b]|, q)
  {
    NextBatch(scan.pending, stored, batches, b);
    NextAnswers(world, start, batches, b);
  }

  lemma FailedNext(
    inp: Inputs, scan: Progress, clock: nat -> string, world: World, start: Session, batches: seq<seq<Item>>, b: nat,
    session: Session, stored: nat, p: Progress)
    requires b < |batches| && StoredTo(inp, scan, clock, world, start, batches, b, session, stored, p)
    requires BatchOf(world, session, batches[b], 0).result.Failure?
    ensures AnswersOf(world, start, batches)
         == Run(BatchOf(world, session, batches[b], 0).session, Failure(BatchOf(world, session, batches[b], 0).result.message))
  {
    NextAnswers(world, start, batches, b);
    FailureEndsRun(world, start, batches, b + 1);
  }

  lemma BatchInPlace(pending: seq<Item>, stored: nat, batches: seq<seq<Item>>, b: nat)
    requires stored <= |pending| && b < |batches| && pending[stored..] == Flatten(batches[b..])
    ensures stored + |batches[b]| <= |pending|
    ensures forall i :: 0 <= i < |batches[b]| ==> pending[stored + i] == batches[b][i]
  {
    NextBatch(pending, stored, batches, b);
    assert forall i :: 0 <= i < |batches[b]| ==> batches[b][i] == pending[stored..stored + |batches[b]|][i] == pending[stored + i];
  }

  lemma KeysAreAnswered(batch: seq<Item>, translated: map<string, string>)
    requires translated.Keys == KeysOf(batch)
    ensures forall i :: 0 <= i < |batch| ==> batch[i].key in translated
  {
    assert forall i :: 0 <= i < |batch| ==> batch[i].key in KeysOf(batch);
  }

  /** Stores what a batch was translated to. */
  method StoreTranslated(
    inp: Inputs, scan: Progress, p: Progress, batches: seq<seq<Item>>, b: nat, translated: map<string, string>,
    clock: nat -> string, stored: nat, ghost world: World, ghost start: Session, ghost session: Session)
    returns (q: Progress)
    requires b < |batches| && StoredTo(inp, scan, clock, world, start, batches, b, session, stored, p)
    requires BatchOf(world, session, batches[b], 0).result == Success(translated) && KeysOf(batches[b]) == translated.Keys
    ensures StoredTo(inp, scan, clock, world, start, batches, b + 1,
                     BatchOf(world, session, batches[b], 0).session, stored + |batches[b]|, q)
  {
    BatchInPlace(scan.pending, stored, batches, b);
    KeysAreAnswered(batches[b], translated);
    q := StoreBatch(inp, scan, p, batches[b], translated, clock, stored, AnswersOf(world, start, batches[..b]).result.value);
    StoredNext(inp, scan, clock, world, start, batches, b, session, stored, p, translated, q);
  }

  /** One turn of the loop over the batches. */
  method TranslateAndStore(
    inp: Inputs, scan: Progress, p: Progress, batches: seq<seq<Item>>, b: nat, access: ClientAccess,
    clock: nat -> string, stored: nat, ghost start: Session)
    returns (r: Result<Progress>)
    requires access.Valid() && b < |batches| && batches[b] != []
    requires StoredTo(inp, scan, clock, access.world, start, batches, b, access.session, stored, p)
    modifies access, access.client
    ensures access.Valid()
    ensures access.client != null ==> access.client == old(access.client) || fresh(access.client)
    ensures r.Success? ==>
      StoredTo(inp, scan, clock, access.world, start, batches, b + 1, access.session, stored + |batches[b]|, r.value)
    ensures r.Failure? ==> AnswersOf(access.world, start, batches) == Run(access.session, Failure(r.message))
  {
    ghost var session := access.session;
    BatchRan(access.world, session, batches[b], 0);
    var translated := TranslateBatch(access, batches[b], 0);
    if translated.Failure? {
      FailedNext(inp, scan, clock, access.world, start, batches, b, session, stored, p);
      return Failure(translated.message);
    }
    var q := StoreTranslated(inp, scan, p, batches, b, translated.value, clock, stored, access.world, start, session);
    return Success(q);
  }

  lemma NothingStored(
    inp: Inputs, scan: Progress, clock: nat -> string, world: World, start: Session, batches: seq<seq<Item>>)
    requires Usable(start) && Flatten(batches) == scan.pending
    ensures StoredTo(inp, scan, clock, world, start, batches, 0, start, 0, scan)
  {
    assert batches[..0] == [] && batches[0..] == batches && scan.pending[0..] == scan.pending;
  }

  lemma AllStored(
    inp: Inputs, scan: Progress, clock: nat -> string, world: World, start: Session, batches: seq<seq<Item>>,
    session: Session, stored: nat, p: Progress)
    requires StoredTo(inp, scan, clock, world, start, batches, |batches|, session, stored, p)
    ensures var run := AnswersOf(world, start, batches);
      run.session == session && run.result.Success? && p == Store(inp, scan, run.result.value, clock)
  {
    assert batches[..|batches|] == batches;
  }

  /** Translates the pending keys batch by batch, on one client at a time. */
  method TranslatePending(inp: Inputs, scan: Progress, access: ClientAccess, clock: nat -> string)
    returns (r: Result<Progress>)
    requires access.Valid() && access.client == null && inp.env.budget > 0.0
    modifies access, access.client
    ensures access.Valid() && access.client == null
    ensures var run := TranslationOf(access.world, old(access.session), scan.pending, inp.env.budget);
      && access.session == run.session
      && match run.result
         case Failure(message) => r == Failure(message)
         case Success(values) => r == Success(Store(inp, scan, values, clock))
  {
    ghost var start := access.session;
    var batches := PlanBatches(scan.pending, inp.env.budget);
    r := Success(scan);
    var stored: nat := 0;
    NothingStored(inp, scan, clock, access.world, start, batches);
    for b := 0 to |batches|
      invariant access.Valid() && (access.client != null ==> fresh(access.client))
      invariant r.Success? && StoredTo(inp, scan, clock, access.world, start, batches, b, access.session, stored, r.value)
    {
      r := TranslateAndStore(inp, scan, r.value, batches, b, access, clock, stored, start);
      if r.Failure? {
        Reset(access);
        return;
      }
      stored := stored + |batches[b]|;
    }
    AllStored(inp, scan, clock, access.world, start, batches, access.session, stored, r.value);
    Reset(access);
  }

  /** The `finally` block. */
  method Reset(access: ClientAccess)
    requires access.Valid()
    modifies access, access.client
    ensures access.Valid() && access.client == null && access.session == Closed(old(access.session))
  {
    ClosedIsTraceable(access.world, access.session);
    access.ResetClient();
  }

  /** The loop that gives every key still without a value one. */
  method AddFallbacks(inp: Inputs, force: bool, s: Progress, items: seq<Item>) returns (t: Progress)
    ensures t == FallBack(inp, force, s, items)
  {
    t := s;
    for i := 0 to |items|
      invariant t == FallBack(inp, force, s, items[..i])
    {
      assert items[..i + 1][..i] == items[..i];
      var item := items[i];
      if item.key !in t.next {
        var existing := Lookup(inp.existing, item.key);
        if existing.Some? && !force {
          t := t.(next := t.next[item.key := existing.value]);
          if item.key in inp.previousFallback {
            t := t.(fallback := t.fallback + [item.key]);
          }
        } else {
          t := t.(next := t.next[item.key := item.text], fallback := t.fallback + [item.key]);
        }
      }
    }
    assert items[..|items|] == items;
  }

  class Workspace {
    var localeFile: File<seq<Field>>
    var metaFile: File<Meta>
    var glossaryFile: File<seq<Term>>
    var tmFile: File<seq<TmEntry>>

    function Files(): Disk
      reads this
    {
      Disk(localeFile, metaFile, glossaryFile, tmFile)
    }
  }

  // ----- The whole run -----

  /** The answers a run gets: none are asked for without a provider or pending keys. */
  ghost function AnswersFor(world: World, s: Session, site: Site, env: Env, source: Source, disk: Disk): (r: Run<seq<string>>)
    requires Usable(s) && !s.open
    ensures Usable(r.session) && !r.session.open
  {
    var pending := FirstPass(site, env, source, disk).pending;
    if env.allowTranslate && pending != [] then TranslationOf(world, s, pending, env.budget) else Run(s, Success([]))
  }

  lemma AnswersFit(world: World, s: Session, site: Site, env: Env, source: Source, disk: Disk)
    requires Traceable(world, s) && !s.open && env.budget > 0.0
    ensures var run, pending := AnswersFor(world, s, site, env, source, disk), FirstPass(site, env, source, disk).pending;
      && Traceable(world, run.session) && s.log <= run.session.log && |Made(s, run.session)| <= 4 * |pending|
      && (run.result.Success? ==> Answers(site, env, source, disk, run.result.value))
  {
    var pending := FirstPass(site, env, source, disk).pending;
    if env.allowTranslate && pending != [] {
      TranslationAnswers(world, s, pending, env.budget);
    }
  }

  datatype SyncRun = SyncRun(result: Result<SyncOutcome>, disk: Disk, session: Session)

  /** What one run over one locale leads to: its outcome or error, the files and the
      conversation it had. */
  ghost function RunOf(
    world: World, s: Session, site: Site, env: Env, mode: Mode, source: Source, disk: Disk, clock: nat -> string): SyncRun
    requires Traceable(world, s) && !s.open && env.budget > 0.0
  {
    AnswersFit(world, s, site, env, source, disk);
    var run := AnswersFor(world, s, site, env, source, disk);
    match run.result
    case Failure(message) => SyncRun(Failure(message), disk, run.session)
    case Success(values) =>
      match Sync(site, env, mode, source, disk, values, clock)
      case None => SyncRun(Failure(PLACEHOLDER_MISMATCH + site.locale), disk, run.session)
      case Some(done) => SyncRun(Success(done.0), done.1, run.session)
  }

  const PLACEHOLDER_MISMATCH := "control-ui-i18n placeholder mismatch detected for "

  /** From the loaded files to a value for every key. */
  method ResolveKeys(
    disk: Disk, site: Site, env: Env, mode: Mode, source: Source, access: ClientAccess, clock: nat -> string)
    returns (r: Result<Progress>, stored: nat)
    requires access.Valid() && access.client == null && env.budget > 0.0
    modifies access, access.client
    ensures access.Valid() && access.client == null
    ensures var run := AnswersFor(access.world, old(access.session), site, env, source, disk);
      && access.session == run.session
      && match run.result
         case Failure(message) => r == Failure(message)
         case Success(values) =>
           && Answers(site, env, source, disk, values) && stored == |values|
           && r == Success(Resolve(site, env, mode, source, disk, values, clock))
  {
    AnswersFit(access.world, access.session, site, env, source, disk);
    var existingFlat := FlattenTranslations(disk.locale.Content().GetOr([]), "", []);
    var tm := LoadTranslationMemory(disk.tm.Content().GetOr([]));
    var tmByTextHash := BuildTranslationMemoryByTextHash(tm, site.locale);
    var inp := Inputs(site, env, tmByTextHash, existingFlat, PreviousFallback(disk));
    assert inp == InputsOf(site, env, disk);
    var scan := ScanSource(inp, tm, source.entries);
    r, stored := Success(scan), 0;
    if env.allowTranslate && |scan.pending| > 0 {
      r := TranslatePending(inp, scan, access, clock);
      if r.Failure? {
        return;
      }
      stored := |scan.pending|;
    }
    var done := AddFallbacks(inp, mode.force, r.value, scan.pending);
    r := Success(done);
  }

  /** Compares the files with what they should be, and writes them if asked to. */
  method PublishLocale(
    ws: Workspace, site: Site, env: Env, mode: Mode, source: Source, done: Progress, stamp: string)
    returns (outcome: SyncOutcome)
    modifies ws
    ensures (outcome, ws.Files()) == Publish(site, env, mode, source, old(ws.Files()), done, stamp)
  {
    var previousMeta := ws.metaFile.Content();
    var glossary := ws.glossaryFile.Content().GetOr([]);
    var nextMap := BuildMap(Assigned(source.entries, done.next));
    var nextMeta := NextMeta(site, env, source, previousMeta, done.fallback, stamp);
    var expectedGlossary := if glossary == [] then DEFAULT_GLOSSARY else glossary;
    var expectedTm := RenderTm(done.tm, site);
    var currentTm := if ws.tmFile.Absent? then Canonical([]) else ws.tmFile;
    var changed := ws.localeFile != Canonical(nextMap) || ws.metaFile != Canonical(nextMeta)
                   || ws.glossaryFile != Canonical(expectedGlossary) || currentTm != Canonical(expectedTm);
    var fallbackCount := |nextMeta.fallbackKeys|;

    if !changed || (previousMeta.Some? && previousMeta.value.sourceHash == source.hash
                    && !mode.force && !mode.checkOnly && !mode.write) {
      return SyncOutcome(changed, fallbackCount, false);
    }
    if !mode.checkOnly && mode.write {
      ws.localeFile := Canonical(nextMap);
      ws.metaFile := Canonical(nextMeta);
      ws.glossaryFile := Canonical(expectedGlossary);
      if expectedTm != [] {
        ws.tmFile := Canonical(expectedTm);
      } else if !ws.tmFile.Absent? {
        ws.tmFile := Canonical([]);
      }
    }
    return SyncOutcome(changed, fallbackCount, !mode.checkOnly && mode.write && changed);
  }

  /** One run over one locale does what `RunOf` says, and leaves no client open. */
  method SyncLocale(
    ws: Workspace, site: Site, env: Env, mode: Mode, sourceHash: string, sourceMap: seq<Field>,
    access: ClientAccess, clock: nat -> string)
    returns (r: Result<SyncOutcome>)
    requires access.Valid() && access.client == null && env.budget > 0.0
    modifies ws, access, access.client
    ensures access.Valid() && access.client == null
    ensures SyncRun(r, ws.Files(), access.session)
         == RunOf(access.world, old(access.session), site, env, mode, Source(sourceHash, Flat(sourceMap)), old(ws.Files()), clock)
  {
    var sourceFlat := FlattenTranslations(sourceMap, "", []);
    var source := Source(sourceHash, sourceFlat);
    var resolved, stored := ResolveKeys(ws.Files(), site, env, mode, source, access, clock);
    if resolved.Failure? {
      return Failure(resolved.message);
    }
    if !PlaceholdersAgree(site, sourceFlat, resolved.value.next) {
      return Failure(PLACEHOLDER_MISMATCH + site.locale);
    }
    var outcome := PublishLocale(ws, site, env, mode, source, resolved.value, clock(stored));
    return Success(outcome);
  }
}
