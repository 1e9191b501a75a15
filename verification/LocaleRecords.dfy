/** What the four files of a locale say after a run, told from the files before it
    (`scripts/control-ui-i18n.ts`, `syncLocale`). */
module LocaleRecords {
  import opened Options
  import opened Sorting
  import opened Text
  import opened TranslationTree
  import opened TranslationBatches
  import opened LocaleSync
  import opened LocaleSyncFixpoint
  import opened LocaleRun

  // ----- Which value a key gets -----

  /** The entry translates a text of this hash into this locale. */
  predicate Serves(x: TmEntry, locale: string, textHash: string) {
    x.tgtLang == locale && x.textHash == textHash && textHash != "" && !IsBlank(x.translated)
  }

  /** Entry `k` is the last that does. */
  predicate LastServes(tm: seq<TmEntry>, locale: string, textHash: string, k: int) {
    && 0 <= k < |tm| && Serves(tm[k], locale, textHash)
    && forall j :: k < j < |tm| ==> !Serves(tm[j], locale, textHash)
  }

  lemma LastServesOfMore(tm: seq<TmEntry>, locale: string, textHash: string, k: int)
    requires tm != []
    ensures var front, last := tm[..|tm| - 1], tm[|tm| - 1];
      LastServes(tm, locale, textHash, k) <==>
        if Serves(last, locale, textHash) then k == |front| else LastServes(front, locale, textHash, k)
  {
    var front := tm[..|tm| - 1];
    assert forall j :: 0 <= j < |front| ==> front[j] == tm[j];
  }

  /** Among the entries of one text the last one counts. */
  lemma {:induction false} ByTextHashIsLast(tm: seq<TmEntry>, locale: string, textHash: string)
    ensures textHash in ByTextHash(tm, locale) <==> exists k :: LastServes(tm, locale, textHash, k)
    ensures forall k :: LastServes(tm, locale, textHash, k) ==>
      textHash in ByTextHash(tm, locale) && ByTextHash(tm, locale)[textHash] == tm[k]
  {
    if tm != [] {
      var front, last := tm[..|tm| - 1], tm[|tm| - 1];
      ByTextHashIsLast(front, locale, textHash);
      forall k
        ensures LastServes(tm, locale, textHash, k) <==>
          if Serves(last, locale, textHash) then k == |front| else LastServes(front, locale, textHash, k)
      {
        LastServesOfMore(tm, locale, textHash, k);
      }
      if Serves(last, locale, textHash) {
        assert LastServes(tm, locale, textHash, |front|);
      }
    }
  }

  /** The metadata file lists the key among those that fell back. */
  predicate IsMarked(disk: Disk, key: string) {
    !disk.meta.Absent? && key in disk.meta.value.fallbackKeys
  }

  /** Some loaded entry translates a text of this hash. */
  ghost predicate HasSameText(site: Site, disk: Disk, text: string) {
    exists k :: LastServes(LoadedTm(disk), site.locale, HashText(site, text), k)
  }

  /** Which source a key's value is taken from, in the order of preference: its own entry in the
      memory, the last entry of the same text, the locale file, and the translator. A key that
      fell back is refreshed: its own entry and the file count only without a provider, and
      the same text counts although the file has a value. */
  lemma DecisionIs(site: Site, env: Env, disk: Disk, e: Entry)
    ensures var decision := Decide(InputsOf(site, env, disk), LoadedTm(disk), e);
      var cached, there := GetTm(LoadedTm(disk), KeyOf(site, env, e)), TextIn(disk, e.key);
      var marked, same := IsMarked(disk, e.key), HasSameText(site, disk, e.text);
      var refresh := env.allowTranslate && marked;
      && (decision.FromCache? <==> cached.Some? && !refresh)
      && (decision.FromSameText? <==> (cached.None? || refresh) && same && (marked || there.None?))
      && (decision.FromExisting? <==> (cached.None? || refresh) && !(same && marked) && there.Some? && !refresh)
      && (decision.FromCache? ==> decision.text == cached.value.translated)
      && (decision.FromSameText? ==> forall k :: LastServes(LoadedTm(disk), site.locale, HashText(site, e.text), k) ==>
            decision.text == LoadedTm(disk)[k].translated)
      && (decision.FromExisting? ==> decision.text == there.value)
  {
    ByTextHashIsLast(LoadedTm(disk), site.locale, HashText(site, e.text));
  }

  // ----- What the memory holds afterwards -----

  /** What is recorded for a key that takes over the entry of the same text. */
  function CopyFor(site: Site, env: Env, x: TmEntry, e: Entry): TmEntry {
    TmEntry(KeyOf(site, env, e), x.model, x.provider, e.key, "ui/src/i18n/locales/" + site.fileName,
            x.srcLang, x.text, x.textHash, x.tgtLang, x.translated, x.updatedAt)
  }

  /** What is recorded for a key that was translated. */
  function AnswerFor(site: Site, env: Env, e: Entry, value: string, stamp: string): TmEntry {
    TmEntry(KeyOf(site, env, e), env.model, env.provider, e.key, "ui/src/i18n/locales/" + site.fileName,
            "en", e.text, HashText(site, e.text), site.locale, value, stamp)
  }

  lemma ScanKeyKeepsOther(inp: Inputs, s: Progress, e: Entry, cacheKey: string)
    requires cacheKey != Key(inp, e)
    ensures GetTm(ScanKey(inp, s, e).tm, cacheKey) == GetTm(s.tm, cacheKey)
  {
    var textHash := HashText(inp.site, e.text);
    if textHash in inp.byText {
      GetAfterSet(s.tm, inp.byText[textHash].(cacheKey := Key(inp, e), segmentId := e.key, sourcePath := SourcePath(inp.site)), cacheKey);
    }
  }

  lemma ScanKeyCopies(inp: Inputs, loaded: seq<TmEntry>, s: Progress, e: Entry)
    requires Untouched(inp, loaded, s, e) && Decide(inp, loaded, e).FromSameText?
    requires inp.byText == ByTextHash(loaded, inp.site.locale)
    ensures HashText(inp.site, e.text) in inp.byText
    ensures GetTm(ScanKey(inp, s, e).tm, Key(inp, e)) == Some(CopyFor(inp.site, inp.env, inp.byText[HashText(inp.site, e.text)], e))
  {
    var textHash := HashText(inp.site, e.text);
    GetAfterSet(s.tm, inp.byText[textHash].(cacheKey := Key(inp, e), segmentId := e.key, sourcePath := SourcePath(inp.site)), Key(inp, e));
  }

  lemma ScanNext(inp: Inputs, loaded: seq<TmEntry>, entries: seq<Entry>, i: nat)
    requires GoodInputs(inp, loaded, entries) && i < |entries|
    ensures var s := Scan(inp, loaded, entries[..i]);
      Scan(inp, loaded, entries[..i + 1]) == ScanKey(inp, s, entries[i]) && Untouched(inp, loaded, s, entries[i])
  {
    assert entries[..i + 1][..i] == entries[..i];
    ScanDecides(inp, loaded, entries, i);
  }

  /** The first loop records nothing under the names of other keys. */
  lemma {:induction false} ScanKeepsOthers(inp: Inputs, loaded: seq<TmEntry>, entries: seq<Entry>, i: nat, cacheKey: string)
    requires GoodInputs(inp, loaded, entries) && i <= |entries|
    requires forall j :: 0 <= j < i ==> Key(inp, entries[j]) != cacheKey
    ensures GetTm(Scan(inp, loaded, entries[..i]).tm, cacheKey) == GetTm(loaded, cacheKey)
  {
    if i > 0 {
      ScanNext(inp, loaded, entries, i - 1);
      ScanKeepsOthers(inp, loaded, entries, i - 1, cacheKey);
      ScanKeyKeepsOther(inp, Scan(inp, loaded, entries[..i - 1]), entries[i - 1], cacheKey);
    }
  }

  /** It records a copy for a key that takes over a text. */
  lemma {:induction false} ScanCopies(inp: Inputs, loaded: seq<TmEntry>, entries: seq<Entry>, i: nat, j: nat)
    requires GoodInputs(inp, loaded, entries) && j < i <= |entries| && Decide(inp, loaded, entries[j]).FromSameText?
    ensures HashText(inp.site, entries[j].text) in inp.byText
    ensures GetTm(Scan(inp, loaded, entries[..i]).tm, Key(inp, entries[j]))
         == Some(CopyFor(inp.site, inp.env, inp.byText[HashText(inp.site, entries[j].text)], entries[j]))
  {
    var s := Scan(inp, loaded, entries[..i - 1]);
    ScanNext(inp, loaded, entries, i - 1);
    if j == i - 1 {
      ScanKeyCopies(inp, loaded, s, entries[j]);
    } else {
      ScanCopies(inp, loaded, entries, i - 1, j);
      ScanKeyKeepsOther(inp, s, entries[i - 1], Key(inp, entries[j]));
    }
  }

  predicate DifferentCacheKeys(items: seq<Item>) {
    forall i, j :: 0 <= i < j < |items| ==> items[i].cacheKey != items[j].cacheKey
  }

  lemma PendingHaveDifferentCacheKeys(inp: Inputs, entries: seq<Entry>, pending: seq<Item>)
    requires NoCollision(inp.site, inp.env, entries) && PendingFrom(inp, entries, pending)
    ensures DifferentCacheKeys(pending)
  {
    forall i, j | 0 <= i < j < |pending|
      ensures pending[i].cacheKey != pending[j].cacheKey
    {
      assert ComesFromSource(inp, entries, pending[i]) && ComesFromSource(inp, entries, pending[j]);
      var a :| 0 <= a < |entries| && pending[i] == ItemOf(inp, entries[a]);
      var b :| 0 <= b < |entries| && pending[j] == ItemOf(inp, entries[b]);
      assert a < b || b < a;
    }
  }

  lemma StoreOneRecords(inp: Inputs, s: Progress, item: Item, value: string, stamp: string, cacheKey: string)
    ensures GetTm(StoreOne(inp, s, item, value, stamp).tm, cacheKey) ==
      if cacheKey == item.cacheKey
      then Some(TmEntry(item.cacheKey, inp.env.model, inp.env.provider, item.key, "ui/src/i18n/locales/" + inp.site.fileName,
                        "en", item.text, item.textHash, inp.site.locale, value, stamp))
      else GetTm(s.tm, cacheKey)
  {
    GetAfterSet(s.tm, TmEntry(item.cacheKey, inp.env.model, inp.env.provider, item.key, SourcePath(inp.site),
                              SOURCE_LOCALE, item.text, item.textHash, inp.site.locale, value, stamp), cacheKey);
  }

  lemma LastIsRecorded(inp: Inputs, s: Progress, values: seq<string>, clock: nat -> string, e: Entry)
    requires 0 < |values| <= |s.pending| && s.pending[|values| - 1] == ItemOf(inp, e)
    ensures GetTm(Store(inp, s, values, clock).tm, Key(inp, e))
         == Some(AnswerFor(inp.site, inp.env, e, values[|values| - 1], clock(|values| - 1)))
  {
    var n := |values| - 1;
    StoreOneRecords(inp, Store(inp, s, values[..n], clock), s.pending[n], values[n], clock(n), Key(inp, e));
  }

  lemma LastRecordsNoOther(inp: Inputs, s: Progress, values: seq<string>, clock: nat -> string, cacheKey: string)
    requires 0 < |values| <= |s.pending| && s.pending[|values| - 1].cacheKey != cacheKey
    ensures GetTm(Store(inp, s, values, clock).tm, cacheKey) == GetTm(Store(inp, s, values[..|values| - 1], clock).tm, cacheKey)
  {
    var n := |values| - 1;
    StoreOneRecords(inp, Store(inp, s, values[..n], clock), s.pending[n], values[n], clock(n), cacheKey);
  }

  lemma {:induction false} StoreRecords(
    inp: Inputs, s: Progress, values: seq<string>, clock: nat -> string, i: nat, e: Entry)
    requires |values| <= |s.pending| && i < |values| && DifferentCacheKeys(s.pending) && s.pending[i] == ItemOf(inp, e)
    ensures GetTm(Store(inp, s, values, clock).tm, Key(inp, e)) == Some(AnswerFor(inp.site, inp.env, e, values[i], clock(i)))
    decreases |values|
  {
    var n := |values| - 1;
    if i < n {
      StoreRecords(inp, s, values[..n], clock, i, e);
      LastRecordsNoOther(inp, s, values, clock, Key(inp, e));
    } else {
      LastIsRecorded(inp, s, values, clock, e);
    }
  }

  lemma {:induction false} StoreKeepsOthers(
    inp: Inputs, s: Progress, values: seq<string>, clock: nat -> string, cacheKey: string)
    requires |values| <= |s.pending| && forall i :: 0 <= i < |values| ==> s.pending[i].cacheKey != cacheKey
    ensures GetTm(Store(inp, s, values, clock).tm, cacheKey) == GetTm(s.tm, cacheKey)
  {
    if values != [] {
      StoreKeepsOthers(inp, s, values[..|values| - 1], clock, cacheKey);
      LastRecordsNoOther(inp, s, values, clock, cacheKey);
    }
  }

  /** A translated key has an entry that says what was translated, for whom, by whom and when. */
  lemma AnswerIsRecorded(
    site: Site, env: Env, mode: Mode, source: Source, disk: Disk, values: seq<string>, clock: nat -> string, i: nat)
    returns (e: Entry)
    requires GoodRun(site, env, source) && Answers(site, env, source, disk, values) && i < |values|
    ensures e in source.entries && FirstPass(site, env, source, disk).pending[i].key == e.key
    ensures GetTm(Resolve(site, env, mode, source, disk, values, clock).tm, KeyOf(site, env, e))
         == Some(AnswerFor(site, env, e, values[i], clock(i)))
  {
    var inp, scan := InputsOf(site, env, disk), FirstPass(site, env, source, disk);
    PendingAreSourceKeys(inp, LoadedTm(disk), source.entries);
    PendingHaveDifferentCacheKeys(inp, source.entries, scan.pending);
    assert ComesFromSource(inp, source.entries, scan.pending[i]);
    var k :| 0 <= k < |source.entries| && scan.pending[i] == ItemOf(inp, source.entries[k]);
    e := source.entries[k];
    StoreRecords(inp, scan, values, clock, i, e);
    FallBackKeepsMemory(inp, mode.force, Store(inp, scan, values, clock), scan.pending);
  }

  /** No pending item has this cache key. */
  lemma NotPending(site: Site, env: Env, source: Source, disk: Disk, cacheKey: string)
    requires GoodRun(site, env, source)
    requires forall e <- source.entries :: KeyOf(site, env, e) == cacheKey ==> Decide(InputsOf(site, env, disk), LoadedTm(disk), e) != Ask
    ensures var pending := FirstPass(site, env, source, disk).pending;
      forall i :: 0 <= i < |pending| ==> pending[i].cacheKey != cacheKey
  {
    var inp, pending := InputsOf(site, env, disk), FirstPass(site, env, source, disk).pending;
    RunIsGood(site, env, source, disk);
    ScanIsHandled(inp, LoadedTm(disk), source.entries);
    forall i | 0 <= i < |pending|
      ensures pending[i].cacheKey != cacheKey
    {
      assert HasOrigin(inp, LoadedTm(disk), source.entries, pending[i]);
      var j :| ComesFrom(inp, LoadedTm(disk), source.entries, pending[i], j);
      assert source.entries[j] in source.entries;
    }
  }

  /** A key that takes over the entry of the same text has a copy of it under its own name. */
  lemma CopyIsRecorded(
    site: Site, env: Env, mode: Mode, source: Source, disk: Disk, values: seq<string>, clock: nat -> string, e: Entry, k: int)
    requires GoodRun(site, env, source) && Answers(site, env, source, disk, values) && e in source.entries
    requires Decide(InputsOf(site, env, disk), LoadedTm(disk), e).FromSameText?
    requires LastServes(LoadedTm(disk), site.locale, HashText(site, e.text), k)
    ensures GetTm(Resolve(site, env, mode, source, disk, values, clock).tm, KeyOf(site, env, e))
         == Some(CopyFor(site, env, LoadedTm(disk)[k], e))
  {
    var inp, loaded, scan := InputsOf(site, env, disk), LoadedTm(disk), FirstPass(site, env, source, disk);
    var j :| 0 <= j < |source.entries| && source.entries[j] == e;
    RunIsGood(site, env, source, disk);
    ByTextHashIsLast(loaded, site.locale, HashText(site, e.text));
    WholeScan(source.entries);
    ScanCopies(inp, loaded, source.entries, |source.entries|, j);
    OnlyEntryOfKey(site, env, source, e);
    NotPending(site, env, source, disk, KeyOf(site, env, e));
    StoreKeepsOthers(inp, scan, values, clock, KeyOf(site, env, e));
    FallBackKeepsMemory(inp, mode.force, Store(inp, scan, values, clock), scan.pending);
  }

  lemma WholeScan(entries: seq<Entry>)
    ensures entries[..|entries|] == entries
  {
  }

  lemma OnlyEntryOfKey(site: Site, env: Env, source: Source, e: Entry)
    requires GoodRun(site, env, source) && e in source.entries
    ensures forall x <- source.entries :: KeyOf(site, env, x) == KeyOf(site, env, e) ==> x == e
  {
    var j :| 0 <= j < |source.entries| && source.entries[j] == e;
    forall x | x in source.entries && KeyOf(site, env, x) == KeyOf(site, env, e)
      ensures x == e
    {
      var i :| 0 <= i < |source.entries| && source.entries[i] == x;
      assert !(i < j) && !(j < i);
    }
  }

  /** Whatever else the memory held stays as it was: entries of other settings, locales or
      former keys, and those of keys that were neither translated nor took over a text. */
  lemma OtherEntriesStay(
    site: Site, env: Env, mode: Mode, source: Source, disk: Disk, values: seq<string>, clock: nat -> string, cacheKey: string)
    requires GoodRun(site, env, source) && Answers(site, env, source, disk, values)
    requires forall e <- source.entries :: KeyOf(site, env, e) != cacheKey
    ensures GetTm(Resolve(site, env, mode, source, disk, values, clock).tm, cacheKey) == GetTm(LoadedTm(disk), cacheKey)
  {
    var inp, scan := InputsOf(site, env, disk), FirstPass(site, env, source, disk);
    RunIsGood(site, env, source, disk);
    WholeScan(source.entries);
    forall j | 0 <= j < |source.entries|
      ensures Key(inp, source.entries[j]) != cacheKey
    {
      assert source.entries[j] in source.entries;
    }
    ScanKeepsOthers(inp, LoadedTm(disk), source.entries, |source.entries|, cacheKey);
    NotPending(site, env, source, disk, cacheKey);
    StoreKeepsOthers(inp, scan, values, clock, cacheKey);
    FallBackKeepsMemory(inp, mode.force, Store(inp, scan, values, clock), scan.pending);
  }

  // ----- What is written -----

  /** What the theorems below assume: a run that got its answers, may write and succeeded. */
  ghost predicate Writes(
    site: Site, env: Env, mode: Mode, source: Source, disk: Disk, values: seq<string>, clock: nat -> string)
  {
    && Runs(site, env, source) && Answers(site, env, source, disk, values)
    && mode.write && !mode.checkOnly && Sync(site, env, mode, source, disk, values, clock).Some?
  }

  /** The files after such a run. */
  ghost function Written(
    site: Site, env: Env, mode: Mode, source: Source, disk: Disk, values: seq<string>, clock: nat -> string): Disk
    requires Writes(site, env, mode, source, disk, values, clock)
  {
    Sync(site, env, mode, source, disk, values, clock).value.1
  }

  /** The locale file has the resolved value of every source key, and no other key. */
  lemma LocaleFileIs(
    site: Site, env: Env, mode: Mode, source: Source, disk: Disk, values: seq<string>, clock: nat -> string, key: string)
    requires Writes(site, env, mode, source, disk, values, clock)
    ensures var after, next := Written(site, env, mode, source, disk, values, clock), Resolve(site, env, mode, source, disk, values, clock).next;
      TextIn(after, key) == if key in next then Some(next[key]) else None
  {
    var after, r := Written(site, env, mode, source, disk, values, clock), Resolve(site, env, mode, source, disk, values, clock);
    RunHolds(site, env, mode, source, disk, values, clock);
    RunIsComplete(site, env, mode, source, disk, values, clock);
    LaterInputs(site, env, source, after, r);
    AssignedKeys(source.entries, r.next);
    RebuiltHasNoOtherKeys(Assigned(source.entries, r.next), key);
    if key in r.next {
      var e :| e in source.entries && e.key == key;
      assert Lookup(InputsOf(site, env, after).existing, e.key) == Some(r.next[e.key]);
    }
  }

  /** The metadata names the settings and the keys that fell back, in order, and has a new time
      stamp exactly if it says something new. */
  lemma MetaFileIs(
    site: Site, env: Env, mode: Mode, source: Source, disk: Disk, values: seq<string>, clock: nat -> string)
    requires Writes(site, env, mode, source, disk, values, clock)
    ensures var meta, fallback := Written(site, env, mode, source, disk, values, clock).meta, Resolve(site, env, mode, source, disk, values, clock).fallback;
      var was := disk.meta.Content();
      && meta.Canonical? && Sorted(meta.value.fallbackKeys, site.localeLe) && NoDuplicates(meta.value.fallbackKeys)
      && (forall key :: key in meta.value.fallbackKeys <==> key in fallback)
      && meta.value.locale == site.locale && meta.value.sourceHash == source.hash && meta.value.workflow == 1
      && meta.value.totalKeys == |source.entries| && meta.value.translatedKeys == |source.entries| - |fallback|
      && (env.allowTranslate ==> meta.value.provider == env.provider && meta.value.model == env.model)
      && (!env.allowTranslate && was.Some? ==> meta.value.provider == was.value.provider && meta.value.model == was.value.model)
      && (!env.allowTranslate && was.None? ==> meta.value.provider == "" == meta.value.model)
      && (was.Some? && was.value.(generatedAt := meta.value.generatedAt) == meta.value ==> meta.value == was.value)
      && (was.None? || was.value.(generatedAt := meta.value.generatedAt) != meta.value ==> meta.value.generatedAt == clock(|values|))
  {
    var r := Resolve(site, env, mode, source, disk, values, clock);
    var after := Written(site, env, mode, source, disk, values, clock);
    RunIsComplete(site, env, mode, source, disk, values, clock);
    RecordedCount(site, r.fallback);
    SortedFallbackMembers(site, r.fallback);
    SortCorrect(Distinct(r.fallback), site.localeLe);
    assert after.meta == Expected(site, env, source, disk, r, clock(|values|)).meta;
    MetaSays(site, env, source, disk.meta.Content(), r.fallback, clock(|values|));
  }

  lemma MetaSays(site: Site, env: Env, source: Source, was: Option<Meta>, fallback: seq<string>, stamp: string)
    ensures var now := NextMeta(site, env, source, was, fallback, stamp);
      && now.fallbackKeys == Sort(Distinct(fallback), site.localeLe)
      && now.locale == site.locale && now.sourceHash == source.hash && now.workflow == 1
      && now.totalKeys == |source.entries| && now.translatedKeys == |source.entries| - |now.fallbackKeys|
      && (env.allowTranslate ==> now.provider == env.provider && now.model == env.model)
      && (!env.allowTranslate && was.Some? ==> now.provider == was.value.provider && now.model == was.value.model)
      && (!env.allowTranslate && was.None? ==> now.provider == "" == now.model)
      && (was.Some? && was.value.(generatedAt := now.generatedAt) == now ==> now == was.value)
      && (was.None? || was.value.(generatedAt := now.generatedAt) != now ==> now.generatedAt == stamp)
  {
  }

  const PRODUCT_NAMES :=
    ["OpenClaw", "Gateway", "Control UI", "Skills", "Tailscale", "WhatsApp", "Telegram", "Discord", "Signal", "iMessage"]

  predicate AreKeptAsTheyAre(terms: seq<Term>, names: seq<string>) {
    |terms| == |names| && forall i :: 0 <= i < |names| ==> terms[i] == Term(names[i], names[i])
  }

  lemma ProductNamesAreKept()
    ensures AreKeptAsTheyAre(DEFAULT_GLOSSARY, PRODUCT_NAMES)
  {
  }

  /** A glossary with terms stays; otherwise it lists the product names, each kept as it is. */
  lemma GlossaryFileIs(
    site: Site, env: Env, mode: Mode, source: Source, disk: Disk, values: seq<string>, clock: nat -> string)
    requires Writes(site, env, mode, source, disk, values, clock)
    ensures var glossary := Written(site, env, mode, source, disk, values, clock).glossary;
      && glossary.Canonical?
      && if disk.glossary.Absent? || disk.glossary.value == []
         then AreKeptAsTheyAre(glossary.value, PRODUCT_NAMES)
         else glossary.value == disk.glossary.value
  {
    var after := Written(site, env, mode, source, disk, values, clock);
    var r := Resolve(site, env, mode, source, disk, values, clock);
    ProductNamesAreKept();
    assert after.glossary == Expected(site, env, source, disk, r, clock(|values|)).glossary;
  }

  /** The memory file has the entries of the run in the order of their cache keys, and is
      created only if there are any. */
  lemma MemoryFileIs(
    site: Site, env: Env, mode: Mode, source: Source, disk: Disk, values: seq<string>, clock: nat -> string)
    requires Writes(site, env, mode, source, disk, values, clock)
    ensures var tm, entries := Written(site, env, mode, source, disk, values, clock).tm, Resolve(site, env, mode, source, disk, values, clock).tm;
      && (tm.Absent? <==> disk.tm.Absent? && entries == [])
      && (!tm.Absent? ==>
        && tm.Canonical? && multiset(tm.value) == multiset(entries)
        && forall i, j :: 0 <= i < j < |tm.value| ==> site.localeLe(tm.value[i].cacheKey, tm.value[j].cacheKey))
  {
    var r := Resolve(site, env, mode, source, disk, values, clock);
    RunHolds(site, env, mode, source, disk, values, clock);
    RenderedIs(site, r.tm);
  }

  lemma RenderedIs(site: Site, tm: seq<TmEntry>)
    requires TotalPreorder(site.localeLe)
    ensures multiset(RenderTm(tm, site)) == multiset(tm) && |RenderTm(tm, site)| == |tm|
    ensures forall i, j :: 0 <= i < j < |RenderTm(tm, site)| ==>
      site.localeLe(RenderTm(tm, site)[i].cacheKey, RenderTm(tm, site)[j].cacheKey)
  {
    var le := (a: TmEntry, b: TmEntry) => site.localeLe(a.cacheKey, b.cacheKey);
    forall x, y, z | le(x, y) && le(y, z)
      ensures le(x, z)
    {
      assert site.localeLe(x.cacheKey, y.cacheKey) && site.localeLe(y.cacheKey, z.cacheKey);
    }
    forall x, y
      ensures le(x, y) || le(y, x)
    {
      assert site.localeLe(x.cacheKey, y.cacheKey) || site.localeLe(y.cacheKey, x.cacheKey);
    }
    SortCorrect(tm, le);
    SortKeepsLength(tm, le);
    forall i, j | 0 <= i < j < |RenderTm(tm, site)|
      ensures site.localeLe(RenderTm(tm, site)[i].cacheKey, RenderTm(tm, site)[j].cacheKey)
    {
      assert le(Sort(tm, le)[i], Sort(tm, le)[j]);
    }
  }

  /** A run with all its answers fails exactly if the placeholders of some source text are not
      those of its value. */
  lemma PlaceholdersMustAgree(
    site: Site, env: Env, mode: Mode, source: Source, disk: Disk, values: seq<string>, clock: nat -> string)
    requires GoodRun(site, env, source) && Answers(site, env, source, disk, values)
    ensures var next := Resolve(site, env, mode, source, disk, values, clock).next;
      && (forall e <- source.entries :: e.key in next)
      && (Sync(site, env, mode, source, disk, values, clock).None? <==>
            !forall e <- source.entries :: site.placeholders(e.text) == site.placeholders(next[e.key]))
  {
    var r := Resolve(site, env, mode, source, disk, values, clock);
    RunIsComplete(site, env, mode, source, disk, values, clock);
    PlaceholdersAgreeIff(site, source.entries, r.next);
  }

  lemma PlaceholdersAgreeIff(site: Site, entries: seq<Entry>, next: map<string, string>)
    requires forall e <- entries :: e.key in next
    ensures PlaceholdersAgree(site, entries, next) <==>
      forall e <- entries :: site.placeholders(e.text) == site.placeholders(next[e.key])
  {
    assert forall i :: 0 <= i < |entries| ==> entries[i] in entries;
  }
}
