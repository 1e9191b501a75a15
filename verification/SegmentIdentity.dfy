/** When two segments of the source are the same to the translation memory, and so whose
    translation a key can be given (`scripts/control-ui-i18n.ts`, `hashText`, `cacheKey`
    and the first loop of `syncLocale`). */
module SegmentIdentity {
  import opened Options
  import opened Text
  import opened TranslationTree
  import opened TranslationBatches
  import opened LocaleSync
  import opened LocaleSyncFixpoint
  import opened LocaleRun

  // ----- The words of a text -----

  /** The longest pieces of a text without white space. */
  function Words(s: string): (words: seq<string>)
    ensures s != "" && !IsSpace(s[0]) ==> words != []
  {
    if s == "" then []
    else if IsSpace(s[0]) then Words(s[1..])
    else if |s| == 1 || IsSpace(s[1]) then [[s[0]]] + Words(s[1..])
    else
      var rest := Words(s[1..]);
      [[s[0]] + rest[0]] + rest[1..]
  }

  predicate IsWord(s: string) {
    s != "" && forall i :: 0 <= i < |s| ==> !IsSpace(s[i])
  }

  predicate AreWords(words: seq<string>) {
    forall i :: 0 <= i < |words| ==> IsWord(words[i])
  }

  lemma {:induction false} WordsAreWords(s: string)
    ensures AreWords(Words(s))
  {
    if s != "" {
      WordsAreWords(s[1..]);
    }
  }

  lemma {:induction false} WordsOfWord(word: string, rest: string)
    requires IsWord(word) && (rest != "" ==> IsSpace(rest[0]))
    ensures Words(word + rest) == [word] + Words(rest)
  {
    var s := word + rest;
    assert s[1..] == word[1..] + rest;
    if |word| > 1 {
      WordsOfWord(word[1..], rest);
      assert [word[0]] + word[1..] == word;
    } else {
      assert word == [word[0]] && word[1..] + rest == rest;
    }
  }

  /** Joining words and taking them apart again. */
  lemma {:induction false} WordsOfJoin(words: seq<string>)
    requires AreWords(words)
    ensures Words(Join(words, " ")) == words
  {
    if words != [] {
      if |words| == 1 {
        WordsOfWord(words[0], "");
        assert words[0] + "" == words[0] && [words[0]] + [] == words;
      } else {
        var rest := " " + Join(words[1..], " ");
        WordsOfJoin(words[1..]);
        WordsOfWord(words[0], rest);
        assert words[0] + " " + Join(words[1..], " ") == words[0] + rest;
        assert rest[1..] == Join(words[1..], " ");
        assert words == [words[0]] + words[1..];
      }
    }
  }

  // ----- Normal form -----

  lemma {:induction false} WordsOfTrimStart(s: string)
    ensures Words(TrimStart(s)) == Words(s)
  {
    if s != "" && IsSpace(s[0]) {
      WordsOfTrimStart(s[1..]);
    }
  }

  lemma {:induction false} WordsBeforeSpace(s: string, c: char)
    requires IsSpace(c)
    ensures Words(s + [c]) == Words(s)
  {
    if s == "" {
      assert s + [c] == [c] && [c][1..] == "";
    } else {
      assert (s + [c])[1..] == s[1..] + [c];
      WordsBeforeSpace(s[1..], c);
    }
  }

  lemma {:induction false} WordsOfTrimEnd(s: string)
    ensures Words(TrimEnd(s)) == Words(s)
  {
    if s != "" && IsSpace(s[|s| - 1]) {
      WordsOfTrimEnd(s[..|s| - 1]);
      WordsBeforeSpace(s[..|s| - 1], s[|s| - 1]);
      FrontAndLast(s);
    }
  }

  lemma FrontAndLast(s: string)
    requires s != ""
    ensures s == s[..|s| - 1] + [s[|s| - 1]]
  {
  }

  lemma {:induction false} TrimStartStarts(s: string)
    ensures TrimStart(s) != "" ==> !IsSpace(TrimStart(s)[0])
    ensures |TrimStart(s)| <= |s|
    ensures s != "" && !IsSpace(s[|s| - 1]) ==> TrimStart(s) != "" && !IsSpace(TrimStart(s)[|TrimStart(s)| - 1])
  {
    if s != "" && IsSpace(s[0]) {
      TrimStartStarts(s[1..]);
      assert |s| > 1 ==> s[1..][|s[1..]| - 1] == s[|s| - 1];
    }
  }

  lemma {:induction false} TrimEndEnds(s: string)
    ensures TrimEnd(s) != "" ==> !IsSpace(TrimEnd(s)[|TrimEnd(s)| - 1])
    ensures TrimEnd(s) <= s
  {
    if s != "" && IsSpace(s[|s| - 1]) {
      TrimEndEnds(s[..|s| - 1]);
    }
  }

  /** A run of white space collapses to one space. */
  lemma {:induction false} CollapsesRun(s: string)
    requires s != "" && IsSpace(s[0]) && !IsSpace(s[|s| - 1])
    ensures CollapseSpaces(s) == " " + CollapseSpaces(TrimStart(s))
  {
    if IsSpace(s[1]) {
      CollapsesRun(s[1..]);
    } else {
      assert TrimStart(s) == s[1..];
    }
  }

  lemma JoinOfMore(first: string, rest: seq<string>)
    requires rest != []
    ensures Join([first] + rest, " ") == first + " " + Join(rest, " ")
  {
    assert ([first] + rest)[1..] == rest;
  }

  lemma CharBefore(c: char, first: string, rest: string)
    ensures ([c] + first) + " " + rest == [c] + (first + " " + rest)
  {
  }

  lemma JoinGrows(c: char, words: seq<string>)
    requires words != []
    ensures Join([[c] + words[0]] + words[1..], " ") == [c] + Join(words, " ")
    ensures Join([[c]] + words, " ") == [c] + " " + Join(words, " ")
  {
    JoinOfMore([c], words);
    if |words| > 1 {
      JoinOfMore([c] + words[0], words[1..]);
      CharBefore(c, words[0], Join(words[1..], " "));
    }
  }

  lemma OneChar(s: string)
    requires IsTrimmed(s) && |s| == 1
    ensures CollapseSpaces(s) == Join(Words(s), " ")
  {
    assert s[1..] == "" && s == [s[0]] && [[s[0]]] + [] == [s];
  }

  lemma WordsOfOneChar(s: string)
    requires |s| > 1 && !IsSpace(s[0]) && IsSpace(s[1])
    ensures Words(s) == [[s[0]]] + Words(s[1..]) && CollapseSpaces(s) == [s[0]] + CollapseSpaces(s[1..])
  {
  }

  lemma CharAndSpace(c: char, rest: string)
    ensures [c] + (" " + rest) == [c] + " " + rest
  {
  }

  /** A character, a run of white space and what follows it. */
  lemma CollapseOverRun(s: string, u: string)
    requires IsTrimmed(s) && |s| > 1 && IsSpace(s[1]) && u == TrimStart(s[1..])
    requires CollapseSpaces(u) == Join(Words(u), " ") && Words(u) == Words(s[1..]) != []
    ensures CollapseSpaces(s) == Join(Words(s), " ")
  {
    WordsOfOneChar(s);
    CollapsesRun(s[1..]);
    JoinGrows(s[0], Words(u));
    CharAndSpace(s[0], CollapseSpaces(u));
  }

  lemma TailIsTrimmed(s: string)
    requires IsTrimmed(s) && |s| > 1
    ensures IsTrimmed(TrimStart(s[1..])) && TrimStart(s[1..]) != "" && |TrimStart(s[1..])| < |s|
  {
    assert s[1..][|s[1..]| - 1] == s[|s| - 1];
    TrimStartStarts(s[1..]);
  }

  /** Of a text without outer white space, collapsing leaves its words with single spaces. */
  lemma {:induction false} CollapseJoins(s: string)
    requires IsTrimmed(s)
    ensures CollapseSpaces(s) == Join(Words(s), " ")
    decreases |s|
  {
    if |s| == 1 {
      OneChar(s);
    } else if |s| > 1 {
      var u := TrimStart(s[1..]);
      TailIsTrimmed(s);
      CollapseJoins(u);
      WordsOfTrimStart(s[1..]);
      if IsSpace(s[1]) {
        CollapseOverRun(s, u);
      } else {
        assert u == s[1..];
        JoinGrows(s[0], Words(u));
      }
    }
  }

  lemma TrimIsTrimmed(s: string)
    ensures IsTrimmed(Trim(s)) && Words(Trim(s)) == Words(s)
  {
    var t := TrimStart(s);
    TrimStartStarts(s);
    TrimEndEnds(t);
    WordsOfTrimStart(s);
    WordsOfTrimEnd(t);
    assert Trim(s) != "" ==> Trim(s)[0] == t[0];
  }

  /** What a text is hashed as: its words, with single spaces between them. */
  lemma NormalIsJoin(s: string)
    ensures CollapseSpaces(Trim(s)) == Join(Words(s), " ")
  {
    TrimIsTrimmed(s);
    CollapseJoins(Trim(s));
  }

  /** Two texts have the same hash exactly when they have the same words. */
  lemma SameHashIff(site: Site, x: string, y: string)
    requires HashLike(site.sha256)
    ensures HashText(site, x) == HashText(site, y) <==> Words(x) == Words(y)
  {
    NormalIsJoin(x);
    NormalIsJoin(y);
    WordsAreWords(x);
    WordsAreWords(y);
    WordsOfJoin(Words(x));
    WordsOfJoin(Words(y));
  }

  // ----- Cache keys -----

  predicate BarFree(s: string) {
    '|' !in s
  }

  /** What a cache key is the hash of. */
  function KeyText(provider: string, model: string, locale: string, key: string, textHash: string): string {
    "wf=1|engine=pi|provider=" + provider + "|model=" + model + "|en|" + locale + "|" + key + "|" + textHash
  }

  lemma CacheKeyIs(site: Site, env: Env, key: string, textHash: string)
    ensures CacheKey(site, env, key, textHash) == site.sha256(KeyText(env.provider, env.model, site.locale, key, textHash))
  {
    assert "|" + SOURCE_LOCALE + "|" == "|en|";
    var a := "wf=1|engine=pi|provider=" + env.provider + "|model=" + env.model;
    assert a + "|" + SOURCE_LOCALE + "|" == a + "|en|";
  }

  lemma BarBehind(a: string, x: string)
    requires BarFree(a)
    ensures (a + "|" + x)[|a|] == '|' && forall i :: 0 <= i < |a| ==> (a + "|" + x)[i] != '|'
    ensures (a + "|" + x)[..|a|] == a && (a + "|" + x)[|a| + 1..] == x
  {
  }

  lemma FirstBar(a: string, x: string, b: string, y: string)
    requires a + "|" + x == b + "|" + y && BarFree(a) && BarFree(b)
    ensures a == b && x == y
  {
    BarBehind(a, x);
    BarBehind(b, y);
    assert |a| == |b|;
  }

  lemma AfterHead(head: string, x: string, y: string)
    requires head + x == head + y
    ensures x == y
  {
    assert (head + x)[|head|..] == x && (head + y)[|head|..] == y;
  }

  lemma KeyTextParts(provider: string, model: string, locale: string, key: string, textHash: string)
    ensures KeyText(provider, model, locale, key, textHash)
         == "wf=1|engine=pi|provider=" + (provider + "|" + ("model=" + (model + "|" + ("en|" + (locale + "|" + (key + "|" + textHash))))))
  {
  }

  lemma KeyTextsAgree(p: string, m: string, l: string, k: string, h: string, q: string, n: string, o: string, j: string, g: string)
    requires BarFree(p) && BarFree(m) && BarFree(l) && BarFree(h) && BarFree(q) && BarFree(n) && BarFree(o) && BarFree(g)
    requires KeyText(p, m, l, k, h) == KeyText(q, n, o, j, g)
    ensures p == q && m == n && l == o && k == j && h == g
  {
    var a3, b3 := k + "|" + h, j + "|" + g;
    var a2, b2 := "en|" + (l + "|" + a3), "en|" + (o + "|" + b3);
    var a1, b1 := "model=" + (m + "|" + a2), "model=" + (n + "|" + b2);
    KeyTextParts(p, m, l, k, h);
    KeyTextParts(q, n, o, j, g);
    AfterHead("wf=1|engine=pi|provider=", p + "|" + a1, q + "|" + b1);
    FirstBar(p, a1, q, b1);
    AfterHead("model=", m + "|" + a2, n + "|" + b2);
    FirstBar(m, a2, n, b2);
    AfterHead("en|", l + "|" + a3, o + "|" + b3);
    FirstBar(l, a3, o, b3);
    LastBar(k, h, j, g);
    AfterHead(k + "|", h, g);
  }

  /** Two cache keys are the same exactly for the same provider, model, locale, key and
      text hash, if no bar is in the first three. The key may hold bars. */
  lemma CacheKeysAgreeIff(a: Site, x: Env, k: string, h: string, b: Site, y: Env, j: string, g: string)
    requires a.sha256 == b.sha256 && HashLike(a.sha256) && BarFree(h) && BarFree(g)
    requires BarFree(x.provider) && BarFree(x.model) && BarFree(a.locale)
    requires BarFree(y.provider) && BarFree(y.model) && BarFree(b.locale)
    ensures CacheKey(a, x, k, h) == CacheKey(b, y, j, g) <==>
      x.provider == y.provider && x.model == y.model && a.locale == b.locale && k == j && h == g
  {
    CacheKeyIs(a, x, k, h);
    CacheKeyIs(b, y, j, g);
    if CacheKey(a, x, k, h) == CacheKey(b, y, j, g) {
      KeyTextsAgree(x.provider, x.model, a.locale, k, h, y.provider, y.model, b.locale, j, g);
    }
  }

  /** A bar in the name of a provider or model can make different settings share a cache key. */
  lemma BarsCanCollide(site: Site, key: string, textHash: string)
    ensures CacheKey(site, Env("p|model=q", "r", true, 1.0), key, textHash)
         == CacheKey(site, Env("p", "q|model=r", true, 1.0), key, textHash)
  {
    CacheKeyIs(site, Env("p|model=q", "r", true, 1.0), key, textHash);
    CacheKeyIs(site, Env("p", "q|model=r", true, 1.0), key, textHash);
    assert "wf=1|engine=pi|provider=" + "p|model=q" + "|model=" + "r" == "wf=1|engine=pi|provider=" + "p" + "|model=" + "q|model=r";
  }

  // ----- What is recorded for whom -----

  /** The entry has the hash of its own text, and a cache key for its own key and hash. */
  ghost predicate Honest(site: Site, x: TmEntry) {
    && x.textHash == HashText(site, x.text)
    && exists provider, model, locale :: HasKey(site, x, provider, model, locale)
  }

  predicate HasKey(site: Site, x: TmEntry, provider: string, model: string, locale: string) {
    && BarFree(provider) && BarFree(model) && BarFree(locale)
    && x.cacheKey == site.sha256(KeyText(provider, model, locale, x.segmentId, x.textHash))
  }

  ghost predicate AllHonest(site: Site, tm: seq<TmEntry>) {
    forall x <- tm :: Honest(site, x)
  }

  /** The hash is that of the library, and the settings hold no bar. */
  ghost predicate PlainSettings(site: Site, env: Env) {
    HashLike(site.sha256) && BarFree(env.provider) && BarFree(env.model) && BarFree(site.locale)
  }

  /** A text found under a key's cache key was recorded for that key and for the same words. */
  lemma CachedIsForSameWords(site: Site, env: Env, tm: seq<TmEntry>, e: Entry)
    requires PlainSettings(site, env) && AllHonest(site, tm) && DistinctCacheKeys(tm)
    requires GetTm(tm, KeyOf(site, env, e)).Some?
    ensures var x := GetTm(tm, KeyOf(site, env, e)).value; x in tm && x.segmentId == e.key && Words(x.text) == Words(e.text)
  {
    GetIsMember(tm, KeyOf(site, env, e));
    var x := GetTm(tm, KeyOf(site, env, e)).value;
    var p, m, l :| HasKey(site, x, p, m, l);
    CacheKeyIs(site, env, e.key, HashText(site, e.text));
    KeyTextsAgree(p, m, l, x.segmentId, x.textHash, env.provider, env.model, site.locale, e.key, HashText(site, e.text));
    SameHashIff(site, x.text, e.text);
  }

  /** A text found by the hash of a text was recorded for the same words in this locale. */
  lemma SameTextIsForSameWords(site: Site, tm: seq<TmEntry>, text: string)
    requires HashLike(site.sha256) && AllHonest(site, tm)
    requires HashText(site, text) in ByTextHash(tm, site.locale)
    ensures var x := ByTextHash(tm, site.locale)[HashText(site, text)];
      x in tm && x.tgtLang == site.locale && Words(x.text) == Words(text)
  {
    ByTextHashMeans(tm, site.locale, HashText(site, text));
    SameHashIff(site, ByTextHash(tm, site.locale)[HashText(site, text)].text, text);
  }

  /** Somebody recorded this translation for a text of the same words. */
  ghost predicate RecordedFor(tm: seq<TmEntry>, text: string, translated: string) {
    exists x <- tm :: x.translated == translated && Words(x.text) == Words(text)
  }

  /** Where the value of a source key comes from: a translation recorded for the same words,
      the locale file, the translator's answer to this key, or the source text itself. */
  lemma EveryValueHasAnOrigin(
    site: Site, env: Env, mode: Mode, source: Source, disk: Disk, values: seq<string>, clock: nat -> string, e: Entry)
    requires GoodRun(site, env, source) && PlainSettings(site, env) && AllHonest(site, LoadedTm(disk))
    requires Answers(site, env, source, disk, values) && e in source.entries
    ensures var r, pending := Resolve(site, env, mode, source, disk, values, clock), FirstPass(site, env, source, disk).pending;
      && e.key in r.next
      && var value := r.next[e.key];
         || RecordedFor(LoadedTm(disk), e.text, value)
         || Lookup(Flat(disk.locale.Content().GetOr([])), e.key) == Some(value)
         || (exists i :: 0 <= i < |values| && i < |pending| && pending[i].key == e.key && values[i] == value)
         || (!env.allowTranslate && value == e.text && e.key in r.fallback)
  {
    var inp, loaded, scan := InputsOf(site, env, disk), LoadedTm(disk), FirstPass(site, env, source, disk);
    var r := Resolve(site, env, mode, source, disk, values, clock);
    RunFinishes(site, env, mode, source, disk, values, clock);
    RunIsGood(site, env, source, disk);
    assert Finished(inp, loaded, r, e);
    match Decide(inp, loaded, e)
    case FromCache(_) => CachedIsForSameWords(site, env, loaded, e);
    case FromSameText(_) => SameTextIsForSameWords(site, loaded, e.text);
    case FromExisting(_) =>
    case Ask =>
      if env.allowTranslate {
        var i := AskedIsPending(site, env, source, disk, e);
        AnswersAreResolved(site, env, mode, source, disk, values, clock, i);
      }
  }

  lemma AskedIsPending(site: Site, env: Env, source: Source, disk: Disk, e: Entry) returns (i: nat)
    requires GoodRun(site, env, source) && e in source.entries
    requires Decide(InputsOf(site, env, disk), LoadedTm(disk), e) == Ask
    ensures i < |FirstPass(site, env, source, disk).pending| && FirstPass(site, env, source, disk).pending[i].key == e.key
  {
    var inp, scan := InputsOf(site, env, disk), FirstPass(site, env, source, disk);
    RunIsGood(site, env, source, disk);
    ScanDecides(inp, LoadedTm(disk), source.entries, |source.entries|);
    assert source.entries[..|source.entries|] == source.entries;
    var j :| 0 <= j < |source.entries| && source.entries[j] == e;
    assert Decided(inp, LoadedTm(disk), scan, source.entries[j]);
    i :| 0 <= i < |scan.pending| && scan.pending[i] == ItemOf(inp, e);
  }

  // ----- A run records nothing else -----

  lemma SetHonest(site: Site, tm: seq<TmEntry>, x: TmEntry)
    requires AllHonest(site, tm) && Honest(site, x) && DistinctCacheKeys(tm)
    ensures AllHonest(site, SetTm(tm, x)) && DistinctCacheKeys(SetTm(tm, x))
  {
    SetKeeps(tm, x);
  }

  lemma NewIsHonest(site: Site, env: Env, key: string, x: TmEntry)
    requires PlainSettings(site, env) && x.textHash == HashText(site, x.text) && x.segmentId == key
    requires x.cacheKey == CacheKey(site, env, key, x.textHash)
    ensures Honest(site, x)
  {
    CacheKeyIs(site, env, key, x.textHash);
    assert HasKey(site, x, env.provider, env.model, site.locale);
  }

  /** Items that carry the hash and the cache key of their own text and key. */
  predicate HonestItem(site: Site, env: Env, item: Item) {
    item.textHash == HashText(site, item.text) && item.cacheKey == CacheKey(site, env, item.key, item.textHash)
  }

  ghost predicate HonestProgress(inp: Inputs, s: Progress) {
    && AllHonest(inp.site, s.tm) && DistinctCacheKeys(s.tm)
    && forall i :: 0 <= i < |s.pending| ==> HonestItem(inp.site, inp.env, s.pending[i])
  }

  lemma {:induction false} ScanIsHonest(inp: Inputs, loaded: seq<TmEntry>, entries: seq<Entry>)
    requires PlainSettings(inp.site, inp.env) && AllHonest(inp.site, loaded) && DistinctCacheKeys(loaded)
    requires inp.byText == ByTextHash(loaded, inp.site.locale)
    ensures HonestProgress(inp, Scan(inp, loaded, entries))
  {
    if entries != [] {
      var front, e := entries[..|entries| - 1], entries[|entries| - 1];
      var textHash := HashText(inp.site, e.text);
      ScanIsHonest(inp, loaded, front);
      if textHash in inp.byText {
        ByTextHashMeans(loaded, inp.site.locale, textHash);
        CopyIsHonest(inp, e, inp.byText[textHash]);
        var copy := inp.byText[textHash].(cacheKey := Key(inp, e), segmentId := e.key, sourcePath := SourcePath(inp.site));
        SetHonest(inp.site, Scan(inp, loaded, front).tm, copy);
      }
    }
  }

  lemma CopyIsHonest(inp: Inputs, e: Entry, x: TmEntry)
    requires PlainSettings(inp.site, inp.env) && Honest(inp.site, x) && x.textHash == HashText(inp.site, e.text)
    ensures Honest(inp.site, x.(cacheKey := Key(inp, e), segmentId := e.key, sourcePath := SourcePath(inp.site)))
  {
    NewIsHonest(inp.site, inp.env, e.key, x.(cacheKey := Key(inp, e), segmentId := e.key, sourcePath := SourcePath(inp.site)));
  }

  lemma {:induction false} StoreIsHonest(inp: Inputs, s: Progress, values: seq<string>, clock: nat -> string)
    requires PlainSettings(inp.site, inp.env) && HonestProgress(inp, s)
    ensures HonestProgress(inp, Store(inp, s, values, clock)) && Store(inp, s, values, clock).pending == s.pending
  {
    if values != [] && |values| <= |s.pending| {
      var i := |values| - 1;
      var before := Store(inp, s, values[..i], clock);
      StoreIsHonest(inp, s, values[..i], clock);
      var item := s.pending[i];
      var x := TmEntry(item.cacheKey, inp.env.model, inp.env.provider, item.key, SourcePath(inp.site),
                       SOURCE_LOCALE, item.text, item.textHash, inp.site.locale, values[i], clock(i));
      NewIsHonest(inp.site, inp.env, item.key, x);
      SetHonest(inp.site, before.tm, x);
    }
  }

  /** What a run has in memory is honest if what it loaded is. */
  lemma RunStaysHonest(
    site: Site, env: Env, mode: Mode, source: Source, disk: Disk, values: seq<string>, clock: nat -> string)
    requires PlainSettings(site, env) && AllHonest(site, LoadedTm(disk)) && Answers(site, env, source, disk, values)
    ensures AllHonest(site, Resolve(site, env, mode, source, disk, values, clock).tm)
  {
    var inp, scan := InputsOf(site, env, disk), FirstPass(site, env, source, disk);
    LoadIsHealthy(disk.tm.Content().GetOr([]));
    ScanIsHonest(inp, LoadedTm(disk), source.entries);
    StoreIsHonest(inp, scan, values, clock);
    FallBackKeepsMemory(inp, mode.force, Store(inp, scan, values, clock), scan.pending);
  }
}
