/** What one run of `syncLocale` leaves behind, and when a later run finds nothing
    to do (`scripts/control-ui-i18n.ts`, `syncLocale`). */
module LocaleSyncFixpoint {
  import opened Options
  import opened Sorting
  import opened Text
  import opened TranslationTree
  import opened TranslationBatches
  import opened LocaleSync

  // ----- The translation memory -----

  lemma {:induction false} GetAfterSet(tm: seq<TmEntry>, e: TmEntry, cacheKey: string)
    ensures GetTm(SetTm(tm, e), cacheKey) == if cacheKey == e.cacheKey then Some(e) else GetTm(tm, cacheKey)
  {
    if tm != [] && tm[0].cacheKey != e.cacheKey {
      GetAfterSet(tm[1..], e, cacheKey);
    }
  }

  ghost predicate DistinctCacheKeys(tm: seq<TmEntry>) {
    forall i, j :: 0 <= i < j < |tm| ==> tm[i].cacheKey != tm[j].cacheKey
  }

  /** Loading would keep every entry. */
  ghost predicate Healthy(tm: seq<TmEntry>) {
    && DistinctCacheKeys(tm)
    && forall e <- tm :: IsUsable(e)
  }

  lemma {:induction false} SetKeeps(tm: seq<TmEntry>, e: TmEntry)
    requires DistinctCacheKeys(tm)
    ensures DistinctCacheKeys(SetTm(tm, e))
    ensures forall x :: x in SetTm(tm, e) ==> x == e || (x in tm && x.cacheKey != e.cacheKey)
  {
    if tm != [] {
      if tm[0].cacheKey != e.cacheKey {
        SetKeeps(tm[1..], e);
      } else {
        assert forall x :: x in tm[1..] ==> x.cacheKey != e.cacheKey;
      }
    }
  }

  lemma {:induction false} SetNew(tm: seq<TmEntry>, e: TmEntry)
    requires forall x <- tm :: x.cacheKey != e.cacheKey
    ensures SetTm(tm, e) == tm + [e]
  {
    if tm != [] {
      SetNew(tm[1..], e);
    }
  }

  lemma {:induction false} LoadIsHealthy(lines: seq<TmEntry>)
    ensures Healthy(LoadTm(lines))
  {
    if lines != [] {
      LoadIsHealthy(lines[..|lines| - 1]);
      SetKeeps(LoadTm(lines[..|lines| - 1]), lines[|lines| - 1]);
    }
  }

  /** The last line of a cache key with a translation. */
  predicate IsLastOf(lines: seq<TmEntry>, cacheKey: string, i: int) {
    && 0 <= i < |lines| && lines[i].cacheKey == cacheKey && !IsBlank(lines[i].translated)
    && forall j :: i < j < |lines| && lines[j].cacheKey == cacheKey ==> IsBlank(lines[j].translated)
  }

  lemma LastOfMore(lines: seq<TmEntry>, cacheKey: string, i: int)
    requires lines != []
    ensures var front, last := lines[..|lines| - 1], lines[|lines| - 1];
      IsLastOf(lines, cacheKey, i) <==>
        if last.cacheKey == cacheKey && !IsBlank(last.translated) then i == |front| else IsLastOf(front, cacheKey, i)
  {
    var front := lines[..|lines| - 1];
    assert forall j :: 0 <= j < |front| ==> front[j] == lines[j];
  }

  /** Under every cache key but the empty one loading keeps the last line with a translation. */
  lemma {:induction false} LoadKeepsLast(lines: seq<TmEntry>, cacheKey: string)
    ensures cacheKey == "" ==> GetTm(LoadTm(lines), cacheKey).None?
    ensures cacheKey != "" ==> (GetTm(LoadTm(lines), cacheKey).Some? <==> exists i :: IsLastOf(lines, cacheKey, i))
    ensures cacheKey != "" ==> forall i :: IsLastOf(lines, cacheKey, i) ==> GetTm(LoadTm(lines), cacheKey) == Some(lines[i])
  {
    if lines != [] {
      var front, last := lines[..|lines| - 1], lines[|lines| - 1];
      LoadKeepsLast(front, cacheKey);
      GetAfterSet(LoadTm(front), last, cacheKey);
      forall i
        ensures IsLastOf(lines, cacheKey, i) <==>
          if last.cacheKey == cacheKey && !IsBlank(last.translated) then i == |front| else IsLastOf(front, cacheKey, i)
      {
        LastOfMore(lines, cacheKey, i);
      }
      if last.cacheKey == cacheKey && !IsBlank(last.translated) {
        assert IsLastOf(lines, cacheKey, |front|);
      }
    }
  }

  function CacheKeys(tm: seq<TmEntry>): seq<string> {
    seq(|tm|, i requires 0 <= i < |tm| => tm[i].cacheKey)
  }

  function UsableKeys(lines: seq<TmEntry>): seq<string> {
    if lines == [] then []
    else
      var last := lines[|lines| - 1];
      UsableKeys(lines[..|lines| - 1]) + (if IsUsable(last) then [last.cacheKey] else [])
  }

  lemma {:induction false} SetKeepsOrder(tm: seq<TmEntry>, e: TmEntry)
    ensures CacheKeys(SetTm(tm, e))
         == if e.cacheKey in CacheKeys(tm) then CacheKeys(tm) else CacheKeys(tm) + [e.cacheKey]
  {
    if tm != [] {
      CacheKeysOf(tm[0], tm[1..]);
      assert tm == [tm[0]] + tm[1..];
      if tm[0].cacheKey == e.cacheKey {
        CacheKeysOf(e, tm[1..]);
        assert CacheKeys(tm)[0] == e.cacheKey;
      } else {
        SetKeepsOrder(tm[1..], e);
        CacheKeysOf(tm[0], SetTm(tm[1..], e));
        GrowsBehind(tm[0].cacheKey, CacheKeys(tm[1..]), e.cacheKey);
      }
    }
  }

  lemma CacheKeysOf(first: TmEntry, rest: seq<TmEntry>)
    ensures CacheKeys([first] + rest) == [first.cacheKey] + CacheKeys(rest)
  {
  }

  lemma GrowsBehind(first: string, rest: seq<string>, last: string)
    requires first != last
    ensures [first] + (rest + [last]) == [first] + rest + [last]
    ensures last in [first] + rest <==> last in rest
  {
    if last in rest {
      var i :| 0 <= i < |rest| && rest[i] == last;
      assert ([first] + rest)[i + 1] == last;
    }
  }

  /** And keeps the keys in the order in which they first appear. */
  lemma {:induction false} LoadKeepsOrder(lines: seq<TmEntry>)
    ensures CacheKeys(LoadTm(lines)) == Distinct(UsableKeys(lines))
  {
    if lines != [] {
      var front, last := lines[..|lines| - 1], lines[|lines| - 1];
      LoadKeepsOrder(front);
      SetKeepsOrder(LoadTm(front), last);
      if IsUsable(last) {
        var keys := UsableKeys(lines);
        assert keys[..|keys| - 1] == UsableKeys(front) && keys[|keys| - 1] == last.cacheKey;
      } else {
        assert UsableKeys(lines) == UsableKeys(front);
      }
    }
  }

  lemma HealthyFront(tm: seq<TmEntry>)
    requires Healthy(tm) && tm != []
    ensures var earlier, e := tm[..|tm| - 1], tm[|tm| - 1];
      && Healthy(earlier) && IsUsable(e) && tm == earlier + [e] && forall x <- earlier :: x.cacheKey != e.cacheKey
  {
    var earlier, e := tm[..|tm| - 1], tm[|tm| - 1];
    assert e in tm;
    forall x | x in earlier
      ensures IsUsable(x) && x.cacheKey != e.cacheKey
    {
      var i :| 0 <= i < |earlier| && earlier[i] == x;
      assert tm[i] == x && tm[i] in tm;
    }
  }

  lemma {:induction false} LoadKeepsHealthy(tm: seq<TmEntry>)
    requires Healthy(tm)
    ensures LoadTm(tm) == tm
  {
    if tm != [] {
      HealthyFront(tm);
      LoadKeepsHealthy(tm[..|tm| - 1]);
      SetNew(tm[..|tm| - 1], tm[|tm| - 1]);
    }
  }

  lemma {:induction false} GetIsMember(tm: seq<TmEntry>, cacheKey: string)
    requires DistinctCacheKeys(tm)
    ensures GetTm(tm, cacheKey).Some? ==> GetTm(tm, cacheKey).value in tm && GetTm(tm, cacheKey).value.cacheKey == cacheKey
    ensures forall e <- tm :: e.cacheKey == cacheKey ==> GetTm(tm, cacheKey) == Some(e)
  {
    if tm != [] {
      GetIsMember(tm[1..], cacheKey);
    }
  }

  /** Rendering and loading a memory again changes neither its entries nor its text. */
  lemma RenderRoundTrip(site: Site, tm: seq<TmEntry>)
    requires TotalPreorder(site.localeLe) && Healthy(tm)
    ensures var lines := RenderTm(tm, site);
      && LoadTm(lines) == lines && RenderTm(lines, site) == lines
      && Healthy(lines) && (forall e :: e in lines <==> e in tm)
      && forall k :: GetTm(lines, k) == GetTm(tm, k)
  {
    var le := (a: TmEntry, b: TmEntry) => site.localeLe(a.cacheKey, b.cacheKey);
    var lines := Sort(tm, le);
    forall x, y, z | le(x, y) && le(y, z)
      ensures le(x, z)
    {
      assert site.localeLe(x.cacheKey, y.cacheKey) && site.localeLe(y.cacheKey, z.cacheKey);
    }
    forall x, y
      ensures le(x, y) || le(y, x)
    {
      assert site.localeLe(x.cacheKey, y.cacheKey) || site.localeLe(y.cacheKey, x.cacheKey);
    }
    SortCorrect(tm, le);
    SortedIsFixed(lines, le);
    forall e
      ensures e in lines <==> e in tm
    {
      assert e in lines <==> e in multiset(lines);
    }
    SameMultisetDistinct(tm, lines);
    LoadKeepsHealthy(lines);
    forall k
      ensures GetTm(lines, k) == GetTm(tm, k)
    {
      GetIsMember(tm, k);
      GetIsMember(lines, k);
    }
  }

  lemma SameMultisetDistinct(a: seq<TmEntry>, b: seq<TmEntry>)
    requires DistinctCacheKeys(a) && multiset(a) == multiset(b)
    ensures DistinctCacheKeys(b)
  {
    forall i, j | 0 <= i < j < |b| && b[i].cacheKey == b[j].cacheKey
      ensures false
    {
      OneOfKey(a, b[i], b[j]);
      CountedTwice(b, i, j);
    }
  }

  /** An entry of `a` is there once, and no other has its cache key. */
  lemma OneOfKey(a: seq<TmEntry>, x: TmEntry, y: TmEntry)
    requires DistinctCacheKeys(a) && x in multiset(a) && y in multiset(a) && x.cacheKey == y.cacheKey
    ensures x == y && multiset(a)[x] == 1
  {
    var p :| 0 <= p < |a| && a[p] == x;
    var q :| 0 <= q < |a| && a[q] == y;
    assert NoDuplicates(a);
    CountOnce(a, x);
  }

  /** The text-hash index knows exactly the hashes of the reusable entries. */
  lemma {:induction false} ByTextHashMeans(tm: seq<TmEntry>, locale: string, h: string)
    ensures h in ByTextHash(tm, locale) <==> exists e <- tm :: Reusable(e, locale) && e.textHash == h
    ensures h in ByTextHash(tm, locale) ==>
      ByTextHash(tm, locale)[h] in tm && Reusable(ByTextHash(tm, locale)[h], locale) && ByTextHash(tm, locale)[h].textHash == h
  {
    if tm != [] {
      ByTextHashMeans(tm[..|tm| - 1], locale, h);
      assert tm == tm[..|tm| - 1] + [tm[|tm| - 1]];
    }
  }

  // ----- One run -----

  function Key(inp: Inputs, e: Entry): string {
    KeyOf(inp.site, inp.env, e)
  }

  function ItemOf(inp: Inputs, e: Entry): Item {
    Item(Key(inp, e), e.key, e.text, HashText(inp.site, e.text))
  }

  /** No two keys of the run share a cache key. */
  ghost predicate NoCollision(site: Site, env: Env, entries: seq<Entry>) {
    forall i, j :: 0 <= i < j < |entries| ==> KeyOf(site, env, entries[i]) != KeyOf(site, env, entries[j])
  }

  datatype Decision = FromCache(text: string) | FromSameText(text: string) | FromExisting(text: string) | Ask

  /** The decision for a key depends on what was loaded for it, and on nothing else. */
  function Decide(inp: Inputs, loaded: seq<TmEntry>, e: Entry): Decision {
    var cached := GetTm(loaded, Key(inp, e));
    var existing := Lookup(inp.existing, e.key);
    var refresh := e.key in inp.previousFallback;
    if cached.Some? && !(inp.env.allowTranslate && refresh) then FromCache(cached.value.translated)
    else if HashText(inp.site, e.text) in inp.byText && (refresh || existing.None?) then
      FromSameText(inp.byText[HashText(inp.site, e.text)].translated)
    else if existing.Some? && !(inp.env.allowTranslate && refresh) then FromExisting(existing.value)
    else Ask
  }

  ghost predicate Untouched(inp: Inputs, loaded: seq<TmEntry>, s: Progress, e: Entry) {
    e.key !in s.next && e.key !in s.fallback && GetTm(s.tm, Key(inp, e)) == GetTm(loaded, Key(inp, e))
  }

  /** The first loop has dealt with `e` as decided. */
  ghost predicate Decided(inp: Inputs, loaded: seq<TmEntry>, s: Progress, e: Entry) {
    var cached, now := GetTm(loaded, Key(inp, e)), GetTm(s.tm, Key(inp, e));
    match Decide(inp, loaded, e)
    case FromCache(text) =>
      && e.key in s.next && s.next[e.key] == text && now == cached
      && (e.key in s.fallback <==> e.key in inp.previousFallback)
    case FromSameText(text) =>
      && e.key in s.next && s.next[e.key] == text && e.key !in s.fallback
      && now.Some? && now.value.translated == text
    case FromExisting(text) =>
      && e.key in s.next && s.next[e.key] == text && now == cached
      && (e.key in s.fallback <==> e.key in inp.previousFallback)
    case Ask => Untouched(inp, loaded, s, e) && ItemOf(inp, e) in s.pending
  }

  /** The whole run has dealt with `e`: keys that were asked for are translated, or
      fall back to the source text when nothing translates. */
  ghost predicate Finished(inp: Inputs, loaded: seq<TmEntry>, s: Progress, e: Entry) {
    if Decide(inp, loaded, e) != Ask then Decided(inp, loaded, s, e)
    else
      var now := GetTm(s.tm, Key(inp, e));
      && e.key in s.next
      && (inp.env.allowTranslate ==>
            e.key !in s.fallback && now.Some? && now.value.translated == s.next[e.key])
      && (!inp.env.allowTranslate ==>
            e.key in s.fallback && s.next[e.key] == e.text && now == GetTm(loaded, Key(inp, e)))
  }

  ghost predicate SoundMemory(inp: Inputs, tm: seq<TmEntry>) {
    && Healthy(tm)
    && (!inp.env.allowTranslate ==> forall x <- tm :: Reusable(x, inp.site.locale) ==> x.textHash in inp.byText)
  }

  ghost predicate SoundKeys(inp: Inputs, entries: seq<Entry>, s: Progress) {
    && NoDuplicates(s.fallback)
    && (inp.env.allowTranslate ==> s.fallback == [])
    && (forall key <- s.fallback :: exists e <- entries :: e.key == key)
    && (forall key <- s.next.Keys :: exists e <- entries :: e.key == key)
  }

  /** What holds of the collections themselves. */
  ghost predicate Sound(inp: Inputs, entries: seq<Entry>, s: Progress) {
    SoundMemory(inp, s.tm) && SoundKeys(inp, entries, s)
  }

  /** What the loop may assume of its inputs. */
  ghost predicate GoodInputs(inp: Inputs, loaded: seq<TmEntry>, entries: seq<Entry>) {
    && DistinctKeys(entries) && NoCollision(inp.site, inp.env, entries)
    && (forall s :: inp.site.sha256(s) != "")
    && Healthy(loaded) && inp.byText == ByTextHash(loaded, inp.site.locale)
  }

  /** A step that concerns one key leaves everything about the others alone. */
  ghost predicate Concerns(inp: Inputs, s: Progress, t: Progress, e: Entry) {
    && (forall key :: key != e.key ==> (key in s.next <==> key in t.next))
    && (forall key :: key != e.key && key in s.next ==> s.next[key] == t.next[key])
    && (forall key :: key != e.key ==> (key in s.fallback <==> key in t.fallback))
    && (forall k :: k != Key(inp, e) ==> GetTm(s.tm, k) == GetTm(t.tm, k))
    && s.pending <= t.pending
  }

  lemma OthersStay(inp: Inputs, loaded: seq<TmEntry>, s: Progress, t: Progress, e: Entry, other: Entry)
    requires Concerns(inp, s, t, e) && other.key != e.key && Key(inp, other) != Key(inp, e)
    ensures Untouched(inp, loaded, s, other) ==> Untouched(inp, loaded, t, other)
    ensures Decided(inp, loaded, s, other) ==> Decided(inp, loaded, t, other)
    ensures Finished(inp, loaded, s, other) ==> Finished(inp, loaded, t, other)
  {
    if ItemOf(inp, other) in s.pending {
      var i :| 0 <= i < |s.pending| && s.pending[i] == ItemOf(inp, other);
      assert t.pending[i] == ItemOf(inp, other);
    }
  }

  lemma ScanKeyDecides(inp: Inputs, loaded: seq<TmEntry>, entries: seq<Entry>, s: Progress, e: Entry)
    requires GoodInputs(inp, loaded, entries) && Untouched(inp, loaded, s, e) && e in entries
    ensures Concerns(inp, s, ScanKey(inp, s, e), e)
    ensures Decided(inp, loaded, ScanKey(inp, s, e), e)
  {
    var textHash := HashText(inp.site, e.text);
    ByTextHashMeans(loaded, inp.site.locale, textHash);
    if textHash in inp.byText {
      var copy := inp.byText[textHash].(cacheKey := Key(inp, e), segmentId := e.key, sourcePath := SourcePath(inp.site));
      forall k
        ensures GetTm(SetTm(s.tm, copy), k) == if k == Key(inp, e) then Some(copy) else GetTm(s.tm, k)
      {
        GetAfterSet(s.tm, copy, k);
      }
    }
  }

  lemma ScanKeyMemory(inp: Inputs, loaded: seq<TmEntry>, entries: seq<Entry>, s: Progress, e: Entry)
    requires GoodInputs(inp, loaded, entries) && SoundMemory(inp, s.tm)
    ensures SoundMemory(inp, ScanKey(inp, s, e).tm)
  {
    var textHash := HashText(inp.site, e.text);
    ByTextHashMeans(loaded, inp.site.locale, textHash);
    if textHash in inp.byText {
      SetKeeps(s.tm, inp.byText[textHash].(cacheKey := Key(inp, e), segmentId := e.key, sourcePath := SourcePath(inp.site)));
    }
  }

  lemma ScanKeyKeys(inp: Inputs, entries: seq<Entry>, s: Progress, e: Entry)
    requires e.key !in s.fallback && e in entries && SoundKeys(inp, entries, s)
    ensures SoundKeys(inp, entries, ScanKey(inp, s, e))
  {
  }

  ghost predicate ScannedTo(inp: Inputs, loaded: seq<TmEntry>, entries: seq<Entry>, i: nat, s: Progress)
    requires i <= |entries|
  {
    && Sound(inp, entries, s)
    && (forall j :: 0 <= j < i ==> Decided(inp, loaded, s, entries[j]))
    && (forall j :: i <= j < |entries| ==> Untouched(inp, loaded, s, entries[j]))
    && (forall item <- s.pending :: exists j :: 0 <= j < i && item == ItemOf(inp, entries[j]) && Decide(inp, loaded, entries[j]) == Ask)
  }

  lemma ScanStep(inp: Inputs, loaded: seq<TmEntry>, entries: seq<Entry>, i: nat, s: Progress)
    requires GoodInputs(inp, loaded, entries) && i < |entries| && ScannedTo(inp, loaded, entries, i, s)
    ensures ScannedTo(inp, loaded, entries, i + 1, ScanKey(inp, s, entries[i]))
  {
    var e, t := entries[i], ScanKey(inp, s, entries[i]);
    ScanKeyDecides(inp, loaded, entries, s, e);
    ScanKeyMemory(inp, loaded, entries, s, e);
    ScanKeyKeys(inp, entries, s, e);
    forall j | 0 <= j < |entries| && j != i
      ensures j < i ==> Decided(inp, loaded, t, entries[j])
      ensures j > i ==> Untouched(inp, loaded, t, entries[j])
    {
      OthersStay(inp, loaded, s, t, e, entries[j]);
    }
    forall item | item in t.pending
      ensures exists j :: 0 <= j < i + 1 && item == ItemOf(inp, entries[j]) && Decide(inp, loaded, entries[j]) == Ask
    {
      if item in s.pending {
        var j :| 0 <= j < i && item == ItemOf(inp, entries[j]) && Decide(inp, loaded, entries[j]) == Ask;
      } else {
        assert item == ItemOf(inp, e);
      }
    }
  }

  lemma {:induction false} ScanDecides(inp: Inputs, loaded: seq<TmEntry>, entries: seq<Entry>, i: nat)
    requires GoodInputs(inp, loaded, entries) && i <= |entries|
    ensures ScannedTo(inp, loaded, entries, i, Scan(inp, loaded, entries[..i]))
  {
    if i == 0 {
      forall x | x in loaded && Reusable(x, inp.site.locale)
        ensures x.textHash in inp.byText
      {
        ByTextHashMeans(loaded, inp.site.locale, x.textHash);
      }
    } else {
      assert entries[..i][..i - 1] == entries[..i - 1];
      ScanDecides(inp, loaded, entries, i - 1);
      ScanStep(inp, loaded, entries, i - 1, Scan(inp, loaded, entries[..i - 1]));
    }
  }

  /** The item stands for a key that was decided to be asked for. */
  ghost predicate ComesFrom(inp: Inputs, loaded: seq<TmEntry>, entries: seq<Entry>, item: Item, j: int) {
    0 <= j < |entries| && item == ItemOf(inp, entries[j]) && Decide(inp, loaded, entries[j]) == Ask
  }

  ghost predicate HasOrigin(inp: Inputs, loaded: seq<TmEntry>, entries: seq<Entry>, item: Item) {
    exists j :: ComesFrom(inp, loaded, entries, item, j)
  }

  /** `e` is done with, or still as the scan left it and among the items from `m` on. */
  ghost predicate DoneOrDue(inp: Inputs, loaded: seq<TmEntry>, items: seq<Item>, m: nat, s: Progress, e: Entry) {
    || Finished(inp, loaded, s, e)
    || (Decide(inp, loaded, e) == Ask && Untouched(inp, loaded, s, e)
        && exists k :: m <= k < |items| && items[k] == ItemOf(inp, e))
  }

  /** The first `m` pending items have been given a value. */
  ghost predicate HandledTo(inp: Inputs, loaded: seq<TmEntry>, entries: seq<Entry>, m: nat, s: Progress) {
    && Sound(inp, entries, s)
    && (forall j :: 0 <= j < |entries| ==> DoneOrDue(inp, loaded, s.pending, m, s, entries[j]))
    && (forall k :: 0 <= k < |s.pending| ==> HasOrigin(inp, loaded, entries, s.pending[k]))
  }

  lemma ScanIsHandled(inp: Inputs, loaded: seq<TmEntry>, entries: seq<Entry>)
    requires GoodInputs(inp, loaded, entries)
    ensures HandledTo(inp, loaded, entries, 0, Scan(inp, loaded, entries))
  {
    assert entries[..|entries|] == entries;
    ScanDecides(inp, loaded, entries, |entries|);
    var s := Scan(inp, loaded, entries);
    forall j | 0 <= j < |entries|
      ensures DoneOrDue(inp, loaded, s.pending, 0, s, entries[j])
    {
      assert Decided(inp, loaded, s, entries[j]);
    }
    forall k | 0 <= k < |s.pending|
      ensures HasOrigin(inp, loaded, entries, s.pending[k])
    {
      assert s.pending[k] in s.pending;
      var j :| 0 <= j < |entries| && s.pending[k] == ItemOf(inp, entries[j]) && Decide(inp, loaded, entries[j]) == Ask;
      assert ComesFrom(inp, loaded, entries, s.pending[k], j);
    }
  }

  /** A step that finishes the `m`-th pending item's key moves everything on by one. */
  lemma HandleOne(inp: Inputs, loaded: seq<TmEntry>, entries: seq<Entry>, m: nat, j0: nat, s: Progress, t: Progress)
    requires GoodInputs(inp, loaded, entries) && HandledTo(inp, loaded, entries, m, s)
    requires m < |s.pending| && j0 < |entries| && s.pending[m] == ItemOf(inp, entries[j0])
    requires t.pending == s.pending && Sound(inp, entries, t)
    requires Concerns(inp, s, t, entries[j0]) && Finished(inp, loaded, t, entries[j0])
    ensures HandledTo(inp, loaded, entries, m + 1, t)
  {
    forall j | 0 <= j < |entries|
      ensures DoneOrDue(inp, loaded, t.pending, m + 1, t, entries[j])
    {
      if j != j0 {
        var e := entries[j];
        OthersStay(inp, loaded, s, t, entries[j0], e);
        if !Finished(inp, loaded, s, e) {
          var k :| m <= k < |s.pending| && s.pending[k] == ItemOf(inp, e);
          assert k != m;
        }
      }
    }
  }

  lemma StoreOneFinishes(
    inp: Inputs, loaded: seq<TmEntry>, entries: seq<Entry>, s: Progress, e: Entry, value: string, stamp: string)
    requires Decide(inp, loaded, e) == Ask && inp.env.allowTranslate && s.fallback == []
    ensures var t := StoreOne(inp, s, ItemOf(inp, e), value, stamp);
      Concerns(inp, s, t, e) && Finished(inp, loaded, t, e)
  {
    var t := StoreOne(inp, s, ItemOf(inp, e), value, stamp);
    var stored := TmEntry(Key(inp, e), inp.env.model, inp.env.provider, e.key, SourcePath(inp.site),
                          SOURCE_LOCALE, e.text, HashText(inp.site, e.text), inp.site.locale, value, stamp);
    assert t.tm == SetTm(s.tm, stored);
    forall k
      ensures GetTm(t.tm, k) == if k == Key(inp, e) then Some(stored) else GetTm(s.tm, k)
    {
      GetAfterSet(s.tm, stored, k);
    }
  }

  lemma StoreOneSound(inp: Inputs, entries: seq<Entry>, s: Progress, e: Entry, value: string, stamp: string)
    requires Sound(inp, entries, s) && e in entries && inp.env.allowTranslate
    requires !IsBlank(value) && Key(inp, e) != ""
    ensures Sound(inp, entries, StoreOne(inp, s, ItemOf(inp, e), value, stamp))
  {
    SetKeeps(s.tm, TmEntry(Key(inp, e), inp.env.model, inp.env.provider, e.key, SourcePath(inp.site),
                           SOURCE_LOCALE, e.text, HashText(inp.site, e.text), inp.site.locale, value, stamp));
  }

  lemma StoreOneHandles(
    inp: Inputs, loaded: seq<TmEntry>, entries: seq<Entry>, m: nat, s: Progress, value: string, stamp: string)
    requires GoodInputs(inp, loaded, entries) && HandledTo(inp, loaded, entries, m, s)
    requires m < |s.pending| && inp.env.allowTranslate && !IsBlank(value)
    ensures HandledTo(inp, loaded, entries, m + 1, StoreOne(inp, s, s.pending[m], value, stamp))
  {
    assert HasOrigin(inp, loaded, entries, s.pending[m]);
    var j :| ComesFrom(inp, loaded, entries, s.pending[m], j);
    StoreOneFinishes(inp, loaded, entries, s, entries[j], value, stamp);
    StoreOneSound(inp, entries, s, entries[j], value, stamp);
    HandleOne(inp, loaded, entries, m, j, s, StoreOne(inp, s, s.pending[m], value, stamp));
  }

  lemma {:induction false} StoreHandles(
    inp: Inputs, loaded: seq<TmEntry>, entries: seq<Entry>, s: Progress, values: seq<string>, clock: nat -> string)
    requires GoodInputs(inp, loaded, entries) && HandledTo(inp, loaded, entries, 0, s)
    requires |values| <= |s.pending| && (values != [] ==> inp.env.allowTranslate)
    requires forall i :: 0 <= i < |values| ==> !IsBlank(values[i])
    ensures HandledTo(inp, loaded, entries, |values|, Store(inp, s, values, clock))
    ensures Store(inp, s, values, clock).pending == s.pending
  {
    if values != [] {
      var m := |values| - 1;
      StoreHandles(inp, loaded, entries, s, values[..m], clock);
      StoreOneHandles(inp, loaded, entries, m, Store(inp, s, values[..m], clock), values[m], clock(m));
    }
  }

  lemma FallBackOneFinishes(
    inp: Inputs, loaded: seq<TmEntry>, entries: seq<Entry>, s: Progress, e: Entry, force: bool)
    requires GoodInputs(inp, loaded, entries) && e in entries && Sound(inp, entries, s)
    requires Decide(inp, loaded, e) == Ask && !inp.env.allowTranslate
    requires Untouched(inp, loaded, s, e) || Finished(inp, loaded, s, e)
    ensures var t := FallBackOne(inp, force, s, ItemOf(inp, e));
      && Concerns(inp, s, t, e) && Finished(inp, loaded, t, e) && Sound(inp, entries, t)
      && t == FallBackOne(inp, !force, s, ItemOf(inp, e))
  {
  }

  lemma FallBackNextHandles(
    inp: Inputs, loaded: seq<TmEntry>, entries: seq<Entry>, s: Progress, m: nat, force: bool)
    requires GoodInputs(inp, loaded, entries) && HandledTo(inp, loaded, entries, m, s)
    requires !inp.env.allowTranslate && m < |s.pending|
    ensures var t := FallBackOne(inp, force, s, s.pending[m]);
      && HandledTo(inp, loaded, entries, m + 1, t) && t.pending == s.pending
      && t == FallBackOne(inp, !force, s, s.pending[m])
  {
    assert HasOrigin(inp, loaded, entries, s.pending[m]);
    var j :| ComesFrom(inp, loaded, entries, s.pending[m], j);
    assert DoneOrDue(inp, loaded, s.pending, m, s, entries[j]);
    FallBackOneFinishes(inp, loaded, entries, s, entries[j], force);
    HandleOne(inp, loaded, entries, m, j, s, FallBackOne(inp, force, s, s.pending[m]));
  }

  lemma FallBackNext(inp: Inputs, force: bool, s: Progress, items: seq<Item>, m: nat)
    requires m < |items|
    ensures FallBack(inp, force, s, items[..m + 1]) == FallBackOne(inp, force, FallBack(inp, force, s, items[..m]), items[m])
  {
    assert items[..m + 1][..m] == items[..m];
  }

  /** The first `m` pending items have fallen back, alike with and without `--force`. */
  ghost predicate FellBackTo(
    inp: Inputs, loaded: seq<TmEntry>, entries: seq<Entry>, s: Progress, m: nat, force: bool)
    requires m <= |s.pending|
  {
    var t := FallBack(inp, force, s, s.pending[..m]);
    HandledTo(inp, loaded, entries, m, t) && t.pending == s.pending && t == FallBack(inp, !force, s, s.pending[..m])
  }

  lemma FallBackStep(inp: Inputs, loaded: seq<TmEntry>, entries: seq<Entry>, s: Progress, m: nat, force: bool)
    requires GoodInputs(inp, loaded, entries) && !inp.env.allowTranslate
    requires m < |s.pending| && FellBackTo(inp, loaded, entries, s, m, force)
    ensures FellBackTo(inp, loaded, entries, s, m + 1, force)
  {
    FallBackNextHandles(inp, loaded, entries, FallBack(inp, force, s, s.pending[..m]), m, force);
    FallBackNext(inp, force, s, s.pending, m);
    FallBackNext(inp, !force, s, s.pending, m);
  }

  lemma {:induction false} FallBackHandles(
    inp: Inputs, loaded: seq<TmEntry>, entries: seq<Entry>, s: Progress, m: nat, force: bool)
    requires GoodInputs(inp, loaded, entries) && HandledTo(inp, loaded, entries, 0, s)
    requires !inp.env.allowTranslate && m <= |s.pending|
    ensures FellBackTo(inp, loaded, entries, s, m, force)
  {
    if m > 0 {
      FallBackHandles(inp, loaded, entries, s, m - 1, force);
      FallBackStep(inp, loaded, entries, s, m - 1, force);
    }
  }

  lemma {:induction false} FallBackIdle(inp: Inputs, force: bool, s: Progress, items: seq<Item>)
    requires forall item <- items :: item.key in s.next
    ensures FallBack(inp, force, s, items) == s
  {
    if items != [] {
      FallBackIdle(inp, force, s, items[..|items| - 1]);
      assert items[|items| - 1] in items;
    }
  }

  lemma {:induction false} FallBackKeepsMemory(inp: Inputs, force: bool, s: Progress, items: seq<Item>)
    ensures FallBack(inp, force, s, items).tm == s.tm
  {
    if items != [] {
      FallBackKeepsMemory(inp, force, s, items[..|items| - 1]);
    }
  }

  lemma AllHandled(inp: Inputs, loaded: seq<TmEntry>, entries: seq<Entry>, s: Progress, e: Entry)
    requires HandledTo(inp, loaded, entries, |s.pending|, s) && e in entries
    ensures Finished(inp, loaded, s, e)
  {
    var j :| 0 <= j < |entries| && entries[j] == e;
    assert DoneOrDue(inp, loaded, s.pending, |s.pending|, s, entries[j]);
  }

  /** What a run starts from. */
  ghost predicate GoodRun(site: Site, env: Env, source: Source) {
    && DistinctKeys(source.entries) && NoCollision(site, env, source.entries)
    && (forall s :: site.sha256(s) != "")
  }

  lemma RunIsGood(site: Site, env: Env, source: Source, disk: Disk)
    requires GoodRun(site, env, source)
    ensures GoodInputs(InputsOf(site, env, disk), LoadedTm(disk), source.entries)
  {
    LoadIsHealthy(disk.tm.Content().GetOr([]));
  }

  lemma ResolveHandles(
    site: Site, env: Env, force: bool, source: Source, disk: Disk, values: seq<string>, clock: nat -> string)
    requires GoodRun(site, env, source) && Answers(site, env, source, disk, values)
    ensures var inp, scan := InputsOf(site, env, disk), FirstPass(site, env, source, disk);
      var r := FallBack(inp, force, Store(inp, scan, values, clock), scan.pending);
      && HandledTo(inp, LoadedTm(disk), source.entries, |r.pending|, r)
      && r == FallBack(inp, !force, Store(inp, scan, values, clock), scan.pending)
  {
    var inp, loaded := InputsOf(site, env, disk), LoadedTm(disk);
    var scan := FirstPass(site, env, source, disk);
    RunIsGood(site, env, source, disk);
    ScanIsHandled(inp, loaded, source.entries);
    if env.allowTranslate {
      StoreHandles(inp, loaded, source.entries, scan, values, clock);
      var stored := Store(inp, scan, values, clock);
      HandledKeysAreSet(inp, loaded, source.entries, stored);
      FallBackIdle(inp, force, stored, scan.pending);
      FallBackIdle(inp, !force, stored, scan.pending);
    } else {
      assert scan.pending[..|scan.pending|] == scan.pending;
      FallBackHandles(inp, loaded, source.entries, scan, |scan.pending|, force);
    }
  }

  lemma HandledKeysAreSet(inp: Inputs, loaded: seq<TmEntry>, entries: seq<Entry>, s: Progress)
    requires HandledTo(inp, loaded, entries, |s.pending|, s)
    ensures forall item <- s.pending :: item.key in s.next
  {
    forall item | item in s.pending
      ensures item.key in s.next
    {
      var k :| 0 <= k < |s.pending| && s.pending[k] == item;
      assert HasOrigin(inp, loaded, entries, s.pending[k]);
      var j :| ComesFrom(inp, loaded, entries, s.pending[k], j);
      AllHandled(inp, loaded, entries, s, entries[j]);
    }
  }

  /** A run that gets all its answers finishes every key as decided, keeps its
      collections sound, and would do the same with `--force` and without. */
  lemma RunFinishes(
    site: Site, env: Env, mode: Mode, source: Source, disk: Disk, values: seq<string>, clock: nat -> string)
    requires GoodRun(site, env, source) && Answers(site, env, source, disk, values)
    ensures var inp := InputsOf(site, env, disk);
      var r := Resolve(site, env, mode, source, disk, values, clock);
      && Sound(inp, source.entries, r)
      && (forall e <- source.entries :: Finished(inp, LoadedTm(disk), r, e))
      && r == Resolve(site, env, mode.(force := !mode.force), source, disk, values, clock)
  {
    var inp, loaded := InputsOf(site, env, disk), LoadedTm(disk);
    ResolveHandles(site, env, mode.force, source, disk, values, clock);
    var r := Resolve(site, env, mode, source, disk, values, clock);
    forall e | e in source.entries
      ensures Finished(inp, loaded, r, e)
    {
      AllHandled(inp, loaded, source.entries, r, e);
    }
  }

  // ----- What a run writes -----

  lemma {:induction false} DistinctKeeps(keys: seq<string>)
    ensures NoDuplicates(Distinct(keys)) && forall key :: key in Distinct(keys) <==> key in keys
  {
    if keys != [] {
      DistinctKeeps(keys[..|keys| - 1]);
      assert keys == keys[..|keys| - 1] + [keys[|keys| - 1]];
    }
  }

  lemma {:induction false} DistinctIsIdentity(keys: seq<string>)
    requires NoDuplicates(keys)
    ensures Distinct(keys) == keys
  {
    if keys != [] {
      DistinctIsIdentity(keys[..|keys| - 1]);
      assert keys == keys[..|keys| - 1] + [keys[|keys| - 1]];
    }
  }

  lemma SortedFallbackMembers(site: Site, keys: seq<string>)
    ensures forall key :: key in Sort(Distinct(keys), site.localeLe) <==> key in keys
    ensures NoDuplicates(Sort(Distinct(keys), site.localeLe))
  {
    DistinctKeeps(keys);
    SortKeepsMembers(Distinct(keys), site.localeLe);
    SortKeepsDistinct(Distinct(keys), site.localeLe);
  }

  /** Every source key has a value, no other key has one, and the fallback keys are
      distinct source keys. */
  ghost predicate Complete(entries: seq<Entry>, r: Progress) {
    && (forall key :: key in r.next <==> exists e <- entries :: e.key == key)
    && NoDuplicates(r.fallback)
    && (forall key <- r.fallback :: exists e <- entries :: e.key == key)
  }

  /** The files of a workspace hold exactly the resolution `r`. */
  ghost predicate Holds(site: Site, source: Source, disk: Disk, r: Progress) {
    && disk.locale == Canonical(Rebuild(Assigned(source.entries, r.next)))
    && disk.meta.Canonical?
    && (var meta := disk.meta.value;
        meta == Meta(Sort(Distinct(r.fallback), site.localeLe), meta.generatedAt, site.locale, meta.model, meta.provider,
                     source.hash, |source.entries|, |source.entries| - |meta.fallbackKeys|, WORKFLOW))
    && disk.glossary.Canonical? && disk.glossary.value != []
    && (disk.tm == Canonical(RenderTm(r.tm, site)) || (disk.tm.Absent? && RenderTm(r.tm, site) == []))
  }

  lemma RunIsComplete(
    site: Site, env: Env, mode: Mode, source: Source, disk: Disk, values: seq<string>, clock: nat -> string)
    requires GoodRun(site, env, source) && Answers(site, env, source, disk, values)
    ensures var r := Resolve(site, env, mode, source, disk, values, clock);
      && Complete(source.entries, r) && Healthy(r.tm) && |Distinct(r.fallback)| == |r.fallback|
      && (env.allowTranslate ==> r.fallback == [])
  {
    RunFinishes(site, env, mode, source, disk, values, clock);
    var r := Resolve(site, env, mode, source, disk, values, clock);
    DistinctIsIdentity(r.fallback);
    forall e | e in source.entries
      ensures e.key in r.next
    {
      assert Finished(InputsOf(site, env, disk), LoadedTm(disk), r, e);
    }
  }

  lemma PublishHolds(site: Site, env: Env, mode: Mode, source: Source, disk: Disk, r: Progress, stamp: string)
    requires mode.write && !mode.checkOnly
    ensures var after := Publish(site, env, mode, source, disk, r, stamp).1;
      && Holds(site, source, after, r)
      && (env.allowTranslate ==> after.meta.value.provider == env.provider && after.meta.value.model == env.model)
  {
    var expected := Expected(site, env, source, disk, r, stamp);
    var after := Publish(site, env, mode, source, disk, r, stamp).1;
    assert after.locale == expected.locale && after.meta == expected.meta && after.glossary == expected.glossary;
    assert after.tm == expected.tm || (after.tm.Absent? && expected.tm.value == []);
  }

  /** After a run that may write, the files hold its resolution. */
  lemma RunHolds(
    site: Site, env: Env, mode: Mode, source: Source, disk: Disk, values: seq<string>, clock: nat -> string)
    requires GoodRun(site, env, source) && Answers(site, env, source, disk, values)
    requires mode.write && !mode.checkOnly
    requires Sync(site, env, mode, source, disk, values, clock).Some?
    ensures var after := Sync(site, env, mode, source, disk, values, clock).value.1;
      && Holds(site, source, after, Resolve(site, env, mode, source, disk, values, clock))
      && (env.allowTranslate ==> after.meta.value.provider == env.provider && after.meta.value.model == env.model)
  {
    PublishHolds(site, env, mode, source, disk, Resolve(site, env, mode, source, disk, values, clock), clock(|values|));
  }

  // ----- A later run -----

  /** Nothing that a later run would look at has changed for this key: a cached text
      is the one in place, and a key that fell back would fall back again. */
  ghost predicate StillValid(site: Site, env: Env, r: Progress, e: Entry)
    requires e.key in r.next
  {
    var cached := GetTm(r.tm, KeyOf(site, env, e));
    && (cached.Some? ==> cached.value.translated == r.next[e.key])
    && (e.key in r.fallback ==>
          !env.allowTranslate && (cached.None? ==> HashText(site, e.text) !in ByTextHash(r.tm, site.locale)))
  }

  ghost predicate AllStillValid(site: Site, env: Env, entries: seq<Entry>, r: Progress)
    requires Complete(entries, r)
  {
    forall e <- entries :: StillValid(site, env, r, e)
  }

  /** What the later run loads. */
  lemma LaterInputs(site: Site, env: Env, source: Source, disk: Disk, r: Progress)
    requires TotalPreorder(site.localeLe) && Addressable(source.entries) && DistinctKeys(source.entries)
    requires Holds(site, source, disk, r) && Complete(source.entries, r) && Healthy(r.tm)
    ensures var inp := InputsOf(site, env, disk);
      && LoadedTm(disk) == RenderTm(r.tm, site) && RenderTm(LoadedTm(disk), site) == LoadedTm(disk)
      && (forall k :: GetTm(LoadedTm(disk), k) == GetTm(r.tm, k))
      && (forall h :: h in inp.byText <==> h in ByTextHash(r.tm, site.locale))
      && (forall key :: key in inp.previousFallback <==> key in r.fallback)
      && (forall e <- source.entries :: Lookup(inp.existing, e.key) == Some(r.next[e.key]))
  {
    RenderRoundTrip(site, r.tm);
    SortedFallbackMembers(site, r.fallback);
    assert LoadTm([]) == [];
    forall h
      ensures h in ByTextHash(LoadedTm(disk), site.locale) <==> h in ByTextHash(r.tm, site.locale)
    {
      ByTextHashMeans(LoadedTm(disk), site.locale, h);
      ByTextHashMeans(r.tm, site.locale, h);
    }
    var flat := Assigned(source.entries, r.next);
    forall e | e in source.entries
      ensures Lookup(Flat(Rebuild(flat)), e.key) == Some(r.next[e.key])
    {
      var i :| 0 <= i < |source.entries| && source.entries[i] == e;
      AssignedKeys(source.entries, r.next);
      RebuiltKeepsEntries(flat, i);
    }
  }

  lemma AssignedKeys(entries: seq<Entry>, next: map<string, string>)
    requires Addressable(entries)
    ensures Addressable(Assigned(entries, next))
  {
  }

  /** The values and fallback keys of the first entries, taken over from `r`. */
  function NextOn(entries: seq<Entry>, r: Progress): map<string, string> {
    if entries == [] then map[]
    else
      var key := entries[|entries| - 1].key;
      NextOn(entries[..|entries| - 1], r)[key := if key in r.next then r.next[key] else ""]
  }

  /** The source keys that are among `marked`, in source order. */
  function FallbackOn(entries: seq<Entry>, marked: seq<string>): seq<string> {
    if entries == [] then []
    else
      var key := entries[|entries| - 1].key;
      FallbackOn(entries[..|entries| - 1], marked) + (if key in marked then [key] else [])
  }

  function SourceKeys(entries: seq<Entry>): seq<string> {
    seq(|entries|, i requires 0 <= i < |entries| => entries[i].key)
  }

  lemma {:induction false} NextOnMeans(entries: seq<Entry>, r: Progress)
    requires forall e <- entries :: e.key in r.next
    ensures forall e <- entries :: e.key in NextOn(entries, r) && NextOn(entries, r)[e.key] == r.next[e.key]
  {
    if entries != [] {
      assert forall e <- entries[..|entries| - 1] :: e in entries;
      NextOnMeans(entries[..|entries| - 1], r);
      assert entries == entries[..|entries| - 1] + [entries[|entries| - 1]];
    }
  }

  lemma {:induction false} FallbackOnMeans(entries: seq<Entry>, marked: seq<string>)
    requires DistinctKeys(entries)
    ensures NoDuplicates(FallbackOn(entries, marked))
    ensures forall key :: key in FallbackOn(entries, marked) <==> key in marked && exists e <- entries :: e.key == key
  {
    if entries != [] {
      var earlier, last := entries[..|entries| - 1], entries[|entries| - 1];
      FallbackOnMeans(earlier, marked);
      assert entries == earlier + [last];
      assert forall e <- earlier :: e.key != last.key;
    }
  }

  lemma BeforeLast<T>(s: seq<T>, x: T, y: T)
    requires s != []
    ensures var front, last := s[..|s| - 1], s[|s| - 1];
      Before(s, x, y) <==> Before(front, x, y) || (x in front && last == y)
  {
    var front, last := s[..|s| - 1], s[|s| - 1];
    if Before(s, x, y) {
      var i, j :| 0 <= i < j < |s| && s[i] == x && s[j] == y;
      assert front[i] == x;
      assert j < |front| ==> front[j] == y;
    }
    if Before(front, x, y) {
      var i, j :| 0 <= i < j < |front| && front[i] == x && front[j] == y;
      assert s[i] == x && s[j] == y;
    }
    if x in front && last == y {
      var i :| 0 <= i < |front| && front[i] == x;
      assert s[i] == x && s[|s| - 1] == y;
    }
  }

  /** Marked keys stand in source order. */
  lemma {:induction false} FallbackOnKeepsOrder(entries: seq<Entry>, marked: seq<string>, x: string, y: string)
    requires DistinctKeys(entries) && x in marked && y in marked
    ensures Before(FallbackOn(entries, marked), x, y) <==> Before(SourceKeys(entries), x, y)
  {
    if entries != [] {
      var earlier, last := entries[..|entries| - 1], entries[|entries| - 1];
      var keys, picked := SourceKeys(entries), FallbackOn(entries, marked);
      FallbackOnKeepsOrder(earlier, marked, x, y);
      FallbackOnMeans(earlier, marked);
      assert keys[..|keys| - 1] == SourceKeys(earlier);
      BeforeLast(keys, x, y);
      assert x in SourceKeys(earlier) <==> exists e <- earlier :: e.key == x by {
        KeyIsListed(earlier, x);
      }
      if last.key in marked {
        assert picked[..|picked| - 1] == FallbackOn(earlier, marked);
        BeforeLast(picked, x, y);
      } else {
        assert picked == FallbackOn(earlier, marked);
      }
    }
  }

  lemma KeyIsListed(entries: seq<Entry>, key: string)
    ensures key in SourceKeys(entries) <==> exists e <- entries :: e.key == key
  {
    if key in SourceKeys(entries) {
      var i :| 0 <= i < |entries| && SourceKeys(entries)[i] == key;
      assert entries[i] in entries;
    }
    if exists e <- entries :: e.key == key {
      var e :| e in entries && e.key == key;
      var i :| 0 <= i < |entries| && entries[i] == e;
      assert SourceKeys(entries)[i] == key;
    }
  }

  /** The run will find `r`'s value for this key, and its fallback mark. */
  ghost predicate TakesOver(inp: Inputs, loaded: seq<TmEntry>, r: Progress, e: Entry) {
    var cached, fellBack := GetTm(loaded, Key(inp, e)), e.key in r.fallback;
    && e.key in r.next && Lookup(inp.existing, e.key) == Some(r.next[e.key])
    && (e.key in inp.previousFallback <==> fellBack)
    && (cached.Some? ==> cached.value.translated == r.next[e.key])
    && (fellBack ==> !inp.env.allowTranslate && (cached.None? ==> HashText(inp.site, e.text) !in inp.byText))
  }

  lemma TakenOver(inp: Inputs, s: Progress, r: Progress, e: Entry)
    requires TakesOver(inp, s.tm, r, e)
    ensures ScanKey(inp, s, e) == s.(next := s.next[e.key := r.next[e.key]],
                                     fallback := s.fallback + (if e.key in r.fallback then [e.key] else []))
  {
  }

  /** Such a run takes every value over and asks for none. */
  lemma {:induction false} ValidScan(inp: Inputs, loaded: seq<TmEntry>, entries: seq<Entry>, r: Progress)
    requires forall e <- entries :: TakesOver(inp, loaded, r, e)
    ensures Scan(inp, loaded, entries) == Progress(NextOn(entries, r), loaded, [], FallbackOn(entries, r.fallback))
  {
    if entries != [] {
      var earlier, e := entries[..|entries| - 1], entries[|entries| - 1];
      assert forall x <- earlier :: x in entries;
      ValidScan(inp, loaded, earlier, r);
      assert e in entries;
      TakenOver(inp, Scan(inp, loaded, earlier), r, e);
    }
  }

  lemma ValidIsTakenOver(site: Site, env: Env, source: Source, disk: Disk, r: Progress, e: Entry)
    requires UpToDate(site, source, disk, r) && AllStillValid(site, env, source.entries, r) && e in source.entries
    ensures TakesOver(InputsOf(site, env, disk), LoadedTm(disk), r, e)
  {
    LaterInputs(site, env, source, disk, r);
    assert StillValid(site, env, r, e);
  }

  /** The recorded fallback keys that collate equal are in source order. */
  ghost predicate TiesInOrder(site: Site, source: Source, disk: Disk)
    requires disk.meta.Canonical?
  {
    TiesAsIn(SourceKeys(source.entries), disk.meta.value.fallbackKeys, site.localeLe)
  }

  /** Every key stays as it is, and a configured provider is the recorded one. */
  ghost predicate StandsFor(site: Site, env: Env, source: Source, disk: Disk, r: Progress)
    requires Complete(source.entries, r) && disk.meta.Canonical?
  {
    && AllStillValid(site, env, source.entries, r)
    && (env.allowTranslate ==> disk.meta.value.provider == env.provider && disk.meta.value.model == env.model)
  }

  ghost predicate CleanFor(site: Site, env: Env, source: Source, disk: Disk, r: Progress)
    requires Complete(source.entries, r) && disk.meta.Canonical?
  {
    StandsFor(site, env, source, disk, r) && TiesInOrder(site, source, disk)
  }

  /** What is known of files that a run has brought up to date. */
  ghost predicate UpToDate(site: Site, source: Source, disk: Disk, r: Progress) {
    && TotalPreorder(site.localeLe) && DistinctKeys(source.entries) && Addressable(source.entries)
    && Holds(site, source, disk, r) && Complete(source.entries, r) && Healthy(r.tm)
    && PlaceholdersAgree(site, source.entries, r.next)
  }

  lemma ValidResolve(site: Site, env: Env, source: Source, disk: Disk, r: Progress)
    requires UpToDate(site, source, disk, r) && AllStillValid(site, env, source.entries, r)
    ensures FirstPass(site, env, source, disk)
         == Progress(NextOn(source.entries, r), LoadedTm(disk), [], FallbackOn(source.entries, r.fallback))
    ensures forall e <- source.entries :: e.key in NextOn(source.entries, r) && NextOn(source.entries, r)[e.key] == r.next[e.key]
  {
    forall e | e in source.entries
      ensures TakesOver(InputsOf(site, env, disk), LoadedTm(disk), r, e)
    {
      ValidIsTakenOver(site, env, source, disk, r, e);
    }
    ValidScan(InputsOf(site, env, disk), LoadedTm(disk), source.entries, r);
    NextOnMeans(source.entries, r);
  }

  /** Collected in source order, the fallback keys are sorted as they are recorded exactly
      when recorded keys that collate equal are in source order. */
  lemma RecordStands(site: Site, entries: seq<Entry>, fallback: seq<string>)
    requires TotalPreorder(site.localeLe) && DistinctKeys(entries) && NoDuplicates(fallback)
    requires forall key <- fallback :: exists e <- entries :: e.key == key
    ensures var recorded := Sort(Distinct(fallback), site.localeLe);
      recorded == Sort(Distinct(FallbackOn(entries, fallback)), site.localeLe) <==>
        TiesAsIn(SourceKeys(entries), recorded, site.localeLe)
  {
    var recorded, inOrder := Sort(Distinct(fallback), site.localeLe), FallbackOn(entries, fallback);
    FallbackOnMeans(entries, fallback);
    DistinctIsIdentity(inOrder);
    SortedFallbackMembers(site, fallback);
    DistinctKeeps(fallback);
    SortCorrect(Distinct(fallback), site.localeLe);
    SortIsTheStableOne(inOrder, recorded, site.localeLe);
    SameTies(entries, fallback, recorded, site.localeLe);
  }

  lemma SameTies(entries: seq<Entry>, marked: seq<string>, recorded: seq<string>, le: (string, string) -> bool)
    requires DistinctKeys(entries) && forall key <- recorded :: key in marked
    ensures TiesAsIn(FallbackOn(entries, marked), recorded, le) <==> TiesAsIn(SourceKeys(entries), recorded, le)
  {
    forall i, j | 0 <= i < j < |recorded|
      ensures Before(FallbackOn(entries, marked), recorded[i], recorded[j]) <==> Before(SourceKeys(entries), recorded[i], recorded[j])
    {
      assert recorded[i] in recorded && recorded[j] in recorded;
      FallbackOnKeepsOrder(entries, marked, recorded[i], recorded[j]);
    }
  }

  /** Unchanged metadata keeps its time stamp. */
  lemma MetaIsReused(site: Site, env: Env, source: Source, disk: Disk, r: Progress, fallback: seq<string>, stamp: string)
    requires Holds(site, source, disk, r)
    requires Sort(Distinct(fallback), site.localeLe) == Sort(Distinct(r.fallback), site.localeLe)
    requires env.allowTranslate ==> disk.meta.value.provider == env.provider && disk.meta.value.model == env.model
    ensures NextMeta(site, env, source, disk.meta.Content(), fallback, stamp) == disk.meta.value
  {
  }

  lemma SameTextsAgree(site: Site, entries: seq<Entry>, a: map<string, string>, b: map<string, string>)
    requires forall e <- entries :: e.key in a && e.key in b && a[e.key] == b[e.key]
    ensures Assigned(entries, a) == Assigned(entries, b)
    ensures PlaceholdersAgree(site, entries, a) <==> PlaceholdersAgree(site, entries, b)
  {
    forall i | 0 <= i < |entries|
      ensures entries[i].key in a && entries[i].key in b && a[entries[i].key] == b[entries[i].key]
    {
      assert entries[i] in entries;
    }
  }

  lemma RecordedCount(site: Site, fallback: seq<string>)
    requires NoDuplicates(fallback)
    ensures |Sort(Distinct(fallback), site.localeLe)| == |fallback|
  {
    DistinctIsIdentity(fallback);
    SortKeepsLength(fallback, site.localeLe);
  }

  /** Then the run finds every file as it should be. */
  lemma ValidRunIsClean(
    site: Site, env: Env, mode: Mode, source: Source, disk: Disk, r: Progress, values: seq<string>, clock: nat -> string)
    requires UpToDate(site, source, disk, r) && CleanFor(site, env, source, disk, r)
    requires Answers(site, env, source, disk, values)
    ensures FirstPass(site, env, source, disk).pending == [] && values == []
    ensures Sync(site, env, mode, source, disk, values, clock) == Some((SyncOutcome(false, |r.fallback|, false), disk))
  {
    ValidResolve(site, env, source, disk, r);
    RecordStands(site, source.entries, r.fallback);
    RecordedCount(site, r.fallback);
    var again := Resolve(site, env, mode, source, disk, values, clock);
    assert again == FirstPass(site, env, source, disk);
    SameTextsAgree(site, source.entries, again.next, r.next);
    MetaIsReused(site, env, source, disk, r, again.fallback, clock(0));
    RenderRoundTrip(site, r.tm);
    assert LoadedTm(disk) == RenderTm(r.tm, site) by {
      LaterInputs(site, env, source, disk, r);
    }
    var expected := Expected(site, env, source, disk, again, clock(0));
    assert expected.locale == disk.locale && expected.glossary == disk.glossary && expected.meta == disk.meta;
    assert expected.tm == Canonical(RenderTm(r.tm, site));
  }

  /** A run that finds its files unchanged has resolved every key as they say. */
  lemma CleanRunAgrees(
    site: Site, env: Env, mode: Mode, source: Source, disk: Disk, r: Progress, values: seq<string>, clock: nat -> string)
    requires UpToDate(site, source, disk, r) && Answers(site, env, source, disk, values)
    requires var later := Sync(site, env, mode, source, disk, values, clock); later.Some? && !later.value.0.changed
    ensures var again := Resolve(site, env, mode, source, disk, values, clock);
      && (forall e <- source.entries :: e.key in again.next ==> again.next[e.key] == r.next[e.key])
      && (forall key :: key in again.fallback <==> key in r.fallback)
    ensures env.allowTranslate ==> disk.meta.value.provider == env.provider && disk.meta.value.model == env.model
  {
    var again := Resolve(site, env, mode, source, disk, values, clock);
    var expected := Expected(site, env, source, disk, again, clock(|values|));
    assert !Drifted(disk, expected);
    assert disk.locale == expected.locale && disk.meta == expected.meta;
    SortedFallbackMembers(site, again.fallback);
    SortedFallbackMembers(site, r.fallback);
    var a, b := Assigned(source.entries, again.next), Assigned(source.entries, r.next);
    assert Rebuild(a) == Rebuild(b);
    forall e | e in source.entries && e.key in again.next
      ensures again.next[e.key] == r.next[e.key]
    {
      var i :| 0 <= i < |source.entries| && source.entries[i] == e;
      AssignedKeys(source.entries, again.next);
      AssignedKeys(source.entries, r.next);
      RebuiltKeepsEntries(a, i);
      RebuiltKeepsEntries(b, i);
    }
  }

  lemma CleanKeyIsValid(
    site: Site, env: Env, source: Source, disk: Disk, r: Progress, again: Progress, e: Entry)
    requires UpToDate(site, source, disk, r) && e in source.entries
    requires var inp := InputsOf(site, env, disk);
      Finished(inp, LoadedTm(disk), again, e) && (env.allowTranslate ==> again.fallback == [])
    requires again.next[e.key] == r.next[e.key]
    requires e.key in again.fallback <==> e.key in r.fallback
    ensures StillValid(site, env, r, e)
  {
    LaterInputs(site, env, source, disk, r);
  }

  /** A run that finds its files unchanged has found ties in source order. */
  lemma CleanRunKeepsTies(
    site: Site, env: Env, mode: Mode, source: Source, disk: Disk, r: Progress, values: seq<string>, clock: nat -> string)
    requires UpToDate(site, source, disk, r) && AllStillValid(site, env, source.entries, r)
    requires Answers(site, env, source, disk, values)
    requires var later := Sync(site, env, mode, source, disk, values, clock); later.Some? && !later.value.0.changed
    ensures TiesInOrder(site, source, disk)
  {
    ValidResolve(site, env, source, disk, r);
    RecordStands(site, source.entries, r.fallback);
    var again := Resolve(site, env, mode, source, disk, values, clock);
    var expected := Expected(site, env, source, disk, again, clock(|values|));
    assert !Drifted(disk, expected);
    assert disk.meta == expected.meta;
  }

  /** When is a later run clean? Exactly when each cached text it would use is the
      one in place, no fallback key could now be filled, a configured provider is
      the one the metadata names, and recorded keys that collate equal are in source
      order. This holds for any settings of the later run. */
  lemma LaterRunIsCleanIff(
    site: Site, env: Env, mode: Mode, source: Source, disk: Disk, r: Progress, values: seq<string>, clock: nat -> string)
    requires UpToDate(site, source, disk, r) && GoodRun(site, env, source)
    requires Answers(site, env, source, disk, values)
    ensures var later := Sync(site, env, mode, source, disk, values, clock);
      (later.Some? && !later.value.0.changed) <==> CleanFor(site, env, source, disk, r)
  {
    var later := Sync(site, env, mode, source, disk, values, clock);
    if CleanFor(site, env, source, disk, r) {
      ValidRunIsClean(site, env, mode, source, disk, r, values, clock);
    }
    if later.Some? && !later.value.0.changed {
      var again := Resolve(site, env, mode, source, disk, values, clock);
      CleanRunAgrees(site, env, mode, source, disk, r, values, clock);
      RunFinishes(site, env, mode, source, disk, values, clock);
      forall e | e in source.entries
        ensures StillValid(site, env, r, e)
      {
        assert Finished(InputsOf(site, env, disk), LoadedTm(disk), again, e);
        CleanKeyIsValid(site, env, source, disk, r, again, e);
      }
      CleanRunKeepsTies(site, env, mode, source, disk, r, values, clock);
    }
  }

  lemma FinishedIsValid(inp: Inputs, loaded: seq<TmEntry>, entries: seq<Entry>, r: Progress, e: Entry)
    requires GoodInputs(inp, loaded, entries) && Sound(inp, entries, r)
    requires e in entries && Finished(inp, loaded, r, e)
    ensures StillValid(inp.site, inp.env, r, e)
  {
    ByTextHashMeans(r.tm, inp.site.locale, HashText(inp.site, e.text));
  }

  /** What a run that may write leaves behind is up to date. */
  lemma RunBringsUpToDate(
    site: Site, env: Env, mode: Mode, source: Source, disk: Disk, values: seq<string>, clock: nat -> string)
    requires GoodRun(site, env, source) && TotalPreorder(site.localeLe) && Addressable(source.entries)
    requires Answers(site, env, source, disk, values) && mode.write && !mode.checkOnly
    requires Sync(site, env, mode, source, disk, values, clock).Some?
    ensures var r := Resolve(site, env, mode, source, disk, values, clock);
      var after := Sync(site, env, mode, source, disk, values, clock).value.1;
      UpToDate(site, source, after, r) && StandsFor(site, env, source, after, r)
  {
    RunHolds(site, env, mode, source, disk, values, clock);
    RunIsComplete(site, env, mode, source, disk, values, clock);
    RunFinishes(site, env, mode, source, disk, values, clock);
    RunIsGood(site, env, source, disk);
    var r := Resolve(site, env, mode, source, disk, values, clock);
    forall e | e in source.entries
      ensures StillValid(site, env, r, e)
    {
      FinishedIsValid(InputsOf(site, env, disk), LoadedTm(disk), source.entries, r, e);
    }
  }

  /** Settings under which no two fallback keys can collate equal: with a provider there
      are no fallback keys, and otherwise the collation tells the source keys apart. */
  predicate NoTiedFallback(site: Site, env: Env, source: Source) {
    env.allowTranslate || ToldApart(SourceKeys(source.entries), site.localeLe)
  }

  lemma RunKeepsTies(
    site: Site, env: Env, mode: Mode, source: Source, disk: Disk, values: seq<string>, clock: nat -> string)
    requires GoodRun(site, env, source) && TotalPreorder(site.localeLe) && NoTiedFallback(site, env, source)
    requires Answers(site, env, source, disk, values) && mode.write && !mode.checkOnly
    requires Sync(site, env, mode, source, disk, values, clock).Some?
    ensures var after := Sync(site, env, mode, source, disk, values, clock).value.1;
      after.meta.Canonical? && TiesInOrder(site, source, after)
  {
    RunHolds(site, env, mode, source, disk, values, clock);
    RunIsComplete(site, env, mode, source, disk, values, clock);
    var r := Resolve(site, env, mode, source, disk, values, clock);
    SortedFallbackMembers(site, r.fallback);
    if !env.allowTranslate {
      DistinctKeeps(r.fallback);
      SortCorrect(Distinct(r.fallback), site.localeLe);
      ApartAreNotTied(site, source.entries, Sort(Distinct(r.fallback), site.localeLe));
    }
  }

  lemma ApartAreNotTied(site: Site, entries: seq<Entry>, recorded: seq<string>)
    requires ToldApart(SourceKeys(entries), site.localeLe) && Sorted(recorded, site.localeLe) && NoDuplicates(recorded)
    requires forall key <- recorded :: exists e <- entries :: e.key == key
    ensures TiesAsIn(SourceKeys(entries), recorded, site.localeLe)
  {
    forall i, j | 0 <= i < |recorded| && 0 <= j < |recorded|
                  && site.localeLe(recorded[i], recorded[j]) && site.localeLe(recorded[j], recorded[i])
      ensures recorded[i] == recorded[j]
    {
      assert recorded[i] in recorded && recorded[j] in recorded;
      KeyIsListed(entries, recorded[i]);
      KeyIsListed(entries, recorded[j]);
    }
    NoTies(SourceKeys(entries), recorded, site.localeLe);
  }

  /** After a run that may write, a second run with the same source, provider and model
      asks for nothing, whatever the translator answered; and it finds every file in
      place, keeps the fallback keys and changes nothing exactly when the recorded
      fallback keys that collate equal are in source order. */
  lemma SyncIsAFixpointIff(
    site: Site, env: Env, mode: Mode, source: Source, disk: Disk, values: seq<string>, clock: nat -> string,
    laterMode: Mode, laterValues: seq<string>, laterClock: nat -> string)
    requires GoodRun(site, env, source) && TotalPreorder(site.localeLe) && Addressable(source.entries)
    requires Answers(site, env, source, disk, values) && mode.write && !mode.checkOnly
    requires Sync(site, env, mode, source, disk, values, clock).Some?
    requires var after := Sync(site, env, mode, source, disk, values, clock).value.1;
      Answers(site, env, source, after, laterValues)
    ensures var (outcome, after) := Sync(site, env, mode, source, disk, values, clock).value;
      && FirstPass(site, env, source, after).pending == [] && laterValues == [] && after.meta.Canonical?
      && (Sync(site, env, laterMode, source, after, laterValues, laterClock)
            == Some((SyncOutcome(false, outcome.fallbackCount, false), after)) <==>
          TiesInOrder(site, source, after))
  {
    var r := Resolve(site, env, mode, source, disk, values, clock);
    var after := Sync(site, env, mode, source, disk, values, clock).value.1;
    RunBringsUpToDate(site, env, mode, source, disk, values, clock);
    ValidResolve(site, env, source, after, r);
    LaterRunIsCleanIff(site, env, laterMode, source, after, r, laterValues, laterClock);
    FallbackCountIs(site, env, mode, source, disk, values, clock);
    if TiesInOrder(site, source, after) {
      ValidRunIsClean(site, env, laterMode, source, after, r, laterValues, laterClock);
    }
  }

  /** Syncing is a fixpoint: with a provider, or if the collation tells the source keys
      apart, the second run changes nothing. */
  lemma SyncIsAFixpoint(
    site: Site, env: Env, mode: Mode, source: Source, disk: Disk, values: seq<string>, clock: nat -> string,
    laterMode: Mode, laterValues: seq<string>, laterClock: nat -> string)
    requires GoodRun(site, env, source) && TotalPreorder(site.localeLe) && Addressable(source.entries)
    requires NoTiedFallback(site, env, source)
    requires Answers(site, env, source, disk, values) && mode.write && !mode.checkOnly
    requires Sync(site, env, mode, source, disk, values, clock).Some?
    requires var after := Sync(site, env, mode, source, disk, values, clock).value.1;
      Answers(site, env, source, after, laterValues)
    ensures var (outcome, after) := Sync(site, env, mode, source, disk, values, clock).value;
      && FirstPass(site, env, source, after).pending == [] && laterValues == []
      && Sync(site, env, laterMode, source, after, laterValues, laterClock)
         == Some((SyncOutcome(false, outcome.fallbackCount, false), after))
  {
    RunKeepsTies(site, env, mode, source, disk, values, clock);
    SyncIsAFixpointIff(site, env, mode, source, disk, values, clock, laterMode, laterValues, laterClock);
  }

  /** The reported fallback count is the number of fallback keys. */
  lemma FallbackCountIs(
    site: Site, env: Env, mode: Mode, source: Source, disk: Disk, values: seq<string>, clock: nat -> string)
    requires GoodRun(site, env, source) && Answers(site, env, source, disk, values)
    requires Sync(site, env, mode, source, disk, values, clock).Some?
    ensures Sync(site, env, mode, source, disk, values, clock).value.0.fallbackCount
         == |Resolve(site, env, mode, source, disk, values, clock).fallback|
  {
    RunIsComplete(site, env, mode, source, disk, values, clock);
    RecordedCount(site, Resolve(site, env, mode, source, disk, values, clock).fallback);
  }

  // ----- Keys that collate equal -----

  /** The second run is clean. */
  ghost predicate SettlesAtOnce(site: Site, env: Env, mode: Mode, source: Source, disk: Disk, clock: nat -> string)
    requires !env.allowTranslate
  {
    Sync(site, env, mode, source, disk, [], clock).Some? ==>
      var (outcome, after) := Sync(site, env, mode, source, disk, [], clock).value;
      Sync(site, env, mode, source, after, [], clock) == Some((SyncOutcome(false, outcome.fallbackCount, false), after))
  }

  lemma {:induction false} FallBackAppends(inp: Inputs, force: bool, s: Progress, items: seq<Item>)
    ensures s.fallback <= FallBack(inp, force, s, items).fallback
  {
    if items != [] {
      FallBackAppends(inp, force, s, items[..|items| - 1]);
    }
  }

  /** Files in which only the key of `e` is there, and has fallen back. */
  function OnlyFellBack(site: Site, source: Source, e: Entry): Disk {
    Disk(Canonical(Rebuild([e])),
         Canonical(Meta([e.key], "", site.locale, "", "", source.hash, 1, 0, WORKFLOW)), Absent, Absent)
  }

  lemma OnlyFellBackInputs(site: Site, env: Env, source: Source, e: Entry)
    requires Addressable([e])
    ensures var inp := InputsOf(site, env, OnlyFellBack(site, source, e));
      && inp.byText == map[] && LoadedTm(OnlyFellBack(site, source, e)) == [] && inp.previousFallback == [e.key]
      && forall key :: Lookup(inp.existing, key) == if key == e.key then Some(e.text) else None
  {
    assert LoadTm([]) == [];
    forall key
      ensures Lookup(Flat(Rebuild([e])), key) == if key == e.key then Some(e.text) else None
    {
      RebuiltHasNoOtherKeys([e], key);
      RebuiltKeepsEntries([e], 0);
    }
  }

  /** From there a source key is taken over if it is that of `e`, and asked for otherwise. */
  lemma OnlyFellBackDecides(site: Site, env: Env, source: Source, e: Entry, x: Entry)
    requires DistinctKeys(source.entries) && Addressable([e]) && !env.allowTranslate
    requires e in source.entries && x in source.entries
    ensures var inp := InputsOf(site, env, OnlyFellBack(site, source, e));
      Decide(inp, [], x) == if x.key == e.key then FromExisting(x.text) else Ask
  {
    OnlyFellBackInputs(site, env, source, e);
    var i :| 0 <= i < |source.entries| && source.entries[i] == x;
    var j :| 0 <= j < |source.entries| && source.entries[j] == e;
    assert x.key == e.key ==> i == j;
  }

  /** So the first loop marks `e` alone, */
  lemma OnlyFellBackScan(site: Site, env: Env, source: Source, e: Entry, x: Entry)
    requires GoodRun(site, env, source) && Addressable([e]) && !env.allowTranslate
    requires e in source.entries && x in source.entries
    ensures x.key in FirstPass(site, env, source, OnlyFellBack(site, source, e)).fallback <==> x.key == e.key
  {
    var disk := OnlyFellBack(site, source, e);
    OnlyFellBackInputs(site, env, source, e);
    OnlyFellBackDecides(site, env, source, e, x);
    RunIsGood(site, env, source, disk);
    ScanDecides(InputsOf(site, env, disk), [], source.entries, |source.entries|);
    assert source.entries[..|source.entries|] == source.entries;
    var i :| 0 <= i < |source.entries| && source.entries[i] == x;
    assert Decided(InputsOf(site, env, disk), [], FirstPass(site, env, source, disk), source.entries[i]);
  }

  /** and in the end every source key has its own text and has fallen back. */
  lemma OnlyFellBackRun(site: Site, env: Env, mode: Mode, source: Source, e: Entry, x: Entry, clock: nat -> string)
    requires GoodRun(site, env, source) && Addressable([e]) && !env.allowTranslate
    requires e in source.entries && x in source.entries
    ensures var disk := OnlyFellBack(site, source, e);
      var r := Resolve(site, env, mode, source, disk, [], clock);
      && x.key in r.next && r.next[x.key] == x.text && x.key in r.fallback
      && FirstPass(site, env, source, disk).fallback <= r.fallback
  {
    var disk := OnlyFellBack(site, source, e);
    var inp, scan := InputsOf(site, env, disk), FirstPass(site, env, source, disk);
    OnlyFellBackInputs(site, env, source, e);
    OnlyFellBackDecides(site, env, source, e, x);
    RunFinishes(site, env, mode, source, disk, [], clock);
    FallBackAppends(inp, mode.force, scan, scan.pending);
    assert Finished(inp, [], Resolve(site, env, mode, source, disk, [], clock), x);
  }

  lemma OwnTextsAgree(site: Site, entries: seq<Entry>, next: map<string, string>)
    requires forall e <- entries :: e.key in next && next[e.key] == e.text
    ensures PlaceholdersAgree(site, entries, next)
  {
    forall i | 0 <= i < |entries|
      ensures entries[i].key in next && next[entries[i].key] == entries[i].text
    {
      assert entries[i] in entries;
    }
  }

  lemma EarlierInPrefix<T>(a: seq<T>, s: seq<T>, x: T, y: T)
    requires a <= s && x in a && y !in a && y in s
    ensures Before(s, x, y)
  {
    var i :| 0 <= i < |a| && a[i] == x;
    var j :| 0 <= j < |s| && s[j] == y;
    assert s[i] == x && j >= |a|;
  }

  /** Two source keys that collate equal, the later of which has fallen back before: the
      run records them in the wrong order, and the second run is not clean. */
  lemma TiedKeysDrift(site: Site, env: Env, mode: Mode, source: Source, i: nat, j: nat, clock: nat -> string)
    requires GoodRun(site, env, source) && TotalPreorder(site.localeLe) && Addressable(source.entries)
    requires !env.allowTranslate && mode.write && !mode.checkOnly
    requires i < j < |source.entries| && site.localeLe(source.entries[j].key, source.entries[i].key)
    requires site.localeLe(source.entries[i].key, source.entries[j].key)
    ensures !SettlesAtOnce(site, env, mode, source, OnlyFellBack(site, source, source.entries[j]), clock)
  {
    var e, x := source.entries[j], source.entries[i];
    var disk := OnlyFellBack(site, source, e);
    assert Addressable([e]);
    var r := Resolve(site, env, mode, source, disk, [], clock);
    forall y | y in source.entries
      ensures y.key in r.next && r.next[y.key] == y.text
    {
      OnlyFellBackRun(site, env, mode, source, e, y, clock);
    }
    OnlyFellBackRun(site, env, mode, source, e, x, clock);
    OnlyFellBackScan(site, env, source, e, x);
    OnlyFellBackScan(site, env, source, e, e);
    EarlierInPrefix(FirstPass(site, env, source, disk).fallback, r.fallback, e.key, x.key);
    RunIsComplete(site, env, mode, source, disk, [], clock);
    OwnTextsAgree(site, source.entries, r.next);
    SyncIsAFixpointIff(site, env, mode, source, disk, [], clock, mode, [], clock);
    RunHolds(site, env, mode, source, disk, [], clock);
    TiesAreSwapped(site, source.entries, r.fallback, i, j);
  }

  lemma TiesAreSwapped(site: Site, entries: seq<Entry>, fallback: seq<string>, i: nat, j: nat)
    requires i < j < |entries| && DistinctKeys(entries) && NoDuplicates(fallback)
    requires site.localeLe(entries[j].key, entries[i].key) && site.localeLe(entries[i].key, entries[j].key)
    requires Before(fallback, entries[j].key, entries[i].key)
    ensures !TiesAsIn(SourceKeys(entries), Sort(Distinct(fallback), site.localeLe), site.localeLe)
  {
    var x, e, keys := entries[i].key, entries[j].key, SourceKeys(entries);
    var recorded := Sort(Distinct(fallback), site.localeLe);
    DistinctIsIdentity(fallback);
    SortIsStable(fallback, e, x, site.localeLe);
    var m, n :| 0 <= m < n < |recorded| && recorded[m] == e && recorded[n] == x;
    assert keys[i] == x && keys[j] == e;
    BeforeIsOneWay(keys, x, e);
  }

  /** Without a provider, syncing settles at once from all files exactly when the collation
      tells the source keys apart. */
  lemma SettlesAtOnceIff(site: Site, env: Env, mode: Mode, source: Source, clock: nat -> string)
    requires GoodRun(site, env, source) && TotalPreorder(site.localeLe) && Addressable(source.entries)
    requires !env.allowTranslate && mode.write && !mode.checkOnly
    ensures (forall disk :: SettlesAtOnce(site, env, mode, source, disk, clock))
       <==> ToldApart(SourceKeys(source.entries), site.localeLe)
  {
    var keys := SourceKeys(source.entries);
    if ToldApart(keys, site.localeLe) {
      forall disk
        ensures SettlesAtOnce(site, env, mode, source, disk, clock)
      {
        if Sync(site, env, mode, source, disk, [], clock).Some? {
          SyncIsAFixpoint(site, env, mode, source, disk, [], clock, mode, [], clock);
        }
      }
    } else {
      var i, j :| 0 <= i < |keys| && 0 <= j < |keys| && site.localeLe(keys[i], keys[j]) && site.localeLe(keys[j], keys[i])
                  && keys[i] != keys[j];
      if i < j {
        TiedKeysDrift(site, env, mode, source, i, j, clock);
      } else {
        TiedKeysDrift(site, env, mode, source, j, i, clock);
      }
    }
  }

  /** The second run collects the fallback keys in source order, so it settles what the
      first may not have settled: with any collation, a third run is clean. */
  lemma SecondRunSettles(
    site: Site, env: Env, mode: Mode, source: Source, disk: Disk, values: seq<string>, clock: nat -> string,
    laterMode: Mode, laterClock: nat -> string, lastMode: Mode, lastClock: nat -> string)
    requires GoodRun(site, env, source) && TotalPreorder(site.localeLe) && Addressable(source.entries)
    requires Answers(site, env, source, disk, values) && mode.write && !mode.checkOnly
    requires laterMode.write && !laterMode.checkOnly
    requires Sync(site, env, mode, source, disk, values, clock).Some?
    ensures var after := Sync(site, env, mode, source, disk, values, clock).value.1;
      && Answers(site, env, source, after, []) && Sync(site, env, laterMode, source, after, [], laterClock).Some?
      && var (outcome, settled) := Sync(site, env, laterMode, source, after, [], laterClock).value;
         && Answers(site, env, source, settled, [])
         && Sync(site, env, lastMode, source, settled, [], lastClock)
            == Some((SyncOutcome(false, outcome.fallbackCount, false), settled))
  {
    var r := Resolve(site, env, mode, source, disk, values, clock);
    var after := Sync(site, env, mode, source, disk, values, clock).value.1;
    RunBringsUpToDate(site, env, mode, source, disk, values, clock);
    ValidResolve(site, env, source, after, r);
    var again := Resolve(site, env, laterMode, source, after, [], laterClock);
    assert again == FirstPass(site, env, source, after);
    SameTextsAgree(site, source.entries, again.next, r.next);
    var settled := Sync(site, env, laterMode, source, after, [], laterClock).value.1;
    RunBringsUpToDate(site, env, laterMode, source, after, [], laterClock);
    ValidResolve(site, env, source, settled, again);
    InOrderAreTiedInOrder(site, source.entries, r.fallback);
    SyncIsAFixpointIff(site, env, laterMode, source, after, [], laterClock, lastMode, [], lastClock);
  }

  lemma InOrderAreTiedInOrder(site: Site, entries: seq<Entry>, marked: seq<string>)
    requires TotalPreorder(site.localeLe) && DistinctKeys(entries)
    ensures TiesAsIn(SourceKeys(entries), Sort(Distinct(FallbackOn(entries, marked)), site.localeLe), site.localeLe)
  {
    var inOrder := FallbackOn(entries, marked);
    var recorded := Sort(Distinct(inOrder), site.localeLe);
    FallbackOnMeans(entries, marked);
    DistinctIsIdentity(inOrder);
    SortCorrect(inOrder, site.localeLe);
    SortedFallbackMembers(site, inOrder);
    SortIsTheStableOne(inOrder, recorded, site.localeLe);
    SameTies(entries, marked, recorded, site.localeLe);
  }

  /** `--force` never changes the outcome or the files. */
  lemma ForceChangesNothing(
    site: Site, env: Env, mode: Mode, source: Source, disk: Disk, values: seq<string>, clock: nat -> string)
    requires GoodRun(site, env, source) && Answers(site, env, source, disk, values)
    ensures Sync(site, env, mode, source, disk, values, clock)
         == Sync(site, env, mode.(force := !mode.force), source, disk, values, clock)
  {
    RunFinishes(site, env, mode, source, disk, values, clock);
  }

  // ----- When the assumptions hold -----

  /** SHA-256 as far as it matters here: no collisions, hexadecimal output. */
  ghost predicate HashLike(sha256: string -> string) {
    && (forall x, y :: sha256(x) == sha256(y) ==> x == y)
    && (forall x :: sha256(x) != "" && '|' !in sha256(x))
  }

  lemma LastBar(a: string, x: string, b: string, y: string)
    requires a + "|" + x == b + "|" + y && '|' !in x && '|' !in y
    ensures a == b
  {
    var whole := a + "|" + x;
    assert whole[|a|] == '|' && (b + "|" + y)[|b|] == '|';
    assert whole[..|a|] == a && whole[..|b|] == b;
  }

  lemma CacheKeyNamesItsKey(site: Site, env: Env, a: string, x: string, b: string, y: string)
    requires HashLike(site.sha256) && '|' !in x && '|' !in y
    requires CacheKey(site, env, a, x) == CacheKey(site, env, b, y)
    ensures a == b
  {
    var head := "wf=1|engine=pi|provider=" + env.provider + "|model=" + env.model + "|" + SOURCE_LOCALE + "|" + site.locale + "|";
    assert site.sha256(head + a + "|" + x) == site.sha256(head + b + "|" + y);
    LastBar(head + a, x, head + b, y);
    SameTail(head, a, b);
  }

  lemma SameTail(head: string, a: string, b: string)
    requires head + a == head + b
    ensures a == b
  {
    assert (head + a)[|head|..] == a && (head + b)[|head|..] == b;
  }

  /** A well-formed source map and a collision-free hash are all a good run needs. */
  lemma WellFormedRunIsGood(site: Site, env: Env, sourceHash: string, sourceMap: seq<Field>)
    requires WellFormed(sourceMap) && HashLike(site.sha256)
    ensures GoodRun(site, env, Source(sourceHash, Flat(sourceMap))) && Addressable(Flat(sourceMap))
  {
    WellFormedIsAddressable(sourceMap);
    var entries := Flat(sourceMap);
    forall i, j | 0 <= i < j < |entries|
      ensures KeyOf(site, env, entries[i]) != KeyOf(site, env, entries[j])
    {
      if KeyOf(site, env, entries[i]) == KeyOf(site, env, entries[j]) {
        CacheKeyNamesItsKey(site, env, entries[i].key, HashText(site, entries[i].text),
                            entries[j].key, HashText(site, entries[j].text));
      }
    }
  }
}
