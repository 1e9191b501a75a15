/** Build numbers of the macOS update feed: the floors of a calendar version
    (`scripts/sparkle-build.ts`) and the feed check (`scripts/release-check.ts`). */
module Appcast {
  import opened Options
  import opened Sorting

  // ----- Floors of a version -----

  datatype Suffix = NoSuffix | EndsInNumber(n: nat) | EndsInText
  datatype Version = Calver(year: nat, month: nat, day: nat, suffix: Suffix) | NotCalver
  datatype Floors = Floors(dateKey: nat, legacyFloor: nat, laneFloor: nat, lane: nat)

  predicate IsDated(v: Version) {
    v.Calver? && 1 <= v.month <= 12 && 1 <= v.day <= 31
  }

  function Min(a: int, b: int): int {
    if a <= b then a else b
  }

  function Lane(suffix: Suffix): (lane: nat)
    ensures lane <= 90
  {
    match suffix
    case NoSuffix => 90
    case EndsInNumber(n) => Min(n, 89)
    case EndsInText => 1
  }

  function SparkleBuildFloors(v: Version): (floors: Option<Floors>)
    ensures floors.Some? <==> IsDated(v)
  {
    if !IsDated(v) then None
    else
      var dateKey := v.year * 10000 + v.month * 100 + v.day;
      Some(Floors(dateKey, dateKey * 10, dateKey * 100 + Lane(v.suffix), Lane(v.suffix)))
  }

  function CanonicalSparkleBuild(v: Version): Option<nat> {
    match SparkleBuildFloors(v)
    case Some(floors) => Some(floors.laneFloor)
    case None => None
  }

  /** The order of the calendar. */
  predicate Earlier(a: Version, b: Version)
    requires a.Calver? && b.Calver?
  {
    || a.year < b.year
    || (a.year == b.year && a.month < b.month)
    || (a.year == b.year && a.month == b.month && a.day < b.day)
  }

  predicate SameDay(a: Version, b: Version)
    requires a.Calver? && b.Calver?
  {
    a.year == b.year && a.month == b.month && a.day == b.day
  }

  /** Canonical builds follow the calendar whatever the suffixes, and the lane within a day. */
  lemma CanonicalBuildsFollowTheCalendar(a: Version, b: Version)
    requires IsDated(a) && IsDated(b)
    ensures CanonicalSparkleBuild(a).value < CanonicalSparkleBuild(b).value
       <==> Earlier(a, b) || (SameDay(a, b) && Lane(a.suffix) < Lane(b.suffix))
    ensures SparkleBuildFloors(a).value.dateKey < SparkleBuildFloors(b).value.dateKey <==> Earlier(a, b)
  {
    var x, y := a.year * 100 + a.month, b.year * 100 + b.month;
    assert x < y <==> a.year < b.year || (a.year == b.year && a.month < b.month);
    var p, q := x * 100 + a.day, y * 100 + b.day;
    assert p < q <==> x < y || (x == y && a.day < b.day);
  }

  /** The date and the lane can be read back from a canonical build. */
  lemma CanonicalBuildNamesItsRelease(v: Version)
    requires IsDated(v)
    ensures var build := CanonicalSparkleBuild(v).value;
      && build / 1_000_000 == v.year && build / 10_000 % 100 == v.month && build / 100 % 100 == v.day
      && build % 100 == Lane(v.suffix)
      && Lane(v.suffix) == (match v.suffix case NoSuffix => 90 case EndsInNumber(n) => if n < 89 then n else 89 case EndsInText => 1)
      && SparkleBuildFloors(v).value.legacyFloor == build / 100 * 10
  {
    var build, month := CanonicalSparkleBuild(v).value, v.year * 100 + v.month;
    var day := month * 100 + v.day;
    Digits(build, day, Lane(v.suffix));
    Digits(day, month, v.day);
    Digits(month, v.year, v.month);
    DivideTwice(build);
  }

  /** The last two decimal digits of a number and the rest of it. */
  lemma Digits(n: nat, high: nat, low: nat)
    requires n == high * 100 + low && low < 100
    ensures n / 100 == high && n % 100 == low
  {
  }

  lemma DivideTwice(n: nat)
    ensures n / 100 / 100 == n / 10_000 && n / 100 / 100 / 100 == n / 1_000_000
  {
  }

  /** A release without suffix outranks every other release of its day. */
  lemma PlainReleaseIsLast(a: Version, b: Version)
    requires IsDated(a) && IsDated(b) && SameDay(a, b) && a.suffix != NoSuffix && b.suffix == NoSuffix
    ensures CanonicalSparkleBuild(a).value < CanonicalSparkleBuild(b).value
  {
    CanonicalBuildsFollowTheCalendar(a, b);
  }

  // ----- The feed -----

  datatype BuildText = Numeric(build: nat) | NonNumeric(text: string)
  datatype Item = Item(title: string, shortVersion: Option<Version>, sparkleVersion: Option<BuildText>)
  datatype CalverItem = CalverItem(title: string, sparkleBuild: nat, floors: Floors)

  datatype FeedError =
    | NoItems
    | MissingVersion(title: string)
    | NonNumericVersion(title: string, text: string)
    | BelowFloor(title: string, build: nat, laneFloor: bool, floor: nat)

  const LANE_BUILD_MIN := 1_000_000_000
  const LANE_FLOOR_ADOPTION_DATE_KEY := 20260227

  /** The date, floors and build that the check reads from an item, if it reads them. */
  function AsCalver(item: Item): Option<CalverItem> {
    if item.sparkleVersion.Some? && item.sparkleVersion.value.Numeric? && item.shortVersion.Some?
       && SparkleBuildFloors(item.shortVersion.value).Some?
    then Some(CalverItem(item.title, item.sparkleVersion.value.build, SparkleBuildFloors(item.shortVersion.value).value))
    else None
  }

  /** The results of `pick` that are there, in order. */
  function Collect<A, B>(s: seq<A>, pick: A -> Option<B>): seq<B> {
    if s == [] then []
    else
      var last := pick(s[|s| - 1]);
      Collect(s[..|s| - 1], pick) + if last.Some? then [last.value] else []
  }

  lemma {:induction false} Collected<A, B(!new)>(s: seq<A>, pick: A -> Option<B>)
    ensures forall b :: b in Collect(s, pick) <==> exists i :: 0 <= i < |s| && pick(s[i]) == Some(b)
    ensures Collect(s, pick) == [] <==> forall i :: 0 <= i < |s| ==> pick(s[i]) == None
  {
    if s != [] {
      var front := s[..|s| - 1];
      Collected(front, pick);
      assert forall i :: 0 <= i < |front| ==> s[i] == front[i];
    }
  }

  lemma CollectNext<A, B>(s: seq<A>, pick: A -> Option<B>, k: nat)
    requires k < |s|
    ensures Collect(s[..k + 1], pick) == Collect(s[..k], pick) + if pick(s[k]).Some? then [pick(s[k]).value] else []
  {
    assert s[..k + 1][..k] == s[..k];
  }

  lemma CollectAll<A, B>(s: seq<A>, pick: A -> Option<B>)
    ensures Collect(s[..|s|], pick) == Collect(s, pick)
  {
    assert s[..|s|] == s;
  }

  /** The date of a build numbered in the lane range. */
  function LaneDate(item: CalverItem): Option<int> {
    if item.sparkleBuild >= LANE_BUILD_MIN then Some(item.floors.dateKey) else None
  }

  function AtMost(a: int, b: int): bool {
    a <= b
  }

  function EffectiveAdoption(items: seq<CalverItem>): int {
    var dates := Sort(Collect(items, LaneDate), AtMost);
    if dates == [] then LANE_FLOOR_ADOPTION_DATE_KEY else Min(dates[0], LANE_FLOOR_ADOPTION_DATE_KEY)
  }

  lemma FirstSortedIsLeast(dates: seq<int>)
    ensures Sort(dates, AtMost) == [] <==> dates == []
    ensures dates != [] ==> Sort(dates, AtMost)[0] in dates && forall d :: d in dates ==> Sort(dates, AtMost)[0] <= d
  {
    var sorted := Sort(dates, AtMost);
    SortCorrect(dates, AtMost);
    SortKeepsMembers(dates, AtMost);
    assert dates != [] ==> dates[0] in sorted;
    assert sorted != [] ==> sorted[0] in sorted;
    forall d | d in dates
      ensures sorted[0] <= d
    {
      assert d in sorted;
      var k :| 0 <= k < |sorted| && sorted[k] == d;
      assert k > 0 ==> AtMost(sorted[0], sorted[k]);
    }
  }

  /** The adoption date is the earliest of the constant and the dates of the lane builds. */
  lemma AdoptionIsEarliest(items: seq<CalverItem>)
    ensures EffectiveAdoption(items) <= 20260227
    ensures forall i :: 0 <= i < |items| && items[i].sparkleBuild >= 1_000_000_000
              ==> EffectiveAdoption(items) <= items[i].floors.dateKey
    ensures EffectiveAdoption(items) < 20260227 ==>
              exists i :: 0 <= i < |items| && items[i].sparkleBuild >= 1_000_000_000
                       && EffectiveAdoption(items) == items[i].floors.dateKey
  {
    var dates := Collect(items, LaneDate);
    Collected(items, LaneDate);
    FirstSortedIsLeast(dates);
    forall i | 0 <= i < |items| && items[i].sparkleBuild >= LANE_BUILD_MIN
      ensures EffectiveAdoption(items) <= items[i].floors.dateKey
    {
      assert LaneDate(items[i]) == Some(items[i].floors.dateKey);
    }
  }

  /** The item keeps to a change of numbering on day `cutOver`. */
  predicate Follows(item: CalverItem, cutOver: int) {
    if item.floors.dateKey >= cutOver
    then item.sparkleBuild >= item.floors.laneFloor
    else item.floors.legacyFloor <= item.sparkleBuild < LANE_BUILD_MIN
  }

  ghost predicate HasCutOver(items: seq<CalverItem>) {
    exists cutOver: int :: cutOver <= LANE_FLOOR_ADOPTION_DATE_KEY && AllFollow(items, cutOver)
  }

  predicate AllFollow(items: seq<CalverItem>, cutOver: int) {
    forall i :: 0 <= i < |items| ==> Follows(items[i], cutOver)
  }

  predicate ExpectsLaneFloor(item: CalverItem, adoption: int) {
    item.sparkleBuild >= LANE_BUILD_MIN || item.floors.dateKey >= adoption
  }

  /** The item is at or above the floor the check applies to it. */
  predicate ReachesFloor(item: CalverItem, adoption: int) {
    item.sparkleBuild >= if ExpectsLaneFloor(item, adoption) then item.floors.laneFloor else item.floors.legacyFloor
  }

  predicate IsFloors(f: Floors) {
    f.legacyFloor <= f.laneFloor
  }

  /** Every floor is reached exactly when the feed changed its numbering on one day. */
  lemma FloorsReachedIff(items: seq<CalverItem>)
    requires forall i :: 0 <= i < |items| ==> IsFloors(items[i].floors)
    ensures (forall i :: 0 <= i < |items| ==> ReachesFloor(items[i], EffectiveAdoption(items))) <==> HasCutOver(items)
  {
    var adoption := EffectiveAdoption(items);
    AdoptionIsEarliest(items);
    if forall i :: 0 <= i < |items| ==> ReachesFloor(items[i], adoption) {
      assert AllFollow(items, adoption);
    }
    if HasCutOver(items) {
      var cutOver :| cutOver <= LANE_FLOOR_ADOPTION_DATE_KEY && AllFollow(items, cutOver);
      forall i | 0 <= i < |items|
        ensures ReachesFloor(items[i], adoption)
      {
        assert Follows(items[i], cutOver);
      }
    }
  }

  // ----- The check -----

  function ItemError(item: Item): Option<FeedError> {
    match item.sparkleVersion
    case None => Some(MissingVersion(item.title))
    case Some(NonNumeric(text)) => Some(NonNumericVersion(item.title, text))
    case Some(Numeric(_)) => None
  }

  function FloorError(item: CalverItem, adoption: int): Option<FeedError> {
    if ReachesFloor(item, adoption) then None
    else
      var laneFloor := ExpectsLaneFloor(item, adoption);
      Some(BelowFloor(item.title, item.sparkleBuild, laneFloor, if laneFloor then item.floors.laneFloor else item.floors.legacyFloor))
  }

  function CalverItems(items: seq<Item>): seq<CalverItem> {
    Collect(items, AsCalver)
  }

  function Errors(items: seq<Item>): seq<FeedError> {
    var calverItems := CalverItems(items);
    var adoption := EffectiveAdoption(calverItems);
    (if items == [] then [NoItems] else [])
    + Collect(items, ItemError)
    + Collect(calverItems, item => FloorError(item, adoption))
  }

  predicate IsNumbered(item: Item) {
    item.sparkleVersion.Some? && item.sparkleVersion.value.Numeric?
  }

  /** The feed has items, all numbered, and its numbering changed on one day. */
  ghost predicate Accepted(items: seq<Item>) {
    && items != []
    && (forall i :: 0 <= i < |items| ==> IsNumbered(items[i]))
    && HasCutOver(CalverItems(items))
  }

  lemma NoFloorErrorsIff(items: seq<Item>)
    ensures var calverItems := CalverItems(items); var adoption := EffectiveAdoption(calverItems);
      Collect(calverItems, item => FloorError(item, adoption)) == [] <==> HasCutOver(calverItems)
  {
    var calverItems := CalverItems(items);
    var adoption := EffectiveAdoption(calverItems);
    ItemsHaveFloors(items);
    FloorsReachedIff(calverItems);
    var pick := item => FloorError(item, adoption);
    Collected(calverItems, pick);
    assert forall i :: 0 <= i < |calverItems| ==> (pick(calverItems[i]) == None <==> ReachesFloor(calverItems[i], adoption));
  }

  lemma NoErrorsIff(items: seq<Item>)
    ensures Errors(items) == [] <==> Accepted(items)
  {
    NoFloorErrorsIff(items);
    Collected(items, ItemError);
    assert forall i :: 0 <= i < |items| ==> (ItemError(items[i]) == None <==> IsNumbered(items[i]));
  }

  method CollectAppcastSparkleVersionErrors(items: seq<Item>) returns (errors: seq<FeedError>)
    ensures errors == Errors(items)
    ensures errors == [] <==> Accepted(items)
  {
    errors := [];
    var calverItems: seq<CalverItem> := [];
    if items == [] {
      errors := errors + [NoItems];
    }
    ghost var before := errors;
    for k := 0 to |items|
      invariant calverItems == CalverItems(items[..k])
      invariant errors == before + Collect(items[..k], ItemError)
    {
      var item := items[k];
      CollectNext(items, AsCalver, k);
      CollectNext(items, ItemError, k);
      if item.sparkleVersion.None? {
        errors := errors + [MissingVersion(item.title)];
        continue;
      }
      if item.sparkleVersion.value.NonNumeric? {
        errors := errors + [NonNumericVersion(item.title, item.sparkleVersion.value.text)];
        continue;
      }
      if item.shortVersion.None? {
        continue;
      }
      var floors := SparkleBuildFloors(item.shortVersion.value);
      if floors.None? {
        continue;
      }
      calverItems := calverItems + [CalverItem(item.title, item.sparkleVersion.value.build, floors.value)];
    }
    CollectAll(items, AsCalver);
    CollectAll(items, ItemError);
    errors := CollectFloorErrors(calverItems, errors);
    NoErrorsIff(items);
  }

  /** The second loop of the check. */
  method CollectFloorErrors(calverItems: seq<CalverItem>, before: seq<FeedError>) returns (errors: seq<FeedError>)
    ensures errors == before + Collect(calverItems, item => FloorError(item, EffectiveAdoption(calverItems)))
  {
    errors := before;
    var effective := EffectiveAdoption(calverItems);
    ghost var pick := item => FloorError(item, effective);
    for k := 0 to |calverItems|
      invariant errors == before + Collect(calverItems[..k], pick)
    {
      var item := calverItems[k];
      CollectNext(calverItems, pick, k);
      var expectLaneFloor := item.sparkleBuild >= LANE_BUILD_MIN || item.floors.dateKey >= effective;
      var floor := if expectLaneFloor then item.floors.laneFloor else item.floors.legacyFloor;
      if item.sparkleBuild < floor {
        errors := errors + [BelowFloor(item.title, item.sparkleBuild, expectLaneFloor, floor)];
      }
    }
    CollectAll(calverItems, pick);
    assert pick == (item => FloorError(item, EffectiveAdoption(calverItems)));
  }

  // ----- What the errors say -----

  /** The item has a calendar version and a build below the floor for its day: from the
      day `adoption` on, and for builds of ten digits, the lane floor, otherwise the old one. */
  predicate IsBelow(item: Item, adoption: int, build: nat, laneFloor: bool, floor: nat) {
    && item.sparkleVersion == Some(Numeric(build)) && item.shortVersion.Some? && build < floor
    && var v := item.shortVersion.value;
       && v.Calver? && 1 <= v.month <= 12 && 1 <= v.day <= 31
       && var day := v.year * 10_000 + v.month * 100 + v.day;
          && (laneFloor <==> build >= 1_000_000_000 || day >= adoption)
          && floor == if laneFloor then day * 100 + Lane(v.suffix) else day * 10
  }

  /** The error is about this item. */
  predicate Describes(error: FeedError, item: Item, adoption: int) {
    match error
    case NoItems => false
    case MissingVersion(title) => item.title == title && item.sparkleVersion.None?
    case NonNumericVersion(title, text) => item.title == title && item.sparkleVersion == Some(NonNumeric(text))
    case BelowFloor(title, build, laneFloor, floor) => item.title == title && IsBelow(item, adoption, build, laneFloor, floor)
  }

  lemma ItemErrorDescribes(item: Item, adoption: int, error: FeedError)
    ensures ItemError(item) == Some(error) <==> !error.BelowFloor? && Describes(error, item, adoption)
  {
  }

  lemma FloorErrorDescribes(item: Item, adoption: int, error: FeedError)
    ensures AsCalver(item).Some? && FloorError(AsCalver(item).value, adoption) == Some(error)
       <==> error.BelowFloor? && Describes(error, item, adoption)
  {
  }

  lemma FloorErrorsDescribe(items: seq<Item>, adoption: int, error: FeedError)
    ensures error in Collect(CalverItems(items), item => FloorError(item, adoption)) <==>
      error.BelowFloor? && exists i :: 0 <= i < |items| && Describes(error, items[i], adoption)
  {
    var calverItems, pick := CalverItems(items), item => FloorError(item, adoption);
    Collected(calverItems, pick);
    Collected(items, AsCalver);
    if error in Collect(calverItems, pick) {
      var k :| 0 <= k < |calverItems| && pick(calverItems[k]) == Some(error);
      var i := FeedIndex(items, k);
      FloorErrorDescribes(items[i], adoption, error);
    }
    if i :| error.BelowFloor? && 0 <= i < |items| && Describes(error, items[i], adoption) {
      FloorErrorDescribes(items[i], adoption, error);
      var k := CalverIndex(items, i);
      assert pick(calverItems[k]) == Some(error);
    }
  }

  lemma ItemErrorsDescribe(items: seq<Item>, adoption: int, error: FeedError)
    ensures error in Collect(items, ItemError) <==>
      !error.BelowFloor? && exists i :: 0 <= i < |items| && Describes(error, items[i], adoption)
  {
    Collected(items, ItemError);
    forall i | 0 <= i < |items|
      ensures ItemError(items[i]) == Some(error) <==> !error.BelowFloor? && Describes(error, items[i], adoption)
    {
      ItemErrorDescribes(items[i], adoption, error);
    }
  }

  /** Each error describes an item of the feed, and each item that an error describes is
      reported; a feed without items is reported as that. */
  lemma ErrorsDescribeItems(items: seq<Item>, error: FeedError)
    ensures error in Errors(items) <==>
      || (error == NoItems && items == [])
      || exists i :: 0 <= i < |items| && Describes(error, items[i], EffectiveAdoption(CalverItems(items)))
  {
    var adoption := EffectiveAdoption(CalverItems(items));
    ItemErrorsDescribe(items, adoption, error);
    FloorErrorsDescribe(items, adoption, error);
  }

  /** Errors about floors come behind the others. */
  lemma FloorErrorsComeLast(items: seq<Item>, i: nat, j: nat)
    requires i < j < |Errors(items)| && Errors(items)[i].BelowFloor?
    ensures Errors(items)[j].BelowFloor?
  {
    var adoption := EffectiveAdoption(CalverItems(items));
    var first := (if items == [] then [NoItems] else []) + Collect(items, ItemError);
    var last := Collect(CalverItems(items), item => FloorError(item, adoption));
    assert Errors(items) == first + last;
    if i < |first| {
      assert first[i] in first;
      ItemErrorsDescribe(items, adoption, first[i]);
    } else {
      assert last[j - |first|] in last;
      FloorErrorsDescribe(items, adoption, last[j - |first|]);
    }
  }

  // ----- What an accepted feed looks like -----

  predicate IsModern(item: CalverItem) {
    item.floors.dateKey >= 1000_00_00 && item.floors.laneFloor >= item.floors.dateKey * 100
  }

  lemma CutOverSplits(items: seq<CalverItem>, i: nat, j: nat)
    requires HasCutOver(items) && i < |items| && j < |items|
    requires IsModern(items[i]) && IsModern(items[j])
    requires items[i].sparkleBuild < LANE_BUILD_MIN <= items[j].sparkleBuild
    ensures items[i].floors.dateKey < items[j].floors.dateKey
  {
    var cutOver :| cutOver <= LANE_FLOOR_ADOPTION_DATE_KEY && AllFollow(items, cutOver);
    assert Follows(items[i], cutOver) && Follows(items[j], cutOver);
  }

  /** Where the feed's item `i` is among the items with a calendar version. */
  lemma CalverIndex(items: seq<Item>, i: nat) returns (k: nat)
    requires i < |items| && AsCalver(items[i]).Some?
    ensures k < |CalverItems(items)| && CalverItems(items)[k] == AsCalver(items[i]).value
  {
    Collected(items, AsCalver);
    assert AsCalver(items[i]).value in CalverItems(items);
    k :| 0 <= k < |CalverItems(items)| && CalverItems(items)[k] == AsCalver(items[i]).value;
  }

  /** In an accepted feed every old-style build is dated before every lane build. */
  lemma AcceptedFeedIsSplit(items: seq<Item>, i: nat, j: nat)
    requires Accepted(items) && i < |items| && j < |items|
    requires AsCalver(items[i]).Some? && items[i].shortVersion.value.year >= 1000
    requires AsCalver(items[j]).Some? && items[j].shortVersion.value.year >= 1000
    requires items[i].sparkleVersion.value.build < LANE_BUILD_MIN <= items[j].sparkleVersion.value.build
    ensures Earlier(items[i].shortVersion.value, items[j].shortVersion.value)
  {
    var p := CalverIndex(items, i);
    var q := CalverIndex(items, j);
    CutOverSplits(CalverItems(items), p, q);
    CanonicalBuildsFollowTheCalendar(items[i].shortVersion.value, items[j].shortVersion.value);
  }

  lemma ItemsHaveFloors(items: seq<Item>)
    ensures forall i :: 0 <= i < |CalverItems(items)| ==> IsFloors(CalverItems(items)[i].floors)
  {
    var calverItems := CalverItems(items);
    Collected(items, AsCalver);
    forall i | 0 <= i < |calverItems|
      ensures IsFloors(calverItems[i].floors)
    {
      assert calverItems[i] in calverItems;
    }
  }

  /** In an accepted feed every lane build, and every item dated on or after the effective
      adoption date, is at least its canonical build. */
  lemma LaneItemsReachTheLaneFloor(items: seq<Item>, i: nat)
    requires Accepted(items) && i < |items| && AsCalver(items[i]).Some?
    requires ExpectsLaneFloor(AsCalver(items[i]).value, EffectiveAdoption(CalverItems(items)))
    ensures items[i].sparkleVersion.value.build >= CanonicalSparkleBuild(items[i].shortVersion.value).value
  {
    var k := CalverIndex(items, i);
    ItemsHaveFloors(items);
    FloorsReachedIff(CalverItems(items));
    assert ReachesFloor(CalverItems(items)[k], EffectiveAdoption(CalverItems(items)));
  }

  /** The feed has an old-style build and a lane build on the day of `v`. */
  ghost predicate MixesOnDay(items: seq<Item>, v: Version)
    requires v.Calver?
  {
    exists i, j :: 0 <= i < |items| && 0 <= j < |items|
      && AsCalver(items[i]).Some? && SameDay(items[i].shortVersion.value, v)
      && AsCalver(items[j]).Some? && SameDay(items[j].shortVersion.value, v)
      && items[i].sparkleVersion.value.build < LANE_BUILD_MIN <= items[j].sparkleVersion.value.build
  }

  /** Two builds of one early release: its canonical build and the first lane build. */
  lemma EarlyYearsCanMix(v: Version) returns (items: seq<Item>)
    requires IsDated(v) && v.year < 1000
    ensures Accepted(items) && MixesOnDay(items, v)
  {
    var build := CanonicalSparkleBuild(v).value;
    items := [Item("a", Some(v), Some(Numeric(build))), Item("b", Some(v), Some(Numeric(LANE_BUILD_MIN)))];
    assert build < LANE_BUILD_MIN;
    CollectNext(items, AsCalver, 0);
    CollectNext(items, AsCalver, 1);
    CollectAll(items, AsCalver);
    assert AllFollow(CalverItems(items), SparkleBuildFloors(v).value.dateKey);
    assert SameDay(items[0].shortVersion.value, v) && SameDay(items[1].shortVersion.value, v);
  }

  lemma LaterYearsDoNotMix(items: seq<Item>, v: Version)
    requires IsDated(v) && v.year >= 1000 && Accepted(items)
    ensures !MixesOnDay(items, v)
  {
    forall i, j | 0 <= i < |items| && 0 <= j < |items|
      && AsCalver(items[i]).Some? && SameDay(items[i].shortVersion.value, v)
      && AsCalver(items[j]).Some? && SameDay(items[j].shortVersion.value, v)
      ensures !(items[i].sparkleVersion.value.build < LANE_BUILD_MIN <= items[j].sparkleVersion.value.build)
    {
      if items[i].sparkleVersion.value.build < LANE_BUILD_MIN <= items[j].sparkleVersion.value.build {
        AcceptedFeedIsSplit(items, i, j);
      }
    }
  }

  /** Some accepted feed mixes both kinds of build on a day exactly when the day's year
      is before 1000. */
  lemma DayCanMixIff(v: Version)
    requires IsDated(v)
    ensures v.year < 1000 <==> exists items :: Accepted(items) && MixesOnDay(items, v)
  {
    if v.year < 1000 {
      var items := EarlyYearsCanMix(v);
    } else {
      forall items: seq<Item> | Accepted(items)
        ensures !MixesOnDay(items, v)
      {
        LaterYearsDoNotMix(items, v);
      }
    }
  }

  /** Adding a canonical build keeps the feed accepted exactly when no old-style build is dated as late. */
  lemma CanonicalBuildIsAcceptedIff(items: seq<CalverItem>, next: CalverItem)
    requires HasCutOver(items) && IsModern(next) && next.sparkleBuild == next.floors.laneFloor
    requires forall i :: 0 <= i < |items| ==> IsModern(items[i])
    ensures HasCutOver(items + [next]) <==>
              forall i :: 0 <= i < |items| && items[i].sparkleBuild < LANE_BUILD_MIN ==> items[i].floors.dateKey < next.floors.dateKey
  {
    var all := items + [next];
    assert all[|items|] == next;
    if HasCutOver(all) {
      forall i | 0 <= i < |items| && items[i].sparkleBuild < LANE_BUILD_MIN
        ensures items[i].floors.dateKey < next.floors.dateKey
      {
        assert all[i] == items[i];
        CutOverSplits(all, i, |items|);
      }
    }
    if forall i :: 0 <= i < |items| && items[i].sparkleBuild < LANE_BUILD_MIN ==> items[i].floors.dateKey < next.floors.dateKey {
      var cutOver :| cutOver <= LANE_FLOOR_ADOPTION_DATE_KEY && AllFollow(items, cutOver);
      var earlier := Min(cutOver, next.floors.dateKey);
      forall i | 0 <= i < |all|
        ensures Follows(all[i], earlier)
      {
        assert i < |items| ==> all[i] == items[i] && Follows(items[i], cutOver);
      }
      assert AllFollow(all, earlier);
    }
  }

  /** The item has a calendar version of a year with four digits. */
  predicate IsModernRelease(item: Item) {
    AsCalver(item).Some? && item.shortVersion.value.year >= 1000
  }

  lemma OneMoreItem(feed: seq<Item>, next: Item)
    requires Accepted(feed) && AsCalver(next).Some?
    ensures Accepted(feed + [next]) <==> HasCutOver(CalverItems(feed) + [AsCalver(next).value])
  {
    var all := feed + [next];
    CollectNext(all, AsCalver, |feed|);
    CollectAll(all, AsCalver);
    assert all[..|feed|] == feed;
    assert forall i :: 0 <= i < |all| ==> all[i] == if i < |feed| then feed[i] else next;
  }

  /** Where an item with a calendar version comes from. */
  lemma FeedIndex(feed: seq<Item>, k: nat) returns (i: nat)
    requires k < |CalverItems(feed)|
    ensures i < |feed| && AsCalver(feed[i]) == Some(CalverItems(feed)[k])
  {
    Collected(feed, AsCalver);
    assert CalverItems(feed)[k] in CalverItems(feed);
    i :| 0 <= i < |feed| && AsCalver(feed[i]) == Some(CalverItems(feed)[k]);
  }

  predicate IsOldBuild(item: Item) {
    AsCalver(item).Some? && item.sparkleVersion.value.build < LANE_BUILD_MIN
  }

  /** Every old-style build of the feed is dated before the release. */
  predicate OldBuildsAreEarlier(feed: seq<Item>, next: Item)
    requires AsCalver(next).Some?
  {
    forall i :: 0 <= i < |feed| && IsOldBuild(feed[i]) ==> Earlier(feed[i].shortVersion.value, next.shortVersion.value)
  }

  lemma OldBuildsIff(feed: seq<Item>, next: Item)
    requires AsCalver(next).Some?
    ensures OldBuildsAreEarlier(feed, next) <==>
              forall k :: 0 <= k < |CalverItems(feed)| && CalverItems(feed)[k].sparkleBuild < LANE_BUILD_MIN ==>
                CalverItems(feed)[k].floors.dateKey < AsCalver(next).value.floors.dateKey
  {
    var items, date := CalverItems(feed), AsCalver(next).value.floors.dateKey;
    if OldBuildsAreEarlier(feed, next) {
      forall k | 0 <= k < |items| && items[k].sparkleBuild < LANE_BUILD_MIN
        ensures items[k].floors.dateKey < date
      {
        var i := FeedIndex(feed, k);
        assert IsOldBuild(feed[i]);
        CanonicalBuildsFollowTheCalendar(feed[i].shortVersion.value, next.shortVersion.value);
      }
    }
    if forall k :: 0 <= k < |items| && items[k].sparkleBuild < LANE_BUILD_MIN ==> items[k].floors.dateKey < date {
      forall i | 0 <= i < |feed| && IsOldBuild(feed[i])
        ensures Earlier(feed[i].shortVersion.value, next.shortVersion.value)
      {
        var k := CalverIndex(feed, i);
        CanonicalBuildsFollowTheCalendar(feed[i].shortVersion.value, next.shortVersion.value);
      }
    }
  }

  /** A release published under its canonical build leaves an accepted feed accepted
      exactly when every old-style build in it is dated before the release. */
  lemma PublishingIsAcceptedIff(feed: seq<Item>, next: Item)
    requires Accepted(feed) && IsModernRelease(next)
    requires Some(next.sparkleVersion.value.build) == CanonicalSparkleBuild(next.shortVersion.value)
    requires forall i :: 0 <= i < |feed| && AsCalver(feed[i]).Some? ==> IsModernRelease(feed[i])
    ensures Accepted(feed + [next]) <==> OldBuildsAreEarlier(feed, next)
  {
    OneMoreItem(feed, next);
    OldBuildsIff(feed, next);
    forall k | 0 <= k < |CalverItems(feed)|
      ensures IsModern(CalverItems(feed)[k])
    {
      var i := FeedIndex(feed, k);
    }
    CanonicalBuildIsAcceptedIff(CalverItems(feed), AsCalver(next).value);
  }
}
