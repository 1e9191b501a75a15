/** Regrouping pages into work batches (`scripts/label-open-issues.ts`,
    `fetchOpenLabelItemBatches`). A `yield` appends to `yielded`. */
module Paging {
  import opened Options

  datatype Page<T> = Page(nodes: seq<T>, totalCount: Option<nat>, hasNextPage: bool, endCursor: Option<string>)
  datatype Limit = Unlimited | AtMost(n: real)
  datatype Batch<T> = Batch(batchIndex: nat, items: seq<T>, totalCount: nat, fetchedCount: nat)

  const WORK_BATCH_SIZE := 500

  predicate Below(count: nat, limit: Limit) {
    limit.Unlimited? || count as real < limit.n
  }

  /** The pages of one listing: each but the last says that there is another. */
  predicate IsListing<T>(pages: seq<Page<T>>) {
    pages != [] && forall k :: 0 <= k < |pages| ==> (pages[k].hasNextPage <==> k < |pages| - 1)
  }

  function Nodes<T>(pages: seq<Page<T>>): seq<T> {
    if pages == [] then [] else Nodes(pages[..|pages| - 1]) + pages[|pages| - 1].nodes
  }

  /** The latest total that a page has stated. */
  function Total<T>(pages: seq<Page<T>>): nat {
    if pages == [] then 0 else pages[|pages| - 1].totalCount.GetOr(Total(pages[..|pages| - 1]))
  }

  lemma {:induction false} TotalIsLatest<T>(pages: seq<Page<T>>, i: nat)
    requires i < |pages| && forall k :: i < k < |pages| ==> pages[k].totalCount.None?
    ensures pages[i].totalCount.Some? ==> Total(pages) == pages[i].totalCount.value
    ensures i == 0 && pages[0].totalCount.None? ==> Total(pages) == 0
  {
    var last := |pages| - 1;
    if i < last {
      TotalIsLatest(pages[..last], i);
    } else if i == 0 {
      assert pages[..0] == [];
    }
  }

  /** The smallest integer that is not below `x`. */
  function Ceiling(x: real): (c: int)
    ensures c as real - 1.0 < x <= c as real
  {
    -((-x).Floor)
  }

  /** How many of `available` items a limit lets through. */
  function Quota(limit: Limit, available: nat): (n: nat)
    ensures n <= available
  {
    match limit
    case Unlimited => available
    case AtMost(x) => if Ceiling(x) <= 0 then 0 else if Ceiling(x) <= available then Ceiling(x) else available
  }

  /** A count is the quota exactly when it was below the limit until then and
      either no item or no room is left. */
  lemma QuotaIff(limit: Limit, available: nat, count: nat)
    requires count <= available
    ensures count == Quota(limit, available)
       <==> (count == 0 || Below(count - 1, limit)) && (count == available || !Below(count, limit))
  {
  }

  function Items<T>(batches: seq<Batch<T>>): seq<T> {
    if batches == [] then [] else Items(batches[..|batches| - 1]) + batches[|batches| - 1].items
  }

  lemma ItemsNext<T>(batches: seq<Batch<T>>, next: Batch<T>)
    ensures Items(batches + [next]) == Items(batches) + next.items
  {
    assert (batches + [next])[..|batches|] == batches;
  }

  /** Batch `i` knows its number and how many items were fetched with it. */
  predicate Counts<T>(batch: Batch<T>, i: nat) {
    batch.batchIndex == i + 1 && batch.fetchedCount == WORK_BATCH_SIZE * i + |batch.items|
  }

  predicate AllFull<T>(batches: seq<Batch<T>>) {
    forall i :: 0 <= i < |batches| ==> |batches[i].items| == WORK_BATCH_SIZE && Counts(batches[i], i)
  }

  /** Every batch but the last holds 500 items and none is empty. */
  predicate WellCut<T>(batches: seq<Batch<T>>) {
    forall i :: 0 <= i < |batches| ==>
      && Counts(batches[i], i)
      && 0 < |batches[i].items| <= 500
      && (i < |batches| - 1 ==> |batches[i].items| == 500)
  }

  /** The cursors sent: none first, then the end of the page before. */
  predicate Follow<T>(cursors: seq<Option<string>>, pages: seq<Page<T>>) {
    |cursors| <= |pages| && forall k :: 0 <= k < |cursors| ==> cursors[k] == if k == 0 then None else pages[k - 1].endCursor
  }

  /** A page is fetched only while the items so far are below the limit. */
  predicate FetchedBelow<T>(fetchedPages: nat, pages: seq<Page<T>>, limit: Limit)
    requires fetchedPages <= |pages|
  {
    forall k :: 0 <= k < fetchedPages ==> Below(|Nodes(pages[..k])|, limit)
  }

  /** The batch repeats a total stated by page `p`: the page of its last item
      for a full batch, the last page fetched for a batch that is not full. */
  ghost predicate StatesTotal<T>(batch: Batch<T>, pages: seq<Page<T>>, fetchedPages: nat)
    requires fetchedPages <= |pages|
  {
    exists p :: 0 < p <= fetchedPages && StatesTotalOf(batch, pages, fetchedPages, p)
  }

  predicate StatesTotalOf<T>(batch: Batch<T>, pages: seq<Page<T>>, fetchedPages: nat, p: nat)
    requires 0 < p <= fetchedPages <= |pages|
  {
    && batch.totalCount == Total(pages[..p])
    && batch.fetchedCount <= |Nodes(pages[..p])|
    && if |batch.items| == WORK_BATCH_SIZE then |Nodes(pages[..p - 1])| < batch.fetchedCount else p == fetchedPages
  }

  ghost predicate AllStateTotals<T>(batches: seq<Batch<T>>, pages: seq<Page<T>>, fetchedPages: nat)
    requires fetchedPages <= |pages|
  {
    forall i :: 0 <= i < |batches| ==> StatesTotal(batches[i], pages, fetchedPages)
  }

  lemma TotalsStand<T>(batches: seq<Batch<T>>, pages: seq<Page<T>>, c: nat)
    requires c < |pages| && AllFull(batches) && AllStateTotals(batches, pages, c)
    ensures AllStateTotals(batches, pages, c + 1)
  {
    forall i | 0 <= i < |batches|
      ensures StatesTotal(batches[i], pages, c + 1)
    {
      var p :| 0 < p <= c && StatesTotalOf(batches[i], pages, c, p);
      assert StatesTotalOf(batches[i], pages, c + 1, p);
    }
  }

  lemma NextPage<T>(pages: seq<Page<T>>, c: nat)
    requires c < |pages|
    ensures Nodes(pages[..c + 1]) == Nodes(pages[..c]) + pages[c].nodes
    ensures Total(pages[..c + 1]) == pages[c].totalCount.GetOr(Total(pages[..c]))
  {
    assert pages[..c + 1][..c] == pages[..c];
  }

  /** The loop's variables agree with the items taken so far. */
  predicate Agrees<T(==)>(yielded: seq<Batch<T>>, results: seq<T>, fetchedCount: nat, batchIndex: nat, taken: seq<T>) {
    && AllFull(yielded) && |results| < WORK_BATCH_SIZE && batchIndex == |yielded| + 1
    && Items(yielded) + results == taken
    && fetchedCount == |taken| == WORK_BATCH_SIZE * |yielded| + |results|
  }

  lemma PushKeeps<T>(yielded: seq<Batch<T>>, results: seq<T>, fetchedCount: nat, batchIndex: nat, taken: seq<T>, node: T)
    requires Agrees(yielded, results, fetchedCount, batchIndex, taken)
    requires |results| + 1 < WORK_BATCH_SIZE
    ensures Agrees(yielded, results + [node], fetchedCount + 1, batchIndex, taken + [node])
  {
    assert Items(yielded) + (results + [node]) == (Items(yielded) + results) + [node];
  }

  lemma YieldKeeps<T>(yielded: seq<Batch<T>>, results: seq<T>, fetchedCount: nat, batchIndex: nat, taken: seq<T>, node: T, total: nat)
    requires Agrees(yielded, results, fetchedCount, batchIndex, taken)
    requires |results| + 1 == WORK_BATCH_SIZE
    ensures Agrees(yielded + [Batch(batchIndex, results + [node], total, fetchedCount + 1)], [], fetchedCount + 1, batchIndex + 1, taken + [node])
  {
    ItemsNext(yielded, Batch(batchIndex, results + [node], total, fetchedCount + 1));
    assert Items(yielded) + (results + [node]) + [] == (Items(yielded) + results) + [node];
  }

  lemma TakeMore<T>(before: seq<T>, nodes: seq<T>, k: nat)
    requires k < |nodes|
    ensures before + nodes[..k] + [nodes[k]] == before + nodes[..k + 1]
  {
  }

  /** The loop over the nodes of page `c`. */
  method TakeNodes<T(==)>(
      ghost pages: seq<Page<T>>, ghost c: nat, nodes: seq<T>, limit: Limit, totalCount: nat,
      yielded0: seq<Batch<T>>, results0: seq<T>, fetched0: nat, batchIndex0: nat)
      returns (yielded: seq<Batch<T>>, results: seq<T>, fetchedCount: nat, batchIndex: nat)
    requires c < |pages| && nodes == pages[c].nodes && totalCount == Total(pages[..c + 1])
    requires Agrees(yielded0, results0, fetched0, batchIndex0, Nodes(pages[..c])) && Below(fetched0, limit)
    requires AllStateTotals(yielded0, pages, c)
    ensures var all := Nodes(pages[..c + 1]); Agrees(yielded, results, fetchedCount, batchIndex, all[..Quota(limit, |all|)])
    ensures AllStateTotals(yielded, pages, c + 1)
  {
    yielded, results, fetchedCount, batchIndex := yielded0, results0, fetched0, batchIndex0;
    ghost var before := Nodes(pages[..c]);
    NextPage(pages, c);
    TotalsStand(yielded, pages, c);
    assert before + nodes[..0] == before;
    var k := 0;
    while k < |nodes|
      invariant 0 <= k <= |nodes|
      invariant Agrees(yielded, results, fetchedCount, batchIndex, before + nodes[..k])
      invariant fetchedCount == 0 || Below(fetchedCount - 1, limit)
      invariant AllStateTotals(yielded, pages, c + 1)
    {
      if !Below(fetchedCount, limit) {
        break;
      }
      TakeMore(before, nodes, k);
      if |results| + 1 < WORK_BATCH_SIZE {
        PushKeeps(yielded, results, fetchedCount, batchIndex, before + nodes[..k], nodes[k]);
      } else {
        YieldKeeps(yielded, results, fetchedCount, batchIndex, before + nodes[..k], nodes[k], totalCount);
      }
      results := results + [nodes[k]];
      fetchedCount := fetchedCount + 1;
      k := k + 1;
      if |results| >= WORK_BATCH_SIZE {
        var batch := Batch(batchIndex, results, totalCount, fetchedCount);
        assert StatesTotalOf(batch, pages, c + 1, c + 1);
        yielded := yielded + [batch];
        results := [];
        batchIndex := batchIndex + 1;
      }
    }
    QuotaIff(limit, |before + nodes|, fetchedCount);
    assert before + nodes[..k] == (before + nodes)[..fetchedCount];
  }

  lemma {:induction false} NodesGrow<T>(pages: seq<Page<T>>, c: nat)
    requires c <= |pages|
    ensures Nodes(pages[..c]) <= Nodes(pages)
    decreases |pages| - c
  {
    if c < |pages| {
      NextPage(pages, c);
      NodesGrow(pages, c + 1);
    } else {
      assert pages[..c] == pages;
    }
  }

  lemma FetchKeeps<T>(cursors: seq<Option<string>>, pages: seq<Page<T>>, limit: Limit, after: Option<string>)
    requires |cursors| < |pages| && Follow(cursors, pages) && FetchedBelow(|cursors|, pages, limit)
    requires after == if cursors == [] then None else pages[|cursors| - 1].endCursor
    requires Below(|Nodes(pages[..|cursors|])|, limit)
    ensures Follow(cursors + [after], pages) && FetchedBelow(|cursors + [after]|, pages, limit)
  {
  }

  /** A last batch, not full, completes the batches. */
  lemma LastBatchKeeps<T>(
      yielded: seq<Batch<T>>, results: seq<T>, fetchedCount: nat, batchIndex: nat, taken: seq<T>, pages: seq<Page<T>>, c: nat)
    requires Agrees(yielded, results, fetchedCount, batchIndex, taken)
    requires c <= |pages| && fetchedCount <= |Nodes(pages[..c])| && AllStateTotals(yielded, pages, c)
    requires results != []
    ensures var all := yielded + [Batch(batchIndex, results, Total(pages[..c]), fetchedCount)];
      Items(all) == taken && WellCut(all) && AllStateTotals(all, pages, c)
  {
    var batch := Batch(batchIndex, results, Total(pages[..c]), fetchedCount);
    ItemsNext(yielded, batch);
    assert StatesTotalOf(batch, pages, c, c);
  }

  /** Once the limit is reached or the pages end, the rest of the listing adds nothing. */
  lemma RestAddsNothing<T>(pages: seq<Page<T>>, c: nat, limit: Limit, taken: seq<T>)
    requires c <= |pages|
    requires taken == Nodes(pages[..c])[..Quota(limit, |Nodes(pages[..c])|)]
    requires c == |pages| || !Below(|taken|, limit)
    ensures taken == Nodes(pages)[..Quota(limit, |Nodes(pages)|)]
  {
    var some, all := Nodes(pages[..c]), Nodes(pages);
    NodesGrow(pages, c);
    if c == |pages| {
      assert pages[..c] == pages;
    } else {
      QuotaIff(limit, |some|, |taken|);
      QuotaIff(limit, |all|, |taken|);
      assert all[..|some|] == some;
      assert all[..|taken|] == all[..|some|][..|taken|];
    }
  }

  /** The loop's variables agree with the pages fetched so far. */
  ghost predicate Standing<T>(
      pages: seq<Page<T>>, limit: Limit, cursors: seq<Option<string>>,
      yielded: seq<Batch<T>>, results: seq<T>, totalCount: nat, fetchedCount: nat, batchIndex: nat)
  {
    && Follow(cursors, pages) && FetchedBelow(|cursors|, pages, limit)
    && totalCount == Total(pages[..|cursors|])
    && AllStateTotals(yielded, pages, |cursors|)
    && var all := Nodes(pages[..|cursors|]);
       Agrees(yielded, results, fetchedCount, batchIndex, all[..Quota(limit, |all|)])
  }

  /** One page more. */
  method FetchPage<T(==)>(
      pages: seq<Page<T>>, limit: Limit, cursors: seq<Option<string>>, after: Option<string>,
      yielded0: seq<Batch<T>>, results0: seq<T>, totalCount0: nat, fetched0: nat, batchIndex0: nat)
      returns (yielded: seq<Batch<T>>, results: seq<T>, totalCount: nat, fetchedCount: nat, batchIndex: nat)
    requires |cursors| < |pages| && after == if cursors == [] then None else pages[|cursors| - 1].endCursor
    requires Standing(pages, limit, cursors, yielded0, results0, totalCount0, fetched0, batchIndex0)
    requires Below(fetched0, limit)
    ensures Standing(pages, limit, cursors + [after], yielded, results, totalCount, fetchedCount, batchIndex)
  {
    ghost var all := Nodes(pages[..|cursors|]);
    QuotaIff(limit, |all|, fetched0);
    assert all[..|all|] == all;
    var page := pages[|cursors|];
    NextPage(pages, |cursors|);
    totalCount := page.totalCount.GetOr(totalCount0);
    yielded, results, fetchedCount, batchIndex :=
      TakeNodes(pages, |cursors|, page.nodes, limit, totalCount, yielded0, results0, fetched0, batchIndex0);
    FetchKeeps(cursors, pages, limit, after);
  }

  lemma NothingFetched<T>(pages: seq<Page<T>>, limit: Limit)
    ensures Standing(pages, limit, [], [], [], 0, 0, 1)
  {
    assert pages[..0] == [];
  }

  /** The loop over the pages, before what is left over is yielded. */
  method FetchPages<T(==)>(pages: seq<Page<T>>, limit: Limit)
      returns (yielded: seq<Batch<T>>, results: seq<T>, totalCount: nat, fetchedCount: nat, batchIndex: nat,
               cursors: seq<Option<string>>)
    requires IsListing(pages)
    ensures |cursors| <= |pages| && Standing(pages, limit, cursors, yielded, results, totalCount, fetchedCount, batchIndex)
    ensures |cursors| == |pages| || !Below(fetchedCount, limit)
  {
    yielded, results, cursors := [], [], [];
    totalCount, fetchedCount, batchIndex := 0, 0, 1;
    var after := None;
    NothingFetched(pages, limit);
    while Below(fetchedCount, limit)
      invariant |cursors| < |pages|
      invariant after == if cursors == [] then None else pages[|cursors| - 1].endCursor
      invariant Standing(pages, limit, cursors, yielded, results, totalCount, fetchedCount, batchIndex)
      decreases |pages| - |cursors|
    {
      var page := pages[|cursors|];
      yielded, results, totalCount, fetchedCount, batchIndex :=
        FetchPage(pages, limit, cursors, after, yielded, results, totalCount, fetchedCount, batchIndex);
      cursors := cursors + [after];
      if !page.hasNextPage {
        break;
      }
      after := page.endCursor;
    }
  }

  /** Every item up to the limit comes out once and in order, in full batches
      but for the last, and no page is fetched once the limit is reached. */
  method FetchOpenLabelItemBatches<T(==)>(pages: seq<Page<T>>, limit: Limit)
      returns (yielded: seq<Batch<T>>, cursors: seq<Option<string>>)
    requires IsListing(pages)
    ensures Items(yielded) == Nodes(pages)[..Quota(limit, |Nodes(pages)|)]
    ensures WellCut(yielded)
    ensures Follow(cursors, pages) && FetchedBelow(|cursors|, pages, limit)
    ensures AllStateTotals(yielded, pages, |cursors|)
  {
    var results: seq<T>;
    var totalCount, fetchedCount, batchIndex;
    yielded, results, totalCount, fetchedCount, batchIndex, cursors := FetchPages(pages, limit);
    ghost var all := Nodes(pages[..|cursors|]);
    RestAddsNothing(pages, |cursors|, limit, all[..Quota(limit, |all|)]);
    if results != [] {
      LastBatchKeeps(yielded, results, fetchedCount, batchIndex, all[..Quota(limit, |all|)], pages, |cursors|);
      yielded := yielded + [Batch(batchIndex, results, totalCount, fetchedCount)];
    }
  }

  // ----- Page boundaries do not show -----

  lemma {:induction false} ItemsLength<T>(batches: seq<Batch<T>>)
    requires WellCut(batches)
    ensures batches != [] ==> |Items(batches)| == batches[|batches| - 1].fetchedCount
    ensures batches == [] <==> Items(batches) == []
  {
    if batches != [] {
      ItemsLength(batches[..|batches| - 1]);
    }
  }

  /** `fetchedCount` is the running total of the items yielded. */
  lemma {:induction false} FetchedCountIsRunningTotal<T>(batches: seq<Batch<T>>, i: nat)
    requires WellCut(batches) && i < |batches|
    ensures batches[i].fetchedCount == |Items(batches[..i + 1])|
  {
    ItemsLength(batches[..i + 1]);
  }

  predicate SameBut<T(==)>(a: seq<Batch<T>>, b: seq<Batch<T>>) {
    |a| == |b| && forall i :: 0 <= i < |a| ==>
      a[i].items == b[i].items && a[i].batchIndex == b[i].batchIndex && a[i].fetchedCount == b[i].fetchedCount
  }

  /** However a listing is paged, the same items make the same batches. */
  lemma {:induction false} BatchesAreUnique<T>(a: seq<Batch<T>>, b: seq<Batch<T>>)
    requires WellCut(a) && WellCut(b) && Items(a) == Items(b)
    ensures SameBut(a, b)
  {
    ItemsLength(a);
    ItemsLength(b);
    if a != [] {
      var x, y := a[..|a| - 1], b[..|b| - 1];
      assert |a| == |b|;
      ItemsLength(x);
      ItemsLength(y);
      assert Items(a)[..|Items(x)|] == Items(x) && Items(b)[..|Items(y)|] == Items(y);
      assert Items(a)[|Items(x)|..] == a[|a| - 1].items && Items(b)[|Items(y)|..] == b[|b| - 1].items;
      BatchesAreUnique(x, y);
    }
  }
}
