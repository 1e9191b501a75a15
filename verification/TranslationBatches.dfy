/** The greedy packer that turns the pending keys of one locale into prompts
    (`scripts/control-ui-i18n.ts`, `buildTranslationBatches`). */
module TranslationBatches {
  import opened Sequences

  /** One pending segment of the source locale. */
  datatype Item = Item(cacheKey: string, key: string, text: string, textHash: string)

  const MAX_BATCH_ITEMS := 20

  function EstimateBatchChars(items: seq<Item>): nat {
    if items == [] then 2
    else EstimateBatchChars(items[..|items| - 1]) + |items[|items| - 1].key| + |items[|items| - 1].text| + 8
  }

  function Flatten<T>(parts: seq<seq<T>>): seq<T> {
    if parts == [] then [] else parts[0] + Flatten(parts[1..])
  }

  function KeysIn(batch: seq<Item>): (keys: seq<string>)
    ensures |keys| == |batch| && forall i :: 0 <= i < |keys| ==> keys[i] == batch[i].key
  {
    seq(|batch|, i requires 0 <= i < |batch| => batch[i].key)
  }

  function TextsIn(batch: seq<Item>): (texts: seq<string>)
    ensures |texts| == |batch| && forall i :: 0 <= i < |texts| ==> texts[i] == batch[i].text
  {
    seq(|batch|, i requires 0 <= i < |batch| => batch[i].text)
  }

  /** What a prompt for the batch is charged: its keys and texts put together, 10 for each
      item and 2 for itself. */
  function Size(batch: seq<Item>): nat {
    |Flatten(KeysIn(batch))| + |Flatten(TextsIn(batch))| + 10 * |batch| + 2
  }

  /** What one prompt may hold. A batch of one is always allowed: an item too
      large for the budget still has to be sent. */
  ghost predicate Fits(batch: seq<Item>, budget: real) {
    |batch| <= 20 && (|batch| >= 2 ==> Size(batch) as real <= budget)
  }

  /** An order-preserving way to send `items`. */
  ghost predicate IsPartition(batches: seq<seq<Item>>, items: seq<Item>, budget: real) {
    && Flatten(batches) == items
    && forall i :: 0 <= i < |batches| ==> Fits(batches[i], budget)
  }

  /** No batch could have taken the first item of the batch after it. */
  ghost predicate Saturated(batches: seq<seq<Item>>, budget: real) {
    && (forall i :: 0 <= i < |batches| ==> |batches[i]| > 0)
    && (forall i :: 0 <= i < |batches| - 1 ==> !Fits(batches[i] + [batches[i + 1][0]], budget))
  }

  lemma InPieces(a: seq<Item>, b: seq<Item>)
    ensures KeysIn(a + b) == KeysIn(a) + KeysIn(b) && TextsIn(a + b) == TextsIn(a) + TextsIn(b)
  {
  }

  lemma FirstOfBoth<T>(a: seq<T>, b: seq<T>)
    requires a != []
    ensures (a + b)[0] == a[0] && (a + b)[1..] == a[1..] + b
  {
  }

  lemma {:induction false} FlattenJoins<T>(a: seq<seq<T>>, b: seq<seq<T>>)
    ensures Flatten(a + b) == Flatten(a) + Flatten(b)
  {
    if a == [] {
      assert a + b == b;
    } else {
      FlattenJoins(a[1..], b);
      FirstOfBoth(a, b);
      ConcatIsAssociative(a[0], Flatten(a[1..]), Flatten(b));
    }
  }

  lemma SizeSplits(a: seq<Item>, b: seq<Item>)
    ensures Size(a + b) + 2 == Size(a) + Size(b)
  {
    InPieces(a, b);
    FlattenJoins(KeysIn(a), KeysIn(b));
    FlattenJoins(TextsIn(a), TextsIn(b));
  }

  lemma SizeOfOne(item: Item)
    ensures Size([item]) == |item.key| + |item.text| + 12
  {
    assert KeysIn([item]) == [item.key] && TextsIn([item]) == [item.text];
    FlattenOne(item.key);
    FlattenOne(item.text);
  }

  lemma FlattenOne<T>(part: seq<T>)
    ensures Flatten([part]) == part
  {
    assert [part][1..] == [];
    assert part + [] == part;
  }

  /** The estimate, with the 2 for each item that the estimate of one item adds, is the size. */
  lemma {:induction false} EstimateIsSize(items: seq<Item>)
    ensures EstimateBatchChars(items) + 2 * |items| == Size(items)
  {
    if items == [] {
      assert KeysIn([]) == [] && TextsIn([]) == [];
    } else {
      var front, last := items[..|items| - 1], items[|items| - 1];
      EstimateIsSize(front);
      SizeSplits(front, [last]);
      SizeOfOne(last);
      assert items == front + [last];
    }
  }

  lemma SizeOfMany(items: seq<Item>)
    ensures Size(items) >= 2
  {
  }

  /** Fitting is inherited by every contiguous piece. */
  lemma FitsPiece(before: seq<Item>, piece: seq<Item>, after: seq<Item>, budget: real)
    requires Fits(before + piece + after, budget)
    ensures Fits(piece, budget)
  {
    SizeSplits(before + piece, after);
    SizeSplits(before, piece);
    SizeOfMany(before);
    SizeOfMany(after);
  }

  lemma FlattenAppend<T>(parts: seq<seq<T>>, part: seq<T>)
    ensures Flatten(parts + [part]) == Flatten(parts) + part
  {
    FlattenJoins(parts, [part]);
    FlattenOne(part);
  }

  /** Two ways to cut the same items in two. */
  lemma CutsAgree<T>(lead: seq<T>, more: seq<T>, first: seq<T>, rest: seq<T>)
    requires lead + more == first + rest
    ensures |first| <= |lead| ==> rest == lead[|first|..] + more
    ensures |first| > |lead| ==> |first| - |lead| <= |more|
    ensures |first| > |lead| ==> first == lead + more[..|first| - |lead|]
    ensures |first| > |lead| ==> rest == more[|first| - |lead|..]
  {
    var whole := lead + more;
    assert rest == whole[|first|..] && first == whole[..|first|];
    assert |whole| == |first| + |rest|;
  }

  lemma FlattenFromNext(greedy: seq<seq<Item>>, taken: nat)
    requires |greedy| > 1 && greedy[1] != [] && |greedy[0]| < taken <= |Flatten(greedy)|
    ensures var next := greedy[0] + [greedy[1][0]];
      |next| <= taken && Flatten(greedy)[..taken] == next + Flatten(greedy)[|next|..taken]
  {
    assert greedy[1..][0] == greedy[1];
    assert Flatten(greedy) == greedy[0] + Flatten(greedy[1..]);
    assert Flatten(greedy[1..])[0] == greedy[1][0];
  }

  /** A prompt that starts no later than the first batch ends no later than it. */
  lemma FirstBatchIsAhead(greedy: seq<seq<Item>>, lead: seq<Item>, taken: nat, budget: real)
    requires greedy != [] && Saturated(greedy, budget)
    requires taken <= |Flatten(greedy)| && Fits(lead + Flatten(greedy)[..taken], budget)
    ensures taken <= |greedy[0]|
  {
    if taken > |greedy[0]| {
      assert Flatten(greedy) == greedy[0] + Flatten(greedy[1..]);
      if greedy[1..] != [] {
        assert greedy[1..][0] == greedy[1];
        var next := greedy[0] + [greedy[1][0]];
        FlattenFromNext(greedy, taken);
        ConcatIsAssociative(lead, next, Flatten(greedy)[|next|..taken]);
        FitsPiece(lead, next, Flatten(greedy)[|next|..taken], budget);
      }
    }
  }

  lemma Tails(greedy: seq<seq<Item>>, other: seq<seq<Item>>, items: seq<Item>, budget: real)
    requires greedy != [] && Saturated(greedy, budget)
    requires other != [] && IsPartition(other, items, budget)
    ensures Saturated(greedy[1..], budget) && Flatten(greedy) == greedy[0] + Flatten(greedy[1..])
    ensures IsPartition(other[1..], Flatten(other[1..]), budget) && items == other[0] + Flatten(other[1..])
    ensures Fits(other[0], budget)
  {
  }

  lemma DropInto<T>(a: seq<T>, b: seq<T>, k: nat)
    requires k <= |a|
    ensures (a + b)[k..] == a[k..] + b
  {
  }

  /** Greedy stays ahead: a saturated packing of a suffix never needs more
      batches than any packing of the whole. */
  lemma {:induction false} SaturatedStaysAhead(
    greedy: seq<seq<Item>>, other: seq<seq<Item>>, lead: seq<Item>, budget: real)
    requires Saturated(greedy, budget)
    requires IsPartition(other, lead + Flatten(greedy), budget)
    ensures |greedy| <= |other|
    decreases |other|
  {
    if greedy != [] && other != [] {
      var first, rest := other[0], other[1..];
      Tails(greedy, other, lead + Flatten(greedy), budget);
      CutsAgree(lead, Flatten(greedy), first, Flatten(rest));
      if |first| <= |lead| {
        SaturatedStaysAhead(greedy, rest, lead[|first|..], budget);
      } else {
        FirstBatchIsAhead(greedy, lead, |first| - |lead|, budget);
        DropInto(greedy[0], Flatten(greedy[1..]), |first| - |lead|);
        SaturatedStaysAhead(greedy[1..], rest, greedy[0][|first| - |lead|..], budget);
      }
    }
  }

  lemma NoPartitionIsShorter(greedy: seq<seq<Item>>, items: seq<Item>, budget: real)
    requires Saturated(greedy, budget) && Flatten(greedy) == items
    ensures forall other :: IsPartition(other, items, budget) ==> |greedy| <= |other|
  {
    forall other | IsPartition(other, items, budget)
      ensures |greedy| <= |other|
    {
      assert [] + Flatten(greedy) == items;
      SaturatedStaysAhead(greedy, other, [], budget);
    }
  }

  /** Both ways of placing the next item keep the packing saturated. */
  lemma SaturatedStep(batches: seq<seq<Item>>, current: seq<Item>, item: Item, budget: real)
    requires current != [] && Saturated(batches + [current], budget)
    ensures Saturated(batches + [current + [item]], budget)
    ensures !Fits(current + [item], budget) ==> Saturated(batches + [current] + [[item]], budget)
  {
    var n := |batches|;
    var before, grown := batches + [current], batches + [current + [item]];
    assert forall i :: 0 <= i < n ==> before[i] == batches[i] && grown[i] == batches[i];
    assert before[n] == current && grown[n] == current + [item];
    forall i | 0 <= i < n
      ensures !Fits(grown[i] + [grown[i + 1][0]], budget)
    {
      assert grown[i + 1][0] == before[i + 1][0];
    }
    if !Fits(current + [item], budget) {
      var closed := before + [[item]];
      assert forall i :: 0 <= i <= n ==> closed[i] == before[i];
      forall i | 0 <= i <= n
        ensures !Fits(closed[i] + [closed[i + 1][0]], budget)
      {
        assert i < n ==> closed[i + 1] == before[i + 1];
      }
    }
  }

  /** The batches, as a function of the items: each item joins the last batch if it fits. */
  ghost function Pack(items: seq<Item>, budget: real): (batches: seq<seq<Item>>) {
    if items == [] then []
    else
      var earlier, item := Pack(items[..|items| - 1], budget), items[|items| - 1];
      var n := |earlier| - 1;
      if n >= 0 && Fits(earlier[n] + [item], budget) then earlier[..n] + [earlier[n] + [item]]
      else earlier + [[item]]
  }

  lemma PackNext(batches: seq<seq<Item>>, current: seq<Item>, taken: seq<Item>, item: Item, budget: real)
    requires Pack(taken, budget) == batches + [current]
    ensures Pack(taken + [item], budget)
         == if Fits(current + [item], budget) then batches + [current + [item]] else batches + [current] + [[item]]
  {
    assert (taken + [item])[..|taken|] == taken;
    assert (batches + [current])[..|batches|] == batches;
  }

  lemma PackFirst(item: Item, budget: real)
    ensures Pack([item], budget) == [[item]]
  {
    assert [item][..0] == [] && Pack([], budget) == [];
  }

  /** The finished batches and the current one hold `taken`, fit, and are saturated. */
  ghost predicate Packing(batches: seq<seq<Item>>, current: seq<Item>, taken: seq<Item>, budget: real) {
    && Flatten(batches) + current == taken
    && (if current == [] then batches == [] else Saturated(batches + [current], budget) && Pack(taken, budget) == batches + [current])
    && Fits(current, budget)
    && forall j :: 0 <= j < |batches| ==> Fits(batches[j], budget)
  }

  lemma GrowsByOne<T>(batches: seq<T>, current: seq<T>, item: T)
    ensures batches + (current + [item]) == batches + current + [item]
    ensures current == [] ==> current + [item] == [item]
  {
  }

  lemma PackingStarts(current: seq<Item>, taken: seq<Item>, item: Item, budget: real)
    requires Packing([], current, taken, budget) && current == [] && Fits([item], budget)
    ensures Packing([], [item], taken + [item], budget)
  {
    PackFirst(item, budget);
    assert taken == [] && taken + [item] == [item] && [] + [[item]] == [[item]];
  }

  lemma PackingGrows(batches: seq<seq<Item>>, current: seq<Item>, taken: seq<Item>, item: Item, budget: real)
    requires Packing(batches, current, taken, budget) && Fits(current + [item], budget)
    ensures Packing(batches, current + [item], taken + [item], budget)
  {
    GrowsByOne(Flatten(batches), current, item);
    if current != [] {
      SaturatedStep(batches, current, item, budget);
      PackNext(batches, current, taken, item, budget);
    } else {
      PackingStarts(current, taken, item, budget);
    }
  }

  lemma PackingCloses(batches: seq<seq<Item>>, current: seq<Item>, taken: seq<Item>, item: Item, budget: real)
    requires Packing(batches, current, taken, budget) && current != []
    requires !Fits(current + [item], budget) && Fits([item], budget)
    ensures Packing(batches + [current], [item], taken + [item], budget)
  {
    FlattenAppend(batches, current);
    SaturatedStep(batches, current, item, budget);
    PackNext(batches, current, taken, item, budget);
  }

  /** With the current batch closed, the packing is a partition, and no other is shorter. */
  lemma PackingEnds(batches: seq<seq<Item>>, current: seq<Item>, items: seq<Item>, budget: real)
    requires Packing(batches, current, items, budget)
    ensures var all := if current == [] then batches else batches + [current];
      && IsPartition(all, items, budget) && all == Pack(items, budget)
      && (forall i :: 0 <= i < |all| ==> all[i] != [])
      && forall other :: IsPartition(other, items, budget) ==> |all| <= |other|
  {
    if current == [] {
      assert items == [];
    } else {
      FlattenAppend(batches, current);
      NoPartitionIsShorter(batches + [current], items, budget);
    }
  }

  lemma {:induction false} PackIsPacking(items: seq<Item>, budget: real)
      returns (batches: seq<seq<Item>>, current: seq<Item>)
    ensures Packing(batches, current, items, budget) && (items != [] ==> current != [])
  {
    if items == [] {
      batches, current := [], [];
    } else {
      var front, item := items[..|items| - 1], items[|items| - 1];
      batches, current := PackIsPacking(front, budget);
      assert items == front + [item];
      RunningCount(current, item, budget);
      if Fits(current + [item], budget) {
        PackingGrows(batches, current, front, item, budget);
        current := current + [item];
      } else {
        assert current == [] ==> current + [item] == [item];
        PackingCloses(batches, current, front, item, budget);
        batches, current := batches + [current], [item];
      }
    }
  }

  /** The packed batches are a partition, none is empty, and no other partition is shorter. */
  lemma PackIsOptimal(items: seq<Item>, budget: real)
    ensures IsPartition(Pack(items, budget), items, budget)
    ensures forall i :: 0 <= i < |Pack(items, budget)| ==> Pack(items, budget)[i] != []
    ensures forall other :: IsPartition(other, items, budget) ==> |Pack(items, budget)| <= |other|
  {
    var batches, current := PackIsPacking(items, budget);
    PackingEnds(batches, current, items, budget);
  }

  /** What the running count of a batch stands at. */
  function Charged(batch: seq<Item>): nat {
    EstimateBatchChars(batch) + 2 * |batch|
  }

  /** The running character count decides exactly whether the next item fits. */
  lemma RunningCount(current: seq<Item>, item: Item, budget: real)
    ensures Charged([]) == 2 && Charged([item]) == 2 + EstimateBatchChars([item])
    ensures Charged(current + [item]) == Charged(current) + EstimateBatchChars([item])
    ensures Fits([item], budget)
    ensures (|current| > 0 && (Charged(current) + EstimateBatchChars([item])) as real > budget) || |current| >= MAX_BATCH_ITEMS
       <==> current != [] && !Fits(current + [item], budget)
  {
    EstimateIsSize([]);
    EstimateIsSize([item]);
    EstimateIsSize(current);
    EstimateIsSize(current + [item]);
    SizeSplits(current, [item]);
    assert current == [] ==> current + [item] == [item];
  }

  /** One turn of the loop: closes the current batch if the item overflows it. */
  method PlaceItem(
    batches0: seq<seq<Item>>, current0: seq<Item>, currentChars0: nat, item: Item, budget: real, ghost taken: seq<Item>)
    returns (batches: seq<seq<Item>>, current: seq<Item>, currentChars: nat)
    requires Packing(batches0, current0, taken, budget) && currentChars0 == Charged(current0)
    ensures Packing(batches, current, taken + [item], budget) && currentChars == Charged(current) && current != []
  {
    batches, current, currentChars := batches0, current0, currentChars0;
    var itemChars := EstimateBatchChars([item]);
    RunningCount(current, item, budget);
    var wouldOverflow := |current| > 0 && (currentChars + itemChars) as real > budget;
    var reachedMaxItems := |current| >= MAX_BATCH_ITEMS;
    if wouldOverflow || reachedMaxItems {
      PackingCloses(batches, current, taken, item, budget);
      batches := batches + [current];
      current := [];
      currentChars := 2;
      assert [] + [item] == [item];
    } else {
      assert current == [] ==> current + [item] == [item];
      PackingGrows(batches, current, taken, item, budget);
    }
    current := current + [item];
    currentChars := currentChars + itemChars;
  }

  lemma AllWithinBudget(batches: seq<seq<Item>>, items: seq<Item>, budget: real)
    requires IsPartition(batches, items, budget)
    ensures forall i :: 0 <= i < |batches| ==>
      |batches[i]| <= 20 && (|batches[i]| >= 2 ==>
        (|Flatten(KeysIn(batches[i]))| + |Flatten(TextsIn(batches[i]))| + 10 * |batches[i]| + 2) as real <= budget)
  {
    forall i | 0 <= i < |batches|
      ensures Fits(batches[i], budget)
    {
    }
  }

  /** Packs the items in order into as few prompts as the limits allow. */
  method BuildTranslationBatches(items: seq<Item>, budget: real) returns (batches: seq<seq<Item>>)
    requires budget > 0.0
    ensures IsPartition(batches, items, budget)
    ensures forall i :: 0 <= i < |batches| ==> batches[i] != []
    ensures forall other :: IsPartition(other, items, budget) ==> |batches| <= |other|
    ensures forall i :: 0 <= i < |batches| ==>
      |batches[i]| <= 20 && (|batches[i]| >= 2 ==>
        (|Flatten(KeysIn(batches[i]))| + |Flatten(TextsIn(batches[i]))| + 10 * |batches[i]| + 2) as real <= budget)
    ensures batches == Pack(items, budget)
  {
    var current;
    batches, current := PlaceItems(items, budget);
    PackingEnds(batches, current, items, budget);
    if |current| > 0 {
      batches := batches + [current];
    }
    AllWithinBudget(batches, items, budget);
  }

  /** The loop, which leaves the last batch open. */
  method PlaceItems(items: seq<Item>, budget: real) returns (batches: seq<seq<Item>>, current: seq<Item>)
    requires budget > 0.0
    ensures Packing(batches, current, items, budget)
  {
    batches, current := [], [];
    var currentChars := 2;
    for i := 0 to |items|
      invariant Packing(batches, current, items[..i], budget) && currentChars == Charged(current)
    {
      assert items[..i + 1] == items[..i] + [items[i]];
      batches, current, currentChars := PlaceItem(batches, current, currentChars, items[i], budget, items[..i]);
    }
    assert items[..|items|] == items;
  }
}
