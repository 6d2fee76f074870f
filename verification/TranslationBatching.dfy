/** Greedy packing of the strings that wait for translation into prompts
    (`buildTranslationBatches`). */
module TranslationBatching {

  const MAX_BATCH_ITEMS := 20

  datatype Item = Item(cacheKey: string, key: string, text: string, textHash: string)

  /** The estimated size of the JSON object that carries `items`. */
  function EstimateBatchChars(items: seq<Item>): nat {
    if items == [] then 2
    else EstimateBatchChars(items[..|items| - 1]) + |items[|items| - 1].key| + |items[|items| - 1].text| + 8
  }

  /** The lengths of all keys and texts together. */
  function Letters(items: seq<Item>): nat {
    if items == [] then 0 else |items[0].key| + |items[0].text| + Letters(items[1..])
  }

  lemma {:induction false} LettersAppend(items: seq<Item>, last: Item)
    ensures Letters(items + [last]) == Letters(items) + |last.key| + |last.text|
  {
    if items == [] {
      assert items + [last] == [last] && [last][1..] == [];
    } else {
      assert (items + [last])[1..] == items[1..] + [last];
      LettersAppend(items[1..], last);
    }
  }

  /** The estimate is the two braces, and for each item its letters and eight more. */
  lemma {:induction false} EstimateIsSum(items: seq<Item>)
    ensures EstimateBatchChars(items) == 2 + Letters(items) + 8 * |items|
  {
    if items != [] {
      var init, last := items[..|items| - 1], items[|items| - 1];
      EstimateIsSum(init);
      LettersAppend(init, last);
      assert items == init + [last];
    }
  }

  /** A batch is legal by its number of items and their letters alone: the loop counts
      ten characters besides for each item and two for the whole. */
  lemma FitsExactly(batch: seq<Item>, budget: real)
    ensures Fits(batch, budget) <==>
            |batch| == 1 || (2 <= |batch| <= 20 && (2 + Letters(batch) + 10 * |batch|) as real <= budget)
  {
    EstimateIsSum(batch);
  }

  /** The size the packing loop tracks: every item brings the two characters of
      its own singleton estimate along. */
  ghost function TrackedChars(items: seq<Item>): nat {
    EstimateBatchChars(items) + 2 * |items|
  }

  /** A legal batch: 1 to 20 items, and within the budget unless it is a single item. */
  ghost predicate Fits(batch: seq<Item>, budget: real) {
    1 <= |batch| <= MAX_BATCH_ITEMS && (|batch| >= 2 ==> TrackedChars(batch) as real <= budget)
  }

  function Concat<T>(parts: seq<seq<T>>): seq<T> {
    if parts == [] then [] else Concat(parts[..|parts| - 1]) + parts[|parts| - 1]
  }

  ghost predicate IsPacking(batches: seq<seq<Item>>, items: seq<Item>, budget: real) {
    Concat(batches) == items && forall i | 0 <= i < |batches| :: Fits(batches[i], budget)
  }

  /** No batch could have taken the first item of the batch after it. */
  ghost predicate IsGreedy(batches: seq<seq<Item>>, budget: real) {
    forall i | 0 < i < |batches| :: IsFullAt(batches, i, budget)
  }

  ghost predicate IsFullAt(batches: seq<seq<Item>>, i: int, budget: real)
    requires 0 < i < |batches|
  {
    IsFullBefore(batches[i - 1], batches[i], budget)
  }

  ghost predicate IsFullBefore(batch: seq<Item>, next: seq<Item>, budget: real) {
    next != [] && !Fits(batch + [next[0]], budget)
  }

  /** The greedy packing: each item joins the last batch if it still fits there. */
  ghost function Packed(items: seq<Item>, budget: real): seq<seq<Item>> {
    if items == [] then []
    else
      var init, item := Packed(items[..|items| - 1], budget), items[|items| - 1];
      if init != [] && Fits(init[|init| - 1] + [item], budget)
      then init[..|init| - 1] + [init[|init| - 1] + [item]]
      else init + [[item]]
  }

  method BuildTranslationBatches(items: seq<Item>, budget: real) returns (batches: seq<seq<Item>>)
    ensures batches == Packed(items, budget)
    ensures IsPacking(batches, items, budget)
    ensures IsGreedy(batches, budget)
    ensures forall other :: IsPacking(other, items, budget) ==> |batches| <= |other|
  {
    batches := [];
    var current: seq<Item> := [];
    var currentChars := 2;
    for i := 0 to |items|
      invariant Packed(items[..i], budget) == WithOpen(batches, current)
      invariant IsOpen(batches, current, currentChars, budget)
    {
      var item := items[i];
      var itemChars := EstimateBatchChars([item]);
      var wouldOverflow := |current| > 0 && (currentChars + itemChars) as real > budget;
      var reachedMaxItems := |current| >= MAX_BATCH_ITEMS;
      PackOne(batches, current, currentChars, items, i, budget);
      if wouldOverflow || reachedMaxItems {
        batches := batches + [current];
        current := [];
        currentChars := 2;
        assert current + [item] == [item];
      }
      current := current + [item];
      currentChars := currentChars + itemChars;
    }
    assert items[..|items|] == items;
    if |current| > 0 {
      batches := batches + [current];
    }
    PackedIsGreedy(items, budget);
  }

  /** The closed batches, and the open one if there is one. */
  function WithOpen(batches: seq<seq<Item>>, current: seq<Item>): seq<seq<Item>> {
    if current == [] then batches else batches + [current]
  }

  ghost predicate IsOpen(batches: seq<seq<Item>>, current: seq<Item>, currentChars: nat, budget: real) {
    && currentChars == TrackedChars(current)
    && (if current == [] then batches == [] else Fits(current, budget))
  }

  /** One turn of the loop. */
  lemma PackOne(batches: seq<seq<Item>>, current: seq<Item>, currentChars: nat, items: seq<Item>, i: nat, budget: real)
    requires i < |items| && Packed(items[..i], budget) == WithOpen(batches, current)
    requires IsOpen(batches, current, currentChars, budget)
    ensures var item, itemChars := items[i], EstimateBatchChars([items[i]]);
            if (|current| > 0 && (currentChars + itemChars) as real > budget) || |current| >= MAX_BATCH_ITEMS
            then && Packed(items[..i + 1], budget) == WithOpen(batches + [current], [item])
                 && IsOpen(batches + [current], [item], 2 + itemChars, budget)
            else && Packed(items[..i + 1], budget) == WithOpen(batches, current + [item])
                 && IsOpen(batches, current + [item], currentChars + itemChars, budget)
  {
    AddItem(current, items[i], currentChars, EstimateBatchChars([items[i]]), budget);
    assert items[..i + 1][..i] == items[..i];
    if current == [] {
      assert current + [items[i]] == [items[i]];
    } else {
      var init := batches + [current];
      assert init[..|init| - 1] == batches && init[|init| - 1] == current;
    }
  }

  /** The greedy packing is legal, greedy, and uses as few batches as possible. */
  lemma PackedIsGreedy(items: seq<Item>, budget: real)
    ensures IsPacking(Packed(items, budget), items, budget) && IsGreedy(Packed(items, budget), budget)
    ensures forall other :: IsPacking(other, items, budget) ==> |Packed(items, budget)| <= |other|
  {
    if items != [] {
      var all := Packed(items, budget);
      PackedBuilds(items, budget);
      assert all == all[..|all| - 1] + [all[|all| - 1]];
      CloseBatch(all[..|all| - 1], all[|all| - 1], budget);
    }
    NoPackingUsesFewer(Packed(items, budget), items, budget);
  }

  /** Its last batch is still open, all others are closed. */
  lemma {:induction false} PackedBuilds(items: seq<Item>, budget: real)
    requires items != []
    ensures var all := Packed(items, budget);
            all != [] && all[|all| - 1] != [] && Builds(all[..|all| - 1], all[|all| - 1], items, budget)
  {
    var n := |items| - 1;
    assert items == items[..n] + [items[n]];
    if n == 0 {
      assert Packed(items, budget) == [[items[0]]];
      Grow([], [], [], items[0], budget);
      assert [] + [items[0]] == [items[0]] == items;
    } else {
      var init := Packed(items[..n], budget);
      PackedBuilds(items[..n], budget);
      Grow(init[..|init| - 1], init[|init| - 1], items[..n], items[n], budget);
      assert init == init[..|init| - 1] + [init[|init| - 1]];
    }
  }

  /** The batch under construction: legal, and begun only when the one before it was full. */
  ghost predicate IsOpenBatch(batches: seq<seq<Item>>, current: seq<Item>, budget: real) {
    if current == [] then batches == []
    else Fits(current, budget) && (batches != [] ==> IsFullBefore(batches[|batches| - 1], current, budget))
  }

  /** The closed batches and the open one hold `seen`, packed greedily. */
  ghost predicate Builds(batches: seq<seq<Item>>, current: seq<Item>, seen: seq<Item>, budget: real) {
    && IsPacking(batches, Concat(batches), budget) && IsGreedy(batches, budget)
    && Concat(batches) + current == seen
    && IsOpenBatch(batches, current, budget)
  }

  lemma Grow(batches: seq<seq<Item>>, current: seq<Item>, seen: seq<Item>, item: Item, budget: real)
    requires Builds(batches, current, seen, budget)
    ensures Fits(current + [item], budget) ==> Builds(batches, current + [item], seen + [item], budget)
    ensures current != [] && !Fits(current + [item], budget) ==>
              Builds(batches + [current], [item], seen + [item], budget)
  {
    assert Concat(batches) + (current + [item]) == seen + [item];
    if current == [] {
      assert current + [item] == [item];
    } else if Fits(current + [item], budget) {
      assert (current + [item])[0] == current[0];
    } else {
      CloseBatch(batches, current, budget);
    }
  }

  lemma CloseBatch(batches: seq<seq<Item>>, current: seq<Item>, budget: real)
    requires IsPacking(batches, Concat(batches), budget) && IsGreedy(batches, budget)
    requires current != [] && IsOpenBatch(batches, current, budget)
    ensures var more := batches + [current];
            && IsPacking(more, Concat(batches) + current, budget)
            && IsGreedy(more, budget)
  {
    ConcatAppend(batches, current);
    GreedyAppend(batches, current, budget);
  }

  /** The two tests of the loop decide exactly whether the item still fits. */
  lemma AddItem(current: seq<Item>, item: Item, currentChars: nat, itemChars: nat, budget: real)
    requires currentChars == TrackedChars(current) && itemChars == EstimateBatchChars([item])
    requires current != [] ==> Fits(current, budget)
    ensures TrackedChars(current + [item]) == currentChars + itemChars
    ensures TrackedChars([item]) == 2 + itemChars
    ensures Fits([item], budget)
    ensures Fits(current + [item], budget) <==>
            !(|current| > 0 && (currentChars + itemChars) as real > budget) && |current| < MAX_BATCH_ITEMS
  {
    TrackedAppend(current, item);
    TrackedAppend([], item);
    assert [] + [item] == [item];
  }

  lemma ConcatAppend<T>(parts: seq<seq<T>>, last: seq<T>)
    ensures Concat(parts + [last]) == Concat(parts) + last
  {
    assert (parts + [last])[..|parts|] == parts;
  }

  lemma GreedyAppend(batches: seq<seq<Item>>, batch: seq<Item>, budget: real)
    requires IsGreedy(batches, budget)
    requires batches != [] ==> IsFullBefore(batches[|batches| - 1], batch, budget)
    ensures IsGreedy(batches + [batch], budget)
  {
    var more := batches + [batch];
    forall i | 0 < i < |more| ensures IsFullAt(more, i, budget) {
      assert i < |batches| ==> IsFullAt(batches, i, budget);
    }
  }

  lemma TrackedAppend(batch: seq<Item>, item: Item)
    ensures TrackedChars(batch + [item]) == TrackedChars(batch) + EstimateBatchChars([item])
  {
    assert (batch + [item])[..|batch|] == batch;
    assert [item][..0] == [];
  }

  lemma FrontOfSlice<T>(s: seq<T>, lo: nat, hi: nat)
    requires lo < hi <= |s|
    ensures s[lo..hi][..hi - lo - 1] == s[..|s| - 1][lo..hi - 1]
    ensures s[lo..hi][hi - lo - 1] == s[hi - 1]
  {
    var part, whole := s[lo..hi][..hi - lo - 1], s[..|s| - 1][lo..hi - 1];
    assert |part| == |whole| && forall i | 0 <= i < |part| :: part[i] == whole[i];
  }

  lemma {:induction false} TrackedMonotone(batch: seq<Item>, lo: nat, hi: nat)
    requires lo <= hi <= |batch|
    ensures TrackedChars(batch[lo..hi]) <= TrackedChars(batch)
    decreases |batch|
  {
    if hi < |batch| {
      var shorter := batch[..|batch| - 1];
      TrackedMonotone(shorter, lo, hi);
      assert shorter[lo..hi] == batch[lo..hi];
    } else if lo < hi {
      var shorter := batch[..|batch| - 1];
      TrackedMonotone(shorter, lo, hi - 1);
      FrontOfSlice(batch, lo, hi);
    }
  }

  /** A non-empty contiguous part of a legal batch is legal. */
  lemma FitsSlice(batch: seq<Item>, lo: nat, hi: nat, budget: real)
    requires Fits(batch, budget) && lo < hi <= |batch|
    ensures Fits(batch[lo..hi], budget)
  {
    TrackedMonotone(batch, lo, hi);
  }

  lemma {:induction false} ConcatSplit<T>(parts: seq<seq<T>>, k: nat)
    requires k < |parts|
    ensures var before := Concat(parts[..k]);
            && |before| + |parts[k]| <= |Concat(parts)|
            && Concat(parts)[|before|..|before| + |parts[k]|] == parts[k]
            && Concat(parts[..k + 1]) == before + parts[k]
    decreases |parts|
  {
    assert parts[..k + 1][..k] == parts[..k];
    if k < |parts| - 1 {
      var init := parts[..|parts| - 1];
      ConcatSplit(init, k);
      assert init[..k] == parts[..k];
    }
  }

  lemma SliceOfSlice<T>(s: seq<T>, from: nat, length: nat, lo: nat, hi: nat)
    requires lo <= hi <= length && from + length <= |s|
    ensures s[from..from + length][lo..hi] == s[from + lo..from + hi]
  {
    var part, whole := s[from..from + length][lo..hi], s[from + lo..from + hi];
    assert |part| == |whole| && forall i | 0 <= i < |part| :: part[i] == whole[i];
  }

  /** A legal batch that starts no later than a full one ends no later. */
  lemma FullBatchReachesFurther(items: seq<Item>, full: seq<Item>, g: nat, rival: seq<Item>, o: nat, budget: real)
    requires o <= g && g + |full| < |items| && o + |rival| <= |items|
    requires items[g..g + |full|] == full && items[o..o + |rival|] == rival
    requires Fits(rival, budget) && !Fits(full + [items[g + |full|]], budget)
    ensures g + |full| >= o + |rival|
  {
    var end := g + |full|;
    if end < o + |rival| {
      assert items[g..end + 1] == full + [items[end]];
      var lo, hi := g - o, end + 1 - o;
      SliceOfSlice(items, o, |rival|, lo, hi);
      FitsSlice(rival, lo, hi, budget);
    }
  }

  /** Greedy stays ahead: its first `k` batches cover at least what the first
      `k` batches of any other packing cover. */
  lemma {:induction false} GreedyStaysAhead(greedy: seq<seq<Item>>, other: seq<seq<Item>>,
                                            items: seq<Item>, budget: real, k: nat)
    requires IsPacking(greedy, items, budget) && IsPacking(other, items, budget)
    requires IsGreedy(greedy, budget)
    requires k <= |greedy| && k <= |other|
    ensures |Concat(greedy[..k])| >= |Concat(other[..k])|
    decreases k
  {
    if k == |greedy| {
      assert greedy[..k] == greedy;
      if k < |other| { ConcatSplit(other, k); } else { assert other[..k] == other; }
    } else if k > 0 {
      GreedyStaysAhead(greedy, other, items, budget, k - 1);
      BatchAhead(greedy, other, items, budget, k);
    }
  }

  lemma BatchAhead(greedy: seq<seq<Item>>, other: seq<seq<Item>>, items: seq<Item>, budget: real, k: nat)
    requires IsPacking(greedy, items, budget) && IsPacking(other, items, budget) && IsGreedy(greedy, budget)
    requires 0 < k < |greedy| && k <= |other|
    requires |Concat(greedy[..k - 1])| >= |Concat(other[..k - 1])|
    ensures |Concat(greedy[..k])| >= |Concat(other[..k])|
  {
    var g, o := |Concat(greedy[..k - 1])|, |Concat(other[..k - 1])|;
    ConcatSplit(greedy, k - 1);
    ConcatSplit(other, k - 1);
    NextItem(greedy, items, k, budget);
    assert Fits(other[k - 1], budget);
    FullBatchReachesFurther(items, greedy[k - 1], g, other[k - 1], o, budget);
  }

  lemma NextItem(greedy: seq<seq<Item>>, items: seq<Item>, k: nat, budget: real)
    requires IsPacking(greedy, items, budget) && IsGreedy(greedy, budget) && 0 < k < |greedy|
    ensures |Concat(greedy[..k])| < |items|
    ensures !Fits(greedy[k - 1] + [items[|Concat(greedy[..k])|]], budget)
  {
    ConcatSplit(greedy, k);
    assert IsFullAt(greedy, k, budget);
    var at := |Concat(greedy[..k])|;
    assert items[at] == items[at..at + |greedy[k]|][0];
  }

  /** Greedy packing is optimal: no legal packing of the same items in the same
      order uses fewer batches. */
  lemma GreedyUsesFewest(greedy: seq<seq<Item>>, other: seq<seq<Item>>, items: seq<Item>, budget: real)
    requires IsPacking(greedy, items, budget) && IsPacking(other, items, budget)
    requires IsGreedy(greedy, budget)
    ensures |greedy| <= |other|
  {
    if |greedy| > |other| {
      assert Fits(greedy[|other|], budget);
      assert other[..|other|] == other;
      GreedyStaysAhead(greedy, other, items, budget, |other|);
      ConcatSplit(greedy, |other|);
    }
  }

  lemma NoPackingUsesFewer(greedy: seq<seq<Item>>, items: seq<Item>, budget: real)
    requires IsPacking(greedy, items, budget) && IsGreedy(greedy, budget)
    ensures forall other :: IsPacking(other, items, budget) ==> |greedy| <= |other|
  {
    forall other | IsPacking(other, items, budget) ensures |greedy| <= |other| {
      GreedyUsesFewest(greedy, other, items, budget);
    }
  }
}
