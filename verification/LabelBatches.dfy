/**
 * Fetching open issues or pull requests page by page and handing them on in work batches
 * (scripts/label-open-issues.ts).
 */
module LabelBatches {
  import opened Outcomes

  const WORK_BATCH_SIZE := 500

  datatype LabelItem = LabelItem(number: int, labels: seq<string>)

  /** One answer of the page query; the next page exists exactly when `hasNextPage` says so. */
  datatype Page = Page(nodes: seq<LabelItem>, hasNextPage: bool)

  datatype Batch = Batch(batchIndex: nat, items: seq<LabelItem>, fetchedCount: nat)

  /** No limit is None. */
  predicate Below(count: nat, limit: Option<nat>) {
    limit.None? || count < limit.value
  }

  function Take(items: seq<LabelItem>, limit: Option<nat>): seq<LabelItem> {
    if limit.Some? && limit.value < |items| then items[..limit.value] else items
  }

  function NodesOf(pages: seq<Page>): seq<LabelItem> {
    if pages == [] then [] else NodesOf(pages[..|pages| - 1]) + pages[|pages| - 1].nodes
  }

  /** The pages that following `hasNextPage` leads to. */
  function Chain(pages: seq<Page>): seq<Page> {
    if pages == [] || !pages[0].hasNextPage then pages[..if pages == [] then 0 else 1]
    else [pages[0]] + Chain(pages[1..])
  }

  /** The first `n` pages each promise another one. */
  ghost predicate AllPromise(pages: seq<Page>, n: nat)
    requires n <= |pages|
  {
    forall i | 0 <= i < n :: pages[i].hasNextPage
  }

  /** The query gives out before the limit is reached: every page served promised another one. */
  ghost predicate GivesOut(pages: seq<Page>, limit: Option<nat>) {
    AllPromise(pages, |pages|) && Below(|NodesOf(pages)|, limit)
  }

  function ItemsOf(batches: seq<Batch>): seq<LabelItem> {
    if batches == [] then [] else ItemsOf(batches[..|batches| - 1]) + batches[|batches| - 1].items
  }

  ghost predicate IsNumbered(batches: seq<Batch>) {
    forall i | 0 <= i < |batches| ::
      batches[i].batchIndex == i + 1 && batches[i].fetchedCount == |ItemsOf(batches[..i + 1])|
  }

  ghost predicate AllFull(batches: seq<Batch>) {
    forall i | 0 <= i < |batches| :: |batches[i].items| == WORK_BATCH_SIZE
  }

  /** Every batch is full, but the last may be shorter; none is empty. */
  ghost predicate IsBatching(batches: seq<Batch>) {
    && IsNumbered(batches)
    && (batches != [] ==>
          AllFull(batches[..|batches| - 1]) && 0 < |batches[|batches| - 1].items| <= WORK_BATCH_SIZE)
  }

  lemma TakeOne(items: seq<LabelItem>, item: LabelItem, limit: Option<nat>)
    ensures Below(|Take(items, limit)|, limit) ==> Take(items + [item], limit) == Take(items, limit) + [item]
    ensures !Below(|Take(items, limit)|, limit) ==> Take(items + [item], limit) == Take(items, limit)
  {
  }

  lemma TakeNoMore(items: seq<LabelItem>, more: seq<LabelItem>, limit: Option<nat>)
    requires !Below(|Take(items, limit)|, limit)
    ensures Take(items + more, limit) == Take(items, limit)
  {
  }

  lemma ItemsAppend(batches: seq<Batch>, last: Batch)
    ensures ItemsOf(batches + [last]) == ItemsOf(batches) + last.items
  {
    assert (batches + [last])[..|batches|] == batches;
  }

  lemma NodesAppend(pages: seq<Page>, n: nat)
    requires n < |pages|
    ensures NodesOf(pages[..n + 1]) == NodesOf(pages[..n]) + pages[n].nodes
  {
    assert pages[..n + 1][..n] == pages[..n];
  }

  /** Every node of every page has its place, after the nodes of all pages before, and there
      are no others. */
  lemma {:induction false} NodesAt(pages: seq<Page>, i: nat, j: nat)
    requires i < |pages| && j < |pages[i].nodes|
    ensures |NodesOf(pages[..i])| + j < |NodesOf(pages)|
    ensures NodesOf(pages)[|NodesOf(pages[..i])| + j] == pages[i].nodes[j]
    ensures |NodesOf(pages)| == |NodesOf(pages[..|pages| - 1])| + |pages[|pages| - 1].nodes|
  {
    var n := |pages| - 1;
    if i < n {
      NodesAt(pages[..n], i, j);
      assert pages[..n][..i] == pages[..i];
    }
  }

  lemma {:induction false} ChainEndsAt(pages: seq<Page>, n: nat)
    requires n <= |pages| && AllPromise(pages, n)
    ensures n < |pages| && !pages[n].hasNextPage ==> Chain(pages) == pages[..n + 1]
    ensures n == |pages| ==> Chain(pages) == pages
    ensures pages[..n] <= Chain(pages)
  {
    if n > 0 {
      ChainEndsAt(pages[1..], n - 1);
      assert pages[..n] == [pages[0]] + pages[1..][..n - 1];
      assert n < |pages| ==> pages[..n + 1] == [pages[0]] + pages[1..][..n];
      assert pages == [pages[0]] + pages[1..];
    }
  }

  lemma NumberOne(batches: seq<Batch>, items: seq<LabelItem>)
    requires IsNumbered(batches)
    ensures IsNumbered(batches + [Batch(|batches| + 1, items, |ItemsOf(batches)| + |items|)])
  {
    var last := Batch(|batches| + 1, items, |ItemsOf(batches)| + |items|);
    var longer := batches + [last];
    ItemsAppend(batches, last);
    forall i | 0 <= i < |longer|
      ensures longer[i].batchIndex == i + 1 && longer[i].fetchedCount == |ItemsOf(longer[..i + 1])|
    {
      if i == |batches| {
        assert longer[..i + 1] == longer;
      } else {
        assert longer[..i + 1] == batches[..i + 1];
        assert longer[i] == batches[i];
      }
    }
  }

  /** What the generator has yielded and still holds, after the nodes `seen`. */
  ghost predicate Holds(batches: seq<Batch>, results: seq<LabelItem>, fetchedCount: nat,
                        seen: seq<LabelItem>, limit: Option<nat>) {
    && IsNumbered(batches) && AllFull(batches) && |results| < WORK_BATCH_SIZE
    && ItemsOf(batches) + results == Take(seen, limit)
    && fetchedCount == |Take(seen, limit)|
  }

  lemma HoldsMore(batches: seq<Batch>, results: seq<LabelItem>, fetchedCount: nat,
                  seen: seq<LabelItem>, more: seq<LabelItem>, limit: Option<nat>)
    requires Holds(batches, results, fetchedCount, seen, limit) && !Below(fetchedCount, limit)
    ensures Holds(batches, results, fetchedCount, seen + more, limit)
  {
    TakeNoMore(seen, more, limit);
  }

  method Receive(batches: seq<Batch>, results: seq<LabelItem>, fetchedCount: nat, item: LabelItem,
                 ghost seen: seq<LabelItem>, limit: Option<nat>)
    returns (nextBatches: seq<Batch>, nextResults: seq<LabelItem>)
    requires Holds(batches, results, fetchedCount, seen, limit) && Below(fetchedCount, limit)
    ensures Holds(nextBatches, nextResults, fetchedCount + 1, seen + [item], limit)
  {
    TakeOne(seen, item, limit);
    nextBatches, nextResults := batches, results + [item];
    assert ItemsOf(batches) + nextResults == ItemsOf(batches) + results + [item];
    if |nextResults| >= WORK_BATCH_SIZE {
      Yielded(batches, nextResults, fetchedCount + 1, seen + [item], limit);
      nextBatches := batches + [Batch(|batches| + 1, nextResults, fetchedCount + 1)];
      nextResults := [];
    }
  }

  lemma Yielded(batches: seq<Batch>, results: seq<LabelItem>, fetchedCount: nat, seen: seq<LabelItem>,
                limit: Option<nat>)
    requires IsNumbered(batches) && AllFull(batches) && |results| == WORK_BATCH_SIZE
    requires ItemsOf(batches) + results == Take(seen, limit) && fetchedCount == |Take(seen, limit)|
    ensures Holds(batches + [Batch(|batches| + 1, results, fetchedCount)], [], fetchedCount, seen, limit)
  {
    var more := batches + [Batch(|batches| + 1, results, fetchedCount)];
    NumberOne(batches, results);
    ItemsAppend(batches, Batch(|batches| + 1, results, fetchedCount));
    assert ItemsOf(more) + [] == ItemsOf(more);
  }

  /** The full batches that fit in a list, and the rest. */
  function WholeBatches(items: seq<LabelItem>): seq<LabelItem> {
    items[..|items| - |items| % WORK_BATCH_SIZE]
  }

  lemma {:induction false} FullBatchesCount(batches: seq<Batch>)
    requires AllFull(batches)
    ensures |ItemsOf(batches)| == WORK_BATCH_SIZE * |batches|
  {
    if batches != [] {
      FullBatchesCount(batches[..|batches| - 1]);
    }
  }

  /** All pages there are have been seen, or no more are wanted. */
  ghost predicate IsComplete(pages: seq<Page>, batches: seq<Batch>, results: seq<LabelItem>, fetchedCount: nat,
                             limit: Option<nat>) {
    Holds(batches, results, fetchedCount, NodesOf(Chain(pages)), limit) && !GivesOut(pages, limit)
  }

  lemma LastPageCompletes(pages: seq<Page>, page: nat, batches: seq<Batch>, results: seq<LabelItem>,
                          fetchedCount: nat, limit: Option<nat>)
    requires page < |pages| && !pages[page].hasNextPage && AllPromise(pages, page)
    requires Holds(batches, results, fetchedCount, NodesOf(pages[..page + 1]), limit)
    ensures IsComplete(pages, batches, results, fetchedCount, limit)
  {
    ChainEndsAt(pages, page);
  }

  lemma {:induction false} NodesOfLonger(pages: seq<Page>, n: nat, m: nat)
    requires n <= m <= |pages|
    ensures NodesOf(pages[..n]) <= NodesOf(pages[..m])
  {
    if n < m {
      NodesOfLonger(pages, n, m - 1);
      NodesAppend(pages, m - 1);
    }
  }

  lemma LimitCompletes(pages: seq<Page>, page: nat, batches: seq<Batch>, results: seq<LabelItem>,
                       fetchedCount: nat, limit: Option<nat>)
    requires page <= |pages| && AllPromise(pages, page)
    requires Holds(batches, results, fetchedCount, NodesOf(pages[..page]), limit) && !Below(fetchedCount, limit)
    ensures IsComplete(pages, batches, results, fetchedCount, limit)
  {
    var chain, seen := Chain(pages), NodesOf(pages[..page]);
    ChainEndsAt(pages, page);
    NodesOfLonger(chain, page, |chain|);
    assert chain[..page] == pages[..page] && chain[..|chain|] == chain;
    var more := NodesOf(chain)[|seen|..];
    assert NodesOf(chain) == seen + more;
    HoldsMore(batches, results, fetchedCount, seen, more, limit);
    NodesOfLonger(pages, page, |pages|);
    assert pages[..|pages|] == pages;
  }

  lemma GaveOut(pages: seq<Page>, batches: seq<Batch>, results: seq<LabelItem>, fetchedCount: nat, limit: Option<nat>)
    requires AllPromise(pages, |pages|)
    requires Holds(batches, results, fetchedCount, NodesOf(pages), limit) && Below(fetchedCount, limit)
    ensures GivesOut(pages, limit)
    ensures ItemsOf(batches) == WholeBatches(Take(NodesOf(Chain(pages)), limit))
  {
    ChainEndsAt(pages, |pages|);
    FullBatchesCount(batches);
    WholePrefix(ItemsOf(batches), results, |batches|);
  }

  lemma WholePrefix(full: seq<LabelItem>, rest: seq<LabelItem>, n: nat)
    requires |full| == WORK_BATCH_SIZE * n && |rest| < WORK_BATCH_SIZE
    ensures WholeBatches(full + rest) == full
  {
    assert |full + rest| % WORK_BATCH_SIZE == |rest|;
  }

  /** The rest becomes the last, shorter batch. */
  method YieldRest(batches: seq<Batch>, results: seq<LabelItem>, fetchedCount: nat,
                   ghost seen: seq<LabelItem>, limit: Option<nat>) returns (all: seq<Batch>)
    requires Holds(batches, results, fetchedCount, seen, limit)
    ensures ItemsOf(all) == Take(seen, limit) && IsBatching(all)
  {
    all := batches;
    if results != [] {
      all := batches + [Batch(|batches| + 1, results, fetchedCount)];
      NumberOne(batches, results);
      ItemsAppend(batches, Batch(|batches| + 1, results, fetchedCount));
      assert all[..|all| - 1] == batches;
    } else {
      assert ItemsOf(batches) + results == ItemsOf(batches);
    }
  }

  /** Takes the nodes of one page until the limit is reached. */
  method ReceivePage(batches: seq<Batch>, results: seq<LabelItem>, fetchedCount: nat, nodes: seq<LabelItem>,
                     ghost seen: seq<LabelItem>, limit: Option<nat>)
    returns (nextBatches: seq<Batch>, nextResults: seq<LabelItem>, nextFetched: nat)
    requires Holds(batches, results, fetchedCount, seen, limit)
    ensures Holds(nextBatches, nextResults, nextFetched, seen + nodes, limit)
  {
    nextBatches, nextResults, nextFetched := batches, results, fetchedCount;
    var i := 0;
    assert seen + nodes[..0] == seen;
    while i < |nodes| && Below(nextFetched, limit)
      invariant i <= |nodes|
      invariant Holds(nextBatches, nextResults, nextFetched, seen + nodes[..i], limit)
    {
      assert seen + nodes[..i + 1] == seen + nodes[..i] + [nodes[i]];
      nextBatches, nextResults := Receive(nextBatches, nextResults, nextFetched, nodes[i], seen + nodes[..i], limit);
      nextFetched := nextFetched + 1;
      i := i + 1;
    }
    assert seen + nodes == seen + nodes[..i] + nodes[i..];
    if i == |nodes| {
      assert nodes[..i] == nodes;
    } else {
      HoldsMore(nextBatches, nextResults, nextFetched, seen + nodes[..i], nodes[i..], limit);
    }
  }

  /** Page after page, until there are no more, no more are wanted, or the query throws. */
  method FetchPages(pages: seq<Page>, limit: Option<nat>)
    returns (batches: seq<Batch>, results: seq<LabelItem>, fetchedCount: nat, failed: bool)
    ensures failed ==> GivesOut(pages, limit) && Holds(batches, results, fetchedCount, NodesOf(pages), limit)
    ensures !failed ==> IsComplete(pages, batches, results, fetchedCount, limit)
  {
    batches, results, fetchedCount, failed := [], [], 0, false;
    var page := 0;
    while Below(fetchedCount, limit)
      invariant !failed && page <= |pages| && AllPromise(pages, page)
      invariant Holds(batches, results, fetchedCount, NodesOf(pages[..page]), limit)
      decreases |pages| - page
    {
      if page == |pages| {
        assert pages[..page] == pages;
        failed := true;
        return;
      }
      batches, results, fetchedCount :=
        ReceivePage(batches, results, fetchedCount, pages[page].nodes, NodesOf(pages[..page]), limit);
      NodesAppend(pages, page);
      if !pages[page].hasNextPage {
        LastPageCompletes(pages, page, batches, results, fetchedCount, limit);
        return;
      }
      page := page + 1;
    }
    LimitCompletes(pages, page, batches, results, fetchedCount, limit);
  }

  /** The batches yielded, and whether the page query threw in the end. */
  method FetchOpenLabelItemBatches(pages: seq<Page>, limit: Option<nat>)
    returns (batches: seq<Batch>, failed: bool)
    ensures failed <==> GivesOut(pages, limit)
    ensures ItemsOf(batches) == var wanted := Take(NodesOf(Chain(pages)), limit);
                                if failed then WholeBatches(wanted) else wanted
    ensures IsBatching(batches) && (failed ==> AllFull(batches))
    ensures batches == Fetched(pages, limit)
  {
    var results, fetchedCount;
    batches, results, fetchedCount, failed := FetchPages(pages, limit);
    if failed {
      GaveOut(pages, batches, results, fetchedCount, limit);
    } else {
      batches := YieldRest(batches, results, fetchedCount, NodesOf(Chain(pages)), limit);
    }
    BatchingIsUnique(batches);
  }

  /** What the generator yields in all, whether or not the query gives out. */
  ghost function Fetched(pages: seq<Page>, limit: Option<nat>): seq<Batch> {
    var wanted := Take(NodesOf(Chain(pages)), limit);
    BatchesOf(if GivesOut(pages, limit) then WholeBatches(wanted) else wanted)
  }

  /** The items in runs of 500, the last one as long as it comes. */
  function BatchesOf(items: seq<LabelItem>): seq<Batch> {
    if items == [] then []
    else
      var n := (|items| - 1) / WORK_BATCH_SIZE;
      BatchesOf(items[..WORK_BATCH_SIZE * n]) + [Batch(n + 1, items[WORK_BATCH_SIZE * n..], |items|)]
  }

  ghost predicate AreSmall(batches: seq<Batch>) {
    forall i | 0 <= i < |batches| :: |batches[i].items| <= WORK_BATCH_SIZE
  }

  lemma {:induction false} BatchesOfFacts(items: seq<LabelItem>)
    ensures AreSmall(BatchesOf(items))
    ensures ItemsOf(BatchesOf(items)) == items
    decreases |items|
  {
    if items != [] {
      var n := (|items| - 1) / WORK_BATCH_SIZE;
      var front, rest := items[..WORK_BATCH_SIZE * n], items[WORK_BATCH_SIZE * n..];
      BatchesOfFacts(front);
      ItemsAppend(BatchesOf(front), Batch(n + 1, rest, |items|));
      assert front + rest == items;
    }
  }

  /** Items can be batched in one way only. */
  lemma {:induction false} BatchingIsUnique(batches: seq<Batch>)
    requires IsBatching(batches)
    ensures batches == BatchesOf(ItemsOf(batches))
    decreases |batches|
  {
    if batches != [] {
      var n := |batches| - 1;
      FrontIsBatching(batches);
      FullBatchesCount(batches[..n]);
      BatchingIsUnique(batches[..n]);
      LastRunOf(ItemsOf(batches[..n]), batches[n].items, n);
      LastIsNumbered(batches);
    }
  }

  lemma LastIsNumbered(batches: seq<Batch>)
    requires IsBatching(batches) && batches != []
    ensures var n := |batches| - 1;
            batches == batches[..n] + [Batch(n + 1, batches[n].items, |ItemsOf(batches)|)]
  {
    var n := |batches| - 1;
    assert batches[..n + 1] == batches;
    assert batches == batches[..n] + [batches[n]];
  }

  lemma LastRunOf(front: seq<LabelItem>, rest: seq<LabelItem>, n: nat)
    requires |front| == WORK_BATCH_SIZE * n && 0 < |rest| <= WORK_BATCH_SIZE
    ensures BatchesOf(front + rest) == BatchesOf(front) + [Batch(n + 1, rest, |front + rest|)]
  {
    LastRun(|rest|, n);
    assert (front + rest)[..|front|] == front && (front + rest)[|front|..] == rest;
  }

  lemma LastRun(rest: nat, n: nat)
    requires 0 < rest <= WORK_BATCH_SIZE
    ensures (WORK_BATCH_SIZE * n + rest - 1) / WORK_BATCH_SIZE == n
  {
  }

  ghost predicate IsSliceAt(part: seq<LabelItem>, items: seq<LabelItem>, from: nat) {
    from + |part| <= |items| && items[from..from + |part|] == part
  }

  lemma SliceOfLonger(part: seq<LabelItem>, items: seq<LabelItem>, from: nat, more: seq<LabelItem>)
    requires IsSliceAt(part, items, from)
    ensures IsSliceAt(part, items + more, from)
  {
  }

  /** Batch `i` is the `i`th run of 500 items, whatever the pages were. */
  lemma {:induction false} BatchIsSlice(batches: seq<Batch>, i: nat)
    requires IsBatching(batches) && i < |batches|
    ensures IsSliceAt(batches[i].items, ItemsOf(batches), 500 * i)
    ensures 0 < |batches[i].items| <= 500 && (i + 1 < |batches| ==> |batches[i].items| == 500)
    decreases |batches|
  {
    var n := |batches| - 1;
    FrontIsBatching(batches);
    if i == n {
      FullBatchesCount(batches[..n]);
    } else {
      BatchIsSlice(batches[..n], i);
      SliceOfLonger(batches[i].items, ItemsOf(batches[..n]), WORK_BATCH_SIZE * i, batches[n].items);
    }
  }

  lemma FrontIsBatching(batches: seq<Batch>)
    requires IsBatching(batches) && batches != []
    ensures IsBatching(batches[..|batches| - 1])
  {
    var front := batches[..|batches| - 1];
    forall i | 0 <= i < |front|
      ensures front[i].batchIndex == i + 1 && front[i].fetchedCount == |ItemsOf(front[..i + 1])|
    {
      assert front[..i + 1] == batches[..i + 1];
    }
  }
}
