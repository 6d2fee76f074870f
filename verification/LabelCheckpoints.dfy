/**
 * Working through the batches with a state file that lets a later run continue
 * (scripts/label-open-issues.ts). Issues and pull requests go through the same loop; a pull request
 * that already has the skill label is marked done without being classified.
 */
module LabelCheckpoints {
  import opened Outcomes
  import opened LabelBatches

  const SKILL_LABEL := "r: skill"

  datatype Kind = Issue | PullRequest

  /** The numbers worked through, of each kind. */
  datatype Done = Done(issues: set<int>, pullRequests: set<int>) {
    function Of(kind: Kind): set<int> {
      if kind == Issue then issues else pullRequests
    }

    function With(kind: Kind, numbers: set<int>): Done {
      if kind == Issue then Done(issues + numbers, pullRequests) else Done(issues, pullRequests + numbers)
    }
  }

  // ---- the state file -----------------------------------------------------------------

  /** What a list in the file may hold: a finite number, or anything else. */
  datatype Entry = Num(value: int) | Other

  /** A list is None when the file holds no array in its place. */
  datatype StateFile =
    | Unreadable
    | StateFile(issues: Option<seq<Entry>>, pullRequests: Option<seq<Entry>>)

  function NumbersIn(entries: Option<seq<Entry>>): set<int> {
    if entries.None? then {} else set entry | entry in entries.value && entry.Num? :: entry.value
  }

  /** A missing or unreadable file starts from nothing; entries that are no numbers are dropped. */
  function LoadState(file: Option<StateFile>): Done {
    if file.None? || file.value.Unreadable? then Done({}, {})
    else Done(NumbersIn(file.value.issues), NumbersIn(file.value.pullRequests))
  }

  lemma Pick<T>(s: set<T>) returns (x: T)
    requires s != {}
    ensures x in s
  {
    x :| x in s;
  }

  lemma {:induction false} LeastExists(numbers: set<int>)
    requires numbers != {}
    ensures exists x :: x in numbers && forall y | y in numbers :: x <= y
  {
    var x := Pick(numbers);
    var others := numbers - {x};
    assert forall y | y in numbers :: y == x || y in others;
    if others != {} {
      LeastExists(others);
      var z :| z in others && forall y | y in others :: z <= y;
      var least := if x < z then x else z;
      assert least in numbers && forall y | y in numbers :: least <= y;
    }
  }

  /** `toSorted((a, b) => a - b)` of the set's elements. */
  function Ascending(numbers: set<int>): seq<Entry> {
    if numbers == {} then [] else
      LeastExists(numbers);
      var x :| x in numbers && forall y | y in numbers :: x <= y;
      [Num(x)] + Ascending(numbers - {x})
  }

  lemma {:induction false} AscendingFacts(numbers: set<int>)
    ensures forall i | 0 <= i < |Ascending(numbers)| ::
              Ascending(numbers)[i].Num? && Ascending(numbers)[i].value in numbers
    ensures forall i, j | 0 <= i < j < |Ascending(numbers)| :: Ascending(numbers)[i].value < Ascending(numbers)[j].value
    ensures NumbersIn(Some(Ascending(numbers))) == numbers
  {
    if numbers != {} {
      LeastExists(numbers);
      var x := Ascending(numbers)[0].value;
      var rest := Ascending(numbers - {x});
      AscendingFacts(numbers - {x});
      assert Ascending(numbers) == [Num(x)] + rest;
      NumbersOfCons(x, rest);
    }
  }

  lemma NumbersOfCons(x: int, rest: seq<Entry>)
    ensures NumbersIn(Some([Num(x)] + rest)) == {x} + NumbersIn(Some(rest))
  {
    var all := [Num(x)] + rest;
    forall y | y in {x} + NumbersIn(Some(rest)) ensures y in NumbersIn(Some(all)) {
      assert Num(y) in all;
    }
  }

  function Snapshot(done: Done): StateFile {
    StateFile(Some(Ascending(done.issues)), Some(Ascending(done.pullRequests)))
  }

  ghost predicate ListsExactly(entries: Option<seq<Entry>>, numbers: set<int>) {
    entries.Some? && forall entry :: entry in entries.value <==> entry.Num? && entry.value in numbers
  }

  /** A checkpoint lists what was worked through, each kind in its place, and loads back as that. */
  lemma SnapshotRoundTrip(done: Done)
    ensures LoadState(Some(Snapshot(done))) == done
    ensures ListsExactly(Snapshot(done).issues, done.issues)
    ensures ListsExactly(Snapshot(done).pullRequests, done.pullRequests)
  {
    AscendingFacts(done.issues);
    AscendingFacts(done.pullRequests);
  }

  // ---- what a batch asks for ----------------------------------------------------------

  function Numbers(items: seq<LabelItem>): set<int> {
    set item | item in items :: item.number
  }

  function Pending(items: seq<LabelItem>, known: set<int>): seq<LabelItem> {
    if items == [] then [] else
      var n := |items| - 1;
      Pending(items[..n], known) + (if items[n].number in known then [] else [items[n]])
  }

  predicate NeedsClassifying(kind: Kind, item: LabelItem) {
    !(kind == PullRequest && SKILL_LABEL in item.labels)
  }

  /** The requests sent to the classifier, in order. */
  datatype Request = Request(kind: Kind, number: int)

  function Requests(kind: Kind, items: seq<LabelItem>): seq<Request> {
    if items == [] then [] else
      var n := |items| - 1;
      Requests(kind, items[..n])
      + (if NeedsClassifying(kind, items[n]) then [Request(kind, items[n].number)] else [])
  }

  lemma {:induction false} PendingFacts(items: seq<LabelItem>, known: set<int>)
    ensures |Pending(items, known)| <= |items|
    ensures known + Numbers(Pending(items, known)) == known + Numbers(items)
    ensures forall x | x in Numbers(Pending(items, known)) :: x !in known && x in Numbers(items)
  {
    if items != [] {
      var n := |items| - 1;
      PendingFacts(items[..n], known);
      PendingOne(Pending(items[..n], known), items[..n], items[n], known);
      assert items == items[..n] + [items[n]];
    }
  }

  lemma PendingOne(pending: seq<LabelItem>, items: seq<LabelItem>, item: LabelItem, known: set<int>)
    requires known + Numbers(pending) == known + Numbers(items)
    requires forall x | x in Numbers(pending) :: x !in known && x in Numbers(items)
    ensures var more := pending + (if item.number in known then [] else [item]);
            && known + Numbers(more) == known + Numbers(items + [item])
            && forall x | x in Numbers(more) :: x !in known && x in Numbers(items + [item])
  {
    NumbersConcat(items, [item]);
    if item.number in known {
      assert pending + [] == pending;
    } else {
      NumbersConcat(pending, [item]);
    }
  }

  lemma NumbersConcat(a: seq<LabelItem>, b: seq<LabelItem>)
    ensures Numbers(a + b) == Numbers(a) + Numbers(b)
    ensures |b| == 1 ==> Numbers(b) == {b[0].number}
  {
    forall x | x in Numbers(a) + Numbers(b) ensures x in Numbers(a + b) {
      if x in Numbers(a) {
        var item :| item in a && item.number == x;
        assert item in a + b;
      } else {
        var item :| item in b && item.number == x;
        assert item in a + b;
      }
    }
  }

  lemma {:induction false} RequestsFacts(kind: Kind, items: seq<LabelItem>)
    ensures forall r | r in Requests(kind, items) :: r.kind == kind && r.number in Numbers(items)
  {
    if items != [] {
      var n := |items| - 1;
      RequestsFacts(kind, items[..n]);
      assert items == items[..n] + [items[n]];
      NumbersConcat(items[..n], [items[n]]);
    }
  }

  lemma {:induction false} FewNumbers(items: seq<LabelItem>)
    ensures |Numbers(items)| <= |items|
  {
    if items != [] {
      var n := |items| - 1;
      FewNumbers(items[..n]);
      assert items == items[..n] + [items[n]];
      NumbersConcat(items[..n], [items[n]]);
    }
  }

  // ---- the run ------------------------------------------------------------------------

  /** Classifying and labelling an item goes through, or is not needed. */
  predicate GoesThrough(kind: Kind, item: LabelItem, answered: bool) {
    answered || !NeedsClassifying(kind, item)
  }

  /** The first of `pending` that throws is number `n`, if there is one; `answers`
      says whose classifying and labelling goes through. */
  ghost predicate StopsAt(kind: Kind, pending: seq<LabelItem>, answers: nat -> bool, n: nat) {
    && n <= |pending|
    && (forall i: nat | i < n :: GoesThrough(kind, pending[i], answers(i)))
    && (n < |pending| ==> !GoesThrough(kind, pending[n], answers(n)))
  }

  /** How one batch ended: all of it, or after `processed` items the next one threw. */
  ghost predicate BatchEnded(ok: bool, processed: nat, kind: Kind, items: seq<LabelItem>, answers: nat -> bool,
                             before: Done, after: Done, requests: seq<Request>) {
    var pending := Pending(items, before.Of(kind));
    && StopsAt(kind, pending, answers, processed) && (ok <==> processed == |pending|)
    && after == before.With(kind, Numbers(if ok then items else pending[..processed]))
    && requests == Requests(kind, pending[..if ok then processed else processed + 1])
  }

  /** What is done once all of `batches` are. */
  function AfterBatches(kind: Kind, batches: seq<Batch>, before: Done): Done {
    before.With(kind, Numbers(ItemsOf(batches)))
  }

  /** What `batches` ask the classifier for: in each, the items not done before it. */
  function AllRequests(kind: Kind, batches: seq<Batch>, before: Done): seq<Request> {
    if batches == [] then [] else
      var n := |batches| - 1;
      AllRequests(kind, batches[..n], before)
      + Requests(kind, Pending(batches[n].items, AfterBatches(kind, batches[..n], before).Of(kind)))
  }

  /** The answers to the items of batch `b`. */
  function AnswersTo(answers: (nat, nat) -> bool, b: nat): nat -> bool {
    (i: nat) => answers(b, i)
  }

  /** The items of batch `b` that are neither known nor in an earlier batch. */
  function PendingAt(batches: seq<Batch>, b: nat, known: set<int>): seq<LabelItem>
    requires b < |batches|
  {
    Pending(batches[b].items, known + Numbers(ItemsOf(batches[..b])))
  }

  /** Nothing throws in batch `b`. */
  ghost predicate BatchThrough(kind: Kind, batches: seq<Batch>, b: nat, known: set<int>, answers: (nat, nat) -> bool)
    requires b < |batches|
  {
    forall i: nat | i < |PendingAt(batches, b, known)| ::
      GoesThrough(kind, PendingAt(batches, b, known)[i], answers(b, i))
  }

  /** Nothing throws in any batch. */
  ghost predicate PhaseThrough(kind: Kind, batches: seq<Batch>, known: set<int>, answers: (nat, nat) -> bool) {
    forall b: nat | b < |batches| :: BatchThrough(kind, batches, b, known, answers)
  }

  /** How a phase ended: all batches, or `k` of them and `j` items of the next. */
  ghost predicate PhaseEnded(ok: bool, k: nat, j: nat, kind: Kind, batches: seq<Batch>, answers: (nat, nat) -> bool,
                             before: Done, after: Done, requests: seq<Request>) {
    && k <= |batches| && (ok <==> k == |batches|)
    && (forall b: nat | b < k :: BatchThrough(kind, batches, b, before.Of(kind), answers))
    && AllRequests(kind, batches[..k], before) <= requests
    && var base := AfterBatches(kind, batches[..k], before);
       var rest := requests[|AllRequests(kind, batches[..k], before)|..];
       if ok then after == base && rest == []
       else BatchEnded(false, j, kind, batches[k].items, AnswersTo(answers, k), base, after, rest)
  }

  /** How many batches are completed before something throws. */
  ghost function Completed(kind: Kind, batches: seq<Batch>, known: set<int>, answers: (nat, nat) -> bool): (k: nat)
    ensures k <= |batches|
    ensures forall b: nat | b < k :: BatchThrough(kind, batches, b, known, answers)
    ensures k < |batches| ==> !BatchThrough(kind, batches, k, known, answers)
  {
    CompletedFrom(kind, batches, known, answers, 0)
  }

  ghost function CompletedFrom(kind: Kind, batches: seq<Batch>, known: set<int>, answers: (nat, nat) -> bool,
      from: nat): (k: nat)
    requires from <= |batches|
    ensures from <= k <= |batches|
    ensures forall b: nat | from <= b < k :: BatchThrough(kind, batches, b, known, answers)
    ensures k < |batches| ==> !BatchThrough(kind, batches, k, known, answers)
    decreases |batches| - from
  {
    if from < |batches| && BatchThrough(kind, batches, from, known, answers)
    then CompletedFrom(kind, batches, known, answers, from + 1) else from
  }

  /** A phase ends where something first throws, and well exactly if nothing does. */
  lemma PhaseEndsWhereItThrows(ok: bool, k: nat, j: nat, kind: Kind, batches: seq<Batch>, answers: (nat, nat) -> bool,
                               before: Done, after: Done, requests: seq<Request>)
    requires PhaseEnded(ok, k, j, kind, batches, answers, before, after, requests)
    ensures k == Completed(kind, batches, before.Of(kind), answers)
    ensures ok <==> PhaseThrough(kind, batches, before.Of(kind), answers)
  {
    if !ok {
      var pending := PendingAt(batches, k, before.Of(kind));
      assert pending == Pending(batches[k].items, AfterBatches(kind, batches[..k], before).Of(kind));
      assert j < |pending| && !GoesThrough(kind, pending[j], AnswersTo(answers, k)(j));
      assert !BatchThrough(kind, batches, k, before.Of(kind), answers);
    }
  }

  /** The items of `pending` that are taken up: all before the first that throws, and that one. */
  ghost function TakenUp(kind: Kind, pending: seq<LabelItem>, answers: nat -> bool): (taken: seq<LabelItem>)
    ensures taken <= pending
  {
    pending[..TakenUpFrom(kind, pending, answers, 0)]
  }

  ghost function TakenUpFrom(kind: Kind, pending: seq<LabelItem>, answers: nat -> bool, from: nat): (n: nat)
    requires from <= |pending|
    ensures from <= n <= |pending|
    decreases |pending| - from
  {
    if from == |pending| then from
    else if GoesThrough(kind, pending[from], answers(from)) then TakenUpFrom(kind, pending, answers, from + 1)
    else from + 1
  }

  lemma {:induction false} TakenUpTo(kind: Kind, pending: seq<LabelItem>, answers: nat -> bool, from: nat, n: nat)
    requires StopsAt(kind, pending, answers, n) && from <= n
    ensures TakenUpFrom(kind, pending, answers, from) == if n < |pending| then n + 1 else n
    decreases n - from
  {
    if from < n { TakenUpTo(kind, pending, answers, from + 1, n); }
  }

  /** What a phase asks the classifier for: all that its completed batches need, and in
      the one that throws, if there is one, the items taken up. */
  ghost function Asked(kind: Kind, batches: seq<Batch>, before: Done, answers: (nat, nat) -> bool): seq<Request> {
    var k := Completed(kind, batches, before.Of(kind), answers);
    AllRequests(kind, batches[..k], before) +
    if k == |batches| then []
    else Requests(kind, TakenUp(kind, PendingAt(batches, k, before.Of(kind)), AnswersTo(answers, k)))
  }

  lemma PhaseAsks(ok: bool, k: nat, j: nat, kind: Kind, batches: seq<Batch>, answers: (nat, nat) -> bool,
                  before: Done, after: Done, requests: seq<Request>)
    requires PhaseEnded(ok, k, j, kind, batches, answers, before, after, requests)
    ensures requests == Asked(kind, batches, before, answers)
  {
    var first := AllRequests(kind, batches[..k], before);
    PhaseEndsWhereItThrows(ok, k, j, kind, batches, answers, before, after, requests);
    assert requests == first + requests[|first|..];
    if !ok {
      var pending := PendingAt(batches, k, before.Of(kind));
      assert pending == Pending(batches[k].items, AfterBatches(kind, batches[..k], before).Of(kind));
      TakenUpTo(kind, pending, AnswersTo(answers, k), 0, j);
    }
  }

  lemma PhaseSummary(ok: bool, k: nat, j: nat, kind: Kind, batches: seq<Batch>, answers: (nat, nat) -> bool,
                     before: Done, after: Done, asked: seq<Request>, requests: seq<Request>)
    requires asked <= requests
    requires PhaseEnded(ok, k, j, kind, batches, answers, before, after, requests[|asked|..])
    ensures k == Completed(kind, batches, before.Of(kind), answers)
    ensures ok <==> PhaseThrough(kind, batches, before.Of(kind), answers)
    ensures requests == asked + Asked(kind, batches, before, answers)
  {
    PhaseEndsWhereItThrows(ok, k, j, kind, batches, answers, before, after, requests[|asked|..]);
    PhaseAsks(ok, k, j, kind, batches, answers, before, after, requests[|asked|..]);
    assert requests == asked + requests[|asked|..];
  }

  class LabelRun {
    const dryRun: bool
    var issueState: set<int>
    var pullRequestState: set<int>
    var file: Option<StateFile>
    ghost var requests: seq<Request>

    ghost function State(): Done
      reads this
    {
      Done(issueState, pullRequestState)
    }

    /** Loads what an earlier run left. */
    constructor (file: Option<StateFile>, dryRun: bool)
      ensures State() == LoadState(file) && this.file == file && requests == [] && this.dryRun == dryRun
    {
      this.dryRun := dryRun;
      var loaded := LoadState(file);
      issueState, pullRequestState := loaded.issues, loaded.pullRequests;
      this.file, requests := file, [];
    }

    method MarkDone(kind: Kind, number: int)
      modifies this`issueState, this`pullRequestState
      ensures State() == old(State()).With(kind, {number})
    {
      if kind == Issue {
        issueState := issueState + {number};
      } else {
        pullRequestState := pullRequestState + {number};
      }
    }

    /** One item; `answered` says whether classifying and labelling it went through. */
    method ProcessItem(kind: Kind, item: LabelItem, answered: bool) returns (ok: bool)
      modifies this`issueState, this`pullRequestState, this`requests
      ensures ok == (answered || (kind == PullRequest && "r: skill" in item.labels))
      ensures State() == if ok then old(State()).With(kind, {item.number}) else old(State())
      ensures requests == old(requests) +
                          if kind == PullRequest && "r: skill" in item.labels then []
                          else [Request(kind, item.number)]
    {
      if kind == PullRequest && SKILL_LABEL in item.labels {
        MarkDone(kind, item.number);
        assert requests + [] == requests;
        return true;
      }
      requests := requests + [Request(kind, item.number)];
      if !answered {
        return false;
      }
      MarkDone(kind, item.number);
      return true;
    }

    /** The first `i` of `pending` are done. */
    ghost predicate DoneUpTo(i: nat, kind: Kind, pending: seq<LabelItem>, answers: nat -> bool, before: Done,
                             asked: seq<Request>)
      reads this
    {
      && i <= |pending| && (forall j: nat | j < i :: GoesThrough(kind, pending[j], answers(j)))
      && State() == before.With(kind, Numbers(pending[..i]))
      && requests == asked + Requests(kind, pending[..i])
    }

    method ProcessNext(kind: Kind, pending: seq<LabelItem>, i: nat, answers: nat -> bool, ghost before: Done,
                       ghost asked: seq<Request>) returns (ok: bool)
      requires i < |pending| && DoneUpTo(i, kind, pending, answers, before, asked)
      modifies this`issueState, this`pullRequestState, this`requests
      ensures ok == GoesThrough(kind, pending[i], answers(i))
      ensures ok ==> DoneUpTo(i + 1, kind, pending, answers, before, asked)
      ensures !ok ==> State() == old(State()) && requests == asked + Requests(kind, pending[..i + 1])
    {
      OneMore(before, kind, pending, i);
      assert [pending[i]][..0] == [];
      ok := ProcessItem(kind, pending[i], answers(i));
      assert requests == asked + Requests(kind, pending[..i + 1]);
    }

    /** Works through `pending` until an item throws. */
    method ProcessPending(kind: Kind, pending: seq<LabelItem>, answers: nat -> bool)
      returns (ok: bool, processed: nat)
      modifies this`issueState, this`pullRequestState, this`requests
      ensures StopsAt(kind, pending, answers, processed) && (ok <==> processed == |pending|)
      ensures State() == old(State()).With(kind, Numbers(pending[..processed]))
      ensures requests == old(requests) + Requests(kind, pending[..if ok then processed else processed + 1])
    {
      ghost var before, asked := State(), requests;
      processed := 0;
      WithNothing(before, kind);
      assert asked + [] == asked && pending[..0] == [];
      while processed < |pending|
        invariant DoneUpTo(processed, kind, pending, answers, before, asked)
      {
        ok := ProcessNext(kind, pending, processed, answers, before, asked);
        if !ok {
          return;
        }
        processed := processed + 1;
      }
      ok := true;
    }

    /** The pending items of a batch are fixed before any of them is worked on. */
    method ProcessBatch(kind: Kind, items: seq<LabelItem>, answers: nat -> bool)
      returns (ok: bool, processed: nat, skipped: nat)
      modifies this
      ensures old(requests) <= requests
      ensures BatchEnded(ok, processed, kind, items, answers, old(State()), State(), requests[|old(requests)|..])
      ensures file == if ok && !dryRun && Pending(items, old(State()).Of(kind)) != []
                      then Some(Snapshot(State())) else old(file)
      ensures ok ==> processed + skipped == |items| && processed == |Pending(items, old(State()).Of(kind))|
    {
      var pending := Pending(items, if kind == Issue then issueState else pullRequestState);
      ghost var before, asked := State(), requests;
      PendingFacts(items, before.Of(kind));
      skipped := |items| - |pending|;
      ok, processed := ProcessPending(kind, pending, answers);
      assert requests[|asked|..] == Requests(kind, pending[..if ok then processed else processed + 1]);
      assert ok ==> pending[..processed] == pending;
      if !ok {
        return;
      }
      if !dryRun && |pending| > 0 {
        file := Some(Snapshot(Done(issueState, pullRequestState)));
      }
    }

    /** The file holds `saved` if it held `before` at the start; a dry run leaves it alone. */
    ghost predicate FileFollows(start: Option<StateFile>, before: Done, saved: Done)
      reads this
    {
      if dryRun then file == start else LoadState(start) == before ==> LoadState(file) == saved
    }

    /** The first `i` batches are completed. */
    ghost predicate Reached(i: nat, kind: Kind, batches: seq<Batch>, answers: (nat, nat) -> bool,
                            start: Option<StateFile>, before: Done, asked: seq<Request>)
      reads this
    {
      && i <= |batches|
      && (forall b: nat | b < i :: BatchThrough(kind, batches, b, before.Of(kind), answers))
      && State() == AfterBatches(kind, batches[..i], before)
      && requests == asked + AllRequests(kind, batches[..i], before)
      && FileFollows(start, before, State())
    }

    method NextBatch(kind: Kind, batches: seq<Batch>, i: nat, answers: (nat, nat) -> bool,
                     ghost start: Option<StateFile>, ghost before: Done, ghost asked: seq<Request>)
      returns (ok: bool, processed: nat, skipped: nat)
      requires i < |batches| && Reached(i, kind, batches, answers, start, before, asked)
      modifies this
      ensures ok ==> Reached(i + 1, kind, batches, answers, start, before, asked)
                     && processed + skipped == |batches[i].items|
      ensures !ok ==> asked <= requests
                      && PhaseEnded(false, i, processed, kind, batches, answers, before, State(), requests[|asked|..])
                      && FileFollows(start, before, AfterBatches(kind, batches[..i], before))
    {
      ghost var asking, settled := requests, State();
      ok, processed, skipped := ProcessBatch(kind, batches[i].items, AnswersTo(answers, i));
      ghost var rest := requests[|asking|..];
      assert requests == asking + rest;
      if ok {
        OneMoreBatch(kind, batches, i, before);
        SavedBatch(kind, batches[i].items, AnswersTo(answers, i), settled, State(), rest);
        BatchWentThrough(kind, batches, i, before, answers);
        Regroup(asked, AllRequests(kind, batches[..i], before), rest);
      } else {
        Regroup(asked, AllRequests(kind, batches[..i], before), rest);
      }
    }

    /** One phase over the batches of a kind. The file follows the batches that were completed. */
    method ProcessBatches(kind: Kind, batches: seq<Batch>, answers: (nat, nat) -> bool)
      returns (ok: bool, counts: Counts, ghost k: nat, ghost j: nat)
      modifies this
      ensures old(requests) <= requests
      ensures PhaseEnded(ok, k, j, kind, batches, answers, old(State()), State(), requests[|old(requests)|..])
      ensures requests == old(requests) + Asked(kind, batches, old(State()), answers)
      ensures k == Completed(kind, batches, old(State()).Of(kind), answers)
      ensures ok <==> PhaseThrough(kind, batches, old(State()).Of(kind), answers)
      ensures FileFollows(old(file), old(State()), AfterBatches(kind, batches[..k], old(State())))
      ensures ok ==> counts.scanned == counts.processed + counts.skipped == |ItemsOf(batches)|
    {
      ghost var start, before, asked := file, State(), requests;
      counts, j := Counts(0, 0, 0), 0;
      WithNothing(before, kind);
      assert asked + [] == asked;
      for i := 0 to |batches|
        invariant Reached(i, kind, batches, answers, start, before, asked)
        invariant counts.scanned == counts.processed + counts.skipped == |ItemsOf(batches[..i])|
      {
        k := i;
        var processed, skipped;
        ok, processed, skipped := NextBatch(kind, batches, i, answers, start, before, asked);
        j := processed;
        if !ok {
          PhaseSummary(ok, k, j, kind, batches, answers, before, State(), asked, requests);
          return;
        }
        OneMoreBatch(kind, batches, i, before);
        counts := Counts(counts.scanned + |batches[i].items|, counts.processed + processed, counts.skipped + skipped);
      }
      ok, k := true, |batches|;
      assert batches[..k] == batches;
      Regroup(asked, AllRequests(kind, batches, before), []);
      PhaseSummary(ok, k, j, kind, batches, answers, before, State(), asked, requests);
    }

    /** A phase with its page queries; what was fetched before one throws is worked through first. */
    method RunPhase(kind: Kind, pages: seq<Page>, limit: Option<nat>, answers: (nat, nat) -> bool)
      returns (ok: bool)
      modifies this
      ensures ok <==> PhaseGoesWell(kind, pages, limit, old(State()), answers)
      ensures requests == old(requests) + Asked(kind, Fetched(pages, limit), old(State()), answers)
      ensures FileFollows(old(file), old(State()), AfterPhase(kind, pages, limit, old(State()), answers))
      ensures ok ==> State() == AfterPhase(kind, pages, limit, old(State()), answers)
    {
      var batches, failed := FetchOpenLabelItemBatches(pages, limit);
      var counts;
      ghost var k, j;
      ok, counts, k, j := ProcessBatches(kind, batches, answers);
      ok := ok && !failed;
    }
  }

  /** Neither a page query throws nor an item. */
  ghost predicate PhaseGoesWell(kind: Kind, pages: seq<Page>, limit: Option<nat>, before: Done,
                                answers: (nat, nat) -> bool)
  {
    !GivesOut(pages, limit) && PhaseThrough(kind, Fetched(pages, limit), before.Of(kind), answers)
  }

  /** What the completed batches of a phase leave done. */
  ghost function AfterPhase(kind: Kind, pages: seq<Page>, limit: Option<nat>, before: Done,
                            answers: (nat, nat) -> bool): Done
  {
    var batches := Fetched(pages, limit);
    AfterBatches(kind, batches[..Completed(kind, batches, before.Of(kind), answers)], before)
  }

  lemma Regroup(asked: seq<Request>, done: seq<Request>, rest: seq<Request>)
    ensures (asked + done + rest)[|asked|..] == done + rest
    ensures (done + rest)[|done|..] == rest
    ensures asked + done + rest == asked + (done + rest)
    ensures done + [] == done && asked + done + [] == asked + done
  {
  }

  datatype Counts = Counts(scanned: nat, processed: nat, skipped: nat)

  lemma OneMoreBatch(kind: Kind, batches: seq<Batch>, i: nat, before: Done)
    requires i < |batches|
    ensures ItemsOf(batches[..i + 1]) == ItemsOf(batches[..i]) + batches[i].items
    ensures AfterBatches(kind, batches[..i], before).With(kind, Numbers(batches[i].items))
            == AfterBatches(kind, batches[..i + 1], before)
    ensures AllRequests(kind, batches[..i + 1], before)
            == AllRequests(kind, batches[..i], before)
               + Requests(kind, Pending(batches[i].items, AfterBatches(kind, batches[..i], before).Of(kind)))
  {
    assert batches[..i + 1][..i] == batches[..i];
    NumbersConcat(ItemsOf(batches[..i]), batches[i].items);
  }

  /** A batch without pending items changes nothing that would have to be saved. */
  lemma SavedBatch(kind: Kind, items: seq<LabelItem>, answers: nat -> bool, before: Done, after: Done,
                   requests: seq<Request>)
    requires BatchEnded(true, |Pending(items, before.Of(kind))|, kind, items, answers, before, after, requests)
    ensures Pending(items, before.Of(kind)) == [] ==> after == before
    ensures LoadState(Some(Snapshot(after))) == after
    ensures requests == Requests(kind, Pending(items, before.Of(kind)))
  {
    PendingFacts(items, before.Of(kind));
    SnapshotRoundTrip(after);
    var pending := Pending(items, before.Of(kind));
    assert pending[..|pending|] == pending;
    if pending == [] {
      assert Numbers(pending) == {};
      assert before.Of(kind) + {} == before.Of(kind);
      assert before.Of(kind) + Numbers(items) == before.Of(kind);
    }
  }

  lemma BatchWentThrough(kind: Kind, batches: seq<Batch>, b: nat, before: Done, answers: (nat, nat) -> bool)
    requires b < |batches|
    requires var pending := Pending(batches[b].items, AfterBatches(kind, batches[..b], before).Of(kind));
             StopsAt(kind, pending, AnswersTo(answers, b), |pending|)
    ensures BatchThrough(kind, batches, b, before.Of(kind), answers)
  {
    var pending := PendingAt(batches, b, before.Of(kind));
    forall i: nat | i < |pending| ensures GoesThrough(kind, pending[i], answers(b, i)) {
      assert GoesThrough(kind, pending[i], AnswersTo(answers, b)(i));
    }
  }

  lemma WithNothing(before: Done, kind: Kind)
    ensures before.With(kind, Numbers([])) == before
  {
  }

  lemma OneMore(before: Done, kind: Kind, items: seq<LabelItem>, i: nat)
    requires i < |items|
    ensures before.With(kind, Numbers(items[..i])).With(kind, {items[i].number}) ==
            before.With(kind, Numbers(items[..i + 1]))
    ensures Requests(kind, items[..i + 1]) == Requests(kind, items[..i]) + Requests(kind, [items[i]])
  {
    NumbersConcat(items[..i], [items[i]]);
    assert items[..i + 1] == items[..i] + [items[i]];
    assert items[..i + 1][..i] == items[..i];
    assert [items[i]][..0] == [];
    assert Requests(kind, [items[i]]) ==
           if NeedsClassifying(kind, items[i]) then [Request(kind, items[i].number)] else [];
  }

  // ---- runs one after another ---------------------------------------------------------

  /** A phase asks only about numbers that it has to fetch and that were not done before it. */
  lemma {:induction false} RequestsAreNew(kind: Kind, batches: seq<Batch>, before: Done)
    ensures forall r | r in AllRequests(kind, batches, before) ::
              r.kind == kind && r.number !in before.Of(kind) && r.number in Numbers(ItemsOf(batches))
  {
    if batches != [] {
      var n := |batches| - 1;
      var pending := Pending(batches[n].items, AfterBatches(kind, batches[..n], before).Of(kind));
      RequestsAreNew(kind, batches[..n], before);
      RequestsFacts(kind, pending);
      PendingFacts(batches[n].items, AfterBatches(kind, batches[..n], before).Of(kind));
      NumbersConcat(ItemsOf(batches[..n]), batches[n].items);
    }
  }

  lemma PrefixOfRequests(kind: Kind, items: seq<LabelItem>, n: nat)
    requires n <= |items|
    ensures forall r | r in Requests(kind, items[..n]) :: r.kind == kind && r.number in Numbers(items)
  {
    RequestsFacts(kind, items[..n]);
    NumbersConcat(items[..n], items[n..]);
    assert items == items[..n] + items[n..];
  }

  /** What a phase asks about is done once its completed batches are, or is new in the
      batch that throws. */
  lemma AskedAbout(kind: Kind, batches: seq<Batch>, before: Done, answers: (nat, nat) -> bool)
    ensures var k := Completed(kind, batches, before.Of(kind), answers);
            forall r | r in Asked(kind, batches, before, answers) ::
              && r.kind == kind && r.number !in before.Of(kind)
              && (r.number in AfterBatches(kind, batches[..k], before).Of(kind)
                  || (k < |batches| && r.number in Numbers(batches[k].items)))
  {
    var k := Completed(kind, batches, before.Of(kind), answers);
    RequestsAreNew(kind, batches[..k], before);
    if k < |batches| {
      var known := before.Of(kind) + Numbers(ItemsOf(batches[..k]));
      var pending := PendingAt(batches, k, before.Of(kind));
      var taken := TakenUp(kind, pending, AnswersTo(answers, k));
      PrefixOfRequests(kind, pending, |taken|);
      PendingFacts(batches[k].items, known);
    }
  }

  /**
   * A phase, crashed or not, and a phase that starts from what the completed batches of the first
   * left done, whatever it fetches: what both classify are numbers of the one batch that was under
   * way, at most 500, and nothing if none was.
   */
  lemma CrashRepeatsOneBatch(kind: Kind, batches: seq<Batch>, before: Done, answers: (nat, nat) -> bool,
                             laterBatches: seq<Batch>, later: Done, laterAnswers: (nat, nat) -> bool)
    requires AreSmall(batches)
    requires AfterBatches(kind, batches[..Completed(kind, batches, before.Of(kind), answers)], before).Of(kind)
             <= later.Of(kind)
    ensures var k := Completed(kind, batches, before.Of(kind), answers);
            && (k < |batches| ==> |Numbers(batches[k].items)| <= 500)
            && forall r | r in Asked(kind, batches, before, answers)
                          && r in Asked(kind, laterBatches, later, laterAnswers) ::
                 k < |batches| && r.number in Numbers(batches[k].items)
  {
    var k := Completed(kind, batches, before.Of(kind), answers);
    AskedAbout(kind, batches, before, answers);
    AskedAbout(kind, laterBatches, later, laterAnswers);
    if k < |batches| {
      FewNumbers(batches[k].items);
    }
  }

  /** Nothing is asked about a second time once it is done. */
  lemma {:induction false} DoneAsksNothing(kind: Kind, batches: seq<Batch>, before: Done)
    requires Numbers(ItemsOf(batches)) <= before.Of(kind)
    ensures AllRequests(kind, batches, before) == []
    ensures AfterBatches(kind, batches, before) == before
  {
    assert before.Of(kind) + Numbers(ItemsOf(batches)) == before.Of(kind);
    if batches != [] {
      var n := |batches| - 1;
      NumbersConcat(ItemsOf(batches[..n]), batches[n].items);
      DoneAsksNothing(kind, batches[..n], before);
      KnownPendsNothing(batches[n].items, before.Of(kind));
    }
  }

  lemma {:induction false} KnownPendsNothing(items: seq<LabelItem>, known: set<int>)
    requires Numbers(items) <= known
    ensures Pending(items, known) == []
  {
    if items != [] {
      var n := |items| - 1;
      assert items == items[..n] + [items[n]];
      NumbersConcat(items[..n], [items[n]]);
      KnownPendsNothing(items[..n], known);
    }
  }

  // ---- the whole script ---------------------------------------------------------------

  /** What a complete run leaves done: everything fetched, on top of what was done before. */
  function AllDone(before: Done, issues: seq<LabelItem>, pullRequests: seq<LabelItem>): Done {
    before.With(Issue, Numbers(issues)).With(PullRequest, Numbers(pullRequests))
  }

  /** The arguments of one audit that it has no say in. */
  datatype World = World(
    limit: Option<nat>,
    issuePages: seq<Page>,
    pullRequestPages: seq<Page>,
    issueAnswers: (nat, nat) -> bool,
    pullRequestAnswers: (nat, nat) -> bool)

  /** No page query throws, and no item that has to be classified. */
  ghost predicate NothingThrows(world: World, before: Done) {
    && IssuesGoThrough(world, before)
    && PhaseGoesWell(PullRequest, world.pullRequestPages, world.limit, AfterIssues(world, before),
                     world.pullRequestAnswers)
  }

  ghost function AfterIssues(world: World, before: Done): Done {
    AfterPhase(Issue, world.issuePages, world.limit, before, world.issueAnswers)
  }

  ghost function AfterPullRequests(world: World, before: Done): Done {
    AfterPhase(PullRequest, world.pullRequestPages, world.limit, before, world.pullRequestAnswers)
  }

  /** The run gets to the pull requests. */
  ghost predicate IssuesGoThrough(world: World, before: Done) {
    PhaseGoesWell(Issue, world.issuePages, world.limit, before, world.issueAnswers)
  }

  /** What the file holds in the end: all completed batches, of pull requests only
      if the issues went through. */
  ghost function SavedAtEnd(world: World, before: Done): Done {
    if IssuesGoThrough(world, before) then AfterPullRequests(world, AfterIssues(world, before))
    else AfterIssues(world, before)
  }

  ghost function IssuesAsked(world: World, before: Done): seq<Request> {
    Asked(Issue, Fetched(world.issuePages, world.limit), before, world.issueAnswers)
  }

  ghost function PullRequestsAsked(world: World, before: Done): seq<Request> {
    if IssuesGoThrough(world, before)
    then Asked(PullRequest, Fetched(world.pullRequestPages, world.limit), AfterIssues(world, before),
               world.pullRequestAnswers)
    else []
  }

  /** Everything a run asks the classifier for. */
  ghost function AllAsked(world: World, before: Done): seq<Request> {
    IssuesAsked(world, before) + PullRequestsAsked(world, before)
  }

  /** The batch that a phase ended in, if it did not end well. */
  ghost function Interrupted(kind: Kind, batches: seq<Batch>, before: Done, answers: (nat, nat) -> bool)
    : seq<LabelItem>
  {
    var k := Completed(kind, batches, before.Of(kind), answers);
    if k < |batches| then batches[k].items else []
  }

  /** The batch that was under way when a run ended, if there was one. */
  ghost function UnderWay(world: World, before: Done): seq<LabelItem> {
    if IssuesGoThrough(world, before)
    then Interrupted(PullRequest, Fetched(world.pullRequestPages, world.limit), AfterIssues(world, before),
                     world.pullRequestAnswers)
    else Interrupted(Issue, Fetched(world.issuePages, world.limit), before, world.issueAnswers)
  }

  lemma IssuesAskedTwice(world: World, before: Done, next: World, r: Request)
    requires r in IssuesAsked(world, before) && r in IssuesAsked(next, SavedAtEnd(world, before))
    ensures !IssuesGoThrough(world, before) && r.number in Numbers(UnderWay(world, before))
  {
    var batches := Fetched(world.issuePages, world.limit);
    FetchedFacts(world.issuePages, world.limit);
    CrashRepeatsOneBatch(Issue, batches, before, world.issueAnswers, Fetched(next.issuePages, next.limit),
                         SavedAtEnd(world, before), next.issueAnswers);
    PhaseIsThrough(Issue, batches, before, world.issueAnswers);
  }

  lemma PullRequestsAskedTwice(world: World, before: Done, next: World, r: Request)
    requires r in PullRequestsAsked(world, before) && r in PullRequestsAsked(next, SavedAtEnd(world, before))
    ensures IssuesGoThrough(world, before) && r.number in Numbers(UnderWay(world, before))
  {
    FetchedFacts(world.pullRequestPages, world.limit);
    CrashRepeatsOneBatch(PullRequest, Fetched(world.pullRequestPages, world.limit), AfterIssues(world, before),
                         world.pullRequestAnswers, Fetched(next.pullRequestPages, next.limit),
                         AfterIssues(next, SavedAtEnd(world, before)), next.pullRequestAnswers);
  }

  lemma FetchedFacts(pages: seq<Page>, limit: Option<nat>)
    ensures AreSmall(Fetched(pages, limit))
    ensures !GivesOut(pages, limit) ==> ItemsOf(Fetched(pages, limit)) == Take(NodesOf(Chain(pages)), limit)
  {
    var wanted := Take(NodesOf(Chain(pages)), limit);
    BatchesOfFacts(if GivesOut(pages, limit) then WholeBatches(wanted) else wanted);
  }

  lemma PhaseIsThrough(kind: Kind, batches: seq<Batch>, before: Done, answers: (nat, nat) -> bool)
    ensures PhaseThrough(kind, batches, before.Of(kind), answers)
            <==> Completed(kind, batches, before.Of(kind), answers) == |batches|
  {
  }

  lemma AskedHaveKind(world: World, before: Done)
    ensures forall r | r in IssuesAsked(world, before) :: r.kind == Issue
    ensures forall r | r in PullRequestsAsked(world, before) :: r.kind == PullRequest
  {
    AskedAbout(Issue, Fetched(world.issuePages, world.limit), before, world.issueAnswers);
    AskedAbout(PullRequest, Fetched(world.pullRequestPages, world.limit), AfterIssues(world, before),
               world.pullRequestAnswers);
  }

  /**
   * A run, however it ends, and a later one from the file it left, whatever that one then fetches:
   * what both ask the classifier about is of one kind and in the batch that was under way, at most
   * 500 numbers; after a run in which nothing threw, nothing.
   */
  lemma AuditsRepeatOneBatch(world: World, before: Done, next: World)
    ensures |Numbers(UnderWay(world, before))| <= 500
    ensures NothingThrows(world, before) ==> UnderWay(world, before) == []
    ensures forall r | r in AllAsked(world, before) && r in AllAsked(next, SavedAtEnd(world, before)) ::
              && r.kind == (if IssuesGoThrough(world, before) then PullRequest else Issue)
              && r.number in Numbers(UnderWay(world, before))
  {
    var saved := SavedAtEnd(world, before);
    FetchedFacts(world.issuePages, world.limit);
    FetchedFacts(world.pullRequestPages, world.limit);
    FewNumbers(UnderWay(world, before));
    AskedHaveKind(world, before);
    AskedHaveKind(next, saved);
    forall r | r in AllAsked(world, before) && r in AllAsked(next, saved)
      ensures r.kind == (if IssuesGoThrough(world, before) then PullRequest else Issue)
      ensures r.number in Numbers(UnderWay(world, before))
    {
      if r.kind == Issue {
        IssuesAskedTwice(world, before, next, r);
      } else {
        PullRequestsAskedTwice(world, before, next, r);
      }
    }
  }

  lemma FetchedAll(pages: seq<Page>, limit: Option<nat>, kind: Kind, before: Done, answers: (nat, nat) -> bool)
    requires !GivesOut(pages, limit) && PhaseThrough(kind, Fetched(pages, limit), before.Of(kind), answers)
    ensures var batches := Fetched(pages, limit);
            AfterBatches(kind, batches[..Completed(kind, batches, before.Of(kind), answers)], before)
            == before.With(kind, Numbers(Take(NodesOf(Chain(pages)), limit)))
  {
    var batches := Fetched(pages, limit);
    FetchedFacts(pages, limit);
    PhaseIsThrough(kind, batches, before, answers);
    assert batches[..|batches|] == batches;
  }

  /** Nothing is ever taken out of the file, and after a run in which nothing threw
      everything fetched is in it. */
  lemma SavedAtEndFacts(world: World, before: Done)
    ensures before.issues <= SavedAtEnd(world, before).issues
    ensures before.pullRequests <= SavedAtEnd(world, before).pullRequests
    ensures NothingThrows(world, before) ==>
              SavedAtEnd(world, before) == AllDone(before, Take(NodesOf(Chain(world.issuePages)), world.limit),
                                                   Take(NodesOf(Chain(world.pullRequestPages)), world.limit))
  {
    if NothingThrows(world, before) {
      FetchedAll(world.issuePages, world.limit, Issue, before, world.issueAnswers);
      FetchedAll(world.pullRequestPages, world.limit, PullRequest, AfterIssues(world, before),
                 world.pullRequestAnswers);
    }
  }

  lemma AskedInPhases(world: World, before: Done)
    ensures [] + IssuesAsked(world, before) == IssuesAsked(world, before)
    ensures !IssuesGoThrough(world, before) ==> AllAsked(world, before) == IssuesAsked(world, before)
    ensures IssuesGoThrough(world, before) ==>
              AllAsked(world, before) == IssuesAsked(world, before) +
                Asked(PullRequest, Fetched(world.pullRequestPages, world.limit), AfterIssues(world, before),
                      world.pullRequestAnswers)
  {
  }

  /** Issues first, then pull requests; anything thrown ends the run. */
  method AuditLabels(file: Option<StateFile>, dryRun: bool, world: World)
    returns (ok: bool, saved: Option<StateFile>, ghost requests: seq<Request>)
    ensures ok <==> NothingThrows(world, LoadState(file))
    ensures requests == AllAsked(world, LoadState(file))
    ensures dryRun ==> saved == file
    ensures !dryRun ==> LoadState(saved) == SavedAtEnd(world, LoadState(file))
    ensures ok && !dryRun ==>
              LoadState(saved) == AllDone(LoadState(file), Take(NodesOf(Chain(world.issuePages)), world.limit),
                                          Take(NodesOf(Chain(world.pullRequestPages)), world.limit))
    ensures LoadState(file).issues <= LoadState(saved).issues
    ensures LoadState(file).pullRequests <= LoadState(saved).pullRequests
  {
    SavedAtEndFacts(world, LoadState(file));
    ghost var before := LoadState(file);
    AskedInPhases(world, before);
    var run := new LabelRun(file, dryRun);
    ok := run.RunPhase(Issue, world.issuePages, world.limit, world.issueAnswers);
    assert run.requests == IssuesAsked(world, before);
    if !ok {
      return false, run.file, run.requests;
    }
    ok := run.RunPhase(PullRequest, world.pullRequestPages, world.limit, world.pullRequestAnswers);
    assert run.requests == AllAsked(world, before);
    return ok, run.file, run.requests;
  }
}
