/**
 * The labelling run as one list of tasks (scripts/label-open-issues.ts): batches and checkpoints do
 * not show in what is asked, and which items are asked about is told from the items alone.
 */
module LabelWork {
  import opened Outcomes
  import opened LabelBatches
  import opened LabelCheckpoints

  /** An item that is to be worked on, and whether classifying and labelling it would go through. */
  datatype Task = Task(item: LabelItem, answered: bool)

  /** A pull request that carries the skill label already. */
  predicate IsShortcut(kind: Kind, item: LabelItem) {
    kind == PullRequest && "r: skill" in item.labels
  }

  predicate Passes(kind: Kind, task: Task) {
    task.answered || IsShortcut(kind, task.item)
  }

  /** The items that are not done yet. */
  function Fresh(items: seq<LabelItem>, known: set<int>): seq<LabelItem> {
    if items == [] then []
    else (if items[0].number in known then [] else [items[0]]) + Fresh(items[1..], known)
  }

  function TasksOf(items: seq<LabelItem>, answers: nat -> bool): seq<Task> {
    seq(|items|, i requires 0 <= i < |items| => Task(items[i], answers(i)))
  }

  /** All the work of a phase: in each batch, what was done neither before the run nor in
      an earlier batch. */
  function AllTasks(batches: seq<Batch>, known: set<int>, answers: (nat, nat) -> bool): seq<Task> {
    if batches == [] then [] else
      var n := |batches| - 1;
      AllTasks(batches[..n], known, answers) +
      TasksOf(Fresh(batches[n].items, known + Numbers(ItemsOf(batches[..n]))), AnswersTo(answers, n))
  }

  predicate AllPass(kind: Kind, tasks: seq<Task>) {
    forall i | 0 <= i < |tasks| :: Passes(kind, tasks[i])
  }

  /** The numbers asked about: one task after the other, shortcuts left out, until one
      that is asked about is not answered. */
  function NumbersAsked(kind: Kind, tasks: seq<Task>): seq<int> {
    if tasks == [] then []
    else if IsShortcut(kind, tasks[0].item) then NumbersAsked(kind, tasks[1..])
    else [tasks[0].item.number] + if tasks[0].answered then NumbersAsked(kind, tasks[1..]) else []
  }

  function AsRequests(kind: Kind, numbers: seq<int>): seq<Request> {
    if numbers == [] then [] else [Request(kind, numbers[0])] + AsRequests(kind, numbers[1..])
  }

  // ---- what follows for single items ----------------------------------------------------

  /** Every number asked about is that of a task that is no shortcut. */
  lemma {:induction false} ShortcutsAreNotAsked(kind: Kind, tasks: seq<Task>)
    ensures forall n | n in NumbersAsked(kind, tasks) ::
              exists t :: t in tasks && t.item.number == n && !IsShortcut(kind, t.item)
  {
    if tasks != [] {
      ShortcutsAreNotAsked(kind, tasks[1..]);
      assert tasks[0] in tasks && forall t | t in tasks[1..] :: t in tasks;
    }
  }

  ghost predicate AreDistinct(tasks: seq<Task>) {
    forall i, j | 0 <= i < j < |tasks| :: tasks[i].item.number != tasks[j].item.number
  }

  /** If no number occurs twice, a task that is reached and is no shortcut is asked about
      exactly once. */
  lemma {:induction false} ReachedAreAskedOnce(kind: Kind, tasks: seq<Task>, i: nat)
    requires i < |tasks| && AreDistinct(tasks)
    requires AllPass(kind, tasks[..i]) && !IsShortcut(kind, tasks[i].item)
    ensures multiset(NumbersAsked(kind, tasks))[tasks[i].item.number] == 1
  {
    var rest := tasks[1..];
    var numbers := NumbersAsked(kind, tasks);
    assert AreDistinct(rest) by { assert forall k | 0 <= k < |rest| :: rest[k] == tasks[k + 1]; }
    ShortcutsAreNotAsked(kind, rest);
    if i == 0 {
      var more := if tasks[0].answered then NumbersAsked(kind, rest) else [];
      assert numbers == [tasks[0].item.number] + more;
      assert tasks[0].item.number !in more;
    } else {
      assert Passes(kind, tasks[..i][0]);
      assert rest[..i - 1] == tasks[..i][1..];
      ReachedAreAskedOnce(kind, rest, i - 1);
      if !IsShortcut(kind, tasks[0].item) {
        assert numbers == [tasks[0].item.number] + NumbersAsked(kind, rest);
      }
    }
  }

  /** Nothing is asked about after a task that does not pass, which is asked about last. */
  lemma {:induction false} UnansweredIsLast(kind: Kind, tasks: seq<Task>, i: nat)
    requires i < |tasks| && AllPass(kind, tasks[..i]) && !Passes(kind, tasks[i])
    ensures NumbersAsked(kind, tasks) == NumbersAsked(kind, tasks[..i]) + [tasks[i].item.number]
  {
    if i > 0 {
      assert Passes(kind, tasks[..i][0]);
      assert tasks[1..][..i - 1] == tasks[..i][1..];
      UnansweredIsLast(kind, tasks[1..], i - 1);
    } else {
      assert tasks[..0] == [];
    }
  }

  // ---- the batches show the same ---------------------------------------------------------

  lemma {:induction false} FreshAppend(items: seq<LabelItem>, last: LabelItem, known: set<int>)
    ensures Fresh(items + [last], known) == Fresh(items, known) + if last.number in known then [] else [last]
  {
    var end := if last.number in known then [] else [last];
    if items == [] {
      assert items + [last] == [last] && [last][1..] == [];
      assert Fresh([last], known) == end + Fresh([], known) == end;
    } else {
      var head, others := if items[0].number in known then [] else [items[0]], Fresh(items[1..], known);
      assert (items + [last])[1..] == items[1..] + [last];
      FreshAppend(items[1..], last, known);
      assert Fresh(items + [last], known) == head + (others + end) == (head + others) + end;
    }
  }

  lemma {:induction false} PendingIsFresh(items: seq<LabelItem>, known: set<int>)
    ensures Pending(items, known) == Fresh(items, known)
  {
    if items != [] {
      var init, last := items[..|items| - 1], items[|items| - 1];
      PendingIsFresh(init, known);
      FreshAppend(init, last, known);
      assert items == init + [last];
    }
  }

  lemma {:induction false} AskedConcat(kind: Kind, a: seq<Task>, b: seq<Task>)
    ensures NumbersAsked(kind, a + b) ==
            NumbersAsked(kind, a) + if AllPass(kind, a) then NumbersAsked(kind, b) else []
  {
    if a == [] {
      assert a + b == b;
    } else {
      assert (a + b)[1..] == a[1..] + b;
      AskedConcat(kind, a[1..], b);
      AllPassCons(kind, a);
    }
  }

  lemma AllPassCons(kind: Kind, tasks: seq<Task>)
    requires tasks != []
    ensures AllPass(kind, tasks) <==> Passes(kind, tasks[0]) && AllPass(kind, tasks[1..])
  {
    assert forall i | 1 <= i < |tasks| :: tasks[i] == tasks[1..][i - 1];
  }

  lemma AllPassConcat(kind: Kind, a: seq<Task>, b: seq<Task>)
    ensures AllPass(kind, a + b) <==> AllPass(kind, a) && AllPass(kind, b)
  {
    assert forall i | 0 <= i < |a| :: (a + b)[i] == a[i];
    assert forall i | 0 <= i < |b| :: (a + b)[|a| + i] == b[i];
  }

  lemma {:induction false} AsRequestsConcat(kind: Kind, a: seq<int>, b: seq<int>)
    ensures AsRequests(kind, a + b) == AsRequests(kind, a) + AsRequests(kind, b)
  {
    if a == [] {
      assert a + b == b;
    } else {
      assert (a + b)[1..] == a[1..] + b;
      AsRequestsConcat(kind, a[1..], b);
    }
  }

  lemma {:induction false} RequestsCons(kind: Kind, items: seq<LabelItem>)
    requires items != []
    ensures Requests(kind, items) ==
            (if IsShortcut(kind, items[0]) then [] else [Request(kind, items[0].number)]) + Requests(kind, items[1..])
  {
    if |items| > 1 {
      var init := items[..|items| - 1];
      RequestsCons(kind, init);
      assert items[1..][..|items| - 2] == init[1..];
    } else {
      assert items[..0] == [] && items[1..] == [];
    }
  }

  lemma {:induction false} TakenUpAsks(kind: Kind, items: seq<LabelItem>, answers: nat -> bool, from: nat)
    requires from <= |items|
    ensures AsRequests(kind, NumbersAsked(kind, TasksOf(items, answers)[from..])) ==
            Requests(kind, items[from..TakenUpFrom(kind, items, answers, from)])
    decreases |items| - from
  {
    var tasks := TasksOf(items, answers);
    var end := TakenUpFrom(kind, items, answers, from);
    if from < |items| {
      assert tasks[from..][1..] == tasks[from + 1..];
      assert items[from..end][1..] == items[from + 1..end];
      RequestsCons(kind, items[from..end]);
      if GoesThrough(kind, items[from], answers(from)) {
        TakenUpAsks(kind, items, answers, from + 1);
      }
    }
  }

  lemma {:induction false} AllPassTakesAll(kind: Kind, items: seq<LabelItem>, answers: nat -> bool, from: nat)
    requires from <= |items| && forall i: nat | from <= i < |items| :: GoesThrough(kind, items[i], answers(i))
    ensures TakenUpFrom(kind, items, answers, from) == |items|
    decreases |items| - from
  {
    if from < |items| { AllPassTakesAll(kind, items, answers, from + 1); }
  }

  /** One batch. */
  lemma BatchAsks(kind: Kind, items: seq<LabelItem>, answers: nat -> bool)
    ensures AsRequests(kind, NumbersAsked(kind, TasksOf(items, answers))) ==
            Requests(kind, TakenUp(kind, items, answers))
    ensures AllPass(kind, TasksOf(items, answers)) <==>
            forall i: nat | i < |items| :: GoesThrough(kind, items[i], answers(i))
    ensures AllPass(kind, TasksOf(items, answers)) ==> TakenUp(kind, items, answers) == items
  {
    var tasks := TasksOf(items, answers);
    TakenUpAsks(kind, items, answers, 0);
    assert tasks[0..] == tasks;
    assert forall i: nat | i < |items| :: Passes(kind, tasks[i]) <==> GoesThrough(kind, items[i], answers(i));
    if AllPass(kind, tasks) { AllPassTakesAll(kind, items, answers, 0); }
  }

  lemma CompletedPrefix(kind: Kind, batches: seq<Batch>, known: set<int>, answers: (nat, nat) -> bool)
    requires batches != []
    ensures var n := |batches| - 1;
            var k := Completed(kind, batches[..n], known, answers);
            Completed(kind, batches, known, answers) ==
            if k < n then k else if BatchThrough(kind, batches, n, known, answers) then n + 1 else n
  {
    var n := |batches| - 1;
    var init := batches[..n];
    forall b: nat | b < n
      ensures BatchThrough(kind, init, b, known, answers) <==> BatchThrough(kind, batches, b, known, answers)
    {
      SamePending(batches, b, known);
    }
  }

  lemma SamePending(batches: seq<Batch>, b: nat, known: set<int>)
    requires b < |batches| - 1
    ensures PendingAt(batches[..|batches| - 1], b, known) == PendingAt(batches, b, known)
  {
    assert batches[..|batches| - 1][..b] == batches[..b];
  }

  lemma TasksOfBatch(batches: seq<Batch>, n: nat, known: set<int>, answers: (nat, nat) -> bool)
    requires n < |batches|
    ensures TasksOf(Fresh(batches[n].items, known + Numbers(ItemsOf(batches[..n]))), AnswersTo(answers, n)) ==
            TasksOf(PendingAt(batches, n, known), AnswersTo(answers, n))
  {
    PendingIsFresh(batches[n].items, known + Numbers(ItemsOf(batches[..n])));
  }

  /** Working batch by batch asks what working through the list of all tasks asks, and ends
      well exactly if every task passes. */
  lemma {:induction false} PhaseIsOneList(kind: Kind, batches: seq<Batch>, before: Done, answers: (nat, nat) -> bool)
    ensures var tasks := AllTasks(batches, before.Of(kind), answers);
            && Asked(kind, batches, before, answers) == AsRequests(kind, NumbersAsked(kind, tasks))
            && (PhaseThrough(kind, batches, before.Of(kind), answers) <==> AllPass(kind, tasks))
  {
    if batches != [] {
      PhaseIsOneList(kind, batches[..|batches| - 1], before, answers);
      OneMoreBatchAsks(kind, batches, before, answers);
    }
  }

  lemma OneMoreBatchAsks(kind: Kind, batches: seq<Batch>, before: Done, answers: (nat, nat) -> bool)
    requires batches != []
    requires var init := batches[..|batches| - 1];
             var tasks := AllTasks(init, before.Of(kind), answers);
             && Asked(kind, init, before, answers) == AsRequests(kind, NumbersAsked(kind, tasks))
             && (PhaseThrough(kind, init, before.Of(kind), answers) <==> AllPass(kind, tasks))
    ensures var tasks := AllTasks(batches, before.Of(kind), answers);
            && Asked(kind, batches, before, answers) == AsRequests(kind, NumbersAsked(kind, tasks))
            && (PhaseThrough(kind, batches, before.Of(kind), answers) <==> AllPass(kind, tasks))
  {
    var n, known := |batches| - 1, before.Of(kind);
    var init := batches[..n];
    var first := AllTasks(init, known, answers);
    var items, at := PendingAt(batches, n, known), AnswersTo(answers, n);
    var last := TasksOf(items, at);
    TasksOfBatch(batches, n, known, answers);
    CompletedPrefix(kind, batches, known, answers);
    BatchAsks(kind, items, at);
    AskedConcat(kind, first, last);
    AllPassConcat(kind, first, last);
    PhaseOfPrefix(kind, batches, known, answers);
    if AllPass(kind, first) {
      AsRequestsConcat(kind, NumbersAsked(kind, first), NumbersAsked(kind, last));
      LastBatchAsks(kind, batches, before, answers);
    } else {
      FrontAsks(kind, batches, before, answers);
      assert NumbersAsked(kind, first) + [] == NumbersAsked(kind, first);
    }
  }

  lemma PhaseOfPrefix(kind: Kind, batches: seq<Batch>, known: set<int>, answers: (nat, nat) -> bool)
    requires batches != []
    ensures var n := |batches| - 1;
            PhaseThrough(kind, batches, known, answers) <==>
            PhaseThrough(kind, batches[..n], known, answers) && BatchThrough(kind, batches, n, known, answers)
  {
    var n := |batches| - 1;
    var init := batches[..n];
    forall b: nat | b < n
      ensures BatchThrough(kind, init, b, known, answers) <==> BatchThrough(kind, batches, b, known, answers)
    {
      SamePending(batches, b, known);
    }
    if PhaseThrough(kind, batches, known, answers) {
      assert forall b: nat | b < n :: BatchThrough(kind, batches, b, known, answers);
    }
  }

  /** If all before the last batch goes through, the last batch asks on. */
  lemma LastBatchAsks(kind: Kind, batches: seq<Batch>, before: Done, answers: (nat, nat) -> bool)
    requires batches != [] && PhaseThrough(kind, batches[..|batches| - 1], before.Of(kind), answers)
    ensures var n := |batches| - 1;
            Asked(kind, batches, before, answers) ==
            Asked(kind, batches[..n], before, answers) +
            Requests(kind, TakenUp(kind, PendingAt(batches, n, before.Of(kind)), AnswersTo(answers, n)))
  {
    var n, known := |batches| - 1, before.Of(kind);
    var init, items := batches[..n], PendingAt(batches, n, known);
    CompletedPrefix(kind, batches, known, answers);
    BatchAsks(kind, items, AnswersTo(answers, n));
    assert Completed(kind, init, known, answers) == n && init[..n] == init;
    var before' := AllRequests(kind, init, before);
    assert before' + [] == before';
    if BatchThrough(kind, batches, n, known, answers) {
      assert batches[..n + 1] == batches;
      assert Asked(kind, batches, before, answers) == AllRequests(kind, batches, before) + [];
    }
  }

  /** If something before the last batch throws, the last batch does not matter. */
  lemma FrontAsks(kind: Kind, batches: seq<Batch>, before: Done, answers: (nat, nat) -> bool)
    requires batches != [] && !PhaseThrough(kind, batches[..|batches| - 1], before.Of(kind), answers)
    ensures Asked(kind, batches, before, answers) == Asked(kind, batches[..|batches| - 1], before, answers)
  {
    var n, known := |batches| - 1, before.Of(kind);
    var k := Completed(kind, batches[..n], known, answers);
    CompletedPrefix(kind, batches, known, answers);
    assert k < n;
    assert batches[..n][..k] == batches[..k];
    SamePending(batches, k, known);
  }

  // ---- the whole run ----------------------------------------------------------------------

  /** The work on issues, and that on pull requests, as a run finds it. */
  ghost function IssueTasks(world: World, before: Done): seq<Task> {
    AllTasks(Fetched(world.issuePages, world.limit), before.issues, world.issueAnswers)
  }

  ghost function PullRequestTasks(world: World, before: Done): seq<Task> {
    AllTasks(Fetched(world.pullRequestPages, world.limit), before.pullRequests, world.pullRequestAnswers)
  }

  /** A run gets to the pull requests if no query for issues throws and every issue is answered;
      it succeeds if, besides, no query for pull requests throws and every one of them is
      answered or has the skill label. It asks about the issues, then about the pull requests. */
  lemma AuditIsOneList(world: World, before: Done)
    ensures var issues, pullRequests := IssueTasks(world, before), PullRequestTasks(world, before);
            var issuesDone := !GivesOut(world.issuePages, world.limit) && AllPass(Issue, issues);
            && AllAsked(world, before) ==
               AsRequests(Issue, NumbersAsked(Issue, issues)) +
               (if issuesDone then AsRequests(PullRequest, NumbersAsked(PullRequest, pullRequests)) else [])
            && (NothingThrows(world, before) <==>
                  issuesDone && !GivesOut(world.pullRequestPages, world.limit) && AllPass(PullRequest, pullRequests))
  {
    PhaseIsOneList(Issue, Fetched(world.issuePages, world.limit), before, world.issueAnswers);
    PhaseIsOneList(PullRequest, Fetched(world.pullRequestPages, world.limit), AfterIssues(world, before),
                   world.pullRequestAnswers);
    IssuesLeavePullRequests(world, before);
  }

  lemma IssuesLeavePullRequests(world: World, before: Done)
    ensures AfterIssues(world, before).pullRequests == before.pullRequests
    ensures AfterIssues(world, before).Of(PullRequest) == before.pullRequests
  {
  }

  lemma {:induction false} InRequests(kind: Kind, numbers: seq<int>, r: Request)
    ensures r in AsRequests(kind, numbers) <==> r.kind == kind && r.number in numbers
  {
    if numbers != [] {
      InRequests(kind, numbers[1..], r);
      assert AsRequests(kind, numbers) == [Request(kind, numbers[0])] + AsRequests(kind, numbers[1..]);
    }
  }

  lemma {:induction false} CountRequests(kind: Kind, numbers: seq<int>, n: int)
    ensures multiset(AsRequests(kind, numbers))[Request(kind, n)] == multiset(numbers)[n]
  {
    if numbers != [] {
      CountRequests(kind, numbers[1..], n);
      assert numbers == [numbers[0]] + numbers[1..];
      assert AsRequests(kind, numbers) == [Request(kind, numbers[0])] + AsRequests(kind, numbers[1..]);
    }
  }

  /** No run asks about a pull request that has the skill label, whatever the answers are. */
  lemma SkillPullRequestsAreNotAsked(world: World, before: Done, task: Task)
    requires task in PullRequestTasks(world, before) && "r: skill" in task.item.labels
    requires AreDistinct(PullRequestTasks(world, before))
    ensures Request(PullRequest, task.item.number) !in AllAsked(world, before)
  {
    var r := Request(PullRequest, task.item.number);
    var tasks := PullRequestTasks(world, before);
    AuditIsOneList(world, before);
    ShortcutsAreNotAsked(PullRequest, tasks);
    InRequests(PullRequest, NumbersAsked(PullRequest, tasks), r);
    InRequests(Issue, NumbersAsked(Issue, IssueTasks(world, before)), r);
    assert forall t | t in tasks && t.item.number == r.number :: t == task;
  }

  /** A run asks exactly once about every issue that it reaches, whatever its labels. */
  lemma ReachedIssuesAreAskedOnce(world: World, before: Done, i: nat)
    requires i < |IssueTasks(world, before)| && AreDistinct(IssueTasks(world, before))
    requires forall j | 0 <= j < i :: IssueTasks(world, before)[j].answered
    ensures multiset(AllAsked(world, before))[Request(Issue, IssueTasks(world, before)[i].item.number)] == 1
  {
    var tasks := IssueTasks(world, before);
    AuditIsOneList(world, before);
    ReachedAreAskedOnce(Issue, tasks, i);
    CountRequests(Issue, NumbersAsked(Issue, tasks), tasks[i].item.number);
    InRequests(PullRequest, NumbersAsked(PullRequest, PullRequestTasks(world, before)),
               Request(Issue, tasks[i].item.number));
  }

  /** A run that gets to the pull requests asks exactly once about every one that it reaches
      and that does not have the skill label. */
  lemma ReachedPullRequestsAreAskedOnce(world: World, before: Done, i: nat)
    requires !GivesOut(world.issuePages, world.limit) && AllPass(Issue, IssueTasks(world, before))
    requires i < |PullRequestTasks(world, before)| && AreDistinct(PullRequestTasks(world, before))
    requires var tasks := PullRequestTasks(world, before);
             && (forall j | 0 <= j < i :: tasks[j].answered || "r: skill" in tasks[j].item.labels)
             && "r: skill" !in tasks[i].item.labels
    ensures var number := PullRequestTasks(world, before)[i].item.number;
            multiset(AllAsked(world, before))[Request(PullRequest, number)] == 1
  {
    var tasks := PullRequestTasks(world, before);
    AuditIsOneList(world, before);
    ReachedAreAskedOnce(PullRequest, tasks, i);
    CountRequests(PullRequest, NumbersAsked(PullRequest, tasks), tasks[i].item.number);
    InRequests(Issue, NumbersAsked(Issue, IssueTasks(world, before)), Request(PullRequest, tasks[i].item.number));
  }

  /** What a run in which nothing throws leaves done: all numbers fetched, each with its kind. */
  lemma AllFetchedAreDone(world: World, before: Done)
    requires NothingThrows(world, before)
    ensures SavedAtEnd(world, before) ==
            Done(before.issues + Numbers(Take(NodesOf(Chain(world.issuePages)), world.limit)),
                 before.pullRequests + Numbers(Take(NodesOf(Chain(world.pullRequestPages)), world.limit)))
  {
    SavedAtEndFacts(world, before);
  }
}
