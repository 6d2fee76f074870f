/** The CPU time of a process and its descendants (`readProcessTreeCpuMs`). */
module ProcessTree {
  import opened Outcomes
  import opened Reachability

  /** One parsed line of the process listing. */
  datatype Row = Row(pid: nat, ppid: nat, cpuMs: nat)

  /** The pids listed under `ppid`, in order, repetitions included. */
  function ChildrenOf(rows: seq<Row>, ppid: nat): seq<nat> {
    if rows == [] then []
    else
      ChildrenOf(rows[..|rows| - 1], ppid) +
      if rows[|rows| - 1].ppid == ppid then [rows[|rows| - 1].pid] else []
  }

  /** The time of a pid; of several rows for one pid the last counts. */
  function CpuOf(rows: seq<Row>, pid: nat): Option<nat> {
    if rows == [] then None
    else if rows[|rows| - 1].pid == pid then Some(rows[|rows| - 1].cpuMs)
    else CpuOf(rows[..|rows| - 1], pid)
  }

  lemma {:induction false} ListedChildren(rows: seq<Row>, ppid: nat, pid: nat)
    ensures pid in ChildrenOf(rows, ppid) <==> exists i :: 0 <= i < |rows| && rows[i].pid == pid && rows[i].ppid == ppid
  {
    if rows != [] {
      var init, last := rows[..|rows| - 1], rows[|rows| - 1];
      ListedChildren(init, ppid, pid);
      if last.pid == pid && last.ppid == ppid {
        assert rows[|rows| - 1].pid == pid && rows[|rows| - 1].ppid == ppid;
      } else if pid in ChildrenOf(init, ppid) {
        var i :| 0 <= i < |init| && init[i].pid == pid && init[i].ppid == ppid;
        assert rows[i] == init[i];
      } else {
        assert forall i | 0 <= i < |init| :: rows[i] == init[i];
      }
    }
  }

  lemma {:induction false} LastRowCounts(rows: seq<Row>, pid: nat)
    ensures CpuOf(rows, pid).Some? <==> exists i :: 0 <= i < |rows| && rows[i].pid == pid
    ensures forall i: nat | i < |rows| && rows[i].pid == pid && (forall j | i < j < |rows| :: rows[j].pid != pid) ::
              CpuOf(rows, pid) == Some(rows[i].cpuMs)
  {
    if rows != [] {
      var init, last := rows[..|rows| - 1], rows[|rows| - 1];
      LastRowCounts(init, pid);
      assert forall i | 0 <= i < |init| :: rows[i] == init[i];
      if last.pid != pid {
        forall i: nat | i < |rows| && rows[i].pid == pid && forall j | i < j < |rows| :: rows[j].pid != pid
          ensures CpuOf(rows, pid) == Some(rows[i].cpuMs)
        {
          assert init[i].pid == pid && forall j | i < j < |init| :: init[j].pid != pid;
        }
      }
    }
  }

  /** Parent and child; pid 0 is never followed. */
  ghost function Descent(rows: seq<Row>): (nat, nat) -> bool {
    (parent: nat, child: nat) => child != 0 && child in ChildrenOf(rows, parent)
  }

  /** One step down the tree is a row of the listing, but never to pid 0. */
  lemma DescentIsListed(rows: seq<Row>, parent: nat, child: nat)
    ensures Descent(rows)(parent, child) <==>
            child != 0 && exists i :: 0 <= i < |rows| && rows[i].pid == child && rows[i].ppid == parent
  {
    ListedChildren(rows, parent, child);
  }

  function CpuMs(rows: seq<Row>, pid: nat): nat {
    match CpuOf(rows, pid) case None => 0 case Some(ms) => ms
  }

  ghost function TotalCpu(rows: seq<Row>, pids: set<nat>): nat {
    if pids == {} then 0 else var pid :| pid in pids; CpuMs(rows, pid) + TotalCpu(rows, pids - {pid})
  }

  lemma {:induction false} TotalCpuRemove(rows: seq<Row>, pids: set<nat>, pid: nat)
    requires pid in pids
    ensures TotalCpu(rows, pids) == CpuMs(rows, pid) + TotalCpu(rows, pids - {pid})
  {
    var other :| other in pids && TotalCpu(rows, pids) == CpuMs(rows, other) + TotalCpu(rows, pids - {other});
    if other != pid {
      TotalCpuRemove(rows, pids - {other}, pid);
      TotalCpuRemove(rows, pids - {pid}, other);
      assert pids - {other} - {pid} == pids - {pid} - {other};
    }
  }

  ghost function AllPids(rows: seq<Row>): set<nat> {
    set i | 0 <= i < |rows| :: rows[i].pid
  }

  lemma {:induction false} ChildrenAreListed(rows: seq<Row>, ppid: nat)
    ensures forall c | c in ChildrenOf(rows, ppid) :: c in AllPids(rows)
  {
    if rows != [] {
      var n := |rows| - 1;
      ChildrenAreListed(rows[..n], ppid);
      assert forall i | 0 <= i < n :: rows[..n][i] == rows[i];
      assert rows[n].pid in AllPids(rows);
    }
  }

  // ---- indexing the listing ----------------------------------------------------------------

  function ChildrenIn(index: map<nat, seq<nat>>, ppid: nat): seq<nat> {
    if ppid in index then index[ppid] else []
  }

  function CpuIn(index: map<nat, nat>, pid: nat): Option<nat> {
    if pid in index then Some(index[pid]) else None
  }

  ghost predicate IsIndex(rows: seq<Row>, children: map<nat, seq<nat>>, cpu: map<nat, nat>) {
    && (forall p :: ChildrenIn(children, p) == ChildrenOf(rows, p))
    && (forall p :: CpuIn(cpu, p) == CpuOf(rows, p))
  }

  lemma IndexRow(rows: seq<Row>, children: map<nat, seq<nat>>, cpu: map<nat, nat>, row: Row)
    requires IsIndex(rows, children, cpu)
    ensures IsIndex(rows + [row], children[row.ppid := ChildrenIn(children, row.ppid) + [row.pid]],
            cpu[row.pid := row.cpuMs])
  {
    var more := rows + [row];
    assert more[..|rows|] == rows && more[|rows|] == row;
    forall p
      ensures ChildrenOf(more, p) == if p == row.ppid then ChildrenOf(rows, p) + [row.pid] else ChildrenOf(rows, p)
    {
      assert ChildrenOf(rows, p) + [] == ChildrenOf(rows, p);
    }
    var cpu' := cpu[row.pid := row.cpuMs];
    forall p ensures CpuIn(cpu', p) == CpuOf(more, p) {
      assert CpuIn(cpu, p) == CpuOf(rows, p);
    }
    var children' := children[row.ppid := ChildrenIn(children, row.ppid) + [row.pid]];
    forall p ensures ChildrenIn(children', p) == ChildrenOf(more, p) {
      assert ChildrenIn(children, p) == ChildrenOf(rows, p);
    }
  }

  method IndexRows(rows: seq<Row>) returns (childrenByParent: map<nat, seq<nat>>, cpuByPid: map<nat, nat>)
    ensures IsIndex(rows, childrenByParent, cpuByPid)
  {
    childrenByParent, cpuByPid := map[], map[];
    for i := 0 to |rows|
      invariant IsIndex(rows[..i], childrenByParent, cpuByPid)
    {
      var row := rows[i];
      assert rows[..i + 1] == rows[..i] + [row];
      IndexRow(rows[..i], childrenByParent, cpuByPid, row);
      cpuByPid := cpuByPid[row.pid := row.cpuMs];
      var children := ChildrenIn(childrenByParent, row.ppid);
      childrenByParent := childrenByParent[row.ppid := children + [row.pid]];
    }
    assert rows[..|rows|] == rows;
  }

  // ---- the worklist ------------------------------------------------------------------------

  /** Everything seen or on the stack is reachable, and what is seen leads only to
      what is seen or on the stack. */
  ghost predicate SearchOk(rows: seq<Row>, root: nat, seen: set<nat>, stack: seq<nat>) {
    && (root in seen || root in stack)
    && (forall x | x in seen :: Reaches(Descent(rows), root, x) && x != 0)
    && (forall x | x in stack && x != 0 :: Reaches(Descent(rows), root, x))
    && (forall x | x in stack :: x == root || x in AllPids(rows))
    && (forall x, y | x in seen && Descent(rows)(x, y) :: y in seen || y in stack)
  }

  lemma PopKeepsSearch(rows: seq<Row>, root: nat, seen: set<nat>, stack: seq<nat>, pid: nat)
    requires SearchOk(rows, root, seen, stack + [pid]) && (pid == 0 || pid in seen) && root != 0
    ensures SearchOk(rows, root, seen, stack)
  {
    assert forall x | x in stack :: x in stack + [pid];
    assert forall x | x in stack + [pid] :: x in stack || x == pid;
  }

  lemma VisitKeepsSearch(rows: seq<Row>, root: nat, seen: set<nat>, stack: seq<nat>, pid: nat)
    requires SearchOk(rows, root, seen, stack + [pid]) && pid != 0
    ensures SearchOk(rows, root, seen + {pid}, stack + ChildrenOf(rows, pid))
  {
    var children := ChildrenOf(rows, pid);
    assert pid in stack + [pid];
    ChildrenAreListed(rows, pid);
    assert forall x | x in stack + [pid] :: x in stack || x == pid;
    forall x | x in stack + children ensures x == root || x in AllPids(rows) {
      if x !in children { assert x in stack + [pid]; }
    }
    forall x | x in stack + children && x != 0 ensures Reaches(Descent(rows), root, x) {
      if x in children { ReachesStep(Descent(rows), root, pid, x); } else { assert x in stack + [pid]; }
    }
    forall x, y | x in seen + {pid} && Descent(rows)(x, y) ensures y in seen + {pid} || y in stack + children {
      if x == pid { assert y in children; }
    }
  }

  lemma SearchIsDone(rows: seq<Row>, root: nat, seen: set<nat>)
    requires SearchOk(rows, root, seen, [])
    ensures forall x :: x in seen <==> Reaches(Descent(rows), root, x)
  {
    ClosedIsReachable(Descent(rows), root, seen);
  }

  /** Taking the last pid off the stack. */
  lemma TurnKeepsSearch(rows: seq<Row>, root: nat, seen: set<nat>, stack: seq<nat>)
    requires SearchOk(rows, root, seen, stack) && stack != [] && root != 0
    ensures var pid, rest := stack[|stack| - 1], stack[..|stack| - 1];
            if pid == 0 || pid in seen then SearchOk(rows, root, seen, rest)
            else && SearchOk(rows, root, seen + {pid}, rest + ChildrenOf(rows, pid))
                 && pid in AllPids(rows) + {root} - seen
                 && TotalCpu(rows, seen + {pid}) == TotalCpu(rows, seen) + CpuMs(rows, pid)
  {
    var pid, rest := stack[|stack| - 1], stack[..|stack| - 1];
    assert stack == rest + [pid];
    if pid == 0 || pid in seen {
      PopKeepsSearch(rows, root, seen, rest, pid);
    } else {
      VisitKeepsSearch(rows, root, seen, rest, pid);
      assert pid in stack;
      TotalCpuRemove(rows, seen + {pid}, pid);
      assert seen + {pid} - {pid} == seen;
    }
  }

  method SumTree(rows: seq<Row>, root: nat, childrenByParent: map<nat, seq<nat>>, cpuByPid: map<nat, nat>)
    returns (totalCpuMs: nat, seen: set<nat>)
    requires IsIndex(rows, childrenByParent, cpuByPid) && root != 0
    ensures forall pid :: pid in seen <==> Reaches(Descent(rows), root, pid)
    ensures totalCpuMs == TotalCpu(rows, seen)
  {
    var stack := [root];
    totalCpuMs, seen := 0, {};
    ReachesSelf(Descent(rows), root);
    while |stack| > 0
      invariant SearchOk(rows, root, seen, stack)
      invariant totalCpuMs == TotalCpu(rows, seen)
      decreases AllPids(rows) + {root} - seen, |stack|
    {
      TurnKeepsSearch(rows, root, seen, stack);
      var pid := stack[|stack| - 1];
      stack := stack[..|stack| - 1];
      if pid == 0 || pid in seen {
        continue;
      }
      seen := seen + {pid};
      assert CpuIn(cpuByPid, pid) == CpuOf(rows, pid) && ChildrenIn(childrenByParent, pid) == ChildrenOf(rows, pid);
      totalCpuMs := totalCpuMs + if pid in cpuByPid then cpuByPid[pid] else 0;
      stack := stack + ChildrenIn(childrenByParent, pid);
    }
    SearchIsDone(rows, root, seen);
  }

  /** The sum of the CPU times of exactly the nonzero pids that descend from the
      root, each counted once, for any listing: cycles, repeated rows and rows of
      unknown parents included. */
  method ReadProcessTreeCpuMs(rootPid: Option<nat>, listing: Option<seq<Row>>) returns (r: Option<nat>, tree: set<nat>)
    ensures rootPid.None? || rootPid.value == 0 || listing.None? ==> r == None
    ensures rootPid.Some? && rootPid.value != 0 && listing.Some? ==>
              var rows := listing.value;
              if CpuOf(rows, rootPid.value).None? then r == None
              else && (forall pid :: pid in tree <==> Reaches(Descent(rows), rootPid.value, pid))
                   && r == Some(TotalCpu(rows, tree))
  {
    if rootPid.None? || rootPid.value == 0 || listing.None? {
      return None, {};
    }
    var childrenByParent, cpuByPid := IndexRows(listing.value);
    assert CpuIn(cpuByPid, rootPid.value) == CpuOf(listing.value, rootPid.value);
    if rootPid.value !in cpuByPid {
      return None, {};
    }
    var totalCpuMs;
    totalCpuMs, tree := SumTree(listing.value, rootPid.value, childrenByParent, cpuByPid);
    r := Some(totalCpuMs);
  }
}
