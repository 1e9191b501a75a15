/** CPU time of a process and everything it started
    (`scripts/bench-gateway-startup.ts`, `readProcessTreeCpuMs`), from the parsed
    rows of the process table. */
module ProcessTree {
  import opened Options

  /** One row; `cpuMs` is missing when its time column could not be read. */
  datatype Row = Row(pid: nat, ppid: nat, cpuMs: Option<nat>)

  /** A pid's time is the one of its last readable row. */
  function CpuOf(rows: seq<Row>, pid: nat): Option<nat> {
    if rows == [] then None
    else
      var last := rows[|rows| - 1];
      if last.pid == pid && last.cpuMs.Some? then last.cpuMs else CpuOf(rows[..|rows| - 1], pid)
  }

  /** Row `i` is the last readable one of the pid. */
  predicate IsLastRow(rows: seq<Row>, pid: nat, i: nat)
    requires i < |rows|
  {
    && rows[i].pid == pid && rows[i].cpuMs.Some?
    && forall k :: i < k < |rows| && rows[k].pid == pid ==> rows[k].cpuMs.None?
  }

  lemma {:induction false} LastRowCounts(rows: seq<Row>, pid: nat)
    ensures forall i :: 0 <= i < |rows| && IsLastRow(rows, pid, i) ==> CpuOf(rows, pid) == rows[i].cpuMs
    ensures CpuOf(rows, pid).Some? <==> exists i :: 0 <= i < |rows| && IsLastRow(rows, pid, i)
  {
    if rows != [] {
      var front, last := rows[..|rows| - 1], |rows| - 1;
      LastRowCounts(front, pid);
      if rows[last].pid == pid && rows[last].cpuMs.Some? {
        assert IsLastRow(rows, pid, last);
      } else {
        assert forall i :: 0 <= i < last ==> (IsLastRow(rows, pid, i) <==> IsLastRow(front, pid, i));
      }
    }
  }

  predicate IsChild(rows: seq<Row>, parent: nat, child: nat) {
    exists i :: 0 <= i < |rows| && rows[i] == Row(child, parent, rows[i].cpuMs) && rows[i].cpuMs.Some?
  }

  /** A way down from `path[0]` along child links that never uses pid 0. */
  ghost predicate IsPath(rows: seq<Row>, path: seq<nat>) {
    && path != []
    && (forall i :: 0 <= i < |path| ==> path[i] != 0)
    && (forall i :: 0 <= i < |path| - 1 ==> IsChild(rows, path[i], path[i + 1]))
  }

  ghost predicate Reaches(rows: seq<Row>, root: nat, pid: nat) {
    exists path :: IsPath(rows, path) && path[0] == root && path[|path| - 1] == pid
  }

  /** The sum of the times of a set of pids, each counted once. */
  ghost function TotalCpu(rows: seq<Row>, pids: set<nat>): nat {
    if pids == {} then 0
    else
      var pid :| pid in pids;
      CpuOf(rows, pid).GetOr(0) + TotalCpu(rows, pids - {pid})
  }

  lemma {:induction false} TotalCpuAdds(rows: seq<Row>, pids: set<nat>, pid: nat)
    requires pid !in pids
    ensures TotalCpu(rows, pids + {pid}) == TotalCpu(rows, pids) + CpuOf(rows, pid).GetOr(0)
  {
    var all := pids + {pid};
    var first :| first in all && TotalCpu(rows, all) == CpuOf(rows, first).GetOr(0) + TotalCpu(rows, all - {first});
    if first == pid {
      assert all - {first} == pids;
    } else {
      assert all - {first} == (pids - {first}) + {pid};
      TotalCpuAdds(rows, pids - {first}, pid);
      TotalCpuAdds(rows, pids - {first}, first);
      assert pids - {first} + {first} == pids;
    }
  }

  lemma ReachesChild(rows: seq<Row>, root: nat, pid: nat, child: nat)
    requires Reaches(rows, root, pid) && IsChild(rows, pid, child) && child != 0
    ensures Reaches(rows, root, child)
  {
    var path :| IsPath(rows, path) && path[0] == root && path[|path| - 1] == pid;
    assert IsPath(rows, path + [child]);
  }

  /** A set that holds the root and all non-zero children of its members holds
      everything reachable. */
  lemma {:induction false} ClosedSetHoldsPath(rows: seq<Row>, pids: set<nat>, path: seq<nat>)
    requires IsPath(rows, path) && path[0] in pids
    requires forall pid, child :: pid in pids && IsChild(rows, pid, child) && child != 0 ==> child in pids
    ensures path[|path| - 1] in pids
    decreases |path|
  {
    if |path| > 1 {
      assert IsChild(rows, path[0], path[1]) && path[1] != 0;
      assert IsPath(rows, path[1..]);
      ClosedSetHoldsPath(rows, pids, path[1..]);
    }
  }

  function ChildrenOf(rows: seq<Row>, parent: nat): seq<nat> {
    if rows == [] then []
    else
      var last := rows[|rows| - 1];
      ChildrenOf(rows[..|rows| - 1], parent) + (if last.ppid == parent && last.cpuMs.Some? then [last.pid] else [])
  }

  lemma {:induction false} ChildrenAreChildren(rows: seq<Row>, parent: nat, child: nat)
    ensures child in ChildrenOf(rows, parent) <==> IsChild(rows, parent, child)
  {
    if rows != [] {
      var earlier, last := rows[..|rows| - 1], rows[|rows| - 1];
      ChildrenAreChildren(earlier, parent, child);
      if IsChild(rows, parent, child) {
        var i :| 0 <= i < |rows| && rows[i] == Row(child, parent, rows[i].cpuMs) && rows[i].cpuMs.Some?;
        assert i < |earlier| ==> earlier[i] == rows[i];
      }
      if IsChild(earlier, parent, child) {
        var i :| 0 <= i < |earlier| && earlier[i] == Row(child, parent, earlier[i].cpuMs) && earlier[i].cpuMs.Some?;
        assert rows[i] == earlier[i];
      }
      assert last.ppid == parent && last.cpuMs.Some? && last.pid == child ==> rows[|rows| - 1] == Row(child, parent, last.cpuMs);
    }
  }

  ghost predicate Times(rows: seq<Row>, cpuByPid: map<nat, nat>) {
    forall pid :: CpuOf(rows, pid) == if pid in cpuByPid then Some(cpuByPid[pid]) else None
  }

  ghost predicate Links(rows: seq<Row>, childrenByParent: map<nat, seq<nat>>) {
    forall pid :: ChildrenOf(rows, pid) == if pid in childrenByParent then childrenByParent[pid] else []
  }

  lemma RowsOf(rows: seq<Row>, childrenByParent: map<nat, seq<nat>>, cpuByPid: map<nat, nat>, pid: nat)
    requires Times(rows, cpuByPid) && Links(rows, childrenByParent)
    ensures (if pid in cpuByPid then cpuByPid[pid] else 0) == CpuOf(rows, pid).GetOr(0)
    ensures (if pid in childrenByParent then childrenByParent[pid] else []) == ChildrenOf(rows, pid)
  {
  }

  /** The two maps that the row loop fills. */
  method ReadRows(rows: seq<Row>) returns (childrenByParent: map<nat, seq<nat>>, cpuByPid: map<nat, nat>)
    ensures Times(rows, cpuByPid) && Links(rows, childrenByParent)
  {
    childrenByParent, cpuByPid := map[], map[];
    for i := 0 to |rows|
      invariant Times(rows[..i], cpuByPid) && Links(rows[..i], childrenByParent)
    {
      assert rows[..i + 1][..i] == rows[..i];
      var row := rows[i];
      if row.cpuMs.Some? {
        cpuByPid := cpuByPid[row.pid := row.cpuMs.value];
        var children := if row.ppid in childrenByParent then childrenByParent[row.ppid] else [];
        childrenByParent := childrenByParent[row.ppid := children + [row.pid]];
      }
    }
    assert rows[..|rows|] == rows;
  }

  ghost function AllPids(rows: seq<Row>): set<nat> {
    set i | 0 <= i < |rows| :: rows[i].pid
  }

  /** What the walk has seen is reachable, and what it has still to see is on the stack. */
  ghost predicate Walking(rows: seq<Row>, root: nat, seen: set<nat>, stack: seq<nat>) {
    && 0 !in seen
    && (forall pid <- seen :: Reaches(rows, root, pid) && pid in AllPids(rows) + {root})
    && (forall pid <- stack :: pid != 0 ==> Reaches(rows, root, pid) && pid in AllPids(rows) + {root})
    && (root in seen || root in stack)
    && (forall pid, child :: pid in seen && IsChild(rows, pid, child) && child != 0 ==> child in seen || child in stack)
  }

  lemma SkipKeepsWalking(rows: seq<Row>, root: nat, seen: set<nat>, stack: seq<nat>, pid: nat)
    requires Walking(rows, root, seen, stack + [pid]) && (pid == 0 || pid in seen) && root != 0
    ensures Walking(rows, root, seen, stack)
  {
    assert forall x :: x in stack + [pid] <==> x in stack || x == pid;
  }

  lemma VisitKeepsWalking(rows: seq<Row>, root: nat, seen: set<nat>, stack: seq<nat>, pid: nat)
    requires Walking(rows, root, seen, stack + [pid]) && pid != 0
    ensures pid in AllPids(rows) + {root}
    ensures Walking(rows, root, seen + {pid}, stack + ChildrenOf(rows, pid))
  {
    var children := ChildrenOf(rows, pid);
    assert pid in stack + [pid];
    assert forall x :: x in stack + [pid] <==> x in stack || x == pid;
    assert forall x :: x in stack + children <==> x in stack || x in children;
    forall child
      ensures child in children <==> IsChild(rows, pid, child)
      ensures child in children && child != 0 ==> Reaches(rows, root, child) && child in AllPids(rows)
    {
      ChildrenAreChildren(rows, pid, child);
      if child in children && child != 0 {
        ReachesChild(rows, root, pid, child);
      }
    }
  }

  lemma FinishedWalk(rows: seq<Row>, root: nat, seen: set<nat>)
    requires Walking(rows, root, seen, [])
    ensures forall pid :: pid in seen <==> Reaches(rows, root, pid)
  {
    forall pid | Reaches(rows, root, pid)
      ensures pid in seen
    {
      var path :| IsPath(rows, path) && path[0] == root && path[|path| - 1] == pid;
      ClosedSetHoldsPath(rows, seen, path);
    }
  }

  /** Walks the tree with a stack and a set of seen pids. The table may repeat rows
      and its parent links may form cycles. */
  method ReadProcessTreeCpuMs(rootPid: nat, rows: seq<Row>) returns (r: Option<nat>, ghost tree: set<nat>)
    ensures r.None? <==> rootPid == 0 || CpuOf(rows, rootPid).None?
    ensures r.Some? ==> forall pid :: pid in tree <==> Reaches(rows, rootPid, pid)
    ensures r.Some? ==> r.value == TotalCpu(rows, tree)
  {
    tree := {};
    if rootPid == 0 {
      return None, tree;
    }
    var childrenByParent, cpuByPid := ReadRows(rows);
    if rootPid !in cpuByPid {
      return None, tree;
    }
    var totalCpuMs := 0;
    var seen: set<nat> := {};
    var stack := [rootPid];
    assert IsPath(rows, [rootPid]);
    while |stack| > 0
      invariant Walking(rows, rootPid, seen, stack) && totalCpuMs == TotalCpu(rows, seen)
      decreases AllPids(rows) + {rootPid} - seen, |stack|
    {
      var pid := stack[|stack| - 1];
      ghost var before := stack;
      stack := stack[..|stack| - 1];
      assert before == stack + [pid];
      if pid == 0 || pid in seen {
        SkipKeepsWalking(rows, rootPid, seen, stack, pid);
        continue;
      }
      VisitKeepsWalking(rows, rootPid, seen, stack, pid);
      TotalCpuAdds(rows, seen, pid);
      RowsOf(rows, childrenByParent, cpuByPid, pid);
      seen := seen + {pid};
      totalCpuMs := totalCpuMs + (if pid in cpuByPid then cpuByPid[pid] else 0);
      stack := stack + (if pid in childrenByParent then childrenByParent[pid] else []);
    }
    FinishedWalk(rows, rootPid, seen);
    return Some(totalCpuMs), seen;
  }
}
