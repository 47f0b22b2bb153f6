/**
 * collect_process: which processes of a snapshot belong to one station's capture. Root
 * selection must survive configuration paths that could not be read; the tree walk must
 * terminate on any parent relation.
 */
module ProcessTree {
  import opened Sequences
  import CpuShare

  /** config is None when the process's configuration path could not be determined. */
  datatype Proc = Proc(pid: int, marker: bool, config: Option<string>, ppid: int, rss: nat)

  // ----- Roots -----

  ghost predicate MarkerPid(procs: seq<Proc>, pid: int) {
    exists i :: 0 <= i < |procs| && procs[i].pid == pid && procs[i].marker
  }

  /** A process that carries the marker and uses the station's configuration. */
  ghost predicate CmdPid(procs: seq<Proc>, target: string, pid: int) {
    exists i :: 0 <= i < |procs| && procs[i].pid == pid && procs[i].marker &&
                procs[i].config == Some(target)
  }

  ghost predicate RootEntry(procs: seq<Proc>, target: string, i: int) {
    0 <= i < |procs| && CmdPid(procs, target, procs[i].pid) && !MarkerPid(procs, procs[i].ppid)
  }

  /** The root entries among the first n, in snapshot order. */
  ghost function RootsBelow(procs: seq<Proc>, target: string, n: nat): (r: seq<int>)
    requires n <= |procs|
    ensures forall p :: p in r <==> exists i :: i < n && RootEntry(procs, target, i) && procs[i].pid == p
  {
    if n == 0 then []
    else RootsBelow(procs, target, n - 1) +
         (if RootEntry(procs, target, n - 1) then [procs[n - 1].pid] else [])
  }

  ghost function Roots(procs: seq<Proc>, target: string): seq<int> {
    RootsBelow(procs, target, |procs|)
  }

  method FindRoots(procs: seq<Proc>, target: string) returns (roots: seq<int>)
    ensures roots == Roots(procs, target)
  {
    var cmdPids: set<int>, markerPids: set<int> := {}, {};
    for i := 0 to |procs|
      invariant forall p :: p in cmdPids <==>
                  exists k :: 0 <= k < i && procs[k].pid == p && procs[k].marker && procs[k].config == Some(target)
      invariant forall p :: p in markerPids <==>
                  exists k :: 0 <= k < i && procs[k].pid == p && procs[k].marker
    {
      if procs[i].marker && procs[i].config == Some(target) {
        cmdPids := cmdPids + {procs[i].pid};
      }
      if procs[i].marker {
        markerPids := markerPids + {procs[i].pid};
      }
    }
    roots := [];
    for i := 0 to |procs|
      invariant roots == RootsBelow(procs, target, i)
    {
      if procs[i].pid in cmdPids && procs[i].ppid !in markerPids {
        roots := roots + [procs[i].pid];
      }
    }
  }

  /**
   * Entry i is an instance of the station's capture: its pid carries the marker and the station's
   * configuration, and no process that carries the marker is its parent.
   */
  ghost predicate Instance(procs: seq<Proc>, target: string, i: int) {
    0 <= i < |procs|
    && (exists k :: 0 <= k < |procs| && procs[k].pid == procs[i].pid && procs[k].marker &&
                    procs[k].config == Some(target))
    && (forall m :: 0 <= m < |procs| && procs[m].marker ==> procs[m].pid != procs[i].ppid)
  }

  ghost function Instances(procs: seq<Proc>, target: string, n: nat): set<int> {
    set i | 0 <= i < n && Instance(procs, target, i)
  }

  lemma InstancesGrow(procs: seq<Proc>, target: string, n: nat)
    ensures n == 0 ==> Instances(procs, target, n) == {}
    ensures n > 0 ==>
              |Instances(procs, target, n)| ==
              |Instances(procs, target, n - 1)| + if Instance(procs, target, n - 1) then 1 else 0
  {
    hide Instance;
    if n > 0 {
      assert Instances(procs, target, n) ==
             Instances(procs, target, n - 1) + if Instance(procs, target, n - 1) then {n - 1} else {};
    }
  }

  lemma {:induction false} RootsUpTo(procs: seq<Proc>, target: string, n: nat)
    requires n <= |procs|
    ensures |RootsBelow(procs, target, n)| == |Instances(procs, target, n)|
    ensures forall i :: 0 <= i < n && Instance(procs, target, i) ==>
              var q := |Instances(procs, target, i)|;
              q < |RootsBelow(procs, target, n)| && RootsBelow(procs, target, n)[q] == procs[i].pid
  {
    hide Instance, RootEntry, Instances;
    InstancesGrow(procs, target, n);
    if n > 0 {
      RootsUpTo(procs, target, n - 1);
      InstanceIsRoot(procs, target, n - 1);
    }
  }

  lemma InstanceIsRoot(procs: seq<Proc>, target: string, i: int)
    ensures RootEntry(procs, target, i) <==> Instance(procs, target, i)
  {
  }

  /** The roots are the pids of exactly the instances, each once for its entry, in snapshot order. */
  lemma RootsOnProcs(procs: seq<Proc>, target: string)
    ensures |Roots(procs, target)| == |set i | 0 <= i < |procs| && Instance(procs, target, i)|
    ensures forall i :: 0 <= i < |procs| && Instance(procs, target, i) ==>
              var q := |set k | 0 <= k < i && Instance(procs, target, k)|;
              q < |Roots(procs, target)| && Roots(procs, target)[q] == procs[i].pid
  {
    hide Instance, RootEntry, RootsBelow;
    RootsUpTo(procs, target, |procs|);
    forall i { InstanceIsRoot(procs, target, i); }
    forall i: nat ensures Instances(procs, target, i) == set k | 0 <= k < i && Instance(procs, target, k) {}
  }

  lemma RootsAreInstances(procs: seq<Proc>, target: string, p: int)
    ensures p in Roots(procs, target) <==> exists i :: Instance(procs, target, i) && procs[i].pid == p
  {
    if i :| Instance(procs, target, i) && procs[i].pid == p {
      InstanceIsRoot(procs, target, i);
    }
    if p in Roots(procs, target) {
      var i :| i < |procs| && RootEntry(procs, target, i) && procs[i].pid == p;
      InstanceIsRoot(procs, target, i);
    }
  }

  /**
   * One capture, however many workers it has forked: when every marker process but one has a
   * marker parent, there is at most one instance, and one exactly when that process is the
   * station's and started by something else.
   */
  lemma OneCaptureOneInstance(procs: seq<Proc>, target: string, a: nat)
    requires DistinctPids(procs) && a < |procs| && procs[a].marker
    requires forall i :: 0 <= i < |procs| && i != a && procs[i].marker ==>
               exists m :: 0 <= m < |procs| && procs[m].marker && procs[m].pid == procs[i].ppid
    ensures Roots(procs, target) ==
            if procs[a].config == Some(target) &&
               (forall m :: 0 <= m < |procs| && procs[m].marker ==> procs[m].pid != procs[a].ppid)
            then [procs[a].pid] else []
  {
    hide RootsBelow;
    RootsOnProcs(procs, target);
    var found := set i | 0 <= i < |procs| && Instance(procs, target, i);
    forall i | i in found ensures i == a {
      var k :| 0 <= k < |procs| && procs[k].pid == procs[i].pid && procs[k].marker && procs[k].config == Some(target);
      assert k == i;
    }
    if Instance(procs, target, a) {
      assert found == {a};
      assert (set k | 0 <= k < a && Instance(procs, target, k)) == {};
    } else {
      assert found == {};
    }
  }

  /** The same snapshot with some configuration paths lost. */
  ghost predicate LosesConfigs(procs: seq<Proc>, lost: seq<Proc>) {
    |procs| == |lost| &&
    forall i :: 0 <= i < |procs| ==> lost[i] == procs[i] || lost[i] == procs[i].(config := None)
  }

  lemma LostEntry(procs: seq<Proc>, lost: seq<Proc>, target: string, i: int)
    requires LosesConfigs(procs, lost) && RootEntry(lost, target, i)
    ensures RootEntry(procs, target, i)
  {
    var k :| 0 <= k < |lost| && lost[k].pid == lost[i].pid && lost[k].marker && lost[k].config == Some(target);
    assert procs[k].pid == procs[i].pid && procs[k].marker && procs[k].config == Some(target);
    MarkersStay(procs, lost, procs[i].ppid);
  }

  lemma MarkersStay(procs: seq<Proc>, lost: seq<Proc>, pid: int)
    requires LosesConfigs(procs, lost)
    ensures MarkerPid(procs, pid) ==> MarkerPid(lost, pid)
  {
    if m :| 0 <= m < |procs| && procs[m].pid == pid && procs[m].marker {
      assert lost[m].pid == pid && lost[m].marker;
    }
  }

  /** Failing to read configuration paths never invents an instance. */
  lemma {:induction false} LostConfigsAddNoRoot(procs: seq<Proc>, lost: seq<Proc>, target: string, n: nat)
    requires LosesConfigs(procs, lost) && n <= |procs|
    ensures forall p :: p in RootsBelow(lost, target, n) ==> p in RootsBelow(procs, target, n)
    ensures |RootsBelow(lost, target, n)| <= |RootsBelow(procs, target, n)|
  {
    if n > 0 {
      LostConfigsAddNoRoot(procs, lost, target, n - 1);
      if RootEntry(lost, target, n - 1) {
        LostEntry(procs, lost, target, n - 1);
      }
    }
  }

  // ----- The walk -----

  /** p is listed with q as its parent. */
  ghost predicate Child(procs: seq<Proc>, q: int, p: int) {
    exists i :: 0 <= i < |procs| && procs[i].pid == p && procs[i].ppid == q
  }

  /** A chain of children from a root down to p. */
  ghost predicate Descent(procs: seq<Proc>, roots: seq<int>, path: seq<int>, p: int) {
    && path != [] && path[0] in roots && path[|path| - 1] == p
    && forall k :: 0 <= k < |path| - 1 ==> Child(procs, path[k], path[k + 1])
  }

  ghost predicate Reachable(procs: seq<Proc>, roots: seq<int>, p: int) {
    exists path :: Descent(procs, roots, path, p)
  }

  lemma ChainLink(procs: seq<Proc>, roots: seq<int>, path: seq<int>, p: int, k: nat)
    requires Descent(procs, roots, path, p) && 0 < k < |path|
    ensures Child(procs, path[k - 1], path[k])
  {
    var j := k - 1;
    assert Child(procs, path[j], path[j + 1]);
  }

  /** In entries: each pid of the chain is listed with the one before it as its parent. */
  lemma ReachableOnProcs(procs: seq<Proc>, roots: seq<int>, p: int)
    ensures Reachable(procs, roots, p) <==>
            exists path: seq<int> ::
              && path != [] && path[0] in roots && path[|path| - 1] == p
              && forall k :: 0 < k < |path| ==>
                   exists i :: 0 <= i < |procs| && procs[i].pid == path[k] && procs[i].ppid == path[k - 1]
  {
    if Reachable(procs, roots, p) {
      var path :| Descent(procs, roots, path, p);
      forall k | 0 < k < |path|
        ensures exists i :: 0 <= i < |procs| && procs[i].pid == path[k] && procs[i].ppid == path[k - 1]
      {
        ChainLink(procs, roots, path, p, k);
      }
    }
    if path: seq<int> :| path != [] && path[0] in roots && path[|path| - 1] == p &&
                         forall k :: 0 < k < |path| ==>
                           exists i :: 0 <= i < |procs| && procs[i].pid == path[k] && procs[i].ppid == path[k - 1] {
      forall k | 0 <= k < |path| - 1 ensures Child(procs, path[k], path[k + 1]) {
        assert 0 < k + 1 < |path|;
      }
      assert Descent(procs, roots, path, p);
    }
  }

  lemma ReachChild(procs: seq<Proc>, roots: seq<int>, q: int, p: int)
    requires Reachable(procs, roots, q) && Child(procs, q, p)
    ensures Reachable(procs, roots, p)
  {
    var path :| Descent(procs, roots, path, q);
    assert Descent(procs, roots, path + [p], p);
  }

  lemma ReachNeedsRoot(procs: seq<Proc>, roots: seq<int>, p: int)
    requires Reachable(procs, roots, p)
    ensures roots != []
  {
    var path :| Descent(procs, roots, path, p);
  }

  /** A set that holds the roots and is closed under children holds everything reachable. */
  lemma {:induction false} ClosedHoldsPath(procs: seq<Proc>, roots: seq<int>, path: seq<int>, p: int, tree: set<int>)
    requires Descent(procs, roots, path, p)
    requires forall r :: r in roots ==> r in tree
    requires forall q, c :: q in tree && Child(procs, q, c) ==> c in tree
    ensures p in tree
    decreases |path|
  {
    if |path| > 1 {
      var q := path[|path| - 2];
      assert Descent(procs, roots, path[..|path| - 1], q);
      ClosedHoldsPath(procs, roots, path[..|path| - 1], q, tree);
      assert Child(procs, path[|path| - 2], path[|path| - 1]);
    }
  }

  /** The children listed for each parent, in snapshot order. */
  method ChildLists(procs: seq<Proc>) returns (children: map<int, seq<int>>)
    ensures forall q, c :: Child(procs, q, c) <==> Listed(children, q, c)
  {
    children := map[];
    for i := 0 to |procs|
      invariant forall q, c :: Listed(children, q, c) <==> ChildBelow(procs, i, q, c)
    {
      ghost var before := children;
      var q, p := procs[i].ppid, procs[i].pid;
      children := children[q := (if q in children then children[q] else []) + [p]];
      forall r, c ensures Listed(children, r, c) <==> Listed(before, r, c) || (r == q && c == p) {}
      forall r, c ensures ChildBelow(procs, i + 1, r, c) <==> ChildBelow(procs, i, r, c) || (r == q && c == p) {}
    }
  }

  predicate Listed(children: map<int, seq<int>>, q: int, c: int) {
    q in children && c in children[q]
  }

  ghost predicate ChildBelow(procs: seq<Proc>, n: nat, q: int, c: int) {
    exists i :: 0 <= i < n && i < |procs| && procs[i].pid == c && procs[i].ppid == q
  }

  function Pids(procs: seq<Proc>): set<int> {
    set i | 0 <= i < |procs| :: procs[i].pid
  }

  /** The walk ends on any parent relation, cycles included, with exactly what is reachable. */
  method WalkTree(procs: seq<Proc>, roots: seq<int>) returns (tree: set<int>)
    requires forall r :: r in roots ==> r in Pids(procs)
    ensures forall p :: p in tree <==> Reachable(procs, roots, p)
    ensures tree <= Pids(procs)
  {
    var children := ChildLists(procs);
    tree := {};
    var stack := roots;
    forall r | r in roots ensures Reachable(procs, roots, r) {
      assert Descent(procs, roots, [r], r);
    }
    while stack != []
      invariant tree <= Pids(procs)
      invariant forall p :: p in stack ==> p in Pids(procs)
      invariant forall p :: p in stack || p in tree ==> Reachable(procs, roots, p)
      invariant forall r :: r in roots ==> r in tree || r in stack
      invariant forall q, c :: q in tree && Child(procs, q, c) ==> c in tree || c in stack
      decreases Pids(procs) - tree, |stack|
    {
      var p := stack[|stack| - 1];
      ghost var was := stack;
      stack := stack[..|stack| - 1];
      assert forall x :: x in was <==> x in stack || x == p;
      if p in tree {
        continue;
      }
      assert p in Pids(procs) - tree;
      tree := tree + {p};
      var kids := if p in children then children[p] else [];
      forall c | c in kids ensures c in Pids(procs) && Reachable(procs, roots, c) {
        assert Listed(children, p, c);
        assert Child(procs, p, c);
        ReachChild(procs, roots, p, c);
      }
      stack := stack + kids;
    }
    forall p | Reachable(procs, roots, p) ensures p in tree {
      var path :| Descent(procs, roots, path, p);
      ClosedHoldsPath(procs, roots, path, p, tree);
    }
  }

  /**
   * With acyclic parentage, no process of the station is missed, whatever its depth: it is
   * enough that a marker parent of a matching process matches too.
   */
  lemma {:induction false} EveryMatchInTree(procs: seq<Proc>, target: string, rank: map<int, nat>, i: int)
    requires 0 <= i < |procs| && CmdPid(procs, target, procs[i].pid)
    requires forall k :: 0 <= k < |procs| ==> procs[k].pid in rank
    requires forall k :: 0 <= k < |procs| && procs[k].ppid in rank ==> rank[procs[k].ppid] < rank[procs[k].pid]
    requires forall k ::
               0 <= k < |procs| && CmdPid(procs, target, procs[k].pid) && MarkerPid(procs, procs[k].ppid) ==>
                 CmdPid(procs, target, procs[k].ppid)
    ensures Reachable(procs, Roots(procs, target), procs[i].pid)
    decreases rank[procs[i].pid]
  {
    var roots := Roots(procs, target);
    if RootEntry(procs, target, i) {
      assert Descent(procs, roots, [procs[i].pid], procs[i].pid);
    } else {
      var m :| 0 <= m < |procs| && procs[m].pid == procs[i].ppid && procs[m].marker;
      EveryMatchInTree(procs, target, rank, m);
      assert Child(procs, procs[m].pid, procs[i].pid);
      ReachChild(procs, roots, procs[m].pid, procs[i].pid);
    }
  }

  // ----- Resident memory -----

  /** Sum of a table over a set of pids, counting what it lacks as nothing. */
  ghost function SumOf(table: map<int, nat>, s: set<int>): nat {
    if p :| p in s then (if p in table then table[p] else 0) + SumOf(table, s - {p}) else 0
  }

  /** The order of summation does not matter. */
  lemma {:induction false} SumPick(table: map<int, nat>, s: set<int>, p: int)
    requires p in s
    ensures SumOf(table, s) == (if p in table then table[p] else 0) + SumOf(table, s - {p})
    decreases |s|
  {
    var q :| q in s && SumOf(table, s) == (if q in table then table[q] else 0) + SumOf(table, s - {q});
    if p != q {
      SumPick(table, s - {q}, p);
      SumPick(table, s - {p}, q);
      assert s - {q} - {p} == s - {p} - {q};
    }
  }

  /** Each entry whose pid is in the tree, added up in snapshot order. */
  function EntriesRss(procs: seq<Proc>, tree: set<int>): nat {
    if procs == [] then 0
    else EntriesRss(procs[..|procs| - 1], tree) +
         (if procs[|procs| - 1].pid in tree then procs[|procs| - 1].rss else 0)
  }

  lemma NonEmpty(s: set<int>)
    ensures s == {} || exists p :: p in s
  {
    if forall p :: p !in s {
      assert s == {};
    }
  }

  ghost predicate DistinctPids(procs: seq<Proc>) {
    forall i, j :: 0 <= i < j < |procs| ==> procs[i].pid != procs[j].pid
  }

  /** RSS by pid; a later entry replaces an earlier one. */
  function RssTable(procs: seq<Proc>): map<int, nat> {
    if procs == [] then map[]
    else RssTable(procs[..|procs| - 1])[procs[|procs| - 1].pid := procs[|procs| - 1].rss]
  }

  method Total(table: map<int, nat>, tree: set<int>) returns (total: nat)
    ensures total == SumOf(table, tree)
  {
    total := 0;
    var rest := tree;
    while rest != {}
      invariant total + SumOf(table, rest) == SumOf(table, tree)
      decreases rest
    {
      NonEmpty(rest);
      var p :| p in rest;
      SumPick(table, rest, p);
      total := total + (if p in table then table[p] else 0);
      rest := rest - {p};
    }
  }

  method TotalRss(procs: seq<Proc>, tree: set<int>) returns (total: nat)
    ensures total == SumOf(RssTable(procs), tree)
  {
    var rss: map<int, nat> := map[];
    for i := 0 to |procs|
      invariant rss == RssTable(procs[..i])
    {
      assert procs[..i + 1][..i] == procs[..i];
      rss := rss[procs[i].pid := procs[i].rss];
    }
    assert procs[..|procs|] == procs;
    total := Total(rss, tree);
  }

  // ----- Proportional memory -----

  /** The shares that could be read. */
  function Shares(pss: int -> Option<nat>, tree: set<int>): (shares: map<int, nat>)
    ensures forall p :: p in shares <==> p in tree && pss(p) != None
    ensures forall p :: p in shares ==> pss(p) == Some(shares[p])
  {
    map p | p in tree && pss(p).Some? :: pss(p).value
  }

  /** The sum of the readable shares; None when no process of the tree has one. */
  method TotalPss(tree: set<int>, pss: int -> Option<nat>) returns (total: Option<nat>)
    ensures total.None? <==> forall p :: p in tree ==> pss(p).None?
    ensures total.Some? ==> total.value == SumOf(Shares(pss, tree), tree)
  {
    var shares := Shares(pss, tree);
    var sum: nat, known := 0, false;
    var rest := tree;
    while rest != {}
      invariant rest <= tree
      invariant sum + SumOf(shares, rest) == SumOf(shares, tree)
      invariant known <==> exists p :: p in tree - rest && pss(p).Some?
      decreases rest
    {
      NonEmpty(rest);
      var p :| p in rest;
      SumPick(shares, rest, p);
      if pss(p).Some? {
        sum, known := sum + pss(p).value, true;
        assert p in tree - (rest - {p});
      }
      rest := rest - {p};
    }
    total := if known then Some(sum) else None;
  }

  lemma {:induction false} TableHasEntries(procs: seq<Proc>, i: nat)
    requires DistinctPids(procs) && i < |procs|
    ensures procs[i].pid in RssTable(procs) && RssTable(procs)[procs[i].pid] == procs[i].rss
  {
    if i < |procs| - 1 {
      TableHasEntries(procs[..|procs| - 1], i);
    }
  }

  /** On a snapshot with distinct pids, every process of the tree is counted once. */
  lemma {:induction false} EachCountedOnce(procs: seq<Proc>, rss: map<int, nat>, tree: set<int>)
    requires DistinctPids(procs)
    requires forall i :: 0 <= i < |procs| ==> procs[i].pid in rss && rss[procs[i].pid] == procs[i].rss
    requires tree <= Pids(procs)
    ensures SumOf(rss, tree) == EntriesRss(procs, tree)
  {
    if procs == [] {
      assert tree == {};
    } else {
      var init, last := procs[..|procs| - 1], procs[|procs| - 1];
      forall p | p in tree - {last.pid} ensures p in Pids(init) {
        var i :| 0 <= i < |procs| && procs[i].pid == p;
        assert init[i].pid == p;
      }
      EachCountedOnce(init, rss, tree - {last.pid});
      SameEntries(init, tree, last.pid);
      if last.pid in tree {
        SumPick(rss, tree, last.pid);
      } else {
        assert tree - {last.pid} == tree;
      }
    }
  }

  lemma {:induction false} SameEntries(procs: seq<Proc>, tree: set<int>, p: int)
    requires forall i :: 0 <= i < |procs| ==> procs[i].pid != p
    ensures EntriesRss(procs, tree) == EntriesRss(procs, tree - {p})
  {
    if procs != [] {
      SameEntries(procs[..|procs| - 1], tree, p);
    }
  }

  // ----- The main process -----

  /** Age order: an unknown age is younger than any known one. */
  predicate Older(a: Option<real>, b: Option<real>) {
    a.Some? && (b.None? || a.value > b.value)
  }

  /** The first of the oldest roots; age gives what is known of each process's age. */
  method MainPid(roots: seq<int>, age: int -> Option<real>) returns (main: Option<int>)
    ensures main.None? <==> roots == []
    ensures main.Some? ==>
              exists k :: 0 <= k < |roots| && roots[k] == main.value && IsFirstOldest(roots, age, k)
  {
    if roots == [] {
      return None;
    }
    var best := 0;
    for i := 1 to |roots|
      invariant 0 <= best < i
      invariant IsFirstOldest(roots[..i], age, best)
    {
      if Older(age(roots[i]), age(roots[best])) {
        best := i;
      }
    }
    assert roots[..|roots|] == roots;
    main := Some(roots[best]);
  }

  /** In ages: no known age exceeds the chosen one's; among equals, and among unknowns, the first. */
  lemma FirstOldestOnAges(roots: seq<int>, age: int -> Option<real>, k: nat)
    ensures IsFirstOldest(roots, age, k) <==>
            k < |roots| &&
            if age(roots[k]) == None then k == 0 && forall j :: 0 <= j < |roots| ==> age(roots[j]) == None
            else forall j :: 0 <= j < |roots| && age(roots[j]) != None ==>
                   if j < k then age(roots[j]).value < age(roots[k]).value
                   else age(roots[j]).value <= age(roots[k]).value
  {
    if IsFirstOldest(roots, age, k) && age(roots[k]) == None {
      assert k > 0 ==> !Older(age(roots[k]), age(roots[0]));
    }
  }

  ghost predicate IsFirstOldest(roots: seq<int>, age: int -> Option<real>, k: nat) {
    k < |roots| &&
    (forall j :: 0 <= j < |roots| ==> !Older(age(roots[j]), age(roots[k]))) &&
    (forall j :: 0 <= j < k ==> Older(age(roots[k]), age(roots[j])))
  }

  // ----- The whole collector -----

  datatype Report = Report(alive: bool, processes: nat, instances: nat, main: Option<int>,
                           age: Option<real>, rss: nat, pss: Option<nat>, cpu: Option<real>)

  /** CPU ticks by pid; none for a process that cannot be read. */
  function Ticks(ticks: int -> nat, tree: set<int>): map<int, nat> {
    map p | p in tree :: ticks(p)
  }

  /** age, pss and ticks give what can be read of a process; mono is the monotonic clock. */
  method CollectProcess(procs: seq<Proc>, sid: string, target: string, age: int -> Option<real>,
                        pss: int -> Option<nat>, ticks: int -> nat, meter: CpuShare.Meter, mono: real)
    returns (r: Report, ghost tree: set<int>)
    requires meter.hz > 0.0
    modifies meter
    ensures forall p :: p in tree <==> Reachable(procs, Roots(procs, target), p)
    ensures r.alive <==> Roots(procs, target) != []
    ensures r.processes == |tree|
    ensures DistinctPids(procs) ==> r.rss == EntriesRss(procs, tree)
    ensures r.instances == |Roots(procs, target)|
    ensures r.instances == |set i | 0 <= i < |procs| && Instance(procs, target, i)|
    ensures r.main.Some? <==> r.alive
    ensures r.main.Some? ==>
              var roots := Roots(procs, target);
              r.age == age(r.main.value) &&
              exists k :: 0 <= k < |roots| && roots[k] == r.main.value && IsFirstOldest(roots, age, k)
    ensures r.pss.None? <==> forall p :: p in tree ==> pss(p).None?
    ensures r.pss.Some? ==> r.pss.value == SumOf(Shares(pss, tree), tree)
    ensures var c := CpuShare.Cycle(r.alive, SumOf(Ticks(ticks, tree), tree), mono);
            r.cpu == CpuShare.Share(old(meter.Of(sid)), c, meter.hz) && meter.Of(sid) == CpuShare.Next(c)
    ensures forall s :: s != sid ==> meter.Of(s) == old(meter.Of(s))
  {
    var roots := FindRoots(procs, target);
    var walked := WalkTree(procs, roots);
    tree := walked;
    RootsOnProcs(procs, target);
    RootsInTree(procs, roots, walked);
    var main := MainPid(roots, age);
    var total := TotalRss(procs, walked);
    var share := TotalPss(walked, pss);
    var spent := Total(Ticks(ticks, walked), walked);
    var cpu := meter.Measure(sid, CpuShare.Cycle(walked != {}, spent, mono));
    if DistinctPids(procs) {
      forall i: nat | i < |procs|
        ensures procs[i].pid in RssTable(procs) && RssTable(procs)[procs[i].pid] == procs[i].rss
      {
        TableHasEntries(procs, i);
      }
      EachCountedOnce(procs, RssTable(procs), walked);
    }
    r := Report(walked != {}, |walked|, |roots|, main, if main.Some? then age(main.value) else None,
                total, share, cpu);
  }

  lemma RootsInTree(procs: seq<Proc>, roots: seq<int>, tree: set<int>)
    requires forall p :: p in tree <==> Reachable(procs, roots, p)
    ensures tree != {} <==> roots != []
  {
    NonEmpty(tree);
    if roots != [] {
      assert Descent(procs, roots, [roots[0]], roots[0]);
      assert roots[0] in tree;
    }
    if p :| p in tree {
      ReachNeedsRoot(procs, roots, p);
    }
  }
}
