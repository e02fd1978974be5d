/** Grouping the sorted task list by function name and giving every task
    its lane (history.py:34-51). A task is identified by its position in
    the sorted list; the lane of task `i` is what history.py stores in the
    task object's `worker` attribute. */
module Grouping {
  import opened Tasks
  import opened Lanes
  import Snapshot

  /** The positions in `ts` of the tasks of function `f`, in list order. */
  function IndicesOf(ts: seq<Task>, f: string): (r: seq<nat>)
    ensures forall a :: 0 <= a < |r| ==> r[a] < |ts| && ts[r[a]].funcName == f
  {
    if ts == [] then []
    else
      var n := |ts| - 1;
      var prev := IndicesOf(ts[..n], f);
      assert forall i :: 0 <= i < n ==> ts[..n][i] == ts[i];
      if ts[n].funcName == f then prev + [n] else prev
  }

  /** The tasks of `ts` at the positions `idx`. */
  function Project(ts: seq<Task>, idx: seq<nat>): (r: seq<Task>)
    requires forall a :: 0 <= a < |idx| ==> idx[a] < |ts|
    ensures |r| == |idx|
    ensures forall a :: 0 <= a < |idx| ==> r[a] == ts[idx[a]]
  {
    seq(|idx|, a requires 0 <= a < |idx| => ts[idx[a]])
  }

  /** One group of `by_func` (history.py:34-36): the tasks of `f`, in
      list order. */
  function GroupOf(ts: seq<Task>, f: string): seq<Task>
  {
    Project(ts, IndicesOf(ts, f))
  }

  /** The lane of task `i`: the lane it gets when its group is walked up
      to and including it. */
  function LaneOf(ts: seq<Task>, i: nat): (r: nat)
    requires i < |ts|
    ensures r < |IndicesOf(ts[..i + 1], ts[i].funcName)|
  {
    var f := ts[i].funcName;
    IndicesStep(ts, i, f);
    LastLane(GroupOf(ts[..i + 1], f))
  }

  /** The lane the walk of `g` gives its last task. */
  function LastLane(g: seq<Task>): nat
    requires g != []
  {
    LaneRun(g).lanes[|g| - 1]
  }

  /** The lane of every task of `ts`. */
  function LaneAssignment(ts: seq<Task>): (r: seq<nat>)
    ensures |r| == |ts|
    ensures forall i :: 0 <= i < |ts| ==> r[i] < |IndicesOf(ts[..i + 1], ts[i].funcName)|
  {
    seq(|ts|, i requires 0 <= i < |ts| => LaneOf(ts, i))
  }

  /** `funcs` lists the function names of `ts` without repetition, and
      `byFunc` maps each to the positions of its tasks. */
  ghost predicate Grouped(ts: seq<Task>, funcs: seq<string>, byFunc: map<string, seq<nat>>)
  {
    && (forall f :: f in byFunc <==> f in funcs)
    && (forall a, b :: 0 <= a < b < |funcs| ==> funcs[a] != funcs[b])
    && (forall f :: f in byFunc ==> byFunc[f] == IndicesOf(ts, f) && byFunc[f] != [])
    && (forall f :: f !in byFunc ==> IndicesOf(ts, f) == [])
  }

  /** `by_func` (history.py:34-36): the function names in the order they
      first appear, and for each the positions of its tasks. */
  method GroupByFunc(tasks: seq<Task>) returns (funcs: seq<string>, byFunc: map<string, seq<nat>>)
    ensures Grouped(tasks, funcs, byFunc)
    ensures forall i :: 0 <= i < |tasks| ==> tasks[i].funcName in byFunc
  {
    funcs, byFunc := [], map[];
    for i := 0 to |tasks|
      invariant Grouped(tasks[..i], funcs, byFunc)
    {
      var f := tasks[i].funcName;
      GroupedStep(tasks, i, funcs, byFunc);
      if f !in byFunc {
        funcs := funcs + [f];
        byFunc := byFunc[f := []];
      }
      byFunc := byFunc[f := byFunc[f] + [i]];
    }
    assert tasks[..|tasks|] == tasks;
    forall i | 0 <= i < |tasks| ensures tasks[i].funcName in byFunc {
      IndicesComplete(tasks, i);
    }
  }

  /** The positions of a group are listed in increasing order. */
  lemma {:induction false} IndicesIncrease(ts: seq<Task>, f: string, a: nat, b: nat)
    requires a < b < |IndicesOf(ts, f)|
    ensures IndicesOf(ts, f)[a] < IndicesOf(ts, f)[b]
  {
    var n := |ts| - 1;
    var prev := IndicesOf(ts[..n], f);
    if b < |prev| {
      IndicesIncrease(ts[..n], f, a, b);
    }
  }

  /** A group has no more tasks than the list. */
  lemma {:induction false} IndicesAtMost(ts: seq<Task>, f: string)
    ensures |IndicesOf(ts, f)| <= |ts|
  {
    if ts != [] {
      IndicesAtMost(ts[..|ts| - 1], f);
    }
  }

  /** Every task of `f` has its position in `IndicesOf(ts, f)`. */
  lemma {:induction false} IndicesComplete(ts: seq<Task>, i: nat)
    requires i < |ts|
    ensures i in IndicesOf(ts, ts[i].funcName)
  {
    var n := |ts| - 1;
    if i < n {
      IndicesComplete(ts[..n], i);
    }
  }

  lemma IndicesStep(ts: seq<Task>, i: nat, f: string)
    requires i < |ts|
    ensures IndicesOf(ts[..i + 1], f) == IndicesOf(ts[..i], f) + (if ts[i].funcName == f then [i] else [])
  {
    assert ts[..i + 1][..i] == ts[..i];
  }

  /** Appending task `i` to its function's list keeps the entry of `g`. */
  lemma GroupedStepAt(ts: seq<Task>, i: nat, byFunc: map<string, seq<nat>>, g: string)
    requires i < |ts|
    requires g in byFunc ==> byFunc[g] == IndicesOf(ts[..i], g) && byFunc[g] != []
    requires g !in byFunc ==> IndicesOf(ts[..i], g) == []
    ensures var f := ts[i].funcName;
      var byFunc' := byFunc[f := (if f in byFunc then byFunc[f] else []) + [i]];
      && (g in byFunc' ==> byFunc'[g] == IndicesOf(ts[..i + 1], g) && byFunc'[g] != [])
      && (g !in byFunc' ==> IndicesOf(ts[..i + 1], g) == [])
  {
    IndicesStep(ts, i, g);
  }

  /** Appending task `i` to its function's list keeps the grouping. */
  lemma GroupedStep(ts: seq<Task>, i: nat, funcs: seq<string>, byFunc: map<string, seq<nat>>)
    requires i < |ts| && Grouped(ts[..i], funcs, byFunc)
    ensures var f := ts[i].funcName;
      Grouped(ts[..i + 1],
        if f in byFunc then funcs else funcs + [f],
        byFunc[f := (if f in byFunc then byFunc[f] else []) + [i]])
  {
    var f := ts[i].funcName;
    var funcs' := if f in byFunc then funcs else funcs + [f];
    var byFunc' := byFunc[f := (if f in byFunc then byFunc[f] else []) + [i]];
    forall g
      ensures g in byFunc' ==> byFunc'[g] == IndicesOf(ts[..i + 1], g) && byFunc'[g] != []
      ensures g !in byFunc' ==> IndicesOf(ts[..i + 1], g) == []
    {
      GroupedStepAt(ts, i, byFunc, g);
    }
    forall g ensures g in byFunc' <==> g in funcs' {
      assert g in funcs' <==> g in funcs || g == f;
    }
    forall a, b | 0 <= a < b < |funcs'| ensures funcs'[a] != funcs'[b] {
      if b == |funcs| {
        assert funcs'[a] == funcs[a];
        assert funcs[a] in funcs;
      }
    }
  }

  /** The positions of a group's tasks up to its `r`-th task are the
      first `r + 1` positions of the group. */
  lemma {:induction false} IndicesPrefix(ts: seq<Task>, f: string, r: nat)
    requires r < |IndicesOf(ts, f)|
    ensures IndicesOf(ts, f)[r] + 1 <= |ts|
    ensures IndicesOf(ts[..IndicesOf(ts, f)[r] + 1], f) == IndicesOf(ts, f)[..r + 1]
  {
    var n := |ts| - 1;
    var idx := IndicesOf(ts, f);
    var prev := IndicesOf(ts[..n], f);
    assert idx == if ts[n].funcName == f then prev + [n] else prev;
    if r == |prev| {
      assert idx[r] == n;
      assert ts[..n + 1] == ts;
      assert idx[..r + 1] == idx;
    } else {
      assert idx[r] == prev[r];
      IndicesPrefix(ts[..n], f, r);
      assert ts[..n][..prev[r] + 1] == ts[..prev[r] + 1];
      assert idx[..r + 1] == prev[..r + 1];
    }
  }

  /** Projecting a prefix of the positions onto a prefix of the list that
      holds them gives a prefix of the projection. */
  lemma ProjectPrefix(ts: seq<Task>, idx: seq<nat>, m: nat, r: nat)
    requires forall a :: 0 <= a < |idx| ==> idx[a] < |ts|
    requires m <= |ts| && r <= |idx| && forall a :: 0 <= a < r ==> idx[a] < m
    ensures Project(ts[..m], idx[..r]) == Project(ts, idx)[..r]
  {
  }

  /** The positions of a group up to its `r`-th are at most the `r`-th. */
  lemma IndicesUpTo(ts: seq<Task>, f: string, r: nat)
    requires r < |IndicesOf(ts, f)|
    ensures forall a :: 0 <= a <= r ==> IndicesOf(ts, f)[a] <= IndicesOf(ts, f)[r]
  {
    forall a | 0 <= a < r ensures IndicesOf(ts, f)[a] <= IndicesOf(ts, f)[r] {
      IndicesIncrease(ts, f, a, r);
    }
  }

  /** The group of `f` in the list cut after its `r`-th task is the first
      `r + 1` tasks of the group. */
  lemma GroupPrefix(ts: seq<Task>, f: string, r: nat)
    requires r < |IndicesOf(ts, f)|
    ensures IndicesOf(ts, f)[r] < |ts|
    ensures GroupOf(ts[..IndicesOf(ts, f)[r] + 1], f) == GroupOf(ts, f)[..r + 1]
  {
    var idx := IndicesOf(ts, f);
    var i := idx[r];
    IndicesPrefix(ts, f, r);
    IndicesUpTo(ts, f, r);
    ProjectPrefix(ts, idx, i + 1, r + 1);
    assert GroupOf(ts[..i + 1], f) == Project(ts[..i + 1], idx[..r + 1]);
  }

  /** The lane the group walk gives the group's `r`-th task is `LaneOf`
      of that task. */
  lemma GroupLaneIsLaneOf(ts: seq<Task>, f: string, r: nat)
    requires r < |IndicesOf(ts, f)|
    ensures IndicesOf(ts, f)[r] < |ts|
    ensures LaneRun(GroupOf(ts, f)).lanes[r] == LaneOf(ts, IndicesOf(ts, f)[r])
  {
    var i := IndicesOf(ts, f)[r];
    var g := GroupOf(ts, f);
    assert ts[i].funcName == f;
    assert GroupOf(ts[..i + 1], f) == g[..r + 1] by {
      GroupPrefix(ts, f, r);
    }
    assert LaneRun(g[..r + 1]).lanes[r] == LaneRun(g).lanes[r] by {
      LaneRunPrefix(g, r + 1);
    }
  }

  /** A group taken from a list sorted by start time is sorted too. */
  lemma GroupIsSorted(ts: seq<Task>, f: string)
    requires SortedByStart(ts)
    ensures SortedByStart(GroupOf(ts, f))
  {
    var idx := IndicesOf(ts, f);
    var g := GroupOf(ts, f);
    forall a, b | 0 <= a < b < |g| ensures g[a].startedAt <= g[b].startedAt {
      IndicesIncrease(ts, f, a, b);
    }
  }

  /** Re-sorting a group of the sorted list (history.py:41) gives the
      group back. */
  lemma ResortedGroup(tasks: seq<Task>, f: string)
    requires SortedByStart(tasks)
    ensures Snapshot.SortByStart(Project(tasks, IndicesOf(tasks, f))) == GroupOf(tasks, f)
  {
    GroupIsSorted(tasks, f);
    Snapshot.SortSortedIsIdentity(GroupOf(tasks, f));
  }

  /** history.py:40-51 for the group of `f`: the group's tasks, re-sorted
      by start time, are walked, and the lanes they get are listed in the
      group's order. */
  method WalkGroup(tasks: seq<Task>, f: string, idx: seq<nat>) returns (groupLanes: seq<nat>)
    requires SortedByStart(tasks) && idx == IndicesOf(tasks, f)
    ensures groupLanes == LaneRun(GroupOf(tasks, f)).lanes
  {
    ResortedGroup(tasks, f);
    var ordered := Snapshot.SortByStart(Project(tasks, idx));
    groupLanes := AssignGroupLanes(ordered);
  }

  /** The body of the loop over `by_func.values()` (history.py:40-51) for
      the group of `f`: each task of the group gets its lane; the lanes of
      the other tasks stay as they were. */
  method AssignGroup(tasks: seq<Task>, f: string, idx: seq<nat>, lanes: seq<nat>) returns (lanes': seq<nat>)
    requires SortedByStart(tasks) && idx == IndicesOf(tasks, f) && |lanes| == |tasks|
    ensures |lanes'| == |tasks|
    ensures forall i :: 0 <= i < |tasks| && tasks[i].funcName == f ==> lanes'[i] == LaneOf(tasks, i)
    ensures forall i :: 0 <= i < |tasks| && tasks[i].funcName != f ==> lanes'[i] == lanes[i]
  {
    var groupLanes := WalkGroup(tasks, f, idx);
    lanes' := lanes;
    for r := 0 to |idx|
      invariant |lanes'| == |tasks|
      invariant forall a :: 0 <= a < r ==> lanes'[idx[a]] == groupLanes[a]
      invariant forall i :: 0 <= i < |tasks| && tasks[i].funcName != f ==> lanes'[i] == lanes[i]
    {
      assert tasks[idx[r]].funcName == f;
      lanes' := lanes'[idx[r] := groupLanes[r]];
      forall a | 0 <= a < r + 1 ensures lanes'[idx[a]] == groupLanes[a] {
        if a < r {
          IndicesIncrease(tasks, f, a, r);
        }
      }
    }
    GroupLanesStored(tasks, f, idx, groupLanes, lanes');
  }

  /** Lanes stored at the positions of a group, in the group's order, are
      the `LaneOf` of those tasks. */
  lemma GroupLanesStored(tasks: seq<Task>, f: string, idx: seq<nat>, groupLanes: seq<nat>, lanes: seq<nat>)
    requires |lanes| == |tasks| && idx == IndicesOf(tasks, f) && groupLanes == LaneRun(GroupOf(tasks, f)).lanes
    requires forall a :: 0 <= a < |idx| ==> lanes[idx[a]] == groupLanes[a]
    ensures forall i :: 0 <= i < |tasks| && tasks[i].funcName == f ==> lanes[i] == LaneOf(tasks, i)
  {
    forall i | 0 <= i < |tasks| && tasks[i].funcName == f ensures lanes[i] == LaneOf(tasks, i) {
      IndicesComplete(tasks, i);
      var a :| 0 <= a < |idx| && idx[a] == i;
      GroupLaneIsLaneOf(tasks, f, a);
    }
  }

  /** The lane loop of history.py:39-51 over every group: each task of the
      sorted list is given the lane of `LaneOf`. */
  method AssignLanes(tasks: seq<Task>) returns (lanes: seq<nat>)
    requires SortedByStart(tasks)
    ensures lanes == LaneAssignment(tasks)
  {
    var funcs, byFunc := GroupByFunc(tasks);
    lanes := seq(|tasks|, _ => 0);
    for gi := 0 to |funcs|
      invariant |lanes| == |tasks|
      invariant forall i :: 0 <= i < |tasks| && tasks[i].funcName in funcs[..gi] ==> lanes[i] == LaneOf(tasks, i)
    {
      var f := funcs[gi];
      assert f !in funcs[..gi];
      assert funcs[..gi + 1] == funcs[..gi] + [f];
      lanes := AssignGroup(tasks, f, byFunc[f], lanes);
    }
    assert funcs[..|funcs|] == funcs;
  }

  /** No overlap within a lane, over the whole task list (history.py:41-48):
      two tasks of the same function given the same lane do not overlap,
      the earlier one in the list ending by the start of the later one. */
  lemma SameLaneDoNotOverlap(ts: seq<Task>, i: nat, j: nat)
    requires SortedByStart(ts)
    requires i < j < |ts| && ts[i].funcName == ts[j].funcName
    requires LaneOf(ts, i) == LaneOf(ts, j)
    ensures ts[i].endedAt <= ts[j].startedAt
  {
    var f := ts[i].funcName;
    var idx := IndicesOf(ts, f);
    IndicesComplete(ts, i);
    IndicesComplete(ts, j);
    var a :| 0 <= a < |idx| && idx[a] == i;
    var b :| 0 <= b < |idx| && idx[b] == j;
    assert a != b;
    if b < a {
      IndicesIncrease(ts, f, b, a);
      assert false;
    }
    GroupLaneIsLaneOf(ts, f, a);
    GroupLaneIsLaneOf(ts, f, b);
    GroupIsSorted(ts, f);
    LanesDoNotOverlap(GroupOf(ts, f), a, b);
  }

  /** Every lane of a task is below the lane count of its group, and the
      earliest task of each function gets lane 0. */
  lemma LaneWithinGroup(ts: seq<Task>, i: nat)
    requires i < |ts|
    ensures LaneOf(ts, i) < LaneCount(GroupOf(ts, ts[i].funcName))
    ensures (forall j :: 0 <= j < i ==> ts[j].funcName != ts[i].funcName) ==> LaneOf(ts, i) == 0
  {
    var f := ts[i].funcName;
    var idx := IndicesOf(ts, f);
    IndicesComplete(ts, i);
    var a :| 0 <= a < |idx| && idx[a] == i;
    GroupLaneIsLaneOf(ts, f, a);
    if forall j :: 0 <= j < i ==> ts[j].funcName != f {
      if a > 0 {
        IndicesIncrease(ts, f, 0, a);
        assert false;
      }
      FirstTaskLaneZero(GroupOf(ts, f));
    }
  }
}
