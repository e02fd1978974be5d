/** Lane reconstruction for one group of tasks (history.py:40-51).

    The tasks of one function name are walked in start order while a list
    of lane occupants is kept, `None` marking a free lane. Before a task is
    placed, every occupant that has ended by the task's start is cleared;
    the task then takes the lowest free lane, or a new lane at the end when
    none is free. */
module Lanes {
  import opened Tasks

  /** The lane occupants (`workers` in history.py). */
  type Slots = seq<Option<Task>>

  /** A lane slot that still holds a task running at the start of `t`. */
  predicate Busy(slot: Option<Task>, t: Task)
  {
    slot.Some? && slot.value.endedAt > t.startedAt
  }

  /** The clearing comprehension of history.py:42-45. */
  function Freed(workers: Slots, t: Task): (r: Slots)
    ensures |r| == |workers|
    ensures forall k :: 0 <= k < |r| ==> r[k] == (if Busy(workers[k], t) then workers[k] else None)
  {
    seq(|workers|, k requires 0 <= k < |workers| =>
      if workers[k].None? || workers[k].value.endedAt <= t.startedAt then None else workers[k])
  }

  /** `workers.index(None)`: the lowest free lane, or `None` when every lane
      is occupied (where Python raises `ValueError`). */
  function FirstFree(workers: Slots): (r: Option<nat>)
    ensures r.Some? ==> r.value < |workers| && workers[r.value].None?
    ensures r.Some? ==> forall j :: 0 <= j < r.value ==> workers[j].Some?
    ensures r.None? ==> forall j :: 0 <= j < |workers| ==> workers[j].Some?
  {
    if workers == [] then None
    else if workers[0].None? then Some(0)
    else match FirstFree(workers[1..])
      case Some(k) => Some(k + 1)
      case None => None
  }

  /** Placing one task (history.py:42-51): the new occupants and the lane
      the task gets. Every lane below the chosen one is busy; the chosen
      lane is an existing one whose occupant has ended, or, when every lane
      is busy, a new lane appended at index `|workers|`. */
  function Place(workers: Slots, t: Task): (r: (Slots, nat))
    ensures r.1 <= |workers|
    ensures forall j :: 0 <= j < r.1 ==> Busy(workers[j], t)
    ensures r.1 < |workers| ==> !Busy(workers[r.1], t) && r.0 == Freed(workers, t)[r.1 := Some(t)]
    ensures r.1 == |workers| ==> r.0 == Freed(workers, t) + [Some(t)]
  {
    var freed := Freed(workers, t);
    match FirstFree(freed)
    case Some(k) => (freed[k := Some(t)], k)
    case None => (freed + [Some(t)], |freed|)
  }

  /** The state after a group has been walked: the lane occupants and, for
      every task of the group in order, the lane it was given. */
  datatype Run = Run(workers: Slots, lanes: seq<nat>)

  /** The lane loop over `g` as a function of its prefix. */
  function LaneRun(g: seq<Task>): (r: Run)
    ensures |r.lanes| == |g|
    ensures |r.workers| <= |g|
    ensures forall i :: 0 <= i < |g| ==> r.lanes[i] < |r.workers|
  {
    if g == [] then Run([], [])
    else
      var prev := LaneRun(g[..|g| - 1]);
      var p := Place(prev.workers, g[|g| - 1]);
      Run(p.0, prev.lanes + [p.1])
  }

  /** The number of lanes a group needs. */
  function LaneCount(g: seq<Task>): nat
  {
    |LaneRun(g).workers|
  }

  /** The loop of history.py:40-51 for one group. */
  method AssignGroupLanes(group: seq<Task>) returns (lanes: seq<nat>)
    ensures lanes == LaneRun(group).lanes
  {
    var workers: Slots := [];
    lanes := [];
    for i := 0 to |group|
      invariant LaneRun(group[..i]) == Run(workers, lanes)
    {
      var task := group[i];
      ghost var before := workers;
      workers := Freed(workers, task);
      var lane: nat;
      var free := FirstFree(workers);
      if free.Some? {
        lane := free.value;
        workers := workers[lane := Some(task)];
      } else {
        lane := |workers|;
        workers := workers + [Some(task)];
      }
      assert Place(before, task) == (workers, lane);
      LaneRunExtend(group, i);
      lanes := lanes + [lane];
    }
    assert group[..|group|] == group;
  }

  /** Walking one more task of a group places it into the occupants the
      walk so far has left. */
  lemma LaneRunExtend(g: seq<Task>, i: nat)
    requires i < |g|
    ensures var prev := LaneRun(g[..i]);
      var p := Place(prev.workers, g[i]);
      LaneRun(g[..i + 1]) == Run(p.0, prev.lanes + [p.1])
  {
    assert g[..i + 1][..i] == g[..i];
  }

  /** Walking a prefix of a group gives a prefix of the group's lanes, and
      the list of lanes never shrinks. */
  lemma {:induction false} LaneRunPrefix(g: seq<Task>, n: nat)
    requires n <= |g|
    ensures LaneRun(g[..n]).lanes == LaneRun(g).lanes[..n]
    ensures LaneCount(g[..n]) <= LaneCount(g)
    decreases |g| - n
  {
    if n == |g| {
      assert g[..n] == g;
    } else {
      var h := g[..|g| - 1];
      assert h[..n] == g[..n];
      LaneRunPrefix(h, n);
      var prev := LaneRun(h);
      var p := Place(prev.workers, g[|g| - 1]);
      assert LaneRun(g) == Run(p.0, prev.lanes + [p.1]);
      assert (prev.lanes + [p.1])[..n] == prev.lanes[..n];
    }
  }

  /** What happens to the `n`-th task of a group: it is placed with
      `Place` into the occupants left by the tasks before it. */
  lemma LaneRunStep(g: seq<Task>, n: nat)
    requires n < |g|
    ensures Place(LaneRun(g[..n]).workers, g[n])
      == (LaneRun(g[..n + 1]).workers, LaneRun(g).lanes[n])
  {
    var h := g[..n + 1];
    assert h[..n] == g[..n] && h[n] == g[n];
    var prev := LaneRun(g[..n]);
    var p := Place(prev.workers, g[n]);
    assert LaneRun(h) == Run(p.0, prev.lanes + [p.1]);
    LaneRunPrefix(g, n + 1);
    assert LaneRun(g).lanes[n] == LaneRun(h).lanes[n] == p.1;
  }

  /** Lowest free lane (history.py:42-51): the `n`-th task gets lane `k`;
      every lane below `k` holds a task still running at its start; lane
      `k` is an existing lane free at its start, or, only when every lane
      is busy, a new lane with index equal to the number of lanes. The
      list of lanes grows by one exactly when a new lane is opened. */
  lemma LowestFreeLane(g: seq<Task>, n: nat)
    requires n < |g|
    ensures var w := LaneRun(g[..n]).workers;
      var k := LaneRun(g).lanes[n];
      && k <= |w|
      && (forall j :: 0 <= j < k ==> Busy(w[j], g[n]))
      && (k < |w| ==> !Busy(w[k], g[n]) && LaneCount(g[..n + 1]) == |w|)
      && (k == |w| ==> LaneCount(g[..n + 1]) == |w| + 1)
  {
    LaneRunStep(g, n);
  }

  /** The first task of a group always gets lane 0. */
  lemma FirstTaskLaneZero(g: seq<Task>)
    requires g != []
    ensures LaneRun(g).lanes[0] == 0
  {
    LaneRunStep(g, 0);
    assert g[..0] == [];
  }

  /** Two tasks that share a lane do not overlap: the earlier one has
      ended by the time the later one starts. */
  predicate NoOverlap(g: seq<Task>, lanes: seq<nat>)
    requires |lanes| == |g|
  {
    forall i, j :: 0 <= i < j < |g| && lanes[i] == lanes[j] ==> g[i].endedAt <= g[j].startedAt
  }

  /** Every task of the walked prefix has either ended by the latest start
      or is no later than its lane's current occupant. */
  predicate Tracked(g: seq<Task>, r: Run)
    requires |r.lanes| == |g|
    requires forall i :: 0 <= i < |g| ==> r.lanes[i] < |r.workers|
  {
    forall i :: 0 <= i < |g| ==>
      (r.workers[r.lanes[i]].Some? && g[i].endedAt <= r.workers[r.lanes[i]].value.endedAt)
      || g[i].endedAt <= g[|g| - 1].startedAt
  }

  /** The lane `Place` picks for `t` holds no task of the walked prefix
      that is still running at `t`'s start. */
  lemma PlacedLaneIsClear(h: seq<Task>, prev: Run, t: Task, i: nat)
    requires |prev.lanes| == |h| && forall m :: 0 <= m < |h| ==> prev.lanes[m] < |prev.workers|
    requires SortedByStart(h + [t]) && Tracked(h, prev)
    requires i < |h| && prev.lanes[i] == Place(prev.workers, t).1
    ensures h[i].endedAt <= t.startedAt
  {
    var k := prev.lanes[i];
    assert !Busy(prev.workers[k], t);
    assert (h + [t])[|h| - 1] == h[|h| - 1] && (h + [t])[|h|] == t;
  }

  /** One step of the walk keeps `Tracked` and `NoOverlap`. */
  lemma PlaceKeepsInvariant(h: seq<Task>, prev: Run, t: Task)
    requires |prev.lanes| == |h| && forall m :: 0 <= m < |h| ==> prev.lanes[m] < |prev.workers|
    requires SortedByStart(h + [t]) && Tracked(h, prev) && NoOverlap(h, prev.lanes)
    ensures var (w, k) := Place(prev.workers, t);
      var r := Run(w, prev.lanes + [k]);
      && |r.lanes| == |h + [t]| && (forall m :: 0 <= m < |h + [t]| ==> r.lanes[m] < |r.workers|)
      && Tracked(h + [t], r) && NoOverlap(h + [t], r.lanes)
  {
    var (w, k) := Place(prev.workers, t);
    var r := Run(w, prev.lanes + [k]);
    var g := h + [t];
    assert |w| == |prev.workers| || |w| == |prev.workers| + 1;
    forall i | 0 <= i < |g|
      ensures (r.workers[r.lanes[i]].Some? && g[i].endedAt <= r.workers[r.lanes[i]].value.endedAt)
        || g[i].endedAt <= g[|g| - 1].startedAt
    {
      if i < |h| {
        assert g[i] == h[i] && r.lanes[i] == prev.lanes[i];
        var l := prev.lanes[i];
        assert (h + [t])[|h| - 1] == h[|h| - 1] && (h + [t])[|h|] == t;
        if l == k {
          PlacedLaneIsClear(h, prev, t, i);
        } else {
          assert w[l] == Freed(prev.workers, t)[l];
        }
      } else {
        assert r.lanes[i] == k && w[k] == Some(t);
      }
    }
    forall i, j | 0 <= i < j < |g| && r.lanes[i] == r.lanes[j]
      ensures g[i].endedAt <= g[j].startedAt
    {
      assert g[i] == h[i] && r.lanes[i] == prev.lanes[i];
      if j < |h| {
        assert g[j] == h[j] && r.lanes[j] == prev.lanes[j];
      } else {
        PlacedLaneIsClear(h, prev, t, i);
      }
    }
  }

  lemma {:induction false} LaneRunInvariant(g: seq<Task>)
    requires SortedByStart(g)
    ensures Tracked(g, LaneRun(g))
    ensures NoOverlap(g, LaneRun(g).lanes)
  {
    if g != [] {
      var h := g[..|g| - 1];
      assert g == h + [g[|g| - 1]];
      LaneRunInvariant(h);
      PlaceKeepsInvariant(h, LaneRun(h), g[|g| - 1]);
    }
  }

  /** No overlap within a lane (history.py:41-48): of two tasks of a
      group, walked in start order, that were given the same lane, the
      earlier one has ended when the later one starts. */
  lemma LanesDoNotOverlap(g: seq<Task>, i: nat, j: nat)
    requires SortedByStart(g)
    requires i < j < |g| && LaneRun(g).lanes[i] == LaneRun(g).lanes[j]
    ensures g[i].endedAt <= g[j].startedAt
  {
    LaneRunInvariant(g);
  }

  /** A worked example: tasks of one function running over [0 s, 5 s),
      [2 s, 8 s) and [6 s, 10 s) get lanes 0, 1 and 0, two lanes in all;
      the third reuses lane 0 because the first has ended when it starts. */
  lemma ThreeTaskExample(a: Task, b: Task, c: Task)
    requires a.startedAt == 0 && a.endedAt == 5_000_000
    requires b.startedAt == 2_000_000 && b.endedAt == 8_000_000
    requires c.startedAt == 6_000_000 && c.endedAt == 10_000_000
    ensures LaneRun([a, b, c]).lanes == [0, 1, 0]
    ensures LaneCount([a, b, c]) == 2
  {
    var g := [a, b, c];
    assert g[..0] == [] && g[..1] == [a] && g[..2] == [a, b];
    var r1 := LaneRun([a]);
    assert Freed([], a) == [];
    assert r1 == Run([Some(a)], [0]);
    var r2 := LaneRun([a, b]);
    assert [a, b][..1] == [a];
    assert Freed([Some(a)], b) == [Some(a)];
    assert FirstFree([Some(a)]) == None;
    assert r2 == Run([Some(a), Some(b)], [0, 1]);
    assert Freed([Some(a), Some(b)], c) == [None, Some(b)];
    assert FirstFree([None, Some(b)]) == Some(0);
  }
}
