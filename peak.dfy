/** The number of lanes the walk of history.py:40-51 opens for a group is
    the peak number of tasks of that group running at the same moment: a
    lane is opened only when every existing lane is busy, and two tasks
    running at the same moment never share a lane. */
module Peak {
  import opened Tasks
  import opened Lanes

  /** The positions of the tasks of `g` running at moment `t`: started at
      or before it and not yet ended. */
  function RunningAt(g: seq<Task>, t: Timestamp): set<nat>
  {
    set i: nat | i < |g| && g[i].startedAt <= t < g[i].endedAt
  }

  /** The lanes `0` to `n - 1`. */
  function Range(n: nat): set<nat>
  {
    if n == 0 then {} else Range(n - 1) + {n - 1}
  }

  lemma {:induction false} RangeMembers(n: nat, k: nat)
    ensures k in Range(n) <==> k < n
  {
    if n > 0 {
      RangeMembers(n - 1, k);
    }
  }

  /** The lanes given to the positions in `s`. */
  function Image(s: set<nat>, lanes: seq<nat>): set<nat>
    requires forall i :: i in s ==> i < |lanes|
  {
    set i | i in s :: lanes[i]
  }

  lemma {:induction false} RangeSize(n: nat)
    ensures |Range(n)| == n
  {
    if n > 0 {
      RangeSize(n - 1);
      RangeMembers(n - 1, n - 1);
    }
  }

  lemma {:induction false} SubsetAtMost(a: set<nat>, b: set<nat>)
    requires a <= b
    ensures |a| <= |b|
    decreases |b|
  {
    if a != {} {
      var x :| x in a;
      SubsetAtMost(a - {x}, b - {x});
    }
  }

  lemma {:induction false} ImageAtMost(s: set<nat>, lanes: seq<nat>)
    requires forall i :: i in s ==> i < |lanes|
    ensures |Image(s, lanes)| <= |s|
    decreases |s|
  {
    if s != {} {
      var x :| x in s;
      ImageAtMost(s - {x}, lanes);
      assert Image(s, lanes) == Image(s - {x}, lanes) + {lanes[x]};
    }
  }

  lemma {:induction false} ImageOfInjective(s: set<nat>, lanes: seq<nat>)
    requires forall i :: i in s ==> i < |lanes|
    requires forall i, j :: i in s && j in s && i != j ==> lanes[i] != lanes[j]
    ensures |Image(s, lanes)| == |s|
    decreases |s|
  {
    if s != {} {
      var x :| x in s;
      ImageOfInjective(s - {x}, lanes);
      assert Image(s, lanes) == Image(s - {x}, lanes) + {lanes[x]};
      assert lanes[x] !in Image(s - {x}, lanes);
    }
  }

  /** Never more tasks of a group run at the same moment than it has
      lanes: tasks running together sit in different lanes. */
  lemma PeakAtMostLaneCount(g: seq<Task>, t: Timestamp)
    requires SortedByStart(g)
    ensures |RunningAt(g, t)| <= LaneCount(g)
  {
    var r := LaneRun(g);
    var s := RunningAt(g, t);
    forall i, j | i in s && j in s && i != j ensures r.lanes[i] != r.lanes[j] {
      if r.lanes[i] == r.lanes[j] {
        if i < j {
          LanesDoNotOverlap(g, i, j);
        } else {
          LanesDoNotOverlap(g, j, i);
        }
      }
    }
    ImageOfInjective(s, r.lanes);
    forall k | k in Image(s, r.lanes) ensures k in Range(LaneCount(g)) {
      RangeMembers(LaneCount(g), k);
    }
    SubsetAtMost(Image(s, r.lanes), Range(LaneCount(g)));
    RangeSize(LaneCount(g));
  }

  /** Every occupied lane is held by a task of the walked prefix given that
      lane, ending when the occupant ends. */
  predicate Witnessed(g: seq<Task>, r: Run)
    requires |r.lanes| == |g|
  {
    forall k :: 0 <= k < |r.workers| && r.workers[k].Some? ==>
      exists m :: 0 <= m < |g| && r.lanes[m] == k && g[m].endedAt == r.workers[k].value.endedAt
  }

  lemma PlaceKeepsWitness(h: seq<Task>, prev: Run, t: Task, k: nat)
    requires |prev.lanes| == |h| && Witnessed(h, prev)
    requires var w := Place(prev.workers, t).0; k < |w| && w[k].Some?
    ensures var (w, l) := Place(prev.workers, t);
      exists m :: 0 <= m < |h| + 1 && (prev.lanes + [l])[m] == k && (h + [t])[m].endedAt == w[k].value.endedAt
  {
    var (w, l) := Place(prev.workers, t);
    var lanes := prev.lanes + [l];
    if k == l {
      assert lanes[|h|] == k && (h + [t])[|h|] == t;
    } else {
      assert k < |prev.workers| && w[k] == Freed(prev.workers, t)[k];
      var m :| 0 <= m < |h| && prev.lanes[m] == k && h[m].endedAt == prev.workers[k].value.endedAt;
      assert lanes[m] == k && (h + [t])[m] == h[m];
    }
  }

  lemma {:induction false} LaneRunWitnessed(g: seq<Task>)
    ensures Witnessed(g, LaneRun(g))
  {
    if g != [] {
      var h := g[..|g| - 1];
      assert g == h + [g[|g| - 1]];
      LaneRunWitnessed(h);
      var r := LaneRun(g);
      forall k | 0 <= k < |r.workers| && r.workers[k].Some?
        ensures exists m :: 0 <= m < |g| && r.lanes[m] == k && g[m].endedAt == r.workers[k].value.endedAt
      {
        PlaceKeepsWitness(h, LaneRun(h), g[|g| - 1], k);
      }
    }
  }

  /** Every task of `g` starts before it ends. */
  predicate Proper(g: seq<Task>)
  {
    forall i :: 0 <= i < |g| ==> g[i].startedAt < g[i].endedAt
  }

  lemma RunningAtGrows(g: seq<Task>, n: nat, t: Timestamp)
    requires n <= |g|
    ensures RunningAt(g[..n], t) <= RunningAt(g, t)
  {
  }

  /** When the last task of `g` opens a new lane, each lane up to the new
      one is given to a task running at its start. */
  lemma LaneHeldAtStart(g: seq<Task>, k: nat)
    requires SortedByStart(g) && Proper(g) && g != []
    requires var h := g[..|g| - 1];
      Place(LaneRun(h).workers, g[|g| - 1]).1 == |LaneRun(h).workers|
    requires k <= |LaneRun(g[..|g| - 1]).workers|
    ensures k in Image(RunningAt(g, g[|g| - 1].startedAt), LaneRun(g).lanes)
  {
    var n := |g| - 1;
    var w := LaneRun(g[..n]).workers;
    var s := RunningAt(g, g[n].startedAt);
    LaneRunStep(g, n);
    if k < |w| {
      BusyLaneHeld(g, k);
    } else {
      assert n in s && LaneRun(g).lanes[n] == k;
    }
  }

  /** A lane that is busy at the start of the last task of `g` was given to
      an earlier task still running at that moment. */
  lemma BusyLaneHeld(g: seq<Task>, k: nat)
    requires SortedByStart(g) && g != []
    requires var w := LaneRun(g[..|g| - 1]).workers; k < |w| && Busy(w[k], g[|g| - 1])
    ensures k in Image(RunningAt(g, g[|g| - 1].startedAt), LaneRun(g).lanes)
  {
    var n := |g| - 1;
    var h := g[..n];
    var prev := LaneRun(h);
    var w := prev.workers;
    LaneRunWitnessed(h);
    LaneRunPrefix(g, n);
    var m :| 0 <= m < |h| && prev.lanes[m] == k && h[m].endedAt == w[k].value.endedAt;
    assert LaneRun(g).lanes[m] == prev.lanes[m] && h[m] == g[m];
    assert m in RunningAt(g, g[n].startedAt);
  }

  /** When the last task of `g` opens a new lane, every lane holds a task
      still running at its start, so one more task than there were lanes
      runs at that moment. */
  lemma NewLaneAtPeak(g: seq<Task>)
    requires SortedByStart(g) && Proper(g) && g != []
    requires var h := g[..|g| - 1];
      Place(LaneRun(h).workers, g[|g| - 1]).1 == |LaneRun(h).workers|
    ensures LaneCount(g) <= |RunningAt(g, g[|g| - 1].startedAt)|
  {
    var n := |g| - 1;
    var w := LaneRun(g[..n]).workers;
    var lanes := LaneRun(g).lanes;
    var s := RunningAt(g, g[n].startedAt);
    LaneRunStep(g, n);
    assert g[..n + 1] == g;
    forall k: nat | k < |w| + 1 ensures k in Image(s, lanes) {
      LaneHeldAtStart(g, k);
    }
    CoveredLanes(s, lanes, |w| + 1);
  }

  /** A set of positions whose lanes cover lanes `0` to `c - 1` has at
      least `c` positions. */
  lemma CoveredLanes(s: set<nat>, lanes: seq<nat>, c: nat)
    requires forall i :: i in s ==> i < |lanes|
    requires forall k: nat :: k < c ==> k in Image(s, lanes)
    ensures c <= |s|
  {
    forall k | k in Range(c) ensures k in Image(s, lanes) {
      RangeMembers(c, k);
    }
    SubsetAtMost(Range(c), Image(s, lanes));
    RangeSize(c);
    ImageAtMost(s, lanes);
  }

  /** Some task of a group starts at a moment when as many tasks of the
      group run as it has lanes. */
  lemma {:induction false} PeakAttained(g: seq<Task>) returns (n: nat)
    requires SortedByStart(g) && Proper(g) && g != []
    ensures n < |g| && LaneCount(g) <= |RunningAt(g, g[n].startedAt)|
  {
    var h := g[..|g| - 1];
    var t := g[|g| - 1];
    var w := LaneRun(h).workers;
    if Place(w, t).1 == |w| {
      NewLaneAtPeak(g);
      n := |g| - 1;
    } else {
      assert SortedByStart(h) && Proper(h) && h != [] by {
        if h == [] {
          assert false;
        }
      }
      n := PeakAttained(h);
      assert LaneCount(g) == LaneCount(h) by {
        assert LaneRun(g).workers == Place(w, t).0;
      }
      RunningAtGrows(g, |g| - 1, h[n].startedAt);
      SubsetAtMost(RunningAt(h, h[n].startedAt), RunningAt(g, g[n].startedAt));
    }
  }

  /** The lane count of a group is its peak concurrency: no moment has
      more of its tasks running than it has lanes, and the start of task
      `n` has exactly as many. */
  lemma LaneCountIsPeak(g: seq<Task>) returns (n: nat)
    requires SortedByStart(g) && Proper(g) && g != []
    ensures n < |g| && |RunningAt(g, g[n].startedAt)| == LaneCount(g)
    ensures forall t :: |RunningAt(g, t)| <= LaneCount(g)
  {
    n := PeakAttained(g);
    PeakAtMostLaneCount(g, g[n].startedAt);
    forall t ensures |RunningAt(g, t)| <= LaneCount(g) {
      PeakAtMostLaneCount(g, t);
    }
  }
}
