/** `get_tasks` of history.py:17-74 end to end: the snapshot is assembled
    and sorted, every task is given a lane within its function's group,
    and the tasks of the window are bucketed by lane and duration. */
module History {
  import opened Tasks
  import opened Snapshot
  import opened Lanes
  import opened Grouping
  import opened Buckets
  import BucketLaws

  /** history.py:17-74. The three registry fetches and the clock are
      parameters: `failed` and `finished` are the fetched task lists,
      `running` the running tasks as fetched, `now` the snapshot time and
      `untilTs` the optional window start. */
  method GetTasks(failed: seq<Task>, finished: seq<Task>, running: seq<Task>, now: Timestamp,
    untilTs: Option<Timestamp>)
    returns (workerStreams: map<nat, Bucket>, shortTasks: Bucket)
    ensures var ts := SnapshotTasks(failed, finished, running, now);
      Bucketed(ts, LaneAssignment(ts), untilTs, workerStreams, shortTasks)
  {
    var runningTasks := CollectRunning(running, now);
    var tasks := failed + finished + runningTasks;
    tasks := SortByStart(tasks);
    var lanes := AssignLanes(tasks);
    workerStreams, shortTasks := Bucketize(tasks, lanes, untilTs);
  }

  /** No task gets a lane as high as the number of tasks. */
  lemma LanesBelowTaskCount(ts: seq<Task>)
    ensures forall i :: 0 <= i < |ts| ==> LaneAssignment(ts)[i] < |ts|
  {
    forall i | 0 <= i < |ts| ensures LaneAssignment(ts)[i] < |ts| {
      LaneWithinGroup(ts, i);
      IndicesAtMost(ts, ts[i].funcName);
    }
  }

  /** Every task of the snapshot inside the window is shown exactly once:
      the rows of the short bucket and of the lane buckets add up to the
      number of tasks that ended no earlier than the window start, and,
      without a window, to the number of tasks fetched. */
  lemma EveryTaskShownOnce(failed: seq<Task>, finished: seq<Task>, running: seq<Task>, now: Timestamp,
    untilTs: Option<Timestamp>, workerStreams: map<nat, Bucket>, shortTasks: Bucket)
    requires var ts := SnapshotTasks(failed, finished, running, now);
      Bucketed(ts, LaneAssignment(ts), untilTs, workerStreams, shortTasks)
    ensures var ts := SnapshotTasks(failed, finished, running, now);
      |shortTasks.start| + BucketLaws.StreamTotal(workerStreams, |ts|) == |KeptTasks(ts, untilTs)|
    ensures untilTs.None? ==>
      |shortTasks.start| + BucketLaws.StreamTotal(workerStreams, |failed| + |finished| + |running|)
        == |failed| + |finished| + |running|
  {
    var ts := SnapshotTasks(failed, finished, running, now);
    RowsAddUp(ts, untilTs, workerStreams, shortTasks);
    assert |ts| == |failed| + |finished| + |running|;
  }

  /** The rows of the buckets of any task list add up to the number of
      its tasks that are kept, and without a window to its length. */
  lemma RowsAddUp(ts: seq<Task>, untilTs: Option<Timestamp>, workerStreams: map<nat, Bucket>, shortTasks: Bucket)
    requires Bucketed(ts, LaneAssignment(ts), untilTs, workerStreams, shortTasks)
    ensures |shortTasks.start| + BucketLaws.StreamTotal(workerStreams, |ts|) == |KeptTasks(ts, untilTs)|
    ensures untilTs.None? ==> |shortTasks.start| + BucketLaws.StreamTotal(workerStreams, |ts|) == |ts|
  {
    LanesBelowTaskCount(ts);
    BucketLaws.BucketRowsSum(ts, LaneAssignment(ts), untilTs, workerStreams, shortTasks, |ts|);
    BucketLaws.NoWindowKeepsAll(ts);
  }

  /** Lane buckets are keyed by the lane alone (history.py:39-51, 61): a
      task of `f` over [0 s, 5 s) and a task of another function over
      [1 s, 4 s) both get lane 0, each in its own group, and land in the
      same lane bucket; a second task of `f` over [3 s, 4.5 s) overlaps
      the first, gets lane 1, and being only 1.5 s long goes to the short
      bucket. */
  lemma SharedLaneExample(a: Task, d: Task, e: Task)
    requires a.startedAt == 0 && a.endedAt == 5_000_000
    requires d.startedAt == 1_000_000 && d.endedAt == 4_000_000 && d.funcName != a.funcName
    requires e.startedAt == 3_000_000 && e.endedAt == 4_500_000 && e.funcName == a.funcName
    ensures LaneAssignment([a, d, e]) == [0, 0, 1]
    ensures Routed([a, d, e], [0, 0, 1], None, LaneBucket(0)) == [a, d]
    ensures Routed([a, d, e], [0, 0, 1], None, LaneBucket(1)) == []
    ensures Routed([a, d, e], [0, 0, 1], None, ShortBucket) == [e]
  {
    ExampleLanes(a, d, e);
    ExampleRoutes(a, d, e, LaneBucket(0));
    ExampleRoutes(a, d, e, LaneBucket(1));
    ExampleRoutes(a, d, e, ShortBucket);
  }

  lemma ExampleLanes(a: Task, d: Task, e: Task)
    requires a.startedAt == 0 && a.endedAt == 5_000_000
    requires d.funcName != a.funcName
    requires e.startedAt == 3_000_000 && e.funcName == a.funcName
    ensures LaneAssignment([a, d, e]) == [0, 0, 1]
  {
    var r := LaneAssignment([a, d, e]);
    FirstOfFunctionLane([a, d, e], 0);
    FirstOfFunctionLane([a, d, e], 1);
    SecondTaskOfGroupLane(a, d, e);
    assert r == [r[0], r[1], r[2]];
  }

  /** A task with no earlier task of its function gets lane 0. */
  lemma FirstOfFunctionLane(ts: seq<Task>, i: nat)
    requires i < |ts| && forall j :: 0 <= j < i ==> ts[j].funcName != ts[i].funcName
    ensures LaneAssignment(ts)[i] == 0
  {
    LaneWithinGroup(ts, i);
  }

  lemma SecondTaskOfGroupLane(a: Task, d: Task, e: Task)
    requires a.startedAt == 0 && a.endedAt == 5_000_000
    requires d.funcName != a.funcName
    requires e.startedAt == 3_000_000 && e.funcName == a.funcName
    ensures LaneAssignment([a, d, e])[2] == 1
  {
    var ts := [a, d, e];
    assert ts[..3] == ts;
    ExampleGroup(a, d, e);
    OverlapOpensLane(a, e);
  }

  lemma ExampleGroup(a: Task, d: Task, e: Task)
    requires d.funcName != a.funcName && e.funcName == a.funcName
    ensures GroupOf([a, d, e], a.funcName) == [a, e]
  {
    var ts := [a, d, e];
    var f := a.funcName;
    assert [a, d][..1] == [a] && [a][..0] == [] && ts[..2] == [a, d];
    assert IndicesOf([a], f) == [0];
    assert IndicesOf([a, d], f) == [0];
    assert IndicesOf(ts, f) == [0, 2];
  }

  lemma OverlapOpensLane(a: Task, e: Task)
    requires a.startedAt == 0 && a.endedAt == 5_000_000 && e.startedAt == 3_000_000
    ensures LaneRun([a, e]).lanes == [0, 1]
  {
    assert [a, e][..1] == [a] && [a][..0] == [];
    assert LaneRun([a]) == Run([Some(a)], [0]);
    assert Freed([Some(a)], e) == [Some(a)];
    assert FirstFree([Some(a)]) == None;
  }

  lemma ExampleRoutes(a: Task, d: Task, e: Task, dest: Dest)
    requires a.startedAt == 0 && a.endedAt == 5_000_000
    requires d.startedAt == 1_000_000 && d.endedAt == 4_000_000
    requires e.startedAt == 3_000_000 && e.endedAt == 4_500_000
    ensures Routed([a, d, e], [0, 0, 1], None, dest)
      == (if dest == LaneBucket(0) then [a, d] else if dest == ShortBucket then [e] else [])
  {
    var ts, lanes := [a, d, e], [0, 0, 1];
    assert ts[..2] == [a, d] && lanes[..2] == [0, 0];
    assert [a, d][..1] == [a] && [0, 0][..1] == [0];
    assert [a][..0] == [] && [0][..0] == [];
    var r1 := Routed([a], [0], None, dest);
    var r2 := Routed([a, d], [0, 0], None, dest);
    assert Route(a, 0, None) == Some(LaneBucket(0));
    assert Route(d, 0, None) == Some(LaneBucket(0));
    assert Route(e, 1, None) == Some(ShortBucket);
    assert r1 == (if dest == LaneBucket(0) then [a] else []);
    assert r2 == r1 + (if dest == LaneBucket(0) then [d] else []);
  }
}
