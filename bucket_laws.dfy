/** What the bucketing loop of history.py:53-70 guarantees about its
    buckets: which tasks they hold, that every kept task lands in exactly
    one of them, and that each keeps the order of the task list. */
module BucketLaws {
  import opened Tasks
  import opened Buckets

  /** A task in a bucket was routed there from some position of the list. */
  lemma {:induction false} RoutedSound(ts: seq<Task>, lanes: seq<nat>, until: Option<Timestamp>, d: Dest, x: Task)
    requires |lanes| == |ts| && x in Routed(ts, lanes, until, d)
    ensures exists j :: 0 <= j < |ts| && ts[j] == x && Route(ts[j], lanes[j], until) == Some(d)
  {
    var n := |ts| - 1;
    var prev := Routed(ts[..n], lanes[..n], until, d);
    if x in prev {
      RoutedSound(ts[..n], lanes[..n], until, d, x);
      var j :| 0 <= j < n && ts[..n][j] == x && Route(ts[..n][j], lanes[..n][j], until) == Some(d);
      assert ts[j] == x && lanes[j] == lanes[..n][j];
    } else {
      assert ts[n] == x && Route(ts[n], lanes[n], until) == Some(d);
    }
  }

  /** A task routed to a bucket is in it. */
  lemma {:induction false} RoutedComplete(ts: seq<Task>, lanes: seq<nat>, until: Option<Timestamp>, j: nat)
    requires |lanes| == |ts| && j < |ts| && Route(ts[j], lanes[j], until).Some?
    ensures ts[j] in Routed(ts, lanes, until, Route(ts[j], lanes[j], until).value)
  {
    var n := |ts| - 1;
    var d := Route(ts[j], lanes[j], until).value;
    if j < n {
      RoutedComplete(ts[..n], lanes[..n], until, j);
      assert ts[..n][j] == ts[j] && lanes[..n][j] == lanes[j];
    }
  }

  /** Time-window filter (history.py:57-58): the task at position `j` is
      in some bucket exactly when there is no window start or it ended no
      earlier than the window start; a task that ended exactly at the
      window start is kept. */
  lemma InSomeBucketIffInWindow(ts: seq<Task>, lanes: seq<nat>, until: Option<Timestamp>, j: nat)
    requires |lanes| == |ts| && j < |ts|
    ensures (ts[j] in Routed(ts, lanes, until, ShortBucket)
        || ts[j] in Routed(ts, lanes, until, LaneBucket(lanes[j])))
      <==> (until.None? || ts[j].endedAt >= until.value)
  {
    var x := ts[j];
    if until.None? || x.endedAt >= until.value {
      RoutedComplete(ts, lanes, until, j);
    } else {
      if x in Routed(ts, lanes, until, ShortBucket) {
        RoutedSound(ts, lanes, until, ShortBucket, x);
      }
      if x in Routed(ts, lanes, until, LaneBucket(lanes[j])) {
        RoutedSound(ts, lanes, until, LaneBucket(lanes[j]), x);
      }
    }
  }

  /** Bucket contents (history.py:59-63): the short bucket holds only kept
      tasks whose duration is at most the threshold, a lane bucket only
      kept tasks above it. */
  lemma BucketMembers(ts: seq<Task>, lanes: seq<nat>, until: Option<Timestamp>, d: Dest, x: Task)
    requires |lanes| == |ts| && x in Routed(ts, lanes, until, d)
    ensures Kept(x, until)
    ensures d.ShortBucket? <==> !IsLong(x)
  {
    RoutedSound(ts, lanes, until, d, x);
  }

  /** With no window start nothing is skipped. */
  lemma {:induction false} NoWindowKeepsAll(ts: seq<Task>)
    ensures KeptTasks(ts, None) == ts
  {
    if ts != [] {
      var n := |ts| - 1;
      NoWindowKeepsAll(ts[..n]);
      assert ts[..n] + [ts[n]] == ts;
    }
  }

  /** The kept tasks are those that ended no earlier than the window start. */
  lemma {:induction false} KeptTasksMembers(ts: seq<Task>, u: Timestamp, x: Task)
    ensures x in KeptTasks(ts, Some(u)) <==> x in ts && x.endedAt >= u
  {
    if ts != [] {
      var n := |ts| - 1;
      KeptTasksMembers(ts[..n], u, x);
      assert ts == ts[..n] + [ts[n]];
    }
  }

  /** The number of tasks in the lane buckets of lanes `0` to `n - 1`. */
  function LaneTotal(ts: seq<Task>, lanes: seq<nat>, until: Option<Timestamp>, n: nat): nat
    requires |lanes| == |ts|
  {
    if n == 0 then 0 else LaneTotal(ts, lanes, until, n - 1) + |Routed(ts, lanes, until, LaneBucket(n - 1))|
  }

  /** One more task adds one to the lane total exactly when it goes to a
      lane bucket below `n`. */
  lemma {:induction false} LaneTotalStep(ts: seq<Task>, lanes: seq<nat>, until: Option<Timestamp>, i: nat, n: nat)
    requires |lanes| == |ts| && i < |ts|
    ensures LaneTotal(ts[..i + 1], lanes[..i + 1], until, n)
      == LaneTotal(ts[..i], lanes[..i], until, n)
         + (if Route(ts[i], lanes[i], until) == Some(LaneBucket(lanes[i])) && lanes[i] < n then 1 else 0)
  {
    if n > 0 {
      LaneTotalStep(ts, lanes, until, i, n - 1);
      RoutedStep(ts, lanes, until, i, LaneBucket(n - 1));
    }
  }

  /** Exactly one bucket (history.py:59-63): when every lane is below `n`,
      the short bucket and the lane buckets together hold as many tasks
      as the window keeps. */
  lemma {:induction false} BucketSizesSum(ts: seq<Task>, lanes: seq<nat>, until: Option<Timestamp>, n: nat)
    requires |lanes| == |ts| && forall j :: 0 <= j < |lanes| ==> lanes[j] < n
    ensures |Routed(ts, lanes, until, ShortBucket)| + LaneTotal(ts, lanes, until, n) == |KeptTasks(ts, until)|
  {
    if ts != [] {
      var m := |ts| - 1;
      assert ts[..m + 1] == ts && lanes[..m + 1] == lanes;
      BucketSizesSum(ts[..m], lanes[..m], until, n);
      LaneTotalStep(ts, lanes, until, m, n);
      RoutedStep(ts, lanes, until, m, ShortBucket);
      var s0, l0, k0 := Routed(ts[..m], lanes[..m], until, ShortBucket),
        LaneTotal(ts[..m], lanes[..m], until, n), KeptTasks(ts[..m], until);
      assert KeptTasks(ts, until) == k0 + (if Kept(ts[m], until) then [ts[m]] else []);
      assert Routed(ts, lanes, until, ShortBucket)
        == s0 + (if Route(ts[m], lanes[m], until) == Some(ShortBucket) then [ts[m]] else []);
      if !Kept(ts[m], until) {
        assert |KeptTasks(ts, until)| == |k0|;
        assert |Routed(ts, lanes, until, ShortBucket)| == |s0|;
        assert LaneTotal(ts, lanes, until, n) == l0;
      } else if IsLong(ts[m]) {
        assert |KeptTasks(ts, until)| == |k0| + 1;
        assert |Routed(ts, lanes, until, ShortBucket)| == |s0|;
        assert LaneTotal(ts, lanes, until, n) == l0 + 1;
      } else {
        assert |KeptTasks(ts, until)| == |k0| + 1;
        assert |Routed(ts, lanes, until, ShortBucket)| == |s0| + 1;
        assert LaneTotal(ts, lanes, until, n) == l0;
      }
    } else {
      NoTasksNoLaneTotal(ts, lanes, until, n);
    }
  }

  lemma {:induction false} NoTasksNoLaneTotal(ts: seq<Task>, lanes: seq<nat>, until: Option<Timestamp>, n: nat)
    requires ts == [] && lanes == []
    ensures LaneTotal(ts, lanes, until, n) == 0
  {
    if n > 0 {
      NoTasksNoLaneTotal(ts, lanes, until, n - 1);
    }
  }

  /** The number of rows in the bucket of lane `k`, none when the lane has
      no bucket. */
  function LaneRows(workerStreams: map<nat, Bucket>, k: nat): nat
  {
    if k in workerStreams then |workerStreams[k].start| else 0
  }

  /** The number of rows in the lane buckets of `workerStreams` for lanes
      `0` to `n - 1`. */
  function StreamTotal(workerStreams: map<nat, Bucket>, n: nat): nat
  {
    if n == 0 then 0 else StreamTotal(workerStreams, n - 1) + LaneRows(workerStreams, n - 1)
  }

  /** The buckets of history.py:53-70 hold every kept task once: the rows
      of the short bucket and of all lane buckets add up to the number of
      tasks the window keeps. */
  lemma BucketRowsSum(ts: seq<Task>, lanes: seq<nat>, until: Option<Timestamp>,
    workerStreams: map<nat, Bucket>, shortTasks: Bucket, n: nat)
    requires |lanes| == |ts| && forall j :: 0 <= j < |lanes| ==> lanes[j] < n
    requires Bucketed(ts, lanes, until, workerStreams, shortTasks)
    ensures |shortTasks.start| + StreamTotal(workerStreams, n) == |KeptTasks(ts, until)|
  {
    forall k: nat | k < n ensures LaneRows(workerStreams, k) == |Routed(ts, lanes, until, LaneBucket(k))| {
      StreamRows(ts, lanes, until, workerStreams, shortTasks, k);
    }
    StreamTotalIsLaneTotal(ts, lanes, until, workerStreams, n, n);
    BucketSizesSum(ts, lanes, until, n);
  }

  lemma StreamRows(ts: seq<Task>, lanes: seq<nat>, until: Option<Timestamp>,
    workerStreams: map<nat, Bucket>, shortTasks: Bucket, k: nat)
    requires |lanes| == |ts| && Bucketed(ts, lanes, until, workerStreams, shortTasks)
    ensures LaneRows(workerStreams, k) == |Routed(ts, lanes, until, LaneBucket(k))|
  {
    var r := Routed(ts, lanes, until, LaneBucket(k));
    if k in workerStreams {
      assert workerStreams[k] == FromTasks(r);
    } else {
      assert r == [];
    }
  }

  lemma {:induction false} StreamTotalIsLaneTotal(ts: seq<Task>, lanes: seq<nat>, until: Option<Timestamp>,
    workerStreams: map<nat, Bucket>, m: nat, n: nat)
    requires |lanes| == |ts| && m <= n
    requires forall k: nat :: k < n ==> LaneRows(workerStreams, k) == |Routed(ts, lanes, until, LaneBucket(k))|
    ensures StreamTotal(workerStreams, m) == LaneTotal(ts, lanes, until, m)
  {
    if m > 0 {
      StreamTotalIsLaneTotal(ts, lanes, until, workerStreams, m - 1, n);
    }
  }

  /** Tasks taken in list order from a list sorted by start time are
      sorted too. */
  lemma {:induction false} RoutedSorted(ts: seq<Task>, lanes: seq<nat>, until: Option<Timestamp>, d: Dest)
    requires |lanes| == |ts| && SortedByStart(ts)
    ensures SortedByStart(Routed(ts, lanes, until, d))
  {
    if ts != [] {
      var n := |ts| - 1;
      var prev := Routed(ts[..n], lanes[..n], until, d);
      assert SortedByStart(ts[..n]);
      RoutedSorted(ts[..n], lanes[..n], until, d);
      if Route(ts[n], lanes[n], until) == Some(d) {
        var r := prev + [ts[n]];
        forall a | 0 <= a < |prev| ensures prev[a].startedAt <= ts[n].startedAt {
          RoutedSound(ts[..n], lanes[..n], until, d, prev[a]);
        }
        assert forall a, b :: 0 <= a < b < |r| ==> r[a].startedAt <= r[b].startedAt;
      }
    }
  }

  /** Bucket order (history.py:32, 56): the start column of every bucket
      of a list sorted by start time is non-decreasing. */
  lemma BucketStartsOrdered(ts: seq<Task>, lanes: seq<nat>, until: Option<Timestamp>, d: Dest)
    requires |lanes| == |ts| && SortedByStart(ts)
    ensures var b := FromTasks(Routed(ts, lanes, until, d));
      forall a, c :: 0 <= a < c < |b.start| ==> b.start[a] <= b.start[c]
  {
    var r := Routed(ts, lanes, until, d);
    RoutedSorted(ts, lanes, until, d);
    FromTasksRows(r);
    var b := FromTasks(r);
    forall a, c | 0 <= a < c < |b.start| ensures b.start[a] <= b.start[c] {
      assert RowOf(b, a, r[a]) && RowOf(b, c, r[c]);
    }
  }

  /** The seconds component on the durations that decide the threshold
      (history.py:60): 1.5 s and exactly 1 s and 1.000001 s have seconds
      component 1 and are short, 2 s has 2 and is long, 1 day and 0.5 s
      has 0 and is short, and minus 1 s, normalised to minus one day plus
      86399 s, is long. */
  lemma ThresholdExamples()
    ensures SecondsComponent(1_500_000) == 1
    ensures SecondsComponent(1_000_000) == 1
    ensures SecondsComponent(1_000_001) == 1
    ensures SecondsComponent(2_000_000) == 2
    ensures SecondsComponent(86_400_000_000 + 500_000) == 0
    ensures SecondsComponent(-1_000_000) == 86399
  {
    SecondsComponentIsNormalised(1_500_000, 0, 1, 500_000);
    SecondsComponentIsNormalised(1_000_000, 0, 1, 0);
    SecondsComponentIsNormalised(1_000_001, 0, 1, 1);
    SecondsComponentIsNormalised(2_000_000, 0, 2, 0);
    SecondsComponentIsNormalised(86_400_000_000 + 500_000, 1, 0, 500_000);
    SecondsComponentIsNormalised(-1_000_000, -1, 86399, 0);
  }
}
