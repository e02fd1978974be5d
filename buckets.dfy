/** Bucketing the tasks for display (history.py:53-74).

    Every task that ended no earlier than the window's start is appended,
    column by column, to the bucket of its lane when it ran longer than the
    threshold, and to the one bucket of short tasks otherwise. Lane buckets
    are keyed by the lane index alone, whatever the task's function. */
module Buckets {
  import opened Tasks

  const SecondMicros: int := 1_000_000
  const DayMicros: int := 86_400_000_000

  /** `timedelta.seconds` of a duration of `d` microseconds: Python keeps a
      timedelta as days, seconds and microseconds with
      `0 <= seconds < 86400` and `0 <= microseconds < 10**6` (days may be
      negative), and `.seconds` is the middle part alone. */
  function SecondsComponent(d: int): (s: int)
    ensures 0 <= s < 86400
  {
    (d % DayMicros) / SecondMicros
  }

  /** `SecondsComponent` is the seconds part of the unique normalised
      (days, seconds, microseconds) form of the duration. */
  lemma SecondsComponentIsNormalised(d: int, days: int, seconds: int, micros: int)
    requires 0 <= seconds < 86400 && 0 <= micros < SecondMicros
    requires d == days * DayMicros + seconds * SecondMicros + micros
    ensures SecondsComponent(d) == seconds
  {
    var rest := seconds * SecondMicros + micros;
    assert 0 <= rest < DayMicros;
    assert d % DayMicros == rest by {
      assert d == days * DayMicros + rest;
    }
    assert rest / SecondMicros == seconds;
  }

  /** The test of history.py:60, `duration.seconds > 1`, written without
      the division: the part of the duration below a whole day is at least
      two seconds. */
  predicate IsLong(t: Task)
    ensures 0 <= t.endedAt - t.startedAt < DayMicros ==>
      (IsLong(t) <==> t.endedAt - t.startedAt >= 2 * SecondMicros)
  {
    (t.endedAt - t.startedAt) % DayMicros >= 2 * SecondMicros
  }

  /** `IsLong` is the test `duration.seconds > 1` of history.py:60. */
  lemma IsLongIsSecondsAboveOne(t: Task)
    ensures IsLong(t) <==> SecondsComponent(t.endedAt - t.startedAt) > 1
  {
  }

  /** A whole day more of duration does not change the verdict. */
  lemma WholeDaysIgnored(t: Task)
    ensures IsLong(t) <==> IsLong(t.(endedAt := t.endedAt + DayMicros))
  {
  }

  /** The test of history.py:57: with a window start `until`, a task that
      ended strictly before it is skipped. */
  predicate Kept(t: Task, until: Option<Timestamp>)
    ensures until.None? ==> Kept(t, until)
    ensures until.Some? ==> (Kept(t, until) <==> until.value <= t.endedAt)
  {
    !(until.Some? && t.endedAt < until.value)
  }

  /** Where a task goes: the shared bucket of short tasks or the bucket of
      a lane. */
  datatype Dest = ShortBucket | LaneBucket(lane: nat)

  /** The bucket a task with lane `lane` is appended to, if any. */
  function Route(t: Task, lane: nat, until: Option<Timestamp>): (r: Option<Dest>)
    ensures r.None? <==> !Kept(t, until)
    ensures r == Some(ShortBucket) <==> Kept(t, until) && !IsLong(t)
    ensures r == Some(LaneBucket(lane)) <==> Kept(t, until) && IsLong(t)
  {
    if !Kept(t, until) then None
    else if IsLong(t) then Some(LaneBucket(lane))
    else Some(ShortBucket)
  }

  /** The seven columns of one bucket. The duration column holds the
      duration in microseconds. */
  datatype Bucket = Bucket(
    start: seq<Timestamp>,
    end: seq<Timestamp>,
    duration: seq<int>,
    taskFunc: seq<string>,
    status: seq<string>,
    key: seq<string>,
    description: seq<string>)
  {
    /** All columns have the same number of entries. */
    predicate Aligned()
    {
      && |end| == |start| && |duration| == |start| && |taskFunc| == |start|
      && |status| == |start| && |key| == |start| && |description| == |start|
    }

    /** history.py:64-70: one entry for `t` at the end of every column. */
    function Append(t: Task): Bucket
    {
      Bucket(start + [t.startedAt], end + [t.endedAt], duration + [t.endedAt - t.startedAt],
        taskFunc + [t.funcName], status + [t.status], key + [t.key], description + [t.description])
    }
  }

  const EmptyBucket := Bucket([], [], [], [], [], [], [])

  /** Row `i` of `b` holds the fields of `t`. */
  predicate RowOf(b: Bucket, i: nat, t: Task)
    requires b.Aligned() && i < |b.start|
  {
    && b.start[i] == t.startedAt && b.end[i] == t.endedAt
    && b.duration[i] == t.endedAt - t.startedAt && b.taskFunc[i] == t.funcName
    && b.status[i] == t.status && b.key[i] == t.key && b.description[i] == t.description
  }

  /** The bucket the tasks `ts` are appended to in order: its columns are
      aligned, one row per task. */
  function FromTasks(ts: seq<Task>): (b: Bucket)
    ensures b.Aligned() && |b.start| == |ts|
  {
    if ts == [] then EmptyBucket
    else FromTasks(ts[..|ts| - 1]).Append(ts[|ts| - 1])
  }

  /** Aligned columns (history.py:64-70): row `i` of every column of the
      bucket comes from the same task, the `i`-th one appended. */
  lemma {:induction false} FromTasksRows(ts: seq<Task>)
    ensures forall i :: 0 <= i < |ts| ==> RowOf(FromTasks(ts), i, ts[i])
  {
    if ts != [] {
      var n := |ts| - 1;
      FromTasksRows(ts[..n]);
      assert forall i :: 0 <= i < n ==> ts[..n][i] == ts[i];
    }
  }

  /** The tasks appended to the bucket `d`, in list order. */
  function Routed(ts: seq<Task>, lanes: seq<nat>, until: Option<Timestamp>, d: Dest): (r: seq<Task>)
    requires |lanes| == |ts|
    ensures |r| <= |ts|
  {
    if ts == [] then []
    else
      var n := |ts| - 1;
      Routed(ts[..n], lanes[..n], until, d) + (if Route(ts[n], lanes[n], until) == Some(d) then [ts[n]] else [])
  }

  /** The tasks not skipped by the window, in list order. */
  function KeptTasks(ts: seq<Task>, until: Option<Timestamp>): (r: seq<Task>)
    ensures |r| <= |ts|
  {
    if ts == [] then []
    else
      var n := |ts| - 1;
      KeptTasks(ts[..n], until) + (if Kept(ts[n], until) then [ts[n]] else [])
  }

  /** `workerStreams` and `shortTasks` hold the buckets of the tasks `ts`:
      a lane's bucket exists once a task has been appended to it, as with
      the `defaultdict`s of history.py:53-54. */
  ghost predicate Bucketed(ts: seq<Task>, lanes: seq<nat>, until: Option<Timestamp>,
    workerStreams: map<nat, Bucket>, shortTasks: Bucket)
    requires |lanes| == |ts|
  {
    && shortTasks == FromTasks(Routed(ts, lanes, until, ShortBucket))
    && (forall k :: k in workerStreams <==> Routed(ts, lanes, until, LaneBucket(k)) != [])
    && (forall k :: k in workerStreams ==> workerStreams[k] == FromTasks(Routed(ts, lanes, until, LaneBucket(k))))
  }

  /** The loop of history.py:53-70. */
  method Bucketize(tasks: seq<Task>, lanes: seq<nat>, untilTs: Option<Timestamp>)
    returns (workerStreams: map<nat, Bucket>, shortTasks: Bucket)
    requires |lanes| == |tasks|
    ensures shortTasks == FromTasks(Routed(tasks, lanes, untilTs, ShortBucket))
    ensures forall k :: k in workerStreams <==> Routed(tasks, lanes, untilTs, LaneBucket(k)) != []
    ensures forall k :: k in workerStreams ==>
      workerStreams[k] == FromTasks(Routed(tasks, lanes, untilTs, LaneBucket(k)))
  {
    workerStreams, shortTasks := map[], EmptyBucket;
    for i := 0 to |tasks|
      invariant Bucketed(tasks[..i], lanes[..i], untilTs, workerStreams, shortTasks)
    {
      var task := tasks[i];
      if !Kept(task, untilTs) {
        SkipStep(tasks, lanes, untilTs, i, workerStreams, shortTasks);
        continue;
      }
      if IsLong(task) {
        var ws := if lanes[i] in workerStreams then workerStreams[lanes[i]] else EmptyBucket;
        LongStep(tasks, lanes, untilTs, i, workerStreams, shortTasks, workerStreams[lanes[i] := ws.Append(task)]);
        workerStreams := workerStreams[lanes[i] := ws.Append(task)];
      } else {
        ShortStep(tasks, lanes, untilTs, i, workerStreams, shortTasks);
        shortTasks := shortTasks.Append(task);
      }
    }
    assert tasks[..|tasks|] == tasks && lanes[..|lanes|] == lanes;
  }

  lemma RoutedStep(ts: seq<Task>, lanes: seq<nat>, until: Option<Timestamp>, i: nat, d: Dest)
    requires |lanes| == |ts| && i < |ts|
    ensures Routed(ts[..i + 1], lanes[..i + 1], until, d)
      == Routed(ts[..i], lanes[..i], until, d) + (if Route(ts[i], lanes[i], until) == Some(d) then [ts[i]] else [])
  {
    assert ts[..i + 1][..i] == ts[..i] && lanes[..i + 1][..i] == lanes[..i];
  }

  lemma FromTasksAppend(ts: seq<Task>, t: Task)
    ensures FromTasks(ts + [t]) == FromTasks(ts).Append(t)
  {
    assert (ts + [t])[..|ts|] == ts;
  }

  lemma SkipStep(ts: seq<Task>, lanes: seq<nat>, until: Option<Timestamp>, i: nat,
    workerStreams: map<nat, Bucket>, shortTasks: Bucket)
    requires |lanes| == |ts| && i < |ts| && !Kept(ts[i], until)
    requires Bucketed(ts[..i], lanes[..i], until, workerStreams, shortTasks)
    ensures Bucketed(ts[..i + 1], lanes[..i + 1], until, workerStreams, shortTasks)
  {
    forall d ensures Routed(ts[..i + 1], lanes[..i + 1], until, d) == Routed(ts[..i], lanes[..i], until, d) {
      RoutedStep(ts, lanes, until, i, d);
    }
  }

  /** A long task leaves the short bucket as it is. */
  lemma LongStepShort(ts: seq<Task>, lanes: seq<nat>, until: Option<Timestamp>, i: nat)
    requires |lanes| == |ts| && i < |ts| && Kept(ts[i], until) && IsLong(ts[i])
    ensures Routed(ts[..i + 1], lanes[..i + 1], until, ShortBucket) == Routed(ts[..i], lanes[..i], until, ShortBucket)
  {
    RoutedStep(ts, lanes, until, i, ShortBucket);
    assert Route(ts[i], lanes[i], until) == Some(LaneBucket(lanes[i]));
  }

  /** A long task changes the bucket of its own lane `k`, and only that one. */
  lemma LongStepLane(ts: seq<Task>, lanes: seq<nat>, until: Option<Timestamp>, i: nat,
    workerStreams: map<nat, Bucket>, streams: map<nat, Bucket>, k: nat)
    requires |lanes| == |ts| && i < |ts| && Kept(ts[i], until) && IsLong(ts[i])
    requires var before := Routed(ts[..i], lanes[..i], until, LaneBucket(k));
      && (k in workerStreams <==> before != [])
      && (k in workerStreams ==> workerStreams[k] == FromTasks(before))
    requires streams == workerStreams[lanes[i] :=
      (if lanes[i] in workerStreams then workerStreams[lanes[i]] else EmptyBucket).Append(ts[i])]
    ensures var after := Routed(ts[..i + 1], lanes[..i + 1], until, LaneBucket(k));
      && (k in streams <==> after != [])
      && (k in streams ==> streams[k] == FromTasks(after))
  {
    var before := Routed(ts[..i], lanes[..i], until, LaneBucket(k));
    RoutedStep(ts, lanes, until, i, LaneBucket(k));
    if k == lanes[i] {
      assert Route(ts[i], lanes[i], until) == Some(LaneBucket(k));
      assert Routed(ts[..i + 1], lanes[..i + 1], until, LaneBucket(k)) == before + [ts[i]];
      FromTasksAppend(before, ts[i]);
      var old_ := if k in workerStreams then workerStreams[k] else EmptyBucket;
      assert streams[k] == old_.Append(ts[i]);
      assert old_ == FromTasks(before);
    } else {
      assert Route(ts[i], lanes[i], until) != Some(LaneBucket(k));
      assert Routed(ts[..i + 1], lanes[..i + 1], until, LaneBucket(k)) == before + [] == before;
      assert k in streams <==> k in workerStreams;
      assert k in streams ==> streams[k] == workerStreams[k];
    }
  }

  lemma LongStep(ts: seq<Task>, lanes: seq<nat>, until: Option<Timestamp>, i: nat,
    workerStreams: map<nat, Bucket>, shortTasks: Bucket, streams: map<nat, Bucket>)
    requires |lanes| == |ts| && i < |ts| && Kept(ts[i], until) && IsLong(ts[i])
    requires Bucketed(ts[..i], lanes[..i], until, workerStreams, shortTasks)
    requires streams == workerStreams[lanes[i] :=
      (if lanes[i] in workerStreams then workerStreams[lanes[i]] else EmptyBucket).Append(ts[i])]
    ensures Bucketed(ts[..i + 1], lanes[..i + 1], until, streams, shortTasks)
  {
    LongStepShort(ts, lanes, until, i);
    forall k: nat
      ensures k in streams <==> Routed(ts[..i + 1], lanes[..i + 1], until, LaneBucket(k)) != []
      ensures k in streams ==> streams[k] == FromTasks(Routed(ts[..i + 1], lanes[..i + 1], until, LaneBucket(k)))
    {
      LongStepLane(ts, lanes, until, i, workerStreams, streams, k);
    }
  }

  lemma ShortStep(ts: seq<Task>, lanes: seq<nat>, until: Option<Timestamp>, i: nat,
    workerStreams: map<nat, Bucket>, shortTasks: Bucket)
    requires |lanes| == |ts| && i < |ts| && Kept(ts[i], until) && !IsLong(ts[i])
    requires Bucketed(ts[..i], lanes[..i], until, workerStreams, shortTasks)
    ensures Bucketed(ts[..i + 1], lanes[..i + 1], until, workerStreams, shortTasks.Append(ts[i]))
  {
    RoutedStep(ts, lanes, until, i, ShortBucket);
    FromTasksAppend(Routed(ts[..i], lanes[..i], until, ShortBucket), ts[i]);
    forall k ensures Routed(ts[..i + 1], lanes[..i + 1], until, LaneBucket(k)) == Routed(ts[..i], lanes[..i], until, LaneBucket(k)) {
      RoutedStep(ts, lanes, until, i, LaneBucket(k));
    }
  }
}
