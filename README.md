# Task history lanes, modelled in Dafny

This project models `get_tasks` of the task-history dashboard (`history.py`).
`get_tasks` turns one snapshot of a task queue's recent history into the
tables a timeline chart is drawn from. It proceeds in four steps:

1. **Snapshot.** The failed, finished and running tasks are concatenated
   in that order. Every running task gets the snapshot time as its end.
   The list is then stable-sorted by start time.
2. **Grouping.** The tasks are grouped by the name of the function they
   ran.
3. **Lanes.** Each group is walked in start order, and every task is
   given a lane, the index of a horizontal row in the chart. A lane whose
   occupant has ended by the task's start is free again. The task takes
   the lowest free lane, or opens a new one when every lane is busy.
4. **Buckets.** Every task that ended no earlier than the optional window
   start is appended, column by column, to one of two places:
   - the table of its lane, when the seconds component of its duration is
     above one;
   - one shared table of short tasks, otherwise.

Timestamps are integers counting microseconds. A task is a datatype with
the six fields the view reads. The Python task objects are identified by
their position in the sorted list, and the `worker` attribute that
`history.py` sets on them becomes a sequence of lanes aligned with that
list.

The modules follow those steps:

- `Tasks`: the task record.
- `Snapshot`: the running-task loop, the stable sort, and tie order.
- `Lanes`: the walk of one group.
- `Grouping`: `by_func`, and the lane loop over all groups.
- `Buckets` and `BucketLaws`: the buckets and what they hold.
- `Peak`: lane count equals peak concurrency.
- `History`: `get_tasks` end to end.

Where the code works by updating variables in a loop, the model is a
`method` with a loop. Each such method is proved equal to a specification
function, and the properties are lemmas about those functions:

| method | specification function |
|---|---|
| `Snapshot.CollectRunning` | `StoppedAt` |
| `Lanes.AssignGroupLanes` | `LaneRun` |
| `Grouping.GroupByFunc` | `IndicesOf` |
| `Grouping.AssignLanes` | `LaneAssignment` |
| `Buckets.Bucketize` | `Routed` and `FromTasks` |

The `sorted(...)` of each group's task list (history.py:41) and the
comprehension that clears the slots of finished tasks (history.py:42-45)
build new lists, and are functions here. The in-place `tasks.sort(...)`
of history.py:32 is modelled by the list it leaves behind
(`Snapshot.SortByStart`).

Two consequences of the code are worth stating on their own:

- **Bucket key.** Lane buckets are keyed by the lane index alone
  (history.py:61), so tasks of different functions that share lane `k`
  share a bucket (`History.SharedLaneExample`).
- **Long/short threshold.** `duration.seconds` (history.py:60) ignores
  microseconds and whole days, so 1.000001 s, 1.5 s and one day plus
  0.5 s are all short (`BucketLaws.ThresholdExamples`).

## Model

| member | source | states |
|---|---|---|
| Snapshot.CollectRunning | history.py:24-29 | one task per running task, in order, each identical to the fetched one except that its end time is the snapshot time |
| Snapshot.SortByStart | history.py:32 | the result is sorted by start time and is a permutation (same multiset, same length) of the input |
| Snapshot.SortIsStable | history.py:32 | for every start time, the tasks starting then appear in the sorted list in the input's order |
| Snapshot.SortedUnique | history.py:32 | two lists sorted by start time with the same order among equal start times are equal |
| Snapshot.SortSortedIsIdentity | history.py:41 | re-sorting a list already sorted by start time returns it unchanged |
| Snapshot.SnapshotTieOrder | history.py:27-32 | the snapshot is sorted, holds exactly the fetched tasks, and among equal start times lists failed, then finished, then running tasks, each in fetch order |
| Snapshot.SnapshotIsUnique | history.py:31-32 | the snapshot is the only sorted list that keeps the fetch order among equal start times, so the order (and every lane computed from it) is determined by the input order |
| Snapshot.SnapshotTasks | history.py:31-32 | the list every later step walks holds exactly the failed, finished and running tasks (the running ones ended at the snapshot time), one entry each; its order is stated by `Snapshot.SnapshotTieOrder` |
| Tasks.AtStartConcat | history.py:31 | the tasks starting at a given moment in a concatenation are those of the first list followed by those of the second |
| Lanes.Freed | history.py:42-45 | the occupant list keeps its length; a slot keeps its task exactly when that task is still running at the new task's start, and becomes free otherwise |
| Lanes.FirstFree | history.py:47 | the lowest free slot, and every slot below it occupied; no result only when every slot is occupied |
| Lanes.Place | history.py:42-51 | the task's lane is at most the lane count; every lower lane is busy; it is either a free existing lane (the task replaces its occupant) or a new lane at index equal to the lane count, opened only when all lanes are busy |
| Lanes.LaneRun | history.py:40-51 | one lane per task of the group; no more lanes than tasks; every lane given is below the final lane count |
| Lanes.AssignGroupLanes | history.py:40-51 | the loop over one group gives the lanes of `LaneRun` |
| Lanes.LaneRunPrefix | history.py:40-51 | walking a prefix gives a prefix of the lanes, and the lane list never shrinks |
| Lanes.LaneRunStep | history.py:42-51 | the n-th task is placed into the occupants left by the tasks before it |
| Lanes.LowestFreeLane | history.py:42-51 | the n-th task's lane has every lower lane busy at its start; it is a free existing lane (lane count unchanged) or a new lane (lane count grows by exactly one), so the list grows by at most one per task |
| Lanes.FirstTaskLaneZero | history.py:40-51 | the first task of a group gets lane 0 |
| Lanes.LaneRunInvariant | history.py:41-51 | over a sorted group every task has ended or is no later than its lane's occupant, and tasks sharing a lane do not overlap |
| Lanes.LanesDoNotOverlap | history.py:41-48 | of two tasks of a sorted group given the same lane, the earlier ends no later than the later starts |
| Lanes.ThreeTaskExample | history.py:40-51 | tasks over [0,5), [2,8), [6,10) seconds get lanes 0, 1, 0, two lanes in all |
| Grouping.IndicesOf | history.py:34-36 | the listed positions are in range and hold tasks of the function |
| Grouping.IndicesIncrease | history.py:35-36 | a group lists its tasks in the order of the sorted list |
| Grouping.IndicesComplete | history.py:35-36 | every task is listed in the group of its function |
| Grouping.IndicesAtMost | history.py:34-36 | a group has no more tasks than the list |
| Grouping.LaneOf | history.py:46-51 | the lane of task i, read from the walk of its group up to and including it, is below the number of tasks of its function up to and including it |
| Grouping.LaneAssignment | history.py:39-51 | one lane per task of the sorted list, each below the number of tasks of that task's function so far |
| Grouping.GroupByFunc | history.py:34-36 | each function name appears once; each maps to exactly the positions of its tasks; a name is present iff it has tasks; every task's function is present |
| Grouping.GroupIsSorted | history.py:32-36 | a group of the sorted list is sorted by start time |
| Grouping.ResortedGroup | history.py:41 | the per-group `sorted` returns the group unchanged |
| Grouping.GroupPrefix | history.py:35-36 | the group of the list cut after a group member is the group cut after that member |
| Grouping.GroupLaneIsLaneOf | history.py:39-51 | the lane the walk gives a group's r-th task is that task's `LaneOf` |
| Grouping.WalkGroup | history.py:41-51 | the lanes of one group, in the group's order, are those of `LaneRun` |
| Grouping.AssignGroup | history.py:39-51 | every task of the function gets its `LaneOf`; every other task keeps its lane |
| Grouping.AssignLanes | history.py:34-51 | every task of the sorted list gets the lane `LaneAssignment` gives it |
| Grouping.SameLaneDoNotOverlap | history.py:41-48 | of two tasks of the same function in the sorted list with the same lane, the earlier ends no later than the later starts |
| Grouping.LaneWithinGroup | history.py:40-51 | a task's lane is below its group's lane count, and a task with no earlier task of its function gets lane 0 |
| Buckets.SecondsComponent | history.py:59-60 | `timedelta.seconds` of a duration lies in [0, 86400) |
| Buckets.SecondsComponentIsNormalised | history.py:60 | it is the seconds part of the unique (days, seconds, microseconds) normal form |
| Buckets.IsLong | history.py:59-60 | for a non-negative duration below one day, a task is long exactly when it ran at least two seconds |
| Buckets.WholeDaysIgnored | history.py:59-60 | a whole day more of duration does not change whether a task is long |
| Buckets.IsLongIsSecondsAboveOne | history.py:60 | a task counts as long exactly when its duration's seconds component is above 1 |
| Buckets.Kept | history.py:57-58 | without a window start every task is kept; with one, a task is kept exactly when it ended at or after it |
| Buckets.Route | history.py:57-63 | a task goes nowhere exactly when it is skipped, to the short bucket exactly when it is kept and not long, and to its lane's bucket exactly when it is kept and long |
| Buckets.FromTasks | history.py:64-70 | a bucket built from tasks has seven columns of equal length, one row per task |
| Buckets.FromTasksRows | history.py:64-70 | row i of every column comes from the i-th task appended |
| Buckets.RoutedStep | history.py:56-63 | one more task adds itself to the one bucket it is routed to and leaves the others unchanged |
| Buckets.Bucketize | history.py:53-70 | the short bucket holds the routed short tasks; a lane key exists iff some task was routed to that lane; each lane bucket holds exactly that lane's routed tasks, in list order |
| BucketLaws.RoutedSound | history.py:56-63 | every task in a bucket was routed to it from some position of the list |
| BucketLaws.RoutedComplete | history.py:56-63 | every routed task is in the bucket it was routed to |
| BucketLaws.InSomeBucketIffInWindow | history.py:57-58 | a task is in its short or lane bucket iff there is no window start or it ended at or after the window start (ending exactly at it is kept) |
| BucketLaws.BucketMembers | history.py:57-63 | a bucket holds only kept tasks; the short bucket only tasks that are not long, a lane bucket only long ones |
| BucketLaws.NoWindowKeepsAll | history.py:57 | without a window start no task is skipped |
| BucketLaws.KeptTasksMembers | history.py:57-58 | with a window start, a task is kept iff it is in the list and ended at or after the start |
| BucketLaws.BucketSizesSum | history.py:59-63 | the short bucket and the lane buckets together hold exactly as many tasks as the window keeps |
| BucketLaws.StreamRows | history.py:53-70 | the row count of a lane's table equals the number of tasks routed to that lane |
| BucketLaws.BucketRowsSum | history.py:53-70 | the rows of the short table and of all lane tables add up to the number of kept tasks |
| BucketLaws.RoutedSorted | history.py:56 | walking the list sorted at history.py:32 in order, the tasks in every bucket are sorted by start time |
| BucketLaws.BucketStartsOrdered | history.py:56-64 | the start column of every bucket is non-decreasing |
| BucketLaws.ThresholdExamples | history.py:59-60 | 1.5 s, 1 s and 1.000001 s have seconds component 1 (short); 2 s has 2 (long); one day and 0.5 s has 0 (short); minus one second has 86399 (long) |
| History.GetTasks | history.py:17-74 | the returned tables are the buckets of the sorted snapshot under the lanes of `LaneAssignment` |
| History.LanesBelowTaskCount | history.py:39-51 | no lane index reaches the number of tasks |
| History.EveryTaskShownOnce | history.py:56-70 | the rows of all returned tables add up to the number of tasks in the window, and without a window to the number of tasks fetched |
| History.RowsAddUp | history.py:53-70 | for any task list with its lanes, the rows of the returned tables add up to the number of kept tasks, and without a window start to the list's length |
| History.SharedLaneExample | history.py:39-63 | tasks of two functions that both get lane 0 land in the same lane bucket; an overlapping 1.5 s task gets lane 1 but goes to the short bucket |
| History.FirstOfFunctionLane | history.py:40-51 | a task with no earlier task of its function gets lane 0 |
| Peak.PeakAtMostLaneCount | history.py:41-51 | at no moment do more tasks of a sorted group run than it has lanes |
| Peak.LaneRunWitnessed | history.py:47-51 | every occupied slot holds the end time of a task given that lane |
| Peak.NewLaneAtPeak | history.py:49-51 | when a task opens a new lane, as many tasks run at its start as there are lanes afterwards |
| Peak.PeakAttained | history.py:46-51 | some task of the group starts at a moment when at least as many tasks run as there are lanes |
| Peak.LaneCountIsPeak | history.py:40-51 | for a sorted group of tasks that each start before they end, the lane count equals the peak number of tasks running at the same moment |

## Left out

- The chart itself (`rt_app.py`): figure construction, tools, tooltips and the periodic refresh are display code.
- The settings bootstrap from the environment (history.py:13-15).
- The registry reads and record lookups (history.py:20-21, 25-26, 28). The fetched failed, finished and running lists are parameters of `History.GetTasks`, so the 1000-task fetch limits are the registries' business. `running_on` is a foreign lookup that nothing later reads. A `Task.fetch` or `Worker.fetch` of a task or worker that has vanished between the registry read and the lookup raises, and the exception aborts all of `get_tasks`; the model drops that path along with the lookups.
- The clock `utcnow()` (history.py:23): the snapshot time `now` is a parameter.
- Buckets.Bucketize: the duration column holds the duration as an integer number of microseconds rather than the string `str(duration)`, whose formatting is Python's.
- Buckets.Bucketize: a bucket without rows stands for an empty `defaultdict`. A lane key exists exactly when its bucket has rows, as with the `defaultdict` access at history.py:61.
- Buckets.IsLong: written without the division as the duration modulo one day being at least two seconds. `Buckets.IsLongIsSecondsAboveOne` proves it equals `duration.seconds > 1`.
- Grouping.AssignLanes: the groups are walked in order of their first task. The source walks `by_func.values()` in dictionary insertion order, which is the same order; the result does not depend on it, because groups assign disjoint positions.
- Snapshot.SortByStart: the in-place `list.sort` is modelled as a pure stable insertion sort. Only its result, not the in-place update, is modelled.
- Timestamps are never `None`. Time zones and datetime arithmetic beyond integer subtraction are not modelled.
- Peak.LaneCountIsPeak: requires every task of the group to start strictly before it ends. A task with zero or negative duration runs at no moment, yet still takes a lane.
