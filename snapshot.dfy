/** Assembling the snapshot: the running tasks get the snapshot's "now"
    as their end, the three task lists are concatenated (failed, finished,
    running) and the result is sorted by start time with a stable sort. */
module Snapshot {
  import opened Tasks

  /** The running-task loop: every task the worker registry reports as
      running is taken with its end time set to `now`. The registry and
      the per-id fetches are not modelled: `running` is what they return. */
  method CollectRunning(running: seq<Task>, now: Timestamp) returns (tasks: seq<Task>)
    ensures |tasks| == |running|
    ensures forall i :: 0 <= i < |tasks| ==> tasks[i] == running[i].(endedAt := now)
    ensures tasks == StoppedAt(running, now)
  {
    tasks := [];
    for i := 0 to |running|
      invariant |tasks| == i
      invariant forall j :: 0 <= j < i ==> tasks[j] == running[j].(endedAt := now)
    {
      var task := running[i].(endedAt := now);
      tasks := tasks + [task];
    }
  }

  /** `x` placed before the first task of `s` that starts no earlier than
      it does: in front of every task with an equal start time. */
  function Insert(x: Task, s: seq<Task>): (r: seq<Task>)
    ensures |r| == |s| + 1
  {
    if s == [] then [x]
    else if x.startedAt <= s[0].startedAt then [x] + s
    else [s[0]] + Insert(x, s[1..])
  }

  /** Every task of `s` starts at `lo` or later. */
  predicate StartsFrom(s: seq<Task>, lo: Timestamp)
  {
    forall k :: 0 <= k < |s| ==> lo <= s[k].startedAt
  }

  lemma {:induction false} InsertStartsFrom(x: Task, s: seq<Task>, lo: Timestamp)
    requires StartsFrom(s, lo) && lo <= x.startedAt
    ensures StartsFrom(Insert(x, s), lo)
  {
    if s != [] && x.startedAt > s[0].startedAt {
      InsertStartsFrom(x, s[1..], lo);
      var r := [s[0]] + Insert(x, s[1..]);
      assert forall k :: 1 <= k < |r| ==> r[k] == Insert(x, s[1..])[k - 1];
    }
  }

  /** Inserting into a sorted list keeps it sorted. */
  lemma {:induction false} InsertSorted(x: Task, s: seq<Task>)
    requires SortedByStart(s)
    ensures SortedByStart(Insert(x, s))
  {
    if s != [] && x.startedAt > s[0].startedAt {
      var rest := Insert(x, s[1..]);
      InsertSorted(x, s[1..]);
      InsertStartsFrom(x, s[1..], s[0].startedAt);
      var r := [s[0]] + rest;
      forall i, j | 0 <= i < j < |r| ensures r[i].startedAt <= r[j].startedAt {
        assert r[j] == rest[j - 1];
        if i > 0 {
          assert r[i] == rest[i - 1];
        }
      }
    }
  }

  /** Inserting adds exactly `x`. */
  lemma {:induction false} InsertAdds(x: Task, s: seq<Task>)
    ensures multiset(Insert(x, s)) == multiset(s) + multiset{x}
  {
    if s != [] && x.startedAt > s[0].startedAt {
      InsertAdds(x, s[1..]);
      assert s == [s[0]] + s[1..];
    }
  }

  /** A stable sort by start time (Python's `list.sort` and `sorted` with
      `key=started_at`): tasks are inserted from the back, so of two tasks
      with the same start time the one listed first stays first. */
  function SortByStart(s: seq<Task>): (r: seq<Task>)
    ensures SortedByStart(r)
    ensures multiset(r) == multiset(s)
    ensures |r| == |s|
  {
    if s == [] then []
    else
      var rest := SortByStart(s[1..]);
      InsertSorted(s[0], rest);
      InsertAdds(s[0], rest);
      assert s == [s[0]] + s[1..];
      Insert(s[0], rest)
  }

  lemma {:induction false} InsertAtStart(x: Task, s: seq<Task>, t: Timestamp)
    ensures AtStart(Insert(x, s), t) == (if x.startedAt == t then [x] else []) + AtStart(s, t)
  {
    var hx := if x.startedAt == t then [x] else [];
    if s == [] {
      assert Insert(x, s) == [x];
      assert AtStart([x], t) == hx + AtStart([], t);
    } else if x.startedAt <= s[0].startedAt {
      assert Insert(x, s) == [x] + s;
      assert ([x] + s)[1..] == s;
    } else {
      var rest := Insert(x, s[1..]);
      var h0 := if s[0].startedAt == t then [s[0]] else [];
      assert Insert(x, s) == [s[0]] + rest;
      assert ([s[0]] + rest)[1..] == rest;
      assert AtStart(Insert(x, s), t) == h0 + AtStart(rest, t);
      InsertAtStart(x, s[1..], t);
      assert AtStart(s, t) == h0 + AtStart(s[1..], t);
      assert h0 == [] || hx == [];
    }
  }

  /** Stability: among the tasks that started at the same moment, the
      sorted list keeps the order of the input. */
  lemma {:induction false} SortIsStable(s: seq<Task>, t: Timestamp)
    ensures AtStart(SortByStart(s), t) == AtStart(s, t)
  {
    if s != [] {
      SortIsStable(s[1..], t);
      InsertAtStart(s[0], SortByStart(s[1..]), t);
    }
  }

  lemma {:induction false} SortedHeadIsLeast(s: seq<Task>, x: Task)
    requires SortedByStart(s) && x in s
    ensures s[0].startedAt <= x.startedAt
  {
  }

  /** Two sorted lists with the same ties start with the same task. */
  lemma SortedSameHead(a: seq<Task>, b: seq<Task>)
    requires SortedByStart(a) && SortedByStart(b) && a != []
    requires forall t :: AtStart(a, t) == AtStart(b, t)
    ensures b != [] && a[0] == b[0]
  {
    var ta := a[0].startedAt;
    AtStartMember(a, ta, a[0]);
    assert AtStart(a, ta) == AtStart(b, ta);
    AtStartMember(b, ta, a[0]);
    assert b != [];
    var tb := b[0].startedAt;
    AtStartMember(b, tb, b[0]);
    assert AtStart(a, tb) == AtStart(b, tb);
    AtStartMember(a, tb, b[0]);
    SortedHeadIsLeast(a, b[0]);
    SortedHeadIsLeast(b, a[0]);
    assert ta == tb;
    assert AtStart(a, ta)[0] == a[0];
    assert AtStart(b, ta)[0] == b[0];
  }

  /** Two lists with the same first task and the same ties have tails with
      the same ties. */
  lemma SameTiesTail(a: seq<Task>, b: seq<Task>)
    requires a != [] && b != [] && a[0] == b[0]
    requires forall t :: AtStart(a, t) == AtStart(b, t)
    ensures forall t :: AtStart(a[1..], t) == AtStart(b[1..], t)
  {
    forall t ensures AtStart(a[1..], t) == AtStart(b[1..], t) {
      var x, y := AtStart(a[1..], t), AtStart(b[1..], t);
      if a[0].startedAt == t {
        assert AtStart(a, t) == [a[0]] + x && AtStart(b, t) == [b[0]] + y;
        assert x == ([a[0]] + x)[1..] && y == ([b[0]] + y)[1..];
      } else {
        assert AtStart(a, t) == x && AtStart(b, t) == y;
      }
    }
  }

  /** A sorted list is determined by its ties: two lists sorted by start
      time that list the tasks of every start time in the same order are
      equal. */
  lemma {:induction false} SortedUnique(a: seq<Task>, b: seq<Task>)
    requires SortedByStart(a) && SortedByStart(b)
    requires forall t :: AtStart(a, t) == AtStart(b, t)
    ensures a == b
  {
    if a == [] {
      if b != [] {
        AtStartMember(b, b[0].startedAt, b[0]);
        assert false;
      }
    } else {
      SortedSameHead(a, b);
      SameTiesTail(a, b);
      SortedUnique(a[1..], b[1..]);
      assert a == [a[0]] + a[1..];
      assert b == [b[0]] + b[1..];
    }
  }

  /** Sorting a list that is already sorted leaves it as it is: the
      per-group `sorted(...)` of history.py:41 is the identity on a group
      taken from the sorted task list. */
  lemma SortSortedIsIdentity(s: seq<Task>)
    requires SortedByStart(s)
    ensures SortByStart(s) == s
  {
    forall t ensures AtStart(SortByStart(s), t) == AtStart(s, t) {
      SortIsStable(s, t);
    }
    SortedUnique(SortByStart(s), s);
  }

  /** The running tasks with their end time set to `now` (history.py:27). */
  function StoppedAt(running: seq<Task>, now: Timestamp): (r: seq<Task>)
  {
    seq(|running|, i requires 0 <= i < |running| => running[i].(endedAt := now))
  }

  /** The task list of history.py:31: failed, then finished, then running. */
  function Concatenated(failed: seq<Task>, finished: seq<Task>, running: seq<Task>, now: Timestamp): seq<Task>
  {
    failed + finished + StoppedAt(running, now)
  }

  /** The task list every later step walks: history.py:31-32. */
  function SnapshotTasks(failed: seq<Task>, finished: seq<Task>, running: seq<Task>, now: Timestamp): (r: seq<Task>)
    ensures multiset(r) == multiset(Concatenated(failed, finished, running, now))
    ensures |r| == |failed| + |finished| + |running|
  {
    SortByStart(Concatenated(failed, finished, running, now))
  }

  /** The sorted snapshot holds exactly the fetched tasks, and of the tasks
      that started at the same moment it lists the failed ones first, then
      the finished ones, then the running ones, each in the order fetched. */
  lemma SnapshotTieOrder(failed: seq<Task>, finished: seq<Task>, running: seq<Task>, now: Timestamp, t: Timestamp)
    ensures var s := SnapshotTasks(failed, finished, running, now);
      && SortedByStart(s)
      && multiset(s) == multiset(Concatenated(failed, finished, running, now))
      && AtStart(s, t) == AtStart(failed, t) + AtStart(finished, t)
           + AtStart(StoppedAt(running, now), t)
  {
    var r := StoppedAt(running, now);
    SortIsStable(Concatenated(failed, finished, running, now), t);
    AtStartConcat(failed + finished, r, t);
    AtStartConcat(failed, finished, t);
  }

  /** Determinism of the order: the snapshot is the only list sorted by
      start time that keeps the fetch order among equal start times. */
  lemma SnapshotIsUnique(failed: seq<Task>, finished: seq<Task>, running: seq<Task>, now: Timestamp, s: seq<Task>)
    requires SortedByStart(s)
    requires forall t :: AtStart(s, t) == AtStart(Concatenated(failed, finished, running, now), t)
    ensures s == SnapshotTasks(failed, finished, running, now)
  {
    var c := Concatenated(failed, finished, running, now);
    forall t ensures AtStart(s, t) == AtStart(SortByStart(c), t) {
      SortIsStable(c, t);
    }
    SortedUnique(s, SortByStart(c));
  }
}
