/** The task records that the history view works on.

    Timestamps are integers counting microseconds; durations are
    differences of timestamps. A task record here holds only the fields
    that the lane reconstruction and the bucketing read. */
module Tasks {

  datatype Option<+T> = None | Some(value: T)

  /** A moment in time, in microseconds. */
  type Timestamp = int

  /** One task as read from the task store. `endedAt` of a task that is
      still running is the snapshot's "now". */
  datatype Task = Task(
    funcName: string,
    startedAt: Timestamp,
    endedAt: Timestamp,
    status: string,
    key: string,
    description: string)

  /** Tasks listed in non-decreasing order of their start times. */
  predicate SortedByStart(s: seq<Task>)
  {
    forall i, j :: 0 <= i < j < |s| ==> s[i].startedAt <= s[j].startedAt
  }

  /** The tasks of `s` that started at `t`, in the order `s` lists them.
      Two sequences that agree on this for every `t` list tasks with equal
      start times in the same relative order. */
  function AtStart(s: seq<Task>, t: Timestamp): (r: seq<Task>)
    ensures |r| <= |s|
  {
    if s == [] then []
    else (if s[0].startedAt == t then [s[0]] else []) + AtStart(s[1..], t)
  }

  lemma {:induction false} AtStartMember(s: seq<Task>, t: Timestamp, x: Task)
    ensures x in AtStart(s, t) <==> x in s && x.startedAt == t
  {
    if s != [] {
      AtStartMember(s[1..], t, x);
      assert s == [s[0]] + s[1..];
    }
  }

  lemma {:induction false} AtStartConcat(a: seq<Task>, b: seq<Task>, t: Timestamp)
    ensures AtStart(a + b, t) == AtStart(a, t) + AtStart(b, t)
  {
    if a == [] {
      assert a + b == b;
    } else {
      var head := if a[0].startedAt == t then [a[0]] else [];
      assert (a + b)[0] == a[0];
      assert (a + b)[1..] == a[1..] + b;
      assert AtStart(a + b, t) == head + AtStart(a[1..] + b, t);
      AtStartConcat(a[1..], b, t);
      assert head + (AtStart(a[1..], t) + AtStart(b, t)) == (head + AtStart(a[1..], t)) + AtStart(b, t);
    }
  }
}
