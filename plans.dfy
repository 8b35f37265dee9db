/**
 * The typed plan the reviewer, the refiner and the scaffold work on once a
 * raw plan has passed validation: a feature, its milestones with their
 * tasks, the artifact paths, and a status tag.
 */
module Plans {
  import Json

  datatype Priority = High | Medium | Low

  datatype Task = Task(step: int, description: string, output: string, priority: Priority)

  datatype Milestone = Milestone(id: int, title: string, tasks: seq<Task>)

  /** `feature` and `status` are only checked for presence, so they stay raw values. */
  datatype Plan = Plan(feature: Json.Value, milestones: seq<Milestone>, artifacts: seq<string>, status: Json.Value)

  /** No entry occurs twice. */
  predicate NoDuplicates<T(==)>(s: seq<T>) {
    forall i, j :: 0 <= i < j < |s| ==> s[i] != s[j]
  }

  /** Every task of every milestone, in milestone order and then task order. */
  function AllTasks(ms: seq<Milestone>): seq<Task> {
    if ms == [] then [] else ms[0].tasks + AllTasks(ms[1..])
  }

  lemma {:induction false} AllTasksAppend(a: seq<Milestone>, b: seq<Milestone>)
    ensures AllTasks(a + b) == AllTasks(a) + AllTasks(b)
  {
    if a == [] {
      assert a + b == b;
    } else {
      assert (a + b)[1..] == a[1..] + b;
      AllTasksAppend(a[1..], b);
    }
  }

  /** Adding one milestone at the end adds its tasks at the end. */
  lemma AllTasksSnoc(ms: seq<Milestone>, m: Milestone)
    ensures AllTasks(ms + [m]) == AllTasks(ms) + m.tasks
  {
    AllTasksAppend(ms, [m]);
    assert AllTasks([m]) == m.tasks + AllTasks([]);
  }

  /** A task is among all tasks exactly when some milestone holds it. */
  lemma {:induction false} AllTasksMember(ms: seq<Milestone>, t: Task)
    ensures t in AllTasks(ms) <==> exists i :: 0 <= i < |ms| && t in ms[i].tasks
  {
    if ms != [] {
      AllTasksMember(ms[1..], t);
      if t in AllTasks(ms[1..]) {
        var i :| 0 <= i < |ms[1..]| && t in ms[1..][i].tasks;
        assert t in ms[i + 1].tasks;
      }
      if exists i :: 0 <= i < |ms| && t in ms[i].tasks {
        var i :| 0 <= i < |ms| && t in ms[i].tasks;
        if i > 0 { assert t in ms[1..][i - 1].tasks; }
      }
    }
  }
}
