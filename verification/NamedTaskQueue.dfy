/**
 Named lanes of tasks: `TaskQueue` (packages/core/src/ancillary/task-queue.ts) around a p-queue, and
 `NamedTaskQueue` (packages/core/src/state-management/named-task-queue.ts), which creates queues on
 demand and drops the idle ones.
 */
module NamedTaskQueue {
  import opened TaskLanes

  class TaskQueue {
    var waiting: seq<Task>
    var pending: seq<Task>
    const concurrency: nat

    constructor (concurrency: nat)
      ensures this.concurrency == concurrency && waiting == [] && pending == []
    {
      this.concurrency, waiting, pending := concurrency, [], [];
    }

    /** Counts both deferred and currently running tasks. */
    method Size() returns (n: nat)
      ensures n == |waiting| + |pending|
    {
      n := |waiting| + |pending|;
    }

    method Run(task: Task)
      modifies this
      ensures waiting == old(waiting) + [task] && pending == old(pending)
    {
      waiting := waiting + [task];
    }

    /** The queue takes the next task when it has room. */
    method StartNext()
      requires waiting != [] && |pending| < concurrency
      modifies this
      ensures waiting == old(waiting)[1..] && pending == old(pending) + [old(waiting)[0]]
    {
      pending := pending + [waiting[0]];
      waiting := waiting[1..];
    }

    /** A running task settled. */
    method Settle(k: nat)
      requires k < |pending|
      modifies this
      ensures waiting == old(waiting) && pending == old(pending)[..k] + old(pending)[k + 1..]
    {
      pending := pending[..k] + pending[k + 1..];
    }
  }

  ghost function LanesOf(objects: seq<TaskQueue>, names: seq<string>): (r: seq<Lane>)
    requires |names| == |objects|
    reads objects
    ensures |r| == |objects|
    ensures forall i :: 0 <= i < |objects| ==> r[i] == Lane(names[i], objects[i].waiting, objects[i].pending)
  {
    seq(|objects|, i requires 0 <= i < |objects| reads objects =>
          Lane(names[i], objects[i].waiting, objects[i].pending))
  }

  class NamedTaskQueue {
    var lanes: map<string, TaskQueue>
    ghost var numbers: map<string, nat>
    ghost var objects: seq<TaskQueue>
    ghost var names: seq<string>

    /** Every queue object ever made is numbered; `lanes` maps names to some of them. */
    ghost predicate Valid()
      reads this, objects
    {
      && |names| == |objects|
      && (forall i, j :: 0 <= i < j < |objects| ==> objects[i] != objects[j])
      && (forall i :: 0 <= i < |objects| ==> objects[i].concurrency == 1 && |objects[i].pending| <= 1)
      && lanes.Keys == numbers.Keys
      && (forall name :: name in lanes ==>
            numbers[name] < |objects| && lanes[name] == objects[numbers[name]] && names[numbers[name]] == name)
    }

    ghost function Model(): (m: Lanes)
      reads this, objects
      requires Valid()
      ensures m.Valid()
    {
      Lanes(numbers, LanesOf(objects, names))
    }

    constructor ()
      ensures Valid() && Model() == Lanes(map[], [])
    {
      lanes, numbers, objects, names := map[], map[], [], [];
    }

    method Queue(name: string) returns (queue: TaskQueue)
      requires Valid()
      modifies this
      ensures Valid() && Model() == old(Model()).WithQueue(name)
      ensures name in lanes && queue == lanes[name]
      ensures old(objects) <= objects && forall k :: |old(objects)| <= k < |objects| ==> fresh(objects[k])
    {
      if name in lanes {
        return lanes[name];
      }
      queue := new TaskQueue(1);
      lanes := lanes[name := queue];
      numbers := numbers[name := |objects|];
      objects, names := objects + [queue], names + [name];
      assert LanesOf(objects, names) == old(LanesOf(objects, names)) + [Lane(name, [], [])];
    }

    method Remove(name: string)
      requires Valid()
      modifies this
      ensures Valid() && Model() == old(Model()).Remove(name)
      ensures objects == old(objects)
    {
      if name in lanes {
        var size := lanes[name].Size();
        if size == 0 {
          lanes, numbers := lanes - {name}, numbers - {name};
        }
      }
    }

    /** `run` and `add` up to the first suspension; their `finally` part is `Remove`. */
    method Run(name: string, task: Task)
      requires Valid()
      modifies this, objects
      ensures Valid() && Model() == old(Model()).Add(name, task)
      ensures old(objects) <= objects && forall k :: |old(objects)| <= k < |objects| ==> fresh(objects[k])
    {
      var queue := Queue(name);
      Push(numbers[name], queue, task);
    }

    /** `queue.run(task)` */
    method Push(ghost i: nat, queue: TaskQueue, task: Task)
      requires Valid() && i < |objects| && queue == objects[i]
      modifies queue
      ensures Valid()
      ensures var lane := old(Model()).objects[i];
        Model() == old(Model()).(objects := old(Model()).objects[i := lane.(waiting := lane.waiting + [task])])
    {
      queue.Run(task);
      ghost var lane := old(Model()).objects[i];
      assert LanesOf(objects, names) == old(LanesOf(objects, names))[i := lane.(waiting := lane.waiting + [task])];
    }

    /** A lane takes its next task. */
    method StartNext(ghost i: nat, queue: TaskQueue)
      requires Valid() && i < |objects| && queue == objects[i]
      requires Model().CanStart(i)
      modifies objects
      ensures Valid() && Model() == old(Model()).Start(i)
    {
      ghost var lane := Model().objects[i];
      assert lane.running == [] && queue.pending == [];
      queue.StartNext();
      assert queue.pending == [lane.waiting[0]];
      assert LanesOf(objects, names)
          == old(LanesOf(objects, names))[i := Lane(lane.name, lane.waiting[1..], [lane.waiting[0]])];
    }

    /** The lane of a name takes its next task. */
    method StartLane(name: string) returns (task: Task)
      requires Valid() && name in lanes && Model().CanStart(numbers[name])
      modifies objects
      ensures Valid() && Model() == old(Model()).Start(numbers[name])
      ensures task == old(Model()).objects[numbers[name]].waiting[0]
    {
      var queue := lanes[name];
      assert Model().objects[numbers[name]] == Lane(name, queue.waiting, queue.pending);
      task := queue.waiting[0];
      StartNext(numbers[name], queue);
    }

    /** The running task of a lane settles. */
    method Settle(ghost i: nat, queue: TaskQueue)
      requires Valid() && i < |objects| && queue == objects[i] && queue.pending != []
      modifies objects
      ensures Valid() && Model() == old(Model()).Finish(i)
    {
      queue.Settle(0);
      assert LanesOf(objects, names) == old(LanesOf(objects, names))[i := old(Model()).objects[i].(running := [])];
    }
  }
}
