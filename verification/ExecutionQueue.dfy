/**
 Tasks of one stream in series, with a bound on how many run at once
 (packages/core/src/state-management/execution-queue.ts): the lanes of a named queue, whose tasks take a
 permit of a semaphore first. Each method is what happens between two suspension points.
 */
module ExecutionQueue {
  import opened Wrappers
  import opened TaskLanes
  import opened NamedTaskQueue

  /** The semaphore of await-semaphore: whoever asks for a permit is served in turn. */
  class Semaphore {
    var count: nat
    var tasks: seq<TaskQueue>

    constructor (count: nat)
      ensures this.count == count && tasks == []
    {
      this.count, tasks := count, [];
    }

    method Acquire(queue: TaskQueue)
      modifies this
      ensures count == old(count) && tasks == old(tasks) + [queue]
    {
      tasks := tasks + [queue];
    }

    /** Lets the first go on, if there is one and a permit for it. */
    method Sched() returns (next: Option<TaskQueue>)
      modifies this
      ensures next.Some? <==> old(count) > 0 && old(tasks) != []
      ensures next.Some? ==> count == old(count) - 1 && old(tasks) == [next.value] + tasks
      ensures next.None? ==> count == old(count) && tasks == old(tasks)
    {
      if count == 0 || tasks == [] {
        return None;
      }
      next := Some(tasks[0]);
      count, tasks := count - 1, tasks[1..];
    }

    method Release()
      modifies this
      ensures count == old(count) + 1 && tasks == old(tasks)
    {
      count := count + 1;
    }
  }

  class ExecutionQueue {
    const tasks: NamedTaskQueue
    const concurrencyLimit: nat
    const semaphore: Semaphore
    // Which lanes wait for a permit, hold one, or gave it back; callbacks to come; histories.
    ghost var queueing: seq<nat>
    ghost var holding: set<nat>
    ghost var released: set<nat>
    ghost var cleanups: multiset<string>
    ghost var submitted: map<string, seq<Task>>
    ghost var begun: map<string, seq<Task>>

    /** Those who wait for the semaphore are the numbered lanes. */
    ghost predicate Valid()
      reads this, tasks, tasks.objects, semaphore
    {
      && tasks.Valid()
      && |queueing| == |semaphore.tasks|
      && forall k :: 0 <= k < |queueing| ==>
           queueing[k] < |tasks.objects| && semaphore.tasks[k] == tasks.objects[queueing[k]]
    }

    ghost function Model(): System
      requires tasks.Valid()
      reads this, tasks, tasks.objects, semaphore
    {
      System(tasks.Model(), semaphore.count, queueing, holding, released, cleanups, submitted, begun)
    }

    constructor (concurrencyLimit: nat)
      ensures Valid() && Model() == Initial(concurrencyLimit)
      ensures fresh(tasks) && fresh(semaphore) && this.concurrencyLimit == concurrencyLimit
    {
      this.concurrencyLimit := concurrencyLimit;
      queueing, holding, released, cleanups, submitted, begun := [], {}, {}, multiset{}, map[], map[];
      tasks := new NamedTaskQueue();
      semaphore := new Semaphore(concurrencyLimit);
    }

    /** `forStream(name).run(task)` or `.add(task)`, up to the first suspension. */
    method Run(name: string, task: Task)
      requires Valid()
      modifies this, tasks, tasks.objects
      ensures Valid() && Model() == Submitted(old(Model()), name, task)
    {
      ghost var s := Model();
      submitted := Record(submitted, name, task);
      tasks.Run(name, task);
      assert Model() == s.(lanes := tasks.Model(), submitted := submitted);
    }

    /** A lane takes its next task, which asks the semaphore for a permit. */
    method StartNext(ghost i: nat, queue: TaskQueue)
      requires Valid() && tasks.Model().CanStart(i) && queue == tasks.objects[i]
      modifies this, tasks.objects, semaphore
      ensures Valid() && Model() == Started(old(Model()), i)
    {
      tasks.StartNext(i, queue);
      AskForPermit(i, queue);
    }

    method AskForPermit(ghost i: nat, queue: TaskQueue)
      requires Valid() && i < |tasks.objects| && queue == tasks.objects[i]
      modifies this, semaphore
      ensures Valid() && Model() == old(Model()).(queueing := old(queueing) + [i])
    {
      semaphore.Acquire(queue);
      queueing := queueing + [i];
    }

    /** The task that begins, if any: the running task of the lane that has waited longest for a permit. */
    method GrantPermit() returns (task: Option<Task>)
      requires Valid() && forall k :: 0 <= k < |queueing| ==> Model().lanes.Busy(queueing[k])
      modifies this, semaphore
      ensures Valid() && (task.Some? <==> Enabled(old(Model()), Grant))
      ensures task.None? ==> Model() == old(Model())
      ensures task.Some? ==> Model() == Granted(old(Model()))
      ensures task.Some? ==> [task.value] == old(Model()).lanes.objects[old(queueing)[0]].running
    {
      var next := semaphore.Sched();
      if next.None? {
        return None;
      }
      ghost var lane := Model().lanes.objects[queueing[0]];
      assert lane.running == next.value.pending;
      task := Some(next.value.pending[0]);
      RecordBegin(queueing[0], lane);
    }

    ghost method RecordBegin(i: nat, lane: Lane)
      requires tasks.Valid() && queueing != [] && lane.running != []
      modifies this
      ensures tasks.Valid() && queueing == old(queueing)[1..]
      ensures Model() == old(Model()).(queueing := old(queueing)[1..], holding := old(holding) + {i},
                                       begun := Record(old(begun), lane.name, lane.running[0]))
    {
      holding, queueing := holding + {i}, queueing[1..];
      begun := Record(begun, lane.name, lane.running[0]);
    }

    /** The task of a lane is over, and its permit free. */
    method ReleasePermit(ghost i: nat)
      requires Valid() && i in holding
      modifies this, semaphore
      ensures Valid() && Model() == Released(old(Model()), i)
    {
      semaphore.Release();
      holding, released := holding - {i}, released + {i};
    }

    /** The lane learns that its task is over. */
    method FinishTask(ghost i: nat, queue: TaskQueue)
      requires Valid() && i in released
      requires i < |tasks.objects| && queue == tasks.objects[i] && queue.pending != []
      modifies this, tasks.objects
      ensures Valid() && Model() == Finished(old(Model()), i)
    {
      ghost var s := Model();
      released, cleanups := released - {i}, cleanups + multiset{s.lanes.objects[i].name};
      tasks.Settle(i, queue);
      assert Model() == s.(lanes := tasks.Model(), released := released, cleanups := cleanups);
    }

    /** The `finally` callback of a task. */
    method CleanUp(name: string)
      requires Valid() && name in cleanups
      modifies this, tasks
      ensures Valid() && Model() == CleanedUp(old(Model()), name)
    {
      tasks.Remove(name);
      cleanups := cleanups - multiset{name};
    }
  }
}
