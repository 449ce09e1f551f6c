/**
 The steps of a set of named task lanes guarded by a semaphore, as values: what the classes of
 `NamedTaskQueue` do, plus everything that may happen between their calls
 (packages/core/src/state-management/execution-queue.ts).
 */
module TaskLanes {
  type Task = nat

  /** A queue object; it keeps the name it was created for. Waiting tasks are in FIFO order. */
  datatype Lane = Lane(name: string, waiting: seq<Task>, running: seq<Task>) {
    predicate Idle() {
      waiting == [] && running == []
    }
  }

  /** All the queue objects created so far, and which of them a name stands for now. */
  datatype Lanes = Lanes(current: map<string, nat>, objects: seq<Lane>) {
    predicate Valid() {
      && (forall name :: name in current ==> current[name] < |objects| && objects[current[name]].name == name)
      && (forall i :: 0 <= i < |objects| ==> |objects[i].running| <= 1)
    }

    /** Does a task of this queue object run? */
    predicate Busy(i: nat) {
      i < |objects| && objects[i].running != []
    }

    predicate IsCurrent(i: nat)
      requires i < |objects|
    {
      objects[i].name in current && current[objects[i].name] == i
    }

    /** Return the existing queue, or create a new one. */
    function WithQueue(name: string): Lanes {
      if name in current then this
      else Lanes(current[name := |objects|], objects + [Lane(name, [], [])])
    }

    function Add(name: string, task: Task): (r: Lanes)
      requires Valid()
      ensures r.Valid()
    {
      var with := WithQueue(name);
      var i := with.current[name];
      with.(objects := with.objects[i := with.objects[i].(waiting := with.objects[i].waiting + [task])])
    }

    /** Forget the queue of a name if nothing waits or runs in it. */
    function Remove(name: string): Lanes
      requires Valid()
    {
      if name in current && objects[current[name]].Idle() then this.(current := current - {name}) else this
    }

    predicate CanStart(i: nat) {
      i < |objects| && objects[i].waiting != [] && objects[i].running == []
    }

    function Start(i: nat): Lanes
      requires CanStart(i)
    {
      var lane := objects[i];
      this.(objects := objects[i := Lane(lane.name, lane.waiting[1..], [lane.waiting[0]])])
    }

    function Finish(i: nat): Lanes
      requires i < |objects|
    {
      this.(objects := objects[i := objects[i].(running := [])])
    }
  }

  /**
   The whole system: lanes, the semaphore (free permits, lanes queueing for one, lanes holding one, lanes
   that gave theirs back), the `finally` callbacks that have not run yet, and the history of each name.
   */
  datatype System = System(
    lanes: Lanes,
    permits: nat,
    queueing: seq<nat>,
    holding: set<nat>,
    released: set<nat>,
    cleanups: multiset<string>,
    submitted: map<string, seq<Task>>,
    begun: map<string, seq<Task>>)

  datatype Event =
    | Submit(name: string, task: Task)  // `run` or `add` of a stream's lane
    | Start(lane: nat)                  // the lane takes its next task, which asks for a permit
    | Grant                             // the semaphore lets the first in its queue go on
    | Release(lane: nat)                // the task is over and gives its permit back
    | Finish(lane: nat)                 // its lane learns that it is over
    | Cleanup(name: string)             // the `finally` callback of a finished task

  function History(h: map<string, seq<Task>>, name: string): seq<Task> {
    if name in h then h[name] else []
  }

  function Record(h: map<string, seq<Task>>, name: string, task: Task): map<string, seq<Task>> {
    h[name := History(h, name) + [task]]
  }

  function Initial(concurrencyLimit: nat): System {
    System(Lanes(map[], []), concurrencyLimit, [], {}, {}, multiset{}, map[], map[])
  }

  predicate Enabled(s: System, e: Event) {
    match e
    case Submit(_, _) => true
    case Start(i) => s.lanes.CanStart(i)
    case Grant => s.permits > 0 && s.queueing != []
    case Release(i) => i in s.holding
    case Finish(i) => i in s.released
    case Cleanup(name) => name in s.cleanups
  }

  // What each event does to the system.

  function Submitted(s: System, name: string, task: Task): System
    requires s.lanes.Valid()
  {
    s.(lanes := s.lanes.Add(name, task), submitted := Record(s.submitted, name, task))
  }

  function Started(s: System, i: nat): System
    requires s.lanes.CanStart(i)
  {
    s.(lanes := s.lanes.Start(i), queueing := s.queueing + [i])
  }

  function Granted(s: System): System
    requires s.permits > 0 && s.queueing != [] && s.lanes.Busy(s.queueing[0])
  {
    var lane := s.lanes.objects[s.queueing[0]];
    s.(permits := s.permits - 1, queueing := s.queueing[1..], holding := s.holding + {s.queueing[0]},
       begun := Record(s.begun, lane.name, lane.running[0]))
  }

  function Released(s: System, i: nat): System {
    s.(permits := s.permits + 1, holding := s.holding - {i}, released := s.released + {i})
  }

  function Finished(s: System, i: nat): System
    requires s.lanes.Busy(i)
  {
    s.(lanes := s.lanes.Finish(i), released := s.released - {i},
       cleanups := s.cleanups + multiset{s.lanes.objects[i].name})
  }

  function CleanedUp(s: System, name: string): System
    requires s.lanes.Valid()
  {
    s.(lanes := s.lanes.Remove(name), cleanups := s.cleanups - multiset{name})
  }

  function Next(s: System, e: Event): System
    requires Inv(s) && Enabled(s, e)
  {
    match e
    case Submit(name, task) => Submitted(s, name, task)
    case Start(i) => Started(s, i)
    case Grant =>
      assert s.queueing[0] in s.queueing;
      Granted(s)
    case Release(i) => Released(s, i)
    case Finish(i) =>
      assert i in Begun(s);
      Finished(s, i)
    case Cleanup(name) => CleanedUp(s, name)
  }

  // ---------------------------------------------------------------- what every step keeps

  /** A queue object that no name stands for any more has nothing in it, now and forever. */
  ghost predicate OldLanesAreIdle(lanes: Lanes) {
    forall i :: 0 <= i < |lanes.objects| && !lanes.IsCurrent(i) ==> lanes.objects[i].Idle()
  }

  /** The lanes whose running task has begun. */
  function Begun(s: System): set<nat> {
    s.holding + s.released
  }

  /** Exactly the lanes with a running task queue for a permit, hold one, or gave theirs back. */
  ghost predicate PermitsMatch(s: System) {
    && s.holding !! s.released
    && (forall k :: 0 <= k < |s.queueing| ==> s.queueing[k] !in Begun(s))
    && (forall k, l :: 0 <= k < l < |s.queueing| ==> s.queueing[k] != s.queueing[l])
    && (forall i: nat :: i in Begun(s) || i in s.queueing <==> s.lanes.Busy(i))
  }

  /** The tasks of a name whose body has not begun, in order. */
  function NotBegun(lanes: Lanes, begun: set<nat>, name: string): seq<Task>
    requires lanes.Valid()
  {
    if name !in lanes.current then [] else
    var i := lanes.current[name];
    (if i in begun then [] else lanes.objects[i].running) + lanes.objects[i].waiting
  }

  ghost predicate InOrder(s: System)
    requires s.lanes.Valid()
  {
    forall name :: name in s.submitted || name in s.begun || name in s.lanes.current ==>
      History(s.submitted, name) == History(s.begun, name) + NotBegun(s.lanes, Begun(s), name)
  }

  /** A lane stays in the map only while it has work, or a callback that will remove it. */
  ghost predicate NoForgottenLane(s: System)
    requires s.lanes.Valid()
  {
    forall name :: name in s.lanes.current ==>
      !s.lanes.objects[s.lanes.current[name]].Idle() || name in s.cleanups
  }

  ghost predicate Inv(s: System) {
    && s.lanes.Valid()
    && OldLanesAreIdle(s.lanes)
    && PermitsMatch(s)
    && InOrder(s)
    && NoForgottenLane(s)
  }

  lemma InitialInv(concurrencyLimit: nat)
    ensures Inv(Initial(concurrencyLimit))
  {
  }

  lemma OrderOf(s: System, name: string)
    requires s.lanes.Valid() && InOrder(s)
    ensures History(s.submitted, name) == History(s.begun, name) + NotBegun(s.lanes, Begun(s), name)
  {
  }

  // How each change of the lanes changes the tasks of a name that have not begun.

  lemma AppendToBoth(all: seq<Task>, begun: seq<Task>, rest: seq<Task>, added: seq<Task>)
    requires all == begun + rest
    ensures all + added == begun + (rest + added)
  {
  }

  lemma AddKeepsOtherNames(lanes: Lanes, begun: set<nat>, name: string, task: Task, n: string)
    requires lanes.Valid() && n != name
    ensures NotBegun(lanes.Add(name, task), begun, n) == NotBegun(lanes, begun, n)
  {
    var t := lanes.Add(name, task);
    if n in lanes.current {
      var i := lanes.current[n];
      assert t.current[n] == i && t.objects[i] == lanes.objects[i];
    }
  }

  lemma AddNotBegun(lanes: Lanes, begun: set<nat>, name: string, task: Task, n: string)
    requires lanes.Valid() && |lanes.objects| !in begun
    ensures NotBegun(lanes.Add(name, task), begun, n)
         == NotBegun(lanes, begun, n) + (if n == name then [task] else [])
  {
    var t := lanes.Add(name, task);
    if n != name {
      AddKeepsOtherNames(lanes, begun, name, task, n);
    } else if name in lanes.current {
      var i := lanes.current[name];
      var lane := lanes.objects[i];
      assert t.current[name] == i && t.objects[i] == lane.(waiting := lane.waiting + [task]);
      var front := if i in begun then [] else lane.running;
      AppendToBoth(front + lane.waiting, front, lane.waiting, [task]);
    } else {
      assert t.current[name] == |lanes.objects| && t.objects[|lanes.objects|] == Lane(name, [task], []);
    }
  }

  lemma StartNotBegun(lanes: Lanes, begun: set<nat>, i: nat, n: string)
    requires lanes.Valid() && lanes.CanStart(i) && i !in begun
    ensures lanes.Start(i).Valid()
    ensures NotBegun(lanes.Start(i), begun, n) == NotBegun(lanes, begun, n)
  {
    var lane := lanes.objects[i];
    assert lane.waiting == [lane.waiting[0]] + lane.waiting[1..];
  }

  lemma GrantNotBegun(lanes: Lanes, begun: set<nat>, i: nat, n: string)
    requires lanes.Valid() && i < |lanes.objects| && lanes.objects[i].running != [] && i !in begun && lanes.IsCurrent(i)
    ensures NotBegun(lanes, begun, n)
         == (if n == lanes.objects[i].name then [lanes.objects[i].running[0]] else []) + NotBegun(lanes, begun + {i}, n)
  {
    var lane := lanes.objects[i];
    assert lane.running == [lane.running[0]];
  }

  lemma FinishNotBegun(lanes: Lanes, begun: set<nat>, i: nat, n: string)
    requires lanes.Valid() && i < |lanes.objects| && i in begun
    ensures lanes.Finish(i).Valid()
    ensures NotBegun(lanes.Finish(i), begun - {i}, n) == NotBegun(lanes, begun, n)
  {
  }

  lemma RemoveNotBegun(lanes: Lanes, begun: set<nat>, name: string, n: string)
    requires lanes.Valid()
    ensures lanes.Remove(name).Valid()
    ensures NotBegun(lanes.Remove(name), begun, n) == NotBegun(lanes, begun, n)
  {
  }

  /** The number of a new queue object is not in use yet. */
  lemma NewNumberIsFree(s: System)
    requires PermitsMatch(s)
    ensures |s.lanes.objects| !in Begun(s) && |s.lanes.objects| !in s.queueing
  {
  }

  lemma BusyLaneIsCurrent(lanes: Lanes, i: nat)
    requires OldLanesAreIdle(lanes) && i < |lanes.objects| && !lanes.objects[i].Idle()
    ensures lanes.IsCurrent(i)
  {
  }

  lemma RecordAppends(h: map<string, seq<Task>>, name: string, task: Task, n: string)
    ensures History(Record(h, name, task), n) == History(h, n) + (if n == name then [task] else [])
  {
  }

  lemma SubmitKeepsOrderOf(s: System, name: string, task: Task, n: string)
    requires s.lanes.Valid() && |s.lanes.objects| !in Begun(s)
    requires History(s.submitted, n) == History(s.begun, n) + NotBegun(s.lanes, Begun(s), n)
    ensures History(Record(s.submitted, name, task), n)
         == History(s.begun, n) + NotBegun(s.lanes.Add(name, task), Begun(s), n)
  {
    AddNotBegun(s.lanes, Begun(s), name, task, n);
    RecordAppends(s.submitted, name, task, n);
    var added := if n == name then [task] else [];
    AppendToBoth(History(s.submitted, n), History(s.begun, n), NotBegun(s.lanes, Begun(s), n), added);
  }

  lemma SubmitKeepsOrder(s: System, name: string, task: Task)
    requires Inv(s) && Enabled(s, Submit(name, task))
    ensures Next(s, Submit(name, task)).lanes.Valid() && InOrder(Next(s, Submit(name, task)))
  {
    var t := Next(s, Submit(name, task));
    NewNumberIsFree(s);
    assert t.begun == s.begun && Begun(t) == Begun(s) && t.submitted == Record(s.submitted, name, task);
    forall n
      ensures t.lanes.Valid()
      ensures History(t.submitted, n) == History(t.begun, n) + NotBegun(t.lanes, Begun(t), n) {
      OrderOf(s, n);
      SubmitKeepsOrderOf(s, name, task, n);
    }
  }

  lemma StartKeepsOrder(s: System, i: nat)
    requires Inv(s) && Enabled(s, Start(i))
    ensures Next(s, Start(i)).lanes.Valid() && InOrder(Next(s, Start(i)))
  {
    var t := Next(s, Start(i));
    assert i !in Begun(s) && Begun(t) == Begun(s);
    forall n
      ensures t.lanes.Valid()
      ensures History(t.submitted, n) == History(t.begun, n) + NotBegun(t.lanes, Begun(t), n) {
      OrderOf(s, n);
      StartNotBegun(s.lanes, Begun(s), i, n);
    }
  }

  lemma BeginKeepsOrderOf(submitted: seq<Task>, begun: map<string, seq<Task>>, name: string, task: Task,
                          rest: seq<Task>, n: string)
    requires submitted == History(begun, n) + ((if n == name then [task] else []) + rest)
    ensures submitted == History(Record(begun, name, task), n) + rest
  {
    RecordAppends(begun, name, task, n);
  }

  lemma GrantKeepsOrder(s: System)
    requires Inv(s) && Enabled(s, Grant)
    ensures Next(s, Grant).lanes.Valid() && InOrder(Next(s, Grant))
  {
    var t := Next(s, Grant);
    var i := s.queueing[0];
    var lane := s.lanes.objects[i];
    assert i in s.queueing && i !in Begun(s) && Begun(t) == Begun(s) + {i};
    BusyLaneIsCurrent(s.lanes, i);
    forall n
      ensures t.lanes.Valid()
      ensures History(t.submitted, n) == History(t.begun, n) + NotBegun(t.lanes, Begun(t), n) {
      OrderOf(s, n);
      GrantNotBegun(s.lanes, Begun(s), i, n);
      BeginKeepsOrderOf(History(s.submitted, n), s.begun, lane.name, lane.running[0],
                        NotBegun(t.lanes, Begun(t), n), n);
    }
  }

  lemma ReleaseKeepsInv(s: System, i: nat)
    requires Inv(s) && Enabled(s, Release(i))
    ensures Inv(Next(s, Release(i)))
  {
    assert Begun(Next(s, Release(i))) == Begun(s);
  }

  lemma FinishKeepsOrder(s: System, i: nat)
    requires Inv(s) && Enabled(s, Finish(i))
    ensures Next(s, Finish(i)).lanes.Valid() && InOrder(Next(s, Finish(i)))
  {
    var t := Next(s, Finish(i));
    assert Begun(t) == Begun(s) - {i};
    forall n
      ensures t.lanes.Valid()
      ensures History(t.submitted, n) == History(t.begun, n) + NotBegun(t.lanes, Begun(t), n) {
      OrderOf(s, n);
      FinishNotBegun(s.lanes, Begun(s), i, n);
    }
  }

  lemma CleanupKeepsOrder(s: System, name: string)
    requires Inv(s) && Enabled(s, Cleanup(name))
    ensures Next(s, Cleanup(name)).lanes.Valid() && InOrder(Next(s, Cleanup(name)))
  {
    var t := Next(s, Cleanup(name));
    forall n
      ensures t.lanes.Valid()
      ensures History(t.submitted, n) == History(t.begun, n) + NotBegun(t.lanes, Begun(t), n) {
      OrderOf(s, n);
      RemoveNotBegun(s.lanes, Begun(s), name, n);
    }
  }

  lemma AddKeepsOthers(lanes: Lanes, name: string, task: Task, k: nat)
    requires lanes.Valid() && k < |lanes.Add(name, task).objects|
    ensures var t := lanes.Add(name, task);
      && |t.objects| >= |lanes.objects|
      && (k < |lanes.objects| ==>
            t.objects[k].running == lanes.objects[k].running && (t.IsCurrent(k) <==> lanes.IsCurrent(k)))
      && (k < |lanes.objects| && !lanes.IsCurrent(k) ==> t.objects[k] == lanes.objects[k])
      && (k >= |lanes.objects| ==> t.objects[k].running == [] && t.IsCurrent(k))
  {
  }

  lemma SubmitKeepsIdle(lanes: Lanes, name: string, task: Task)
    requires lanes.Valid() && OldLanesAreIdle(lanes)
    ensures OldLanesAreIdle(lanes.Add(name, task))
  {
    var t := lanes.Add(name, task);
    forall k: nat | k < |t.objects| && !t.IsCurrent(k) ensures t.objects[k].Idle() {
      AddKeepsOthers(lanes, name, task, k);
    }
  }

  lemma SubmitKeepsPermitsMatch(s: System, name: string, task: Task)
    requires s.lanes.Valid() && PermitsMatch(s)
    ensures PermitsMatch(s.(lanes := s.lanes.Add(name, task)))
  {
    var t := s.lanes.Add(name, task);
    forall k: nat ensures t.Busy(k) <==> s.lanes.Busy(k) {
      if k < |t.objects| {
        AddKeepsOthers(s.lanes, name, task, k);
      }
    }
  }

  lemma SubmitForgetsNoLane(s: System, name: string, task: Task)
    requires s.lanes.Valid() && NoForgottenLane(s)
    ensures NoForgottenLane(s.(lanes := s.lanes.Add(name, task)))
  {
  }

  lemma SubmitKeepsRest(s: System, name: string, task: Task)
    requires Inv(s)
    ensures var t := Next(s, Submit(name, task));
      OldLanesAreIdle(t.lanes) && PermitsMatch(t) && NoForgottenLane(t)
  {
    SubmitKeepsIdle(s.lanes, name, task);
    SubmitKeepsPermitsMatch(s, name, task);
    SubmitForgetsNoLane(s, name, task);
  }

  lemma StartKeepsPermitsMatch(s: System, i: nat)
    requires PermitsMatch(s) && s.lanes.CanStart(i)
    ensures PermitsMatch(s.(lanes := s.lanes.Start(i), queueing := s.queueing + [i]))
  {
    assert i !in Begun(s) && i !in s.queueing;
  }

  lemma StartKeepsRest(s: System, i: nat)
    requires Inv(s) && Enabled(s, Start(i))
    ensures var t := Next(s, Start(i));
      t.lanes.Valid() && OldLanesAreIdle(t.lanes) && PermitsMatch(t) && NoForgottenLane(t)
  {
    var t := Next(s, Start(i));
    StartKeepsPermitsMatch(s, i);
    assert forall k :: 0 <= k < |s.lanes.objects| ==> (t.lanes.IsCurrent(k) <==> s.lanes.IsCurrent(k));
  }

  lemma GrantKeepsPermitsMatch(s: System)
    requires PermitsMatch(s) && s.queueing != []
    ensures PermitsMatch(s.(queueing := s.queueing[1..], holding := s.holding + {s.queueing[0]}))
  {
    assert s.queueing == [s.queueing[0]] + s.queueing[1..];
  }

  lemma GrantKeepsRest(s: System)
    requires Inv(s) && Enabled(s, Grant)
    ensures var t := Next(s, Grant);
      OldLanesAreIdle(t.lanes) && PermitsMatch(t) && NoForgottenLane(t)
  {
    var t := Next(s, Grant);
    GrantKeepsPermitsMatch(s);
    assert t.lanes == s.lanes;
  }

  lemma FinishKeepsRest(s: System, i: nat)
    requires Inv(s) && Enabled(s, Finish(i))
    ensures var t := Next(s, Finish(i));
      t.lanes.Valid() && OldLanesAreIdle(t.lanes) && PermitsMatch(t) && NoForgottenLane(t)
  {
    var t := Next(s, Finish(i));
    assert i !in s.queueing;
    assert forall k :: 0 <= k < |s.lanes.objects| ==> (t.lanes.IsCurrent(k) <==> s.lanes.IsCurrent(k));
  }

  lemma CleanupKeepsRest(s: System, name: string)
    requires Inv(s) && Enabled(s, Cleanup(name))
    ensures var t := Next(s, Cleanup(name));
      t.lanes.Valid() && OldLanesAreIdle(t.lanes) && PermitsMatch(t) && NoForgottenLane(t)
  {
    var t := Next(s, Cleanup(name));
    assert t.lanes.objects == s.lanes.objects;
    assert forall k: nat :: t.lanes.Busy(k) <==> s.lanes.Busy(k);
  }

  /** Every step keeps the invariant. */
  lemma StepKeepsInv(s: System, e: Event)
    requires Inv(s) && Enabled(s, e)
    ensures Inv(Next(s, e))
  {
    match e
    case Submit(name, task) =>
      SubmitKeepsOrder(s, name, task);
      SubmitKeepsRest(s, name, task);
    case Start(i) =>
      StartKeepsOrder(s, i);
      StartKeepsRest(s, i);
    case Grant =>
      GrantKeepsOrder(s);
      GrantKeepsRest(s);
    case Release(i) => ReleaseKeepsInv(s, i);
    case Finish(i) =>
      FinishKeepsOrder(s, i);
      FinishKeepsRest(s, i);
    case Cleanup(name) =>
      CleanupKeepsOrder(s, name);
      CleanupKeepsRest(s, name);
  }

  /** Permits are neither lost nor made. */
  lemma StepKeepsPermits(s: System, e: Event)
    requires Inv(s) && Enabled(s, e)
    ensures |Next(s, e).holding| + Next(s, e).permits == |s.holding| + s.permits
  {
    if e.Grant? {
      assert s.queueing[0] !in s.holding;
    }
  }

  /** Only an idle lane is deleted, and only by the callback of a finished task of that name. */
  lemma OnlyIdleLanesAreDeleted(s: System, e: Event, name: string)
    requires Inv(s) && Enabled(s, e)
    requires name in s.lanes.current && name !in Next(s, e).lanes.current
    ensures e == Cleanup(name) && s.lanes.objects[s.lanes.current[name]].Idle()
  {
  }

  // ---------------------------------------------------------------- whole runs

  ghost predicate Runs(s: System, events: seq<Event>, t: System)
    requires Inv(s)
    decreases |events|
  {
    if events == [] then s == t else
    Enabled(s, events[0]) && (StepKeepsInv(s, events[0]); Runs(Next(s, events[0]), events[1..], t))
  }

  lemma {:induction false} RunKeepsInv(s: System, events: seq<Event>, t: System)
    requires Inv(s) && Runs(s, events, t)
    ensures Inv(t) && |t.holding| + t.permits == |s.holding| + s.permits
    decreases |events|
  {
    if events != [] {
      StepKeepsInv(s, events[0]);
      StepKeepsPermits(s, events[0]);
      RunKeepsInv(Next(s, events[0]), events[1..], t);
    }
  }

  /** Main result, for every interleaving of submissions, starts, grants, ends and callbacks. */
  lemma LanesAreSafe(concurrencyLimit: nat, events: seq<Event>, t: System)
    requires (InitialInv(concurrencyLimit); Runs(Initial(concurrencyLimit), events, t))
    // at most one task of a name runs, even if its lane was deleted and created again
    ensures forall i, j :: 0 <= i < j < |t.lanes.objects| && t.lanes.objects[i].name == t.lanes.objects[j].name ==>
              t.lanes.objects[i].running == [] || t.lanes.objects[j].running == []
    ensures forall i :: 0 <= i < |t.lanes.objects| ==> |t.lanes.objects[i].running| <= 1
    // the tasks of a name begin in the order of their submission
    ensures forall name :: History(t.begun, name) <= History(t.submitted, name)
    // the semaphore bounds the tasks whose body runs
    ensures |t.holding| <= concurrencyLimit
  {
    InitialInv(concurrencyLimit);
    RunKeepsInv(Initial(concurrencyLimit), events, t);
    forall name ensures History(t.begun, name) <= History(t.submitted, name) {
      OrderOf(t, name);
    }
  }

  lemma QuiescentIsEmpty(t: System)
    requires Inv(t) && |t.holding| + t.permits > 0
    requires forall e :: Enabled(t, e) ==> e.Submit?
    ensures t.lanes.current == map[] && t.holding == {}
  {
    assert t.holding == {} by {
      assert forall i :: i in t.holding ==> Enabled(t, Release(i));
    }
    assert t.released == {} by {
      assert forall i :: i in t.released ==> Enabled(t, Finish(i));
    }
    assert t.queueing == [] by {
      assert !Enabled(t, Grant);
    }
    assert t.cleanups == multiset{} by {
      assert forall name :: name in t.cleanups ==> Enabled(t, Cleanup(name));
    }
    assert forall name :: name in t.lanes.current ==> !Enabled(t, Start(t.lanes.current[name]));
    assert t.lanes.current.Keys == {};
  }

  /** When nothing is left to happen, no lane is left and every submitted task has begun. */
  lemma QuiescenceLeavesNothing(concurrencyLimit: nat, events: seq<Event>, t: System)
    requires concurrencyLimit > 0
    requires (InitialInv(concurrencyLimit); Runs(Initial(concurrencyLimit), events, t))
    requires forall e :: Enabled(t, e) ==> e.Submit?
    ensures t.lanes.current == map[] && t.permits == concurrencyLimit
    ensures forall name :: History(t.begun, name) == History(t.submitted, name)
  {
    InitialInv(concurrencyLimit);
    RunKeepsInv(Initial(concurrencyLimit), events, t);
    QuiescentIsEmpty(t);
    forall name ensures History(t.begun, name) == History(t.submitted, name) {
      OrderOf(t, name);
    }
  }
}
