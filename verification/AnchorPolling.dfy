/**
 Anchor polling on top of the lanes of a named task queue: requesters and handlers wait in the lane of
 their stream, and go on when the lane starts their task. Every step is one of the polling protocol, in
 which lanes are only known to exclude each other.
 */
module AnchorPolling {
  import opened Wrappers
  import A = AnchorLoop
  import L = TaskLanes

  datatype Polling = Polling(
    store: map<A.Stream, A.Tip>,
    lanes: L.Lanes,
    taskIds: set<A.Stream>,
    handlers: map<nat, A.Handler>,
    writers: map<nat, A.Writer>,
    saved: seq<A.Request>,
    handled: set<A.Request>)

  // The tasks of requesters and handlers.

  function WriterTask(w: nat): L.Task {
    2 * w
  }

  function HandlerTask(h: nat): L.Task {
    2 * h + 1
  }

  function HolderOf(task: L.Task): A.Holder {
    if task % 2 == 0 then A.ByWriter(task / 2) else A.ByHandler(task / 2)
  }

  datatype Step =
    | Request(writer: nat, stream: A.Stream, tip: A.Tip)
    | StartLane(stream: A.Stream)
    | Save(writer: nat)
    | Fetch(handler: nat, stream: A.Stream)
    | Load(handler: nat)
    | Handle(handler: nat, isTerminal: bool)
    | Reload(handler: nat)
    | CompareAndRemove(handler: nat)
    | Fail(handler: nat)
    | CleanUp(stream: A.Stream)

  /** The task that the lane of a stream is running. */
  predicate RunsTask(lanes: L.Lanes, stream: A.Stream, task: L.Task)
    requires lanes.Valid()
  {
    stream in lanes.current && lanes.objects[lanes.current[stream]].running == [task]
  }

  /** The owner of a task waits in the lane of this stream. */
  predicate Waits(p: Polling, stream: A.Stream, task: L.Task) {
    match HolderOf(task)
    case ByWriter(w) => w in p.writers && p.writers[w].stream == stream && !p.writers[w].inLane
    case ByHandler(h) => h in p.handlers && p.handlers[h].stream == stream && p.handlers[h].phase.Handled?
  }

  /** The owner of a task is in the lane of this stream. */
  predicate Works(p: Polling, stream: A.Stream, task: L.Task) {
    match HolderOf(task)
    case ByWriter(w) => w in p.writers && p.writers[w].stream == stream && p.writers[w].inLane
    case ByHandler(h) => h in p.handlers && p.handlers[h].stream == stream && A.HoldsLane(p.handlers[h].phase)
  }

  predicate Enabled(p: Polling, s: Step) {
    && p.lanes.Valid()
    && match s
       case Request(w, _, _) => w !in p.writers
       case StartLane(stream) =>
         && stream in p.lanes.current && p.lanes.CanStart(p.lanes.current[stream])
         && Waits(p, stream, p.lanes.objects[p.lanes.current[stream]].waiting[0])
       case Save(w) =>
         w in p.writers && p.writers[w].inLane && RunsTask(p.lanes, p.writers[w].stream, WriterTask(w))
       case Fetch(h, _) => h !in p.handlers
       case Load(h) => h in p.handlers && p.handlers[h].phase.Loading?
       case Handle(h, _) => h in p.handlers && p.handlers[h].phase.Loaded?
       case Reload(h) => h in p.handlers && p.handlers[h].phase.InLane?
       case CompareAndRemove(h) =>
         h in p.handlers && p.handlers[h].phase.Reloaded? && RunsTask(p.lanes, p.handlers[h].stream, HandlerTask(h))
       case Fail(h) =>
         && h in p.handlers && !p.handlers[h].phase.Handled?
         && (A.HoldsLane(p.handlers[h].phase) ==> RunsTask(p.lanes, p.handlers[h].stream, HandlerTask(h)))
       case CleanUp(_) => true
  }

  function To(p: Polling, h: nat, phase: A.Phase): Polling
    requires h in p.handlers
  {
    p.(handlers := p.handlers[h := p.handlers[h].(phase := phase)])
  }

  /** The task of a lane is over. */
  function Freed(p: Polling, stream: A.Stream): Polling
    requires p.lanes.Valid() && stream in p.lanes.current
  {
    p.(lanes := p.lanes.Finish(p.lanes.current[stream]))
  }

  /** The handler is over; when it is in the lane, the lane is free again. */
  function Done(p: Polling, h: nat): Polling
    requires p.lanes.Valid() && h in p.handlers
    requires A.HoldsLane(p.handlers[h].phase) ==> p.handlers[h].stream in p.lanes.current
  {
    var handler := p.handlers[h];
    var freed := if A.HoldsLane(handler.phase) then Freed(p, handler.stream) else p;
    freed.(handlers := p.handlers - {h}, taskIds := p.taskIds - {handler.stream})
  }

  /** The request is stored, and its lane free again. */
  function Saved(p: Polling, w: nat): Polling
    requires Enabled(p, Save(w))
  {
    var stream, tip := p.writers[w].stream, p.writers[w].tip;
    Freed(p, stream).(store := p.store[stream := tip], saved := p.saved + [A.Request(stream, tip)],
                      writers := p.writers - {w})
  }

  /** The entry is removed iff its tip is the one that was processed. */
  function Removed(p: Polling, h: nat): Polling
    requires Enabled(p, CompareAndRemove(h))
  {
    var stream, phase := p.handlers[h].stream, p.handlers[h].phase;
    if phase.found == Some(phase.tip) then Done(p, h).(store := p.store - {stream}) else Done(p, h)
  }

  /** The owner of a started task goes on. */
  function Entered(p: Polling, stream: A.Stream, task: L.Task): Polling
    requires Waits(p, stream, task)
  {
    match HolderOf(task)
    case ByWriter(w) => p.(writers := p.writers[w := p.writers[w].(inLane := true)])
    case ByHandler(h) => To(p, h, A.InLane(p.handlers[h].phase.tip))
  }

  /** The lane of the stream starts its next task. */
  function Started(p: Polling, stream: A.Stream): Polling
    requires Enabled(p, StartLane(stream))
  {
    var i := p.lanes.current[stream];
    Entered(p.(lanes := p.lanes.Start(i)), stream, p.lanes.objects[i].waiting[0])
  }

  function Next(p: Polling, s: Step): Polling
    requires Enabled(p, s)
  {
    match s
    case Request(w, stream, tip) =>
      p.(writers := p.writers[w := A.Writer(stream, tip, false)], lanes := p.lanes.Add(stream, WriterTask(w)))
    case StartLane(stream) => Started(p, stream)
    case Save(w) => Saved(p, w)
    case Fetch(h, stream) =>
      if stream in p.taskIds then p
      else p.(taskIds := p.taskIds + {stream}, handlers := p.handlers[h := A.Handler(stream, A.Loading)])
    case Load(h) =>
      var entry := A.Lookup(p.store, p.handlers[h].stream);
      if entry.None? then Done(p, h) else To(p, h, A.Loaded(entry.value))
    case Handle(h, isTerminal) =>
      var stream, tip := p.handlers[h].stream, p.handlers[h].phase.tip;
      if isTerminal then
        To(p, h, A.Handled(tip)).(handled := p.handled + {A.Request(stream, tip)},
                                  lanes := p.lanes.Add(stream, HandlerTask(h)))
      else Done(p, h)
    case Reload(h) => To(p, h, A.Reloaded(p.handlers[h].phase.tip, A.Lookup(p.store, p.handlers[h].stream)))
    case CompareAndRemove(h) => Removed(p, h)
    case Fail(h) => Done(p, h)
    case CleanUp(stream) => p.(lanes := p.lanes.Remove(stream))
  }

  // ---------------------------------------------------------------- the protocol behind it

  /** Who is in a lane. */
  function Held(lanes: L.Lanes): map<A.Stream, A.Holder>
    requires lanes.Valid()
  {
    map stream | stream in lanes.current && lanes.objects[lanes.current[stream]].running != []
      :: HolderOf(lanes.objects[lanes.current[stream]].running[0])
  }

  function Abstract(p: Polling): A.System
    requires p.lanes.Valid()
  {
    A.System(p.store, Held(p.lanes), p.taskIds, p.handlers, p.writers, p.saved, p.handled)
  }

  /** What a step is in the protocol; cleaning up is nothing there. */
  function EventOf(p: Polling, s: Step): Option<A.Event>
    requires Enabled(p, s)
  {
    match s
    case Request(w, stream, tip) => Some(A.NewRequest(w, stream, tip))
    case StartLane(stream) =>
      (match HolderOf(p.lanes.objects[p.lanes.current[stream]].waiting[0])
       case ByWriter(w) => Some(A.WriterEnters(w))
       case ByHandler(h) => Some(A.HandlerEnters(h)))
    case Save(w) => Some(A.Save(w))
    case Fetch(h, stream) => Some(A.Fetch(h, stream))
    case Load(h) => Some(A.Load(h))
    case Handle(h, isTerminal) => Some(A.Handle(h, isTerminal))
    case Reload(h) => Some(A.Reload(h))
    case CompareAndRemove(h) => Some(A.CompareAndRemove(h))
    case Fail(h) => Some(A.Fail(h))
    case CleanUp(_) => None
  }

  lemma AddKeepsHeld(lanes: L.Lanes, name: string, task: L.Task)
    requires lanes.Valid()
    ensures Held(lanes.Add(name, task)) == Held(lanes)
  {
  }

  lemma StartAddsHolder(lanes: L.Lanes, name: string)
    requires lanes.Valid() && name in lanes.current && lanes.CanStart(lanes.current[name])
    ensures lanes.Start(lanes.current[name]).Valid()
    ensures Held(lanes.Start(lanes.current[name]))
         == Held(lanes)[name := HolderOf(lanes.objects[lanes.current[name]].waiting[0])]
  {
  }

  lemma FinishRemovesHolder(lanes: L.Lanes, name: string)
    requires lanes.Valid() && name in lanes.current
    ensures lanes.Finish(lanes.current[name]).Valid()
    ensures Held(lanes.Finish(lanes.current[name])) == Held(lanes) - {name}
  {
  }

  lemma RemoveKeepsHeld(lanes: L.Lanes, name: string)
    requires lanes.Valid()
    ensures lanes.Remove(name).Valid() && Held(lanes.Remove(name)) == Held(lanes)
  {
  }

  /** The step is a step of the protocol, or none. */
  ghost predicate Refines(p: Polling, s: Step)
    requires Enabled(p, s)
  {
    && Next(p, s).lanes.Valid()
    && var e := EventOf(p, s);
       if e.None? then Abstract(Next(p, s)) == Abstract(p)
       else A.Enabled(Abstract(p), e.value) && Abstract(Next(p, s)) == A.Next(Abstract(p), e.value)
  }

  lemma StartRefines(p: Polling, stream: A.Stream)
    requires Enabled(p, StartLane(stream))
    ensures Refines(p, StartLane(stream))
  {
    StartAddsHolder(p.lanes, stream);
  }

  lemma SaveRefines(p: Polling, w: nat)
    requires Enabled(p, Save(w))
    ensures Refines(p, Save(w))
  {
    FinishRemovesHolder(p.lanes, p.writers[w].stream);
  }

  lemma HandleRefines(p: Polling, h: nat, isTerminal: bool)
    requires Enabled(p, Handle(h, isTerminal))
    ensures Refines(p, Handle(h, isTerminal))
  {
    if isTerminal {
      AddKeepsHeld(p.lanes, p.handlers[h].stream, HandlerTask(h));
    }
  }

  lemma DoneRefines(p: Polling, h: nat)
    requires p.lanes.Valid() && h in p.handlers
    requires A.HoldsLane(p.handlers[h].phase) ==> p.handlers[h].stream in p.lanes.current
    ensures Done(p, h).lanes.Valid() && Abstract(Done(p, h)) == A.Done(Abstract(p), h)
  {
    if A.HoldsLane(p.handlers[h].phase) {
      FinishRemovesHolder(p.lanes, p.handlers[h].stream);
    }
  }

  lemma LoadRefines(p: Polling, h: nat)
    requires Enabled(p, Load(h))
    ensures Refines(p, Load(h))
  {
    DoneRefines(p, h);
  }

  lemma RemoveRefines(p: Polling, h: nat)
    requires Enabled(p, CompareAndRemove(h))
    ensures Refines(p, CompareAndRemove(h))
  {
    DoneRefines(p, h);
  }

  lemma StepRefines(p: Polling, s: Step)
    requires Enabled(p, s)
    ensures Refines(p, s)
  {
    match s
    case Request(w, stream, _) => AddKeepsHeld(p.lanes, stream, WriterTask(w));
    case StartLane(stream) => StartRefines(p, stream);
    case Save(w) => SaveRefines(p, w);
    case Load(h) => LoadRefines(p, h);
    case Handle(h, isTerminal) => HandleRefines(p, h, isTerminal);
    case CompareAndRemove(h) => RemoveRefines(p, h);
    case Fail(h) => DoneRefines(p, h);
    case CleanUp(stream) => RemoveKeepsHeld(p.lanes, stream);
    case _ =>
  }

  // ---------------------------------------------------------------- lanes and owners belong together

  ghost predicate NoDuplicates(tasks: seq<L.Task>) {
    forall k, l :: 0 <= k < l < |tasks| ==> tasks[k] != tasks[l]
  }

  /** The owners of a lane's tasks know that they are in it, and no task waits twice. */
  ghost predicate LaneKnown(p: Polling, lane: L.Lane) {
    && (forall t :: t in lane.waiting ==> Waits(p, lane.name, t))
    && (forall t :: t in lane.running ==> Works(p, lane.name, t))
    && NoDuplicates(lane.waiting)
  }

  ghost predicate LanesKnown(p: Polling) {
    forall i :: 0 <= i < |p.lanes.objects| ==> LaneKnown(p, p.lanes.objects[i])
  }

  ghost predicate Coupled(p: Polling) {
    p.lanes.Valid() && L.OldLanesAreIdle(p.lanes) && LanesKnown(p)
  }

  /** No task but `task` changes its owner's place. */
  ghost predicate SameOwnersBut(p: Polling, q: Polling, task: L.Task) {
    && (forall w :: A.ByWriter(w) != HolderOf(task) ==>
          (w in p.writers <==> w in q.writers) && (w in p.writers ==> p.writers[w] == q.writers[w]))
    && (forall h :: A.ByHandler(h) != HolderOf(task) ==>
          (h in p.handlers <==> h in q.handlers) && (h in p.handlers ==> p.handlers[h] == q.handlers[h]))
  }

  lemma OtherLaneKept(p: Polling, q: Polling, task: L.Task, lane: L.Lane)
    requires SameOwnersBut(p, q, task) && LaneKnown(p, lane)
    requires task !in lane.waiting && task !in lane.running
    ensures LaneKnown(q, lane)
  {
    forall t | t != task ensures HolderOf(t) != HolderOf(task) {
    }
  }

  /** A task is in one lane only. */
  lemma OneLanePerTask(p: Polling, i: nat, j: nat, t: L.Task)
    requires Coupled(p) && i < |p.lanes.objects| && j < |p.lanes.objects|
    requires t in p.lanes.objects[i].waiting || t in p.lanes.objects[i].running
    requires t in p.lanes.objects[j].waiting || t in p.lanes.objects[j].running
    ensures i == j
  {
    assert LaneKnown(p, p.lanes.objects[i]) && LaneKnown(p, p.lanes.objects[j]);
    assert p.lanes.IsCurrent(i) && p.lanes.IsCurrent(j);
  }

  /** A new task that has no owner yet, or one that is in no lane. */
  lemma AddKeepsCoupled(p: Polling, q: Polling, stream: A.Stream, task: L.Task)
    requires Coupled(p) && SameOwnersBut(p, q, task) && q.lanes == p.lanes.Add(stream, task)
    requires !exists n :: Waits(p, n, task) || Works(p, n, task)
    requires Waits(q, stream, task)
    ensures Coupled(q)
  {
    L.SubmitKeepsIdle(p.lanes, stream, task);
    forall i | 0 <= i < |q.lanes.objects| ensures LaneKnown(q, q.lanes.objects[i]) {
      if i < |p.lanes.objects| {
        var lane := p.lanes.objects[i];
        assert LaneKnown(p, lane);
        assert task !in lane.waiting && task !in lane.running;
        OtherLaneKept(p, q, task, lane);
        assert q.lanes.objects[i] != lane ==>
            q.lanes.objects[i] == lane.(waiting := lane.waiting + [task]) && lane.name == stream;
      } else {
        assert q.lanes.objects[i] == L.Lane(stream, [task], []);
      }
    }
  }

  /** The owner of a task that is in no lane may change as it likes, if it stays out of them. */
  lemma OutsideKeepsCoupled(p: Polling, q: Polling, task: L.Task)
    requires Coupled(p) && SameOwnersBut(p, q, task) && q.lanes == p.lanes
    requires !exists n :: Waits(p, n, task) || Works(p, n, task)
    ensures Coupled(q)
  {
    forall i | 0 <= i < |q.lanes.objects| ensures LaneKnown(q, q.lanes.objects[i]) {
      assert LaneKnown(p, p.lanes.objects[i]);
      OtherLaneKept(p, q, task, p.lanes.objects[i]);
    }
  }

  lemma StartKeepsCoupled(p: Polling, stream: A.Stream)
    requires Coupled(p) && Enabled(p, StartLane(stream))
    ensures Coupled(Next(p, StartLane(stream)))
  {
    var q := Next(p, StartLane(stream));
    var i := p.lanes.current[stream];
    var lane := p.lanes.objects[i];
    var task := lane.waiting[0];
    assert SameOwnersBut(p, q, task);
    forall j | 0 <= j < |q.lanes.objects| ensures LaneKnown(q, q.lanes.objects[j]) {
      assert LaneKnown(p, p.lanes.objects[j]);
      if j == i {
        assert lane.waiting == [task] + lane.waiting[1..];
        OtherLaneKept(p, q, task, L.Lane(stream, lane.waiting[1..], []));
      } else {
        if task in p.lanes.objects[j].waiting || task in p.lanes.objects[j].running {
          OneLanePerTask(p, i, j, task);
        }
        OtherLaneKept(p, q, task, p.lanes.objects[j]);
      }
    }
    assert forall k :: 0 <= k < |p.lanes.objects| ==> (q.lanes.IsCurrent(k) <==> p.lanes.IsCurrent(k));
  }

  /** The owner of the running task leaves, and its lane is free. */
  lemma FinishKeepsCoupled(p: Polling, q: Polling, stream: A.Stream, task: L.Task)
    requires Coupled(p) && SameOwnersBut(p, q, task) && RunsTask(p.lanes, stream, task)
    requires q.lanes == p.lanes.Finish(p.lanes.current[stream])
    ensures Coupled(q)
  {
    var i := p.lanes.current[stream];
    var lane := p.lanes.objects[i];
    assert LaneKnown(p, lane) && task in lane.running;
    forall j | 0 <= j < |q.lanes.objects| ensures LaneKnown(q, q.lanes.objects[j]) {
      assert LaneKnown(p, p.lanes.objects[j]);
      if j == i {
        OtherLaneKept(p, q, task, lane.(running := []));
      } else {
        if task in p.lanes.objects[j].waiting || task in p.lanes.objects[j].running {
          OneLanePerTask(p, i, j, task);
        }
        OtherLaneKept(p, q, task, p.lanes.objects[j]);
      }
    }
    assert forall k :: 0 <= k < |p.lanes.objects| ==> (q.lanes.IsCurrent(k) <==> p.lanes.IsCurrent(k));
  }

  /** From one phase in the lane to another. */
  lemma ReloadKeepsCoupled(p: Polling, h: nat)
    requires Coupled(p) && Enabled(p, Reload(h))
    ensures Coupled(Next(p, Reload(h)))
  {
    var q := Next(p, Reload(h));
    forall j | 0 <= j < |q.lanes.objects| ensures LaneKnown(q, q.lanes.objects[j]) {
      var lane := p.lanes.objects[j];
      assert LaneKnown(p, lane);
      forall t | t in lane.waiting ensures Waits(q, lane.name, t) {
      }
    }
  }

  lemma DoneKeepsCoupled(p: Polling, h: nat)
    requires Coupled(p) && h in p.handlers && !p.handlers[h].phase.Handled?
    requires A.HoldsLane(p.handlers[h].phase) ==> RunsTask(p.lanes, p.handlers[h].stream, HandlerTask(h))
    ensures Coupled(Done(p, h))
  {
    var q := Done(p, h);
    assert SameOwnersBut(p, q, HandlerTask(h));
    if A.HoldsLane(p.handlers[h].phase) {
      FinishKeepsCoupled(p, q, p.handlers[h].stream, HandlerTask(h));
    } else {
      OutsideKeepsCoupled(p, q, HandlerTask(h));
    }
  }

  lemma LoadKeepsCoupled(p: Polling, h: nat)
    requires Coupled(p) && Enabled(p, Load(h))
    ensures Coupled(Next(p, Load(h)))
  {
    if A.Lookup(p.store, p.handlers[h].stream).None? {
      DoneKeepsCoupled(p, h);
    } else {
      OutsideKeepsCoupled(p, Next(p, Load(h)), HandlerTask(h));
    }
  }

  lemma HandleKeepsCoupled(p: Polling, h: nat, isTerminal: bool)
    requires Coupled(p) && Enabled(p, Handle(h, isTerminal))
    ensures Coupled(Next(p, Handle(h, isTerminal)))
  {
    if isTerminal {
      AddKeepsCoupled(p, Next(p, Handle(h, isTerminal)), p.handlers[h].stream, HandlerTask(h));
    } else {
      DoneKeepsCoupled(p, h);
    }
  }

  /** What lanes and owners know of each other does not depend on the store. */
  lemma StoreIsIrrelevant(p: Polling, store: map<A.Stream, A.Tip>)
    requires Coupled(p)
    ensures Coupled(p.(store := store))
  {
    forall i | 0 <= i < |p.lanes.objects| ensures LaneKnown(p.(store := store), p.lanes.objects[i]) {
      assert LaneKnown(p, p.lanes.objects[i]);
    }
  }

  lemma RemoveKeepsCoupled(p: Polling, h: nat)
    requires Coupled(p) && Enabled(p, CompareAndRemove(h))
    ensures Coupled(Next(p, CompareAndRemove(h)))
  {
    DoneKeepsCoupled(p, h);
    StoreIsIrrelevant(Done(p, h), p.store - {p.handlers[h].stream});
  }

  lemma CleanUpKeepsCoupled(p: Polling, stream: A.Stream)
    requires Coupled(p)
    ensures Coupled(p.(lanes := p.lanes.Remove(stream)))
  {
    var q := p.(lanes := p.lanes.Remove(stream));
    forall j | 0 <= j < |q.lanes.objects| ensures LaneKnown(q, q.lanes.objects[j]) {
      assert LaneKnown(p, p.lanes.objects[j]);
    }
  }

  lemma StepKeepsCoupled(p: Polling, s: Step)
    requires Coupled(p) && Enabled(p, s)
    ensures Coupled(Next(p, s))
  {
    match s
    case Request(w, stream, _) => AddKeepsCoupled(p, Next(p, s), stream, WriterTask(w));
    case StartLane(stream) => StartKeepsCoupled(p, stream);
    case Save(w) => FinishKeepsCoupled(p, Next(p, s), p.writers[w].stream, WriterTask(w));
    case Fetch(h, _) => OutsideKeepsCoupled(p, Next(p, s), HandlerTask(h));
    case Load(h) => LoadKeepsCoupled(p, h);
    case Handle(h, isTerminal) => HandleKeepsCoupled(p, h, isTerminal);
    case Reload(h) => ReloadKeepsCoupled(p, h);
    case CompareAndRemove(h) => RemoveKeepsCoupled(p, h);
    case Fail(h) => DoneKeepsCoupled(p, h);
    case CleanUp(stream) => CleanUpKeepsCoupled(p, stream);
  }

  // ---------------------------------------------------------------- runs

  const START := Polling(map[], L.Lanes(map[], []), {}, map[], map[], [], {})

  /** The state after these steps, when each of them was possible. */
  function After(steps: seq<Step>): Option<Polling> {
    if steps == [] then Some(START) else
    var before := After(steps[..|steps| - 1]);
    var last := steps[|steps| - 1];
    if before.Some? && Enabled(before.value, last) then Some(Next(before.value, last)) else None
  }

  /** What holds at the start and is kept by every step. */
  ghost predicate IsInvariant(holds: Polling -> bool) {
    && holds(START)
    && forall p, s :: holds(p) && Enabled(p, s) ==> holds(Next(p, s))
  }

  ghost predicate Reachable(p: Polling) {
    forall holds: Polling -> bool :: IsInvariant(holds) ==> holds(p)
  }

  lemma StartIsReachable()
    ensures Reachable(START)
  {
  }

  lemma StepStaysReachable(p: Polling, s: Step)
    requires Reachable(p) && Enabled(p, s)
    ensures Reachable(Next(p, s))
  {
    forall holds: Polling -> bool | IsInvariant(holds) ensures holds(Next(p, s)) {
      assert holds(p);
    }
  }

  ghost predicate AfterSomeSteps(p: Polling) {
    exists steps :: After(steps) == Some(p)
  }

  /** Reachable are exactly the states after some steps. */
  lemma ReachableBySteps(p: Polling)
    ensures Reachable(p) <==> AfterSomeSteps(p)
  {
    if Reachable(p) {
      var holds := (q: Polling) => AfterSomeSteps(q);
      assert After([]) == Some(START);
      forall q, s | holds(q) && Enabled(q, s) ensures holds(Next(q, s)) {
        var steps :| After(steps) == Some(q);
        assert (steps + [s])[..|steps|] == steps;
        assert After(steps + [s]) == Some(Next(q, s));
      }
      assert IsInvariant(holds);
      assert holds(p);
    } else if steps :| After(steps) == Some(p) {
      AfterIsReachable(steps);
    }
  }

  lemma {:induction false} AfterIsReachable(steps: seq<Step>)
    requires After(steps).Some?
    ensures Reachable(After(steps).value)
  {
    if steps != [] {
      AfterIsReachable(steps[..|steps| - 1]);
      StepStaysReachable(After(steps[..|steps| - 1]).value, steps[|steps| - 1]);
    } else {
      StartIsReachable();
    }
  }

  ghost predicate IsProtocol(p: Polling) {
    Coupled(p) && A.Inv(Abstract(p))
  }

  lemma StepKeepsProtocol(p: Polling, s: Step)
    requires IsProtocol(p) && Enabled(p, s)
    ensures IsProtocol(Next(p, s))
  {
    StepKeepsCoupled(p, s);
    StepRefines(p, s);
    if EventOf(p, s).Some? {
      A.StepKeepsInv(Abstract(p), EventOf(p, s).value);
    }
  }

  /** Main result: the polling protocol's invariant holds in every state that can be reached on the lanes. */
  lemma ReachableIsProtocol(p: Polling)
    requires Reachable(p)
    ensures Coupled(p) && A.Inv(Abstract(p))
  {
    var holds := (q: Polling) => IsProtocol(q);
    assert holds(START) by {
      assert Held(START.lanes) == map[];
      assert Abstract(START) == A.INITIAL;
    }
    forall q, s | holds(q) && Enabled(q, s) ensures holds(Next(q, s)) {
      StepKeepsProtocol(q, s);
    }
    assert IsInvariant(holds);
    assert holds(p);
  }

  /** A lane that can start a task can do so: the owner of the task is waiting for it. */
  lemma LaneNeverStalls(p: Polling, stream: A.Stream)
    requires Reachable(p) && p.lanes.Valid()
    requires stream in p.lanes.current && p.lanes.CanStart(p.lanes.current[stream])
    ensures Enabled(p, StartLane(stream))
  {
    ReachableIsProtocol(p);
    assert LaneKnown(p, p.lanes.objects[p.lanes.current[stream]]);
  }

  lemma HolderRuns(lanes: L.Lanes, stream: A.Stream, task: L.Task)
    requires lanes.Valid() && stream in Held(lanes) && Held(lanes)[stream] == HolderOf(task)
    ensures RunsTask(lanes, stream, task)
  {
  }

  lemma ReachableLanes(p: Polling)
    requires Reachable(p)
    ensures p.lanes.Valid() && A.LanesHeld(Abstract(p))
  {
    ReachableIsProtocol(p);
  }

  lemma HandlerIsHolder(p: Polling, h: nat)
    requires p.lanes.Valid() && A.LanesHeld(Abstract(p)) && h in p.handlers && A.HoldsLane(p.handlers[h].phase)
    ensures p.handlers[h].stream in Held(p.lanes) && Held(p.lanes)[p.handlers[h].stream] == A.ByHandler(h)
  {
    assert Abstract(p).lanes == Held(p.lanes) && Abstract(p).handlers == p.handlers;
  }

  lemma WriterIsHolder(p: Polling, w: nat)
    requires p.lanes.Valid() && A.LanesHeld(Abstract(p)) && w in p.writers && p.writers[w].inLane
    ensures p.writers[w].stream in Held(p.lanes) && Held(p.lanes)[p.writers[w].stream] == A.ByWriter(w)
  {
    assert Abstract(p).lanes == Held(p.lanes) && Abstract(p).writers == p.writers;
  }

  /** Whoever is past the start of its task has the lane to itself. */
  lemma HandlerHasItsLane(p: Polling, h: nat)
    requires Reachable(p) && h in p.handlers && A.HoldsLane(p.handlers[h].phase)
    ensures p.lanes.Valid() && RunsTask(p.lanes, p.handlers[h].stream, HandlerTask(h))
  {
    var stream := p.handlers[h].stream;
    assert p.lanes.Valid() && stream in Held(p.lanes) && Held(p.lanes)[stream] == A.ByHandler(h) by {
      ReachableLanes(p);
      HandlerIsHolder(p, h);
    }
    HolderRuns(p.lanes, stream, HandlerTask(h));
  }

  lemma WriterHasItsLane(p: Polling, w: nat)
    requires Reachable(p) && w in p.writers && p.writers[w].inLane
    ensures p.lanes.Valid() && RunsTask(p.lanes, p.writers[w].stream, WriterTask(w))
  {
    var stream := p.writers[w].stream;
    assert p.lanes.Valid() && stream in Held(p.lanes) && Held(p.lanes)[stream] == A.ByWriter(w) by {
      ReachableLanes(p);
      WriterIsHolder(p, w);
    }
    HolderRuns(p.lanes, stream, WriterTask(w));
  }

  /** What a handler past its event knows: the event was handled, and what it loaded again is still stored. */
  lemma HandlerKnows(p: Polling, h: nat)
    requires Reachable(p) && h in p.handlers
    ensures var handler := p.handlers[h];
      && (handler.phase.Handled? || A.HoldsLane(handler.phase) ==>
          A.Request(handler.stream, handler.phase.tip) in p.handled)
      && (handler.phase.Reloaded? ==> handler.phase.found == A.Lookup(p.store, handler.stream))
  {
    ReachableIsProtocol(p);
  }

  /** No request is lost: the latest of each stream is stored, or a terminal event for it was handled. */
  lemma LatestIsKept(p: Polling, stream: A.Stream)
    requires Reachable(p)
    ensures var latest := A.Latest(p.saved, stream);
      A.Lookup(p.store, stream) == latest
      || (latest.Some? && stream !in p.store && A.Request(stream, latest.value) in p.handled)
  {
    ReachableIsProtocol(p);
  }

  // ---------------------------------------------------------------- one handler among the others

  /** Is this a step of the handler itself? Its lane may be started by others. */
  predicate IsStepOf(s: Step, h: nat) {
    match s
    case Fetch(g, _) => g == h
    case Load(g) => g == h
    case Handle(g, _) => g == h
    case Reload(g) => g == h
    case CompareAndRemove(g) => g == h
    case Fail(g) => g == h
    case _ => false
  }

  /** The handler is where it was, except that it may have been let into its lane. */
  predicate Undisturbed(p: Polling, q: Polling, h: nat) {
    && h in p.handlers && h in q.handlers && p.handlers[h].stream == q.handlers[h].stream
    && (q.handlers[h].phase == p.handlers[h].phase
        || (p.handlers[h].phase.Handled? && q.handlers[h].phase == A.InLane(p.handlers[h].phase.tip)))
  }

  lemma OthersDoNotDisturb(p: Polling, s: Step, h: nat)
    requires Enabled(p, s) && !IsStepOf(s, h) && h in p.handlers
    ensures Undisturbed(p, Next(p, s), h)
  {
  }
}
