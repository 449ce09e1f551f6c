/**
 The polling loop as an object over the lanes of the store queue
 (packages/core/src/anchor/anchor-processing-loop.ts, packages/core/src/anchor/processing-loop.ts), and the
 requests that come in meanwhile (packages/core/src/anchor/ethereum/ethereum-anchor-service.ts). The
 handler of an entry is one method: wherever it awaits something, any steps of others may come between.
 */
module AnchorProcessingLoop {
  import opened Wrappers
  import opened NamedTaskQueue
  import A = AnchorLoop
  import L = TaskLanes
  import P = AnchorPolling
  import H = AnchorHandling

  class AnchorProcessingLoop {
    const storeQueue: NamedTaskQueue
    var store: map<A.Stream, A.Tip>
    var taskIds: set<A.Stream>
    var handlers: map<nat, A.Handler>
    var writers: map<nat, A.Writer>
    ghost var saved: seq<A.Request>
    ghost var handled: set<A.Request>

    ghost function State(): P.Polling
      requires storeQueue.Valid()
      reads this, storeQueue, storeQueue.objects
    {
      P.Polling(store, storeQueue.Model(), taskIds, handlers, writers, saved, handled)
    }

    ghost predicate Valid()
      reads this, storeQueue, storeQueue.objects
    {
      storeQueue.Valid() && P.Reachable(State())
    }

    constructor ()
      ensures Valid() && fresh(storeQueue) && State() == P.START
    {
      store, taskIds, handlers, writers, saved, handled := map[], {}, map[], map[], [], {};
      storeQueue := new NamedTaskQueue();
      new;
      P.StartIsReachable();
    }

    // ---------------------------------------------------------------- the steps

    /** `requestAnchor`: the request waits in the lane of its stream. */
    method RequestAnchor(w: nat, stream: A.Stream, tip: A.Tip)
      requires Valid() && w !in writers
      modifies this, storeQueue, storeQueue.objects
      ensures Valid() && State() == P.Next(old(State()), P.Request(w, stream, tip))
      ensures old(storeQueue.objects) <= storeQueue.objects
      ensures forall k :: |old(storeQueue.objects)| <= k < |storeQueue.objects| ==> fresh(storeQueue.objects[k])
    {
      P.StepStaysReachable(State(), P.Request(w, stream, tip));
      writers := writers[w := A.Writer(stream, tip, false)];
      AddToLane(stream, P.WriterTask(w));
    }

    /** Can the lane of a stream start a task? Then its owner is waiting. */
    method CanStartLane(stream: A.Stream) returns (can: bool)
      requires Valid()
      ensures can <==> P.Enabled(State(), P.StartLane(stream))
    {
      if stream !in storeQueue.lanes {
        return false;
      }
      var queue := storeQueue.lanes[stream];
      ghost var i := storeQueue.numbers[stream];
      assert State().lanes.objects[i] == L.Lane(stream, queue.waiting, queue.pending);
      can := queue.waiting != [] && queue.pending == [];
      if can {
        P.LaneNeverStalls(State(), stream);
      }
    }

    /** The lane of a stream starts its next task. */
    method StartLane(stream: A.Stream)
      requires Valid() && P.Enabled(State(), P.StartLane(stream))
      modifies this, storeQueue.objects
      ensures Valid() && State() == P.Next(old(State()), P.StartLane(stream))
    {
      ghost var p := State();
      P.StepStaysReachable(p, P.StartLane(stream));
      var task := storeQueue.StartLane(stream);
      assert State() == p.(lanes := storeQueue.Model());
      EnterLane(stream, task);
    }

    /** The owner of a started task goes on. */
    method EnterLane(ghost stream: A.Stream, task: L.Task)
      requires storeQueue.Valid() && P.Waits(State(), stream, task)
      modifies this
      ensures storeQueue.Valid() && State() == P.Entered(old(State()), stream, task)
    {
      match P.HolderOf(task)
      case ByWriter(w) => writers := writers[w := writers[w].(inLane := true)];
      case ByHandler(h) => handlers := handlers[h := handlers[h].(phase := A.InLane(handlers[h].phase.tip))];
    }

    /** The running task of a lane is over. */
    method FreeLane(stream: A.Stream, ghost task: L.Task)
      requires storeQueue.Valid() && P.RunsTask(State().lanes, stream, task)
      modifies storeQueue.objects
      ensures storeQueue.Valid() && State() == P.Freed(old(State()), stream)
    {
      var queue := storeQueue.lanes[stream];
      assert State().lanes.objects[storeQueue.numbers[stream]].running == queue.pending;
      storeQueue.Settle(storeQueue.numbers[stream], queue);
    }

    /** `store.save` */
    method Store(w: nat)
      requires storeQueue.Valid() && w in writers
      modifies this
      ensures storeQueue.Valid()
      ensures var p, writer := old(State()), old(writers)[w];
        State() == p.(store := p.store[writer.stream := writer.tip], writers := p.writers - {w},
                      saved := p.saved + [A.Request(writer.stream, writer.tip)])
    {
      var stream, tip := writers[w].stream, writers[w].tip;
      store, saved, writers := store[stream := tip], saved + [A.Request(stream, tip)], writers - {w};
    }

    /** The request is stored in its lane. */
    method SaveRequest(w: nat)
      requires Valid() && P.Enabled(State(), P.Save(w))
      modifies this, storeQueue.objects
      ensures Valid() && State() == P.Next(old(State()), P.Save(w))
    {
      P.StepStaysReachable(State(), P.Save(w));
      FreeLane(writers[w].stream, P.WriterTask(w));
      Store(w);
    }

    /** The loop takes a stream, unless it is being processed already. */
    method FetchNext(h: nat, stream: A.Stream) returns (taken: bool)
      requires Valid() && h !in handlers
      modifies this
      ensures Valid() && State() == P.Next(old(State()), P.Fetch(h, stream))
      ensures taken <==> stream !in old(taskIds)
    {
      ghost var p := State();
      P.StepStaysReachable(p, P.Fetch(h, stream));
      taken := stream !in taskIds;
      if taken {
        taskIds, handlers := taskIds + {stream}, handlers[h := A.Handler(stream, A.Loading)];
        assert State() == p.(taskIds := taskIds, handlers := handlers);
      }
    }

    method Forget(h: nat, stream: A.Stream)
      requires storeQueue.Valid()
      modifies this
      ensures storeQueue.Valid()
      ensures State() == old(State()).(handlers := old(handlers) - {h}, taskIds := old(taskIds) - {stream})
    {
      handlers, taskIds := handlers - {h}, taskIds - {stream};
    }

    /** The handler is over, with whatever it was in. */
    method End(h: nat)
      requires storeQueue.Valid() && h in handlers
      requires A.HoldsLane(handlers[h].phase) ==>
                 P.RunsTask(State().lanes, handlers[h].stream, P.HandlerTask(h))
      modifies this, storeQueue.objects
      ensures storeQueue.Valid() && State() == P.Done(old(State()), h)
    {
      var stream, phase := handlers[h].stream, handlers[h].phase;
      if A.HoldsLane(phase) {
        FreeLane(stream, P.HandlerTask(h));
      }
      Forget(h, stream);
    }

    method To(h: nat, phase: A.Phase)
      requires storeQueue.Valid() && h in handlers
      modifies this
      ensures storeQueue.Valid() && State() == P.To(old(State()), h, phase)
    {
      handlers := handlers[h := handlers[h].(phase := phase)];
    }

    /** `store.load` */
    method LoadEntry(h: nat)
      requires Valid() && P.Enabled(State(), P.Load(h))
      modifies this, storeQueue.objects
      ensures Valid() && State() == P.Next(old(State()), P.Load(h))
    {
      P.StepStaysReachable(State(), P.Load(h));
      var stream := handlers[h].stream;
      if stream in store {
        To(h, A.Loaded(store[stream]));
      } else {
        End(h);
      }
    }

    /** The lane of a stream gets a task. */
    method AddToLane(stream: A.Stream, task: L.Task)
      requires storeQueue.Valid()
      modifies storeQueue, storeQueue.objects
      ensures storeQueue.Valid()
      ensures State() == old(State()).(lanes := old(State()).lanes.Add(stream, task))
      ensures old(storeQueue.objects) <= storeQueue.objects
      ensures forall k :: |old(storeQueue.objects)| <= k < |storeQueue.objects| ==> fresh(storeQueue.objects[k])
    {
      storeQueue.Run(stream, task);
    }

    /** `eventHandler.handle`; after a terminal event the handler waits in the lane of its stream. */
    method HandleEvent(h: nat, isTerminal: bool)
      requires Valid() && P.Enabled(State(), P.Handle(h, isTerminal))
      modifies this, storeQueue, storeQueue.objects
      ensures Valid() && State() == P.Next(old(State()), P.Handle(h, isTerminal))
      ensures old(storeQueue.objects) <= storeQueue.objects
      ensures forall k :: |old(storeQueue.objects)| <= k < |storeQueue.objects| ==> fresh(storeQueue.objects[k])
    {
      P.StepStaysReachable(State(), P.Handle(h, isTerminal));
      if isTerminal {
        var stream, tip := handlers[h].stream, handlers[h].phase.tip;
        To(h, A.Handled(tip));
        handled := handled + {A.Request(stream, tip)};
        AddToLane(stream, P.HandlerTask(h));
      } else {
        End(h);
      }
    }

    /** `store.load` in the lane */
    method LoadAgain(h: nat)
      requires Valid() && P.Enabled(State(), P.Reload(h))
      modifies this
      ensures Valid() && State() == P.Next(old(State()), P.Reload(h))
    {
      P.StepStaysReachable(State(), P.Reload(h));
      var stream, phase := handlers[h].stream, handlers[h].phase;
      To(h, A.Reloaded(phase.tip, A.Lookup(store, stream)));
    }

    /** `store.remove` */
    method Erase(stream: A.Stream)
      requires storeQueue.Valid()
      modifies this
      ensures storeQueue.Valid() && State() == old(State()).(store := old(store) - {stream})
    {
      store := store - {stream};
    }

    /** Removes the entry iff its tip is the one that was processed. */
    method RemoveIfSame(h: nat) returns (removed: bool)
      requires Valid() && P.Enabled(State(), P.CompareAndRemove(h))
      modifies this, storeQueue.objects
      ensures Valid() && State() == P.Next(old(State()), P.CompareAndRemove(h))
      ensures removed <==> old(handlers[h].phase.found == Some(handlers[h].phase.tip))
    {
      P.StepStaysReachable(State(), P.CompareAndRemove(h));
      var stream, phase := handlers[h].stream, handlers[h].phase;
      removed := phase.found == Some(phase.tip);
      End(h);
      if removed {
        Erase(stream);
      }
    }

    /** An error is thrown on the way, and swallowed. */
    method Fail(h: nat)
      requires Valid() && P.Enabled(State(), P.Fail(h))
      modifies this, storeQueue.objects
      ensures Valid() && State() == P.Next(old(State()), P.Fail(h))
    {
      P.StepStaysReachable(State(), P.Fail(h));
      End(h);
    }

    /** The `finally` part of `NamedTaskQueue.run`. */
    method CleanUp(stream: A.Stream)
      requires Valid()
      modifies storeQueue
      ensures Valid() && State() == P.Next(old(State()), P.CleanUp(stream))
      ensures storeQueue.objects == old(storeQueue.objects)
    {
      ghost var p := State();
      P.StepStaysReachable(p, P.CleanUp(stream));
      storeQueue.Remove(stream);
      assert State() == p.(lanes := storeQueue.Model());
    }

    // ---------------------------------------------------------------- the others

    /** Is this step possible now? Whoever got into its lane has the lane to itself. */
    method CanPerform(step: P.Step) returns (can: bool)
      requires Valid()
      ensures can <==> P.Enabled(State(), step)
    {
      match step {
        case Request(w, _, _) => can := w !in writers;
        case StartLane(stream) => can := CanStartLane(stream);
        case Save(w) =>
          can := w in writers && writers[w].inLane;
          if can { P.WriterHasItsLane(State(), w); }
        case Fetch(h, _) => can := h !in handlers;
        case Load(h) => can := h in handlers && handlers[h].phase.Loading?;
        case Handle(h, _) => can := h in handlers && handlers[h].phase.Loaded?;
        case Reload(h) => can := h in handlers && handlers[h].phase.InLane?;
        case CompareAndRemove(h) =>
          can := h in handlers && handlers[h].phase.Reloaded?;
          if can { P.HandlerHasItsLane(State(), h); }
        case Fail(h) =>
          can := h in handlers && !handlers[h].phase.Handled?;
          if can && A.HoldsLane(handlers[h].phase) { P.HandlerHasItsLane(State(), h); }
        case CleanUp(_) => can := true;
      }
    }

    method Perform(step: P.Step)
      requires Valid() && P.Enabled(State(), step)
      modifies this, storeQueue, storeQueue.objects
      ensures Valid() && State() == P.Next(old(State()), step)
      ensures old(storeQueue.objects) <= storeQueue.objects
      ensures forall k :: |old(storeQueue.objects)| <= k < |storeQueue.objects| ==> fresh(storeQueue.objects[k])
    {
      match step {
        case Request(w, stream, tip) => RequestAnchor(w, stream, tip);
        case StartLane(stream) => StartLane(stream);
        case Save(w) => SaveRequest(w);
        case CleanUp(stream) => CleanUp(stream);
        case _ => PerformInHandler(step);
      }
    }

    method PerformInHandler(step: P.Step)
      requires Valid() && P.Enabled(State(), step)
      requires !step.Request? && !step.StartLane? && !step.Save? && !step.CleanUp?
      modifies this, storeQueue, storeQueue.objects
      ensures Valid() && State() == P.Next(old(State()), step)
      ensures old(storeQueue.objects) <= storeQueue.objects
      ensures forall k :: |old(storeQueue.objects)| <= k < |storeQueue.objects| ==> fresh(storeQueue.objects[k])
    {
      match step {
        case Fetch(h, stream) => var _ := FetchNext(h, stream);
        case Load(h) => LoadEntry(h);
        case Handle(h, isTerminal) => HandleEvent(h, isTerminal);
        case Reload(h) => LoadAgain(h);
        case CompareAndRemove(h) => var _ := RemoveIfSame(h);
        case Fail(h) => Fail(h);
      }
    }

    /** While a handler awaits something: the possible ones of these steps of others happen. */
    method Await(schedule: seq<P.Step>, h: nat)
      requires Valid() && h in handlers
      modifies this, storeQueue, storeQueue.objects
      ensures Valid() && P.Undisturbed(old(State()), State(), h)
      ensures State() == H.AfterOthers(old(State()), schedule, h)
      ensures old(storeQueue.objects) <= storeQueue.objects
      ensures forall k :: |old(storeQueue.objects)| <= k < |storeQueue.objects| ==> fresh(storeQueue.objects[k])
    {
      assert schedule[0..] == schedule;
      for i := 0 to |schedule|
        invariant Valid() && P.Undisturbed(old(State()), State(), h)
        invariant H.AfterOthers(State(), schedule[i..], h) == H.AfterOthers(old(State()), schedule, h)
        invariant old(storeQueue.objects) <= storeQueue.objects
        invariant forall k :: |old(storeQueue.objects)| <= k < |storeQueue.objects| ==> fresh(storeQueue.objects[k])
      {
        assert schedule[i..][0] == schedule[i] && schedule[i..][1..] == schedule[i + 1..];
        TryOther(schedule[i], h);
      }
      assert schedule[|schedule|..] == [];
    }

    /** One step of others, if it is possible. */
    method TryOther(step: P.Step, h: nat)
      requires Valid() && h in handlers
      modifies this, storeQueue, storeQueue.objects
      ensures Valid() && P.Undisturbed(old(State()), State(), h)
      ensures State() == if P.IsStepOf(step, h) then old(State()) else H.Try(old(State()), step)
      ensures old(storeQueue.objects) <= storeQueue.objects
      ensures forall k :: |old(storeQueue.objects)| <= k < |storeQueue.objects| ==> fresh(storeQueue.objects[k])
    {
      var can := CanPerform(step);
      if can && !P.IsStepOf(step, h) {
        P.OthersDoNotDisturb(State(), step, h);
        Perform(step);
      }
    }

    // ---------------------------------------------------------------- the handler of an entry

    /** The last step in the lane; what was loaded there is still what is stored. */
    method CompareAndRemove(h: nat) returns (outcome: H.Outcome)
      requires Valid() && h in handlers && handlers[h].phase.Reloaded?
      modifies this, storeQueue.objects
      ensures Valid() && h !in handlers
      ensures State() == H.Try(old(State()), P.CompareAndRemove(h))
      ensures outcome == if H.WillRemove(old(State()), h) then H.Removed(old(handlers[h].phase.tip))
                         else H.Kept(old(handlers[h].phase.tip))
      ensures OutcomeIsTrue(old(handlers[h].stream), outcome)
    {
      var stream, tip := handlers[h].stream, handlers[h].phase.tip;
      P.HandlerHasItsLane(State(), h);
      P.HandlerKnows(State(), h);
      P.LatestIsKept(State(), stream);
      var removed := RemoveIfSame(h);
      outcome := if removed then H.Removed(tip) else H.Kept(tip);
    }

    /**
     What a caller learns from an outcome that ends the handler. An entry goes only if its tip is the
     latest that was requested and a terminal event for it was handled.
     */
    ghost predicate OutcomeIsTrue(stream: A.Stream, outcome: H.Outcome)
      reads this
    {
      match outcome
      case NoEntry => stream !in store
      case Removed(tip) =>
        && stream !in store && A.Request(stream, tip) in handled
        && A.Latest(saved, stream) == Some(tip)
      case Kept(tip) => A.Lookup(store, stream) != Some(tip) && A.Request(stream, tip) in handled
      case _ => true
    }

    /** The task of the handler in the lane of its stream. */
    method RemoveInLane(h: nat, meanwhile: H.Meanwhile) returns (outcome: H.Outcome)
      requires Valid() && h in handlers && handlers[h].phase.InLane?
      modifies this, storeQueue, storeQueue.objects
      ensures Valid() && h !in handlers
      ensures H.End(outcome, State()) == H.InLane(old(State()), h, old(handlers[h].phase.tip), meanwhile)
      ensures OutcomeIsTrue(old(handlers[h].stream), outcome)
      ensures old(storeQueue.objects) <= storeQueue.objects
      ensures forall k :: |old(storeQueue.objects)| <= k < |storeQueue.objects| ==> fresh(storeQueue.objects[k])
    {
      Await(meanwhile.entryAgain, h);
      LoadAgain(h);
      Await(meanwhile.removal, h);
      outcome := CompareAndRemove(h);
    }

    /** The event of the loaded entry. */
    method AwaitEvent(h: nat, isTerminal: bool, schedule: seq<P.Step>)
      requires Valid() && h in handlers && handlers[h].phase.Loaded?
      modifies this, storeQueue, storeQueue.objects
      ensures Valid() && (h in handlers <==> isTerminal)
      ensures State() == H.Try(H.AfterOthers(old(State()), schedule, h), P.Handle(h, isTerminal))
      ensures isTerminal ==> handlers[h] == A.Handler(old(handlers[h].stream), A.Handled(old(handlers[h].phase.tip)))
      ensures old(storeQueue.objects) <= storeQueue.objects
      ensures forall k :: |old(storeQueue.objects)| <= k < |storeQueue.objects| ==> fresh(storeQueue.objects[k])
    {
      Await(schedule, h);
      HandleEvent(h, isTerminal);
    }

    /** The entry of a stream, unless it is being processed already. */
    method AwaitEntry(h: nat, stream: A.Stream, schedule: seq<P.Step>) returns (taken: bool)
      requires Valid() && h !in handlers
      modifies this, storeQueue, storeQueue.objects
      ensures Valid() && (taken <==> stream !in old(taskIds))
      ensures !taken ==> State() == old(State())
      ensures taken ==> State() == H.AfterOthers(H.Try(old(State()), P.Fetch(h, stream)), schedule, h)
      ensures taken ==> h in handlers && handlers[h] == A.Handler(stream, A.Loading)
      ensures !taken ==> h !in handlers
      ensures old(storeQueue.objects) <= storeQueue.objects
      ensures forall k :: |old(storeQueue.objects)| <= k < |storeQueue.objects| ==> fresh(storeQueue.objects[k])
    {
      taken := FetchNext(h, stream);
      if taken {
        Await(schedule, h);
      }
    }

    /** Up to the wait for the lane. */
    method HandleEntry(h: nat, stream: A.Stream, isTerminal: bool, meanwhile: H.Meanwhile)
      returns (outcome: H.Outcome)
      requires Valid() && h !in handlers
      modifies this, storeQueue, storeQueue.objects
      ensures Valid() && OutcomeIsTrue(stream, outcome)
      ensures outcome.Skipped? <==> stream in old(taskIds)
      ensures outcome.Waiting? ==> isTerminal && h in handlers
      ensures outcome.Waiting? ==> handlers[h].stream == stream && handlers[h].phase.Handled?
      ensures outcome.Waiting? ==>
        && A.Lookup(H.BeforeLoad(old(State()), h, stream, meanwhile).store, stream) == Some(handlers[h].phase.tip)
        && State() == H.AfterEvent(old(State()), h, stream, isTerminal, meanwhile)
      ensures !outcome.Waiting? ==> h !in handlers
      ensures !outcome.Waiting? ==>
        H.End(outcome, State()) == H.Handling(old(State()), h, stream, isTerminal, meanwhile)
      ensures !outcome.Removed? && !outcome.Kept?
      ensures old(storeQueue.objects) <= storeQueue.objects
      ensures forall k :: |old(storeQueue.objects)| <= k < |storeQueue.objects| ==> fresh(storeQueue.objects[k])
    {
      var taken := AwaitEntry(h, stream, meanwhile.entry);
      if !taken {
        return H.Skipped;
      }
      LoadEntry(h);
      if h !in handlers {
        return H.NoEntry;
      }
      AwaitEvent(h, isTerminal, meanwhile.event);
      outcome := if isTerminal then H.Waiting else H.NotTerminal;
    }

    /** The rest, when the lane has started the task of the handler by then. */
    method AwaitLane(h: nat, meanwhile: H.Meanwhile) returns (outcome: H.Outcome)
      requires Valid() && h in handlers && handlers[h].phase.Handled?
      modifies this, storeQueue, storeQueue.objects
      ensures Valid() && OutcomeIsTrue(old(handlers[h].stream), outcome)
      ensures H.End(outcome, State()) == H.AwaitingLane(old(State()), h, old(handlers[h].phase.tip), meanwhile)
      ensures outcome.Removed? || outcome.Kept? || outcome.Waiting?
      ensures outcome.Waiting? <==> h in handlers
      ensures outcome.Waiting? ==> handlers[h] == old(handlers[h])
      ensures old(storeQueue.objects) <= storeQueue.objects
      ensures forall k :: |old(storeQueue.objects)| <= k < |storeQueue.objects| ==> fresh(storeQueue.objects[k])
    {
      Await(meanwhile.lane, h);
      if !handlers[h].phase.InLane? {
        return H.Waiting;
      }
      outcome := RemoveInLane(h, meanwhile);
    }

    /**
     The handler of one entry, with the steps of others between its own: writers may replace the entry at
     any time, other handlers come and go, lanes start their tasks and are cleaned up. What it comes to is
     what `AnchorHandling` says of the state before.
     */
    method ProcessEntry(h: nat, stream: A.Stream, isTerminal: bool, meanwhile: H.Meanwhile)
      returns (outcome: H.Outcome)
      requires Valid() && h !in handlers
      modifies this, storeQueue, storeQueue.objects
      ensures Valid() && OutcomeIsTrue(stream, outcome)
      ensures H.End(outcome, State()) == H.Handling(old(State()), h, stream, isTerminal, meanwhile)
      ensures outcome.Skipped? <==> stream in old(taskIds)
      ensures outcome.Removed? || outcome.Kept? || outcome.Waiting? ==> isTerminal
      ensures outcome.Waiting? <==> h in handlers
      ensures outcome.Waiting? ==> handlers[h].stream == stream && handlers[h].phase.Handled?
      ensures old(storeQueue.objects) <= storeQueue.objects
      ensures forall k :: |old(storeQueue.objects)| <= k < |storeQueue.objects| ==> fresh(storeQueue.objects[k])
    {
      outcome := HandleEntry(h, stream, isTerminal, meanwhile);
      if outcome == H.Waiting {
        outcome := AwaitLane(h, meanwhile);
      }
    }
  }
}
