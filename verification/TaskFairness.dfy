/** The semaphore serves the lanes in the order in which they asked, whatever their names. */
module TaskFairness {
  import opened TaskLanes

  /** The lanes that ask for a permit in these steps, in order. */
  function Asked(events: seq<Event>): seq<nat> {
    if events == [] then []
    else (if events[0].Start? then [events[0].lane] else []) + Asked(events[1..])
  }

  /** How many permits are granted in these steps. */
  function Grants(events: seq<Event>): nat {
    if events == [] then 0 else (if events[0].Grant? then 1 else 0) + Grants(events[1..])
  }

  /** A step in the queue of the semaphore. */
  lemma QueueMoves(s: System, e: Event)
    requires Inv(s) && Enabled(s, e)
    ensures e.Grant? ==> s.queueing != []
    ensures Next(s, e).queueing == Moved(s.queueing, e)
  {
  }

  function Moved(queue: seq<nat>, e: Event): seq<nat> {
    match e
    case Start(i) => queue + [i]
    case Grant => if queue == [] then [] else queue[1..]
    case _ => queue
  }

  /** Moving first and leaving later is the same as leaving all together. */
  lemma MovedThenLater(queue: seq<nat>, e: Event, rest: seq<nat>, n: nat, after: seq<nat>)
    requires e.Grant? ==> queue != []
    requires n <= |Moved(queue, e) + rest| && after == (Moved(queue, e) + rest)[n..]
    ensures var asked := (if e.Start? then [e.lane] else []) + rest;
      var left := n + if e.Grant? then 1 else 0;
      left <= |queue + asked| && after == (queue + asked)[left..]
  {
    if e.Start? {
      assert queue + ([e.lane] + rest) == Moved(queue, e) + rest;
    } else if e.Grant? {
      assert queue + rest == [queue[0]] + (Moved(queue, e) + rest);
    }
  }

  /** Main result: those who still wait are the last who asked; the others got their permits in order. */
  lemma {:induction false} PermitsInTurn(s: System, events: seq<Event>, t: System)
    requires Inv(s) && Runs(s, events, t)
    ensures Grants(events) <= |s.queueing + Asked(events)|
    ensures t.queueing == (s.queueing + Asked(events))[Grants(events)..]
    decreases |events|
  {
    if events != [] {
      StepKeepsInv(s, events[0]);
      PermitsInTurn(Next(s, events[0]), events[1..], t);
      QueueMoves(s, events[0]);
      MovedThenLater(s.queueing, events[0], Asked(events[1..]), Grants(events[1..]), t.queueing);
    }
  }

  /** Whoever is served begins the task that its lane is running. */
  lemma FirstInTurnBegins(s: System)
    requires Inv(s) && Enabled(s, Grant)
    ensures var t, lane := Next(s, Grant), s.lanes.objects[s.queueing[0]];
      && t.holding == s.holding + {s.queueing[0]} && t.permits == s.permits - 1
      && lane.running != [] && History(t.begun, lane.name) == History(s.begun, lane.name) + [lane.running[0]]
  {
    assert s.queueing[0] in s.queueing;
  }
}
