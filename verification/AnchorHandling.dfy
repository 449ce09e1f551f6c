/**
 What the handler of an entry comes to, given what others do while it waits
 (packages/core/src/anchor/anchor-processing-loop.ts:51-94): when it removes the entry, when it keeps it,
 and when it gets into its lane.
 */
module AnchorHandling {
  import opened Wrappers
  import A = AnchorLoop
  import L = TaskLanes
  import P = AnchorPolling

  /** How far the handler of an entry got. */
  datatype Outcome =
    | Skipped          // the stream is being processed already
    | NoEntry          // reading a field of the missing entry throws, and the error is swallowed
    | NotTerminal
    | Waiting          // its lane has not started its task yet
    | Removed(tip: A.Tip)
    | Kept(tip: A.Tip)

  /** The steps that others try to make while the handler waits for each of these. */
  datatype Meanwhile = Meanwhile(
    entry: seq<P.Step>,
    event: seq<P.Step>,
    lane: seq<P.Step>,
    entryAgain: seq<P.Step>,
    removal: seq<P.Step>)

  const NOTHING := Meanwhile([], [], [], [], [])

  /** The step, if it is possible now. */
  function Try(p: P.Polling, s: P.Step): P.Polling {
    if P.Enabled(p, s) then P.Next(p, s) else p
  }

  /** What others make of the state; steps of the handler itself are not theirs. */
  function AfterOthers(p: P.Polling, schedule: seq<P.Step>, h: nat): P.Polling
    decreases |schedule|
  {
    if schedule == [] then p
    else AfterOthers(if P.IsStepOf(schedule[0], h) then p else Try(p, schedule[0]), schedule[1..], h)
  }

  /** An outcome and the state it leaves. */
  datatype End = End(outcome: Outcome, state: P.Polling)

  predicate IsInLane(p: P.Polling, h: nat) {
    h in p.handlers && p.handlers[h].phase.InLane?
  }

  predicate WillRemove(p: P.Polling, h: nat) {
    h in p.handlers && p.handlers[h].phase.Reloaded? && p.handlers[h].phase.found == Some(p.handlers[h].phase.tip)
  }

  /** In the lane: the entry is loaded again, and removed if it is still the same. */
  function InLane(p: P.Polling, h: nat, tip: A.Tip, m: Meanwhile): End {
    var again := Try(AfterOthers(p, m.entryAgain, h), P.Reload(h));
    var last := AfterOthers(again, m.removal, h);
    End(if WillRemove(last, h) then Removed(tip) else Kept(tip), Try(last, P.CompareAndRemove(h)))
  }

  /** After a terminal event for this tip: the handler waits for its lane. */
  function AwaitingLane(p: P.Polling, h: nat, tip: A.Tip, m: Meanwhile): End {
    var q := AfterOthers(p, m.lane, h);
    if IsInLane(q, h) then InLane(q, h, tip, m) else End(Waiting, q)
  }

  /** The state in which the handler finds the entry, or not. */
  function BeforeLoad(p: P.Polling, h: nat, stream: A.Stream, m: Meanwhile): P.Polling {
    AfterOthers(Try(p, P.Fetch(h, stream)), m.entry, h)
  }

  /** The state in which the event was handled. */
  function AfterEvent(p: P.Polling, h: nat, stream: A.Stream, isTerminal: bool, m: Meanwhile): P.Polling {
    Try(AfterOthers(Try(BeforeLoad(p, h, stream, m), P.Load(h)), m.event, h), P.Handle(h, isTerminal))
  }

  /** The whole handler. */
  function Handling(p: P.Polling, h: nat, stream: A.Stream, isTerminal: bool, m: Meanwhile): End {
    if stream in p.taskIds then End(Skipped, p) else
    var before := BeforeLoad(p, h, stream, m);
    var entry := A.Lookup(before.store, stream);
    if entry.None? then End(NoEntry, Try(before, P.Load(h))) else
    var told := AfterEvent(p, h, stream, isTerminal, m);
    if !isTerminal then End(NotTerminal, told) else AwaitingLane(told, h, entry.value, m)
  }

  // ---------------------------------------------------------------- what others can do

  lemma {:induction false} OthersStayReachable(p: P.Polling, schedule: seq<P.Step>, h: nat)
    requires P.Reachable(p) && h in p.handlers
    ensures var q := AfterOthers(p, schedule, h);
      P.Reachable(q) && P.Undisturbed(p, q, h)
    decreases |schedule|
  {
    if schedule != [] {
      if !P.IsStepOf(schedule[0], h) && P.Enabled(p, schedule[0]) {
        P.StepStaysReachable(p, schedule[0]);
        P.OthersDoNotDisturb(p, schedule[0], h);
        OthersStayReachable(P.Next(p, schedule[0]), schedule[1..], h);
      } else {
        OthersStayReachable(p, schedule[1..], h);
      }
    }
  }

  /** The last tip saved for a stream between two states, if any. */
  function SavedSince(p: P.Polling, q: P.Polling, stream: A.Stream): Option<A.Tip>
    requires |p.saved| <= |q.saved|
  {
    A.Latest(q.saved[|p.saved|..], stream)
  }

  /** The newest of what was saved in between and what was there before. */
  ghost predicate Follows(p: P.Polling, q: P.Polling, stream: A.Stream) {
    && p.saved <= q.saved
    && A.Lookup(q.store, stream)
       == (if SavedSince(p, q, stream).Some? then SavedSince(p, q, stream) else A.Lookup(p.store, stream))
  }

  lemma {:induction false} LatestOfBoth(a: seq<A.Request>, b: seq<A.Request>, stream: A.Stream)
    ensures A.Latest(a + b, stream) == if A.Latest(b, stream).Some? then A.Latest(b, stream) else A.Latest(a, stream)
    decreases |b|
  {
    if b == [] {
      assert a + b == a;
    } else {
      var front, last := b[..|b| - 1], b[|b| - 1];
      assert b == front + [last] && a + b == (a + front) + [last];
      A.LatestAfterSave(a + front, last, stream);
      A.LatestAfterSave(front, last, stream);
      LatestOfBoth(a, front, stream);
    }
  }

  lemma SavesJoin(a: seq<A.Request>, b: seq<A.Request>, c: seq<A.Request>, stream: A.Stream)
    requires a <= b <= c
    ensures A.Latest(c[|a|..], stream)
         == if A.Latest(c[|b|..], stream).Some? then A.Latest(c[|b|..], stream) else A.Latest(b[|a|..], stream)
  {
    assert c == b + c[|b|..];
    assert c[|a|..] == b[|a|..] + c[|b|..];
    LatestOfBoth(b[|a|..], c[|b|..], stream);
  }

  lemma FollowsItself(p: P.Polling, stream: A.Stream)
    ensures Follows(p, p, stream)
  {
    assert p.saved[|p.saved|..] == [];
  }

  lemma FollowsOn(p: P.Polling, q: P.Polling, r: P.Polling, stream: A.Stream)
    requires Follows(p, q, stream) && Follows(q, r, stream)
    ensures Follows(p, r, stream)
  {
    SavesJoin(p.saved, q.saved, r.saved, stream);
  }

  /** A step keeps the entry of a stream, or saves a newer one, unless the stream's own handler removes it. */
  lemma StepFollows(p: P.Polling, s: P.Step, stream: A.Stream)
    requires P.Enabled(p, s)
    requires s.CompareAndRemove? ==> p.handlers[s.handler].stream != stream
    ensures Follows(p, P.Next(p, s), stream)
  {
    var q := P.Next(p, s);
    if s.Save? {
      var r := A.Request(p.writers[s.writer].stream, p.writers[s.writer].tip);
      assert q.saved[|p.saved|..] == [r] && [r][..0] == [];
      assert A.Latest([], stream).None?;
    } else {
      assert q.saved == p.saved && q.saved[|p.saved|..] == [];
    }
  }

  lemma OtherHandlersOtherStreams(p: P.Polling, g: nat, h: nat)
    requires P.Reachable(p) && g in p.handlers && h in p.handlers && g != h
    ensures p.handlers[g].stream != p.handlers[h].stream
  {
    P.ReachableIsProtocol(p);
    assert A.OneHandlerEach(P.Abstract(p)) && P.Abstract(p).handlers == p.handlers;
  }

  /** While a handler waits, others only replace the entry by newer requests. */
  lemma {:induction false} OthersFollow(p: P.Polling, schedule: seq<P.Step>, h: nat)
    requires P.Reachable(p) && h in p.handlers
    ensures Follows(p, AfterOthers(p, schedule, h), p.handlers[h].stream)
    decreases |schedule|
  {
    var stream := p.handlers[h].stream;
    if schedule == [] {
      FollowsItself(p, stream);
    } else if !P.IsStepOf(schedule[0], h) && P.Enabled(p, schedule[0]) {
      var q := P.Next(p, schedule[0]);
      if schedule[0].CompareAndRemove? {
        OtherHandlersOtherStreams(p, schedule[0].handler, h);
      }
      StepFollows(p, schedule[0], stream);
      P.StepStaysReachable(p, schedule[0]);
      P.OthersDoNotDisturb(p, schedule[0], h);
      OthersFollow(q, schedule[1..], h);
      FollowsOn(p, q, AfterOthers(q, schedule[1..], h), stream);
    } else {
      OthersFollow(p, schedule[1..], h);
    }
  }

  /** While a handler is in its lane nobody saves for its stream. */
  lemma {:induction false} NobodySavesInLane(p: P.Polling, schedule: seq<P.Step>, h: nat)
    requires P.Reachable(p) && h in p.handlers && A.HoldsLane(p.handlers[h].phase)
    ensures var q := AfterOthers(p, schedule, h);
      p.saved <= q.saved && SavedSince(p, q, p.handlers[h].stream).None?
    decreases |schedule|
  {
    var stream := p.handlers[h].stream;
    if schedule == [] {
      assert p.saved[|p.saved|..] == [];
    } else if !P.IsStepOf(schedule[0], h) && P.Enabled(p, schedule[0]) {
      var q := P.Next(p, schedule[0]);
      StepDoesNotSave(p, schedule[0], h);
      P.StepStaysReachable(p, schedule[0]);
      P.OthersDoNotDisturb(p, schedule[0], h);
      NobodySavesInLane(q, schedule[1..], h);
      SavesJoin(p.saved, q.saved, AfterOthers(q, schedule[1..], h).saved, stream);
    } else {
      NobodySavesInLane(p, schedule[1..], h);
    }
  }

  lemma StepDoesNotSave(p: P.Polling, s: P.Step, h: nat)
    requires P.Reachable(p) && h in p.handlers && A.HoldsLane(p.handlers[h].phase) && P.Enabled(p, s)
    ensures var q := P.Next(p, s);
      p.saved <= q.saved && SavedSince(p, q, p.handlers[h].stream).None?
  {
    P.HandlerHasItsLane(p, h);
    var q := P.Next(p, s);
    if s.Save? {
      assert p.writers[s.writer].stream != p.handlers[h].stream;
      var r := A.Request(p.writers[s.writer].stream, p.writers[s.writer].tip);
      assert q.saved[|p.saved|..] == [r] && [r][..0] == [];
      assert A.Latest([r][..0], p.handlers[h].stream).None?;
    } else {
      assert q.saved == p.saved && q.saved[|p.saved|..] == [];
    }
  }

  // ---------------------------------------------------------------- the handler among the others

  /** The handler is at this point for this stream, in a state that can be reached. */
  ghost predicate At(p: P.Polling, h: nat, stream: A.Stream, phase: A.Phase) {
    P.Reachable(p) && h in p.handlers && p.handlers[h] == A.Handler(stream, phase)
  }

  /** The handler is over, and its stream may be taken again. */
  predicate Over(p: P.Polling, h: nat, stream: A.Stream) {
    h !in p.handlers && stream !in p.taskIds
  }

  /** Others leave a handler that does not wait for its lane at its point. */
  lemma OthersKeepPoint(p: P.Polling, schedule: seq<P.Step>, h: nat, stream: A.Stream, phase: A.Phase)
    requires At(p, h, stream, phase) && !phase.Handled?
    ensures At(AfterOthers(p, schedule, h), h, stream, phase) && Follows(p, AfterOthers(p, schedule, h), stream)
  {
    OthersStayReachable(p, schedule, h);
    OthersFollow(p, schedule, h);
  }

  lemma FetchTakes(p: P.Polling, h: nat, stream: A.Stream)
    requires P.Reachable(p) && h !in p.handlers && stream !in p.taskIds
    ensures At(Try(p, P.Fetch(h, stream)), h, stream, A.Loading)
    ensures Follows(p, Try(p, P.Fetch(h, stream)), stream)
  {
    P.ReachableLanes(p);
    P.StepStaysReachable(p, P.Fetch(h, stream));
    StepFollows(p, P.Fetch(h, stream), stream);
  }

  lemma EntryIsAwaited(p: P.Polling, h: nat, stream: A.Stream, m: Meanwhile)
    requires P.Reachable(p) && h !in p.handlers && stream !in p.taskIds
    ensures At(BeforeLoad(p, h, stream, m), h, stream, A.Loading) && Follows(p, BeforeLoad(p, h, stream, m), stream)
  {
    FetchTakes(p, h, stream);
    OthersKeepPoint(Try(p, P.Fetch(h, stream)), m.entry, h, stream, A.Loading);
    FollowsOn(p, Try(p, P.Fetch(h, stream)), BeforeLoad(p, h, stream, m), stream);
  }

  lemma LoadFinds(p: P.Polling, h: nat, stream: A.Stream)
    requires At(p, h, stream, A.Loading)
    ensures var q, entry := Try(p, P.Load(h)), A.Lookup(p.store, stream);
      && Follows(p, q, stream)
      && if entry.None? then Over(q, h, stream) && P.Reachable(q) else At(q, h, stream, A.Loaded(entry.value))
  {
    P.ReachableLanes(p);
    P.StepStaysReachable(p, P.Load(h));
    StepFollows(p, P.Load(h), stream);
  }

  lemma HandleDecides(p: P.Polling, h: nat, stream: A.Stream, tip: A.Tip, isTerminal: bool)
    requires At(p, h, stream, A.Loaded(tip))
    ensures var q := Try(p, P.Handle(h, isTerminal));
      && Follows(p, q, stream)
      && (if isTerminal then At(q, h, stream, A.Handled(tip)) && A.Request(stream, tip) in q.handled
          else Over(q, h, stream) && P.Reachable(q))
  {
    P.ReachableLanes(p);
    P.StepStaysReachable(p, P.Handle(h, isTerminal));
    StepFollows(p, P.Handle(h, isTerminal), stream);
  }

  lemma EventIsAwaited(p: P.Polling, h: nat, stream: A.Stream, isTerminal: bool, m: Meanwhile, tip: A.Tip)
    requires P.Reachable(p) && h !in p.handlers && stream !in p.taskIds
    requires A.Lookup(BeforeLoad(p, h, stream, m).store, stream) == Some(tip)
    ensures var q := AfterEvent(p, h, stream, isTerminal, m);
      && Follows(BeforeLoad(p, h, stream, m), q, stream)
      && (if isTerminal then At(q, h, stream, A.Handled(tip)) && A.Request(stream, tip) in q.handled
          else Over(q, h, stream) && P.Reachable(q))
  {
    var before := BeforeLoad(p, h, stream, m);
    EntryIsAwaited(p, h, stream, m);
    LoadFinds(before, h, stream);
    var loaded := Try(before, P.Load(h));
    OthersKeepPoint(loaded, m.event, h, stream, A.Loaded(tip));
    FollowsOn(before, loaded, AfterOthers(loaded, m.event, h), stream);
    HandleDecides(AfterOthers(loaded, m.event, h), h, stream, tip, isTerminal);
    FollowsOn(before, AfterOthers(loaded, m.event, h), AfterEvent(p, h, stream, isTerminal, m), stream);
  }

  /** In the lane the entry stays what it is. */
  lemma LaneKeepsEntry(p: P.Polling, schedule: seq<P.Step>, h: nat, stream: A.Stream, phase: A.Phase)
    requires At(p, h, stream, phase) && A.HoldsLane(phase)
    ensures var q := AfterOthers(p, schedule, h);
      At(q, h, stream, phase) && A.Lookup(q.store, stream) == A.Lookup(p.store, stream)
  {
    OthersKeepPoint(p, schedule, h, stream, phase);
    NobodySavesInLane(p, schedule, h);
  }

  lemma ReloadFinds(p: P.Polling, h: nat, stream: A.Stream, tip: A.Tip)
    requires At(p, h, stream, A.InLane(tip))
    ensures At(Try(p, P.Reload(h)), h, stream, A.Reloaded(tip, A.Lookup(p.store, stream)))
    ensures Try(p, P.Reload(h)).store == p.store
  {
    P.ReachableLanes(p);
    P.StepStaysReachable(p, P.Reload(h));
  }

  lemma RemovalEnds(p: P.Polling, h: nat, stream: A.Stream, tip: A.Tip, found: Option<A.Tip>)
    requires At(p, h, stream, A.Reloaded(tip, found))
    ensures var q := Try(p, P.CompareAndRemove(h));
      && P.Reachable(q) && Over(q, h, stream) && (WillRemove(p, h) <==> found == Some(tip))
      && q.store == if found == Some(tip) then p.store - {stream} else p.store
  {
    P.HandlerHasItsLane(p, h);
    P.StepStaysReachable(p, P.CompareAndRemove(h));
  }

  /** In its lane a handler removes the entry exactly when it still has the tip that was processed. */
  lemma InLaneRemovesIff(p: P.Polling, h: nat, stream: A.Stream, tip: A.Tip, m: Meanwhile)
    requires At(p, h, stream, A.InLane(tip))
    ensures var end := InLane(p, h, tip, m);
      && end.outcome == (if A.Lookup(p.store, stream) == Some(tip) then Removed(tip) else Kept(tip))
      && A.Lookup(end.state.store, stream)
         == (if A.Lookup(p.store, stream) == Some(tip) then None else A.Lookup(p.store, stream))
      && Over(end.state, h, stream) && P.Reachable(end.state)
  {
    var first := AfterOthers(p, m.entryAgain, h);
    LaneKeepsEntry(p, m.entryAgain, h, stream, A.InLane(tip));
    ReloadFinds(first, h, stream, tip);
    var again, found := Try(first, P.Reload(h)), A.Lookup(first.store, stream);
    LaneKeepsEntry(again, m.removal, h, stream, A.Reloaded(tip, found));
    RemovalEnds(AfterOthers(again, m.removal, h), h, stream, tip, found);
  }

  // ---------------------------------------------------------------- getting into the lane

  /** This step starts the task of the handler: it is its turn in an idle lane. */
  predicate StartsTask(p: P.Polling, s: P.Step, h: nat) {
    && s.StartLane? && P.Enabled(p, s)
    && p.lanes.objects[p.lanes.current[s.stream]].waiting[0] == P.HandlerTask(h)
  }

  predicate TaskStarted(p: P.Polling, schedule: seq<P.Step>, h: nat)
    decreases |schedule|
  {
    schedule != [] &&
    (StartsTask(p, schedule[0], h)
     || TaskStarted(if P.IsStepOf(schedule[0], h) then p else Try(p, schedule[0]), schedule[1..], h))
  }

  lemma StepMovesPoint(p: P.Polling, s: P.Step, h: nat, stream: A.Stream, tip: A.Tip)
    requires At(p, h, stream, A.Handled(tip)) && P.Enabled(p, s) && !P.IsStepOf(s, h)
    ensures At(P.Next(p, s), h, stream, if StartsTask(p, s, h) then A.InLane(tip) else A.Handled(tip))
  {
    P.StepStaysReachable(p, s);
    P.OthersDoNotDisturb(p, s, h);
  }

  /** A waiting handler gets into its lane exactly when one of the steps starts its task. */
  lemma {:induction false} InLaneIffStarted(p: P.Polling, schedule: seq<P.Step>, h: nat, stream: A.Stream, tip: A.Tip)
    requires At(p, h, stream, A.Handled(tip))
    ensures At(AfterOthers(p, schedule, h), h, stream,
               if TaskStarted(p, schedule, h) then A.InLane(tip) else A.Handled(tip))
    decreases |schedule|
  {
    if schedule != [] {
      if !P.IsStepOf(schedule[0], h) && P.Enabled(p, schedule[0]) {
        StepMovesPoint(p, schedule[0], h, stream, tip);
        if StartsTask(p, schedule[0], h) {
          OthersKeepPoint(P.Next(p, schedule[0]), schedule[1..], h, stream, A.InLane(tip));
        } else {
          InLaneIffStarted(P.Next(p, schedule[0]), schedule[1..], h, stream, tip);
        }
      } else {
        InLaneIffStarted(p, schedule[1..], h, stream, tip);
      }
    }
  }

  // ---------------------------------------------------------------- what the handler comes to

  /**
   Main result: the handler of a stream that is not being processed. Without an entry, or without a terminal
   event, it is over. Otherwise it waits until its task is started, and then removes the entry exactly when
   no other tip was saved since it was loaded; a newer one stays.
   */
  lemma HandlingEnds(p: P.Polling, h: nat, stream: A.Stream, isTerminal: bool, m: Meanwhile)
    requires P.Reachable(p) && h !in p.handlers && stream !in p.taskIds
    ensures var end, before := Handling(p, h, stream, isTerminal, m), BeforeLoad(p, h, stream, m);
      match A.Lookup(before.store, stream)
      case None => end.outcome == NoEntry && Over(end.state, h, stream)
      case Some(tip) =>
        var told := AfterEvent(p, h, stream, isTerminal, m);
        if !isTerminal then end.outcome == NotTerminal && Over(end.state, h, stream)
        else if !TaskStarted(told, m.lane, h) then
          end.outcome == Waiting && At(end.state, h, stream, A.Handled(tip))
        else Ends(before, AfterOthers(told, m.lane, h), end, h, stream, tip)
  {
    EntryIsAwaited(p, h, stream, m);
    var before := BeforeLoad(p, h, stream, m);
    match A.Lookup(before.store, stream)
    case None => LoadFinds(before, h, stream);
    case Some(tip) =>
      EventIsAwaited(p, h, stream, isTerminal, m, tip);
      if isTerminal {
        TerminalEventEnds(before, AfterEvent(p, h, stream, isTerminal, m), h, stream, tip, m);
      }
  }

  /** From the state in which the entry was loaded, through that in which the lane is the handler's, to the end. */
  ghost predicate Ends(before: P.Polling, lane: P.Polling, end: End, h: nat, stream: A.Stream, tip: A.Tip) {
    && before.saved <= lane.saved && Over(end.state, h, stream)
    && var newest := SavedSince(before, lane, stream);
       if newest == None || newest == Some(tip) then end.outcome == Removed(tip) && stream !in end.state.store
       else end.outcome == Kept(tip) && A.Lookup(end.state.store, stream) == newest
  }

  lemma TerminalEventEnds(before: P.Polling, told: P.Polling, h: nat, stream: A.Stream, tip: A.Tip, m: Meanwhile)
    requires A.Lookup(before.store, stream) == Some(tip) && Follows(before, told, stream)
    requires At(told, h, stream, A.Handled(tip))
    ensures var end := AwaitingLane(told, h, tip, m);
      if !TaskStarted(told, m.lane, h) then end.outcome == Waiting && At(end.state, h, stream, A.Handled(tip))
      else Ends(before, AfterOthers(told, m.lane, h), end, h, stream, tip)
  {
    var lane := AfterOthers(told, m.lane, h);
    InLaneIffStarted(told, m.lane, h, stream, tip);
    if TaskStarted(told, m.lane, h) {
      OthersFollow(told, m.lane, h);
      FollowsOn(before, told, lane, stream);
      InLaneRemovesIff(lane, h, stream, tip, m);
    }
  }

  lemma TaskInFreeLane(lanes: L.Lanes, name: string, task: L.Task)
    requires lanes.Valid() && (name !in lanes.current || lanes.objects[lanes.current[name]].Idle())
    ensures var added := lanes.Add(name, task);
      name in added.current && added.CanStart(added.current[name])
      && added.objects[added.current[name]].waiting[0] == task
  {
  }

  lemma AloneItIsTold(p: P.Polling, h: nat, stream: A.Stream, tip: A.Tip)
    requires p.lanes.Valid() && h !in p.handlers && stream !in p.taskIds
    requires A.Lookup(p.store, stream) == Some(tip)
    ensures BeforeLoad(p, h, stream, NOTHING).store == p.store && BeforeLoad(p, h, stream, NOTHING).saved == p.saved
    ensures var told := AfterEvent(p, h, stream, true, NOTHING);
      told.saved == p.saved && told.lanes == p.lanes.Add(stream, P.HandlerTask(h))
  {
    assert AfterOthers(p, [], h) == p;
  }

  lemma OtherSchedulesDoNotMatter(p: P.Polling, h: nat, stream: A.Stream, m: Meanwhile, n: Meanwhile)
    requires m.entry == n.entry && m.event == n.event
    ensures BeforeLoad(p, h, stream, m) == BeforeLoad(p, h, stream, n)
    ensures AfterEvent(p, h, stream, true, m) == AfterEvent(p, h, stream, true, n)
  {
  }

  lemma StartStep(p: P.Polling, stream: A.Stream, h: nat)
    ensures P.Enabled(p, P.StartLane(stream)) ==> AfterOthers(p, [P.StartLane(stream)], h).saved == p.saved
  {
    assert [P.StartLane(stream)][1..] == [];
  }

  /** With nobody else about, a terminal event leads to the removal of the entry as soon as the lane starts. */
  lemma AloneItRemoves(p: P.Polling, h: nat, stream: A.Stream, tip: A.Tip)
    requires P.Reachable(p) && h !in p.handlers && stream !in p.taskIds
    requires A.Lookup(p.store, stream) == Some(tip)
    requires p.lanes.Valid() && (stream !in p.lanes.current || p.lanes.objects[p.lanes.current[stream]].Idle())
    ensures var end := Handling(p, h, stream, true, NOTHING.(lane := [P.StartLane(stream)]));
      end.outcome == Removed(tip) && stream !in end.state.store && Over(end.state, h, stream)
  {
    var m := NOTHING.(lane := [P.StartLane(stream)]);
    var before, told := BeforeLoad(p, h, stream, m), AfterEvent(p, h, stream, true, m);
    OtherSchedulesDoNotMatter(p, h, stream, m, NOTHING);
    AloneItIsTold(p, h, stream, tip);
    EventIsAwaited(p, h, stream, true, m, tip);
    assert StartsTask(told, m.lane[0], h) by {
      TaskInFreeLane(p.lanes, stream, P.HandlerTask(h));
      P.LaneNeverStalls(told, stream);
    }
    StartStep(told, stream, h);
    assert A.Latest([], stream).None?;
    HandlingEnds(p, h, stream, true, m);
  }

  /** The callback of a task forgets its lane when nothing is left in it, and changes nothing else. */
  lemma CleanUpForgets(p: P.Polling, stream: A.Stream)
    requires p.lanes.Valid()
    ensures var q := P.Next(p, P.CleanUp(stream));
      && (stream in q.lanes.current <==> stream in p.lanes.current && !p.lanes.objects[p.lanes.current[stream]].Idle())
      && q == p.(lanes := q.lanes) && q.lanes.objects == p.lanes.objects
  {
  }
}
