/**
 Polling for anchors while new requests come in: the handler of each entry
 (packages/core/src/anchor/anchor-processing-loop.ts), the set of ids being processed
 (packages/core/src/anchor/processing-loop.ts) and the writers of the request store. A step is what
 happens between two suspension points; lanes are mutually exclusive per stream.
 */
module AnchorLoop {
  import opened Wrappers

  type Stream = string
  type Tip = nat

  /** How far the handler of a stream got. */
  datatype Phase =
    | Loading                                // about to load the entry
    | Loaded(tip: Tip)                       // waits for the event of this tip
    | Handled(tip: Tip)                      // a terminal event was handled; waits for the lane
    | InLane(tip: Tip)                       // about to load the entry again
    | Reloaded(tip: Tip, found: Option<Tip>) // about to compare and remove

  datatype Handler = Handler(stream: Stream, phase: Phase)

  /** Someone requests an anchor for a tip. */
  datatype Writer = Writer(stream: Stream, tip: Tip, inLane: bool)

  datatype Holder = ByHandler(id: nat) | ByWriter(id: nat)

  datatype Request = Request(stream: Stream, tip: Tip)

  datatype System = System(
    store: map<Stream, Tip>,
    lanes: map<Stream, Holder>,
    taskIds: set<Stream>,
    handlers: map<nat, Handler>,
    writers: map<nat, Writer>,
    saved: seq<Request>,      // history of saves
    handled: set<Request>)    // history of handled terminal events

  datatype Event =
    | NewRequest(writer: nat, stream: Stream, tip: Tip)
    | WriterEnters(writer: nat)
    | Save(writer: nat)
    | Fetch(handler: nat, stream: Stream)
    | Load(handler: nat)
    | Handle(handler: nat, isTerminal: bool)
    | HandlerEnters(handler: nat)
    | Reload(handler: nat)
    | CompareAndRemove(handler: nat)
    | Fail(handler: nat)

  function Lookup(store: map<Stream, Tip>, stream: Stream): Option<Tip> {
    if stream in store then Some(store[stream]) else None
  }

  predicate HoldsLane(phase: Phase) {
    phase.InLane? || phase.Reloaded?
  }

  predicate Enabled(s: System, e: Event) {
    match e
    case NewRequest(w, _, _) => w !in s.writers
    case WriterEnters(w) => w in s.writers && !s.writers[w].inLane && s.writers[w].stream !in s.lanes
    case Save(w) => w in s.writers && s.writers[w].inLane
    case Fetch(h, _) => h !in s.handlers
    case Load(h) => h in s.handlers && s.handlers[h].phase.Loading?
    case Handle(h, _) => h in s.handlers && s.handlers[h].phase.Loaded?
    case HandlerEnters(h) => h in s.handlers && s.handlers[h].phase.Handled? && s.handlers[h].stream !in s.lanes
    case Reload(h) => h in s.handlers && s.handlers[h].phase.InLane?
    case CompareAndRemove(h) => h in s.handlers && s.handlers[h].phase.Reloaded?
    case Fail(h) => h in s.handlers
  }

  function To(s: System, h: nat, phase: Phase): System
    requires h in s.handlers
  {
    s.(handlers := s.handlers[h := s.handlers[h].(phase := phase)])
  }

  /** The handler is over: its id is free again, and so is the lane if it was in it. */
  function Done(s: System, h: nat): System
    requires h in s.handlers
  {
    var handler := s.handlers[h];
    s.(handlers := s.handlers - {h}, taskIds := s.taskIds - {handler.stream},
       lanes := if HoldsLane(handler.phase) then s.lanes - {handler.stream} else s.lanes)
  }

  function Next(s: System, e: Event): System
    requires Enabled(s, e)
  {
    match e
    case NewRequest(w, stream, tip) => s.(writers := s.writers[w := Writer(stream, tip, false)])
    case WriterEnters(w) =>
      s.(writers := s.writers[w := s.writers[w].(inLane := true)], lanes := s.lanes[s.writers[w].stream := ByWriter(w)])
    case Save(w) =>
      var stream, tip := s.writers[w].stream, s.writers[w].tip;
      s.(store := s.store[stream := tip], saved := s.saved + [Request(stream, tip)],
         writers := s.writers - {w}, lanes := s.lanes - {stream})
    case Fetch(h, stream) =>
      if stream in s.taskIds then s  // We have it processing already
      else s.(taskIds := s.taskIds + {stream}, handlers := s.handlers[h := Handler(stream, Loading)])
    case Load(h) =>
      var entry := Lookup(s.store, s.handlers[h].stream);
      if entry.None? then Done(s, h)  // reading a field of null throws, and the error is swallowed
      else To(s, h, Loaded(entry.value))
    case Handle(h, isTerminal) =>
      var handler := s.handlers[h];
      if isTerminal then
        To(s, h, Handled(handler.phase.tip)).(handled := s.handled + {Request(handler.stream, handler.phase.tip)})
      else Done(s, h)
    case HandlerEnters(h) =>
      To(s, h, InLane(s.handlers[h].phase.tip)).(lanes := s.lanes[s.handlers[h].stream := ByHandler(h)])
    case Reload(h) =>
      To(s, h, Reloaded(s.handlers[h].phase.tip, Lookup(s.store, s.handlers[h].stream)))
    case CompareAndRemove(h) =>
      var Handler(stream, phase) := s.handlers[h];
      // Remove iff tip stored equals to the tip we processed
      if phase.found == Some(phase.tip) then Done(s, h).(store := s.store - {stream}) else Done(s, h)
    case Fail(h) => Done(s, h)
  }

  // ---------------------------------------------------------------- what every step keeps

  /** The ids being processed are the streams of the handlers, one handler each. */
  ghost predicate OneHandlerEach(s: System) {
    && (forall h :: h in s.handlers ==> s.handlers[h].stream in s.taskIds)
    && (forall h, g :: h in s.handlers && g in s.handlers && h != g ==> s.handlers[h].stream != s.handlers[g].stream)
  }

  /** Who is in a lane holds it. */
  ghost predicate LanesHeld(s: System) {
    && (forall h :: h in s.handlers && HoldsLane(s.handlers[h].phase) ==>
          s.handlers[h].stream in s.lanes && s.lanes[s.handlers[h].stream] == ByHandler(h))
    && (forall w :: w in s.writers && s.writers[w].inLane ==>
          s.writers[w].stream in s.lanes && s.lanes[s.writers[w].stream] == ByWriter(w))
  }

  /** Handlers past the event have handled a terminal one, and what they loaded again is still stored. */
  ghost predicate PhasesTrue(s: System) {
    forall h :: h in s.handlers ==>
      var Handler(stream, phase) := s.handlers[h];
      && (phase.Handled? || HoldsLane(phase) ==> Request(stream, phase.tip) in s.handled)
      && (phase.Reloaded? ==> phase.found == Lookup(s.store, stream))
  }

  /** The last tip that was saved for a stream. */
  function Latest(saved: seq<Request>, stream: Stream): Option<Tip> {
    if saved == [] then None
    else if saved[|saved| - 1].stream == stream then Some(saved[|saved| - 1].tip)
    else Latest(saved[..|saved| - 1], stream)
  }

  /** The last request for a stream is still stored, unless a terminal event for that tip was handled. */
  ghost predicate NothingLost(s: System) {
    forall stream ::
      var latest := Latest(s.saved, stream);
      if latest.None? then stream !in s.store
      else Lookup(s.store, stream) == latest
           || (stream !in s.store && Request(stream, latest.value) in s.handled)
  }

  ghost predicate Inv(s: System) {
    OneHandlerEach(s) && LanesHeld(s) && PhasesTrue(s) && NothingLost(s)
  }

  const INITIAL := System(map[], map[], {}, map[], map[], [], {})

  lemma {:induction false} LatestAfterSave(saved: seq<Request>, r: Request, stream: Stream)
    ensures Latest(saved + [r], stream) == if stream == r.stream then Some(r.tip) else Latest(saved, stream)
  {
    assert (saved + [r])[..|saved|] == saved;
  }

  lemma SaveKeepsInv(s: System, w: nat)
    requires Inv(s) && Enabled(s, Save(w))
    ensures Inv(Next(s, Save(w)))
  {
    var t := Next(s, Save(w));
    var r := Request(s.writers[w].stream, s.writers[w].tip);
    forall stream
      ensures Latest(t.saved, stream) == if stream == r.stream then Some(r.tip) else Latest(s.saved, stream) {
      LatestAfterSave(s.saved, r, stream);
    }
  }

  lemma DoneKeepsInv(s: System, h: nat)
    requires Inv(s) && h in s.handlers
    ensures Inv(Done(s, h))
  {
  }

  lemma RemoveKeepsInv(s: System, h: nat)
    requires Inv(s) && Enabled(s, CompareAndRemove(h))
    ensures Inv(Next(s, CompareAndRemove(h)))
  {
    DoneKeepsInv(s, h);
  }

  lemma RequestKeepsInv(s: System, w: nat, stream: Stream, tip: Tip)
    requires Inv(s) && Enabled(s, NewRequest(w, stream, tip))
    ensures Inv(Next(s, NewRequest(w, stream, tip)))
  {
  }

  lemma WriterEntersKeepsInv(s: System, w: nat)
    requires Inv(s) && Enabled(s, WriterEnters(w))
    ensures Inv(Next(s, WriterEnters(w)))
  {
  }

  lemma FetchKeepsInv(s: System, h: nat, stream: Stream)
    requires Inv(s) && Enabled(s, Fetch(h, stream))
    ensures Inv(Next(s, Fetch(h, stream)))
  {
  }

  lemma LoadKeepsInv(s: System, h: nat)
    requires Inv(s) && Enabled(s, Load(h))
    ensures Inv(Next(s, Load(h)))
  {
    DoneKeepsInv(s, h);
  }

  lemma HandleKeepsInv(s: System, h: nat, isTerminal: bool)
    requires Inv(s) && Enabled(s, Handle(h, isTerminal))
    ensures Inv(Next(s, Handle(h, isTerminal)))
  {
    DoneKeepsInv(s, h);
  }

  lemma HandlerEntersKeepsInv(s: System, h: nat)
    requires Inv(s) && Enabled(s, HandlerEnters(h))
    ensures Inv(Next(s, HandlerEnters(h)))
  {
  }

  lemma ReloadKeepsInv(s: System, h: nat)
    requires Inv(s) && Enabled(s, Reload(h))
    ensures Inv(Next(s, Reload(h)))
  {
  }

  /** Every step keeps the invariant. */
  lemma StepKeepsInv(s: System, e: Event)
    requires Inv(s) && Enabled(s, e)
    ensures Inv(Next(s, e))
  {
    match e
    case NewRequest(w, stream, tip) => RequestKeepsInv(s, w, stream, tip);
    case WriterEnters(w) => WriterEntersKeepsInv(s, w);
    case Save(w) => SaveKeepsInv(s, w);
    case Fetch(h, stream) => FetchKeepsInv(s, h, stream);
    case Load(h) => LoadKeepsInv(s, h);
    case Handle(h, isTerminal) => HandleKeepsInv(s, h, isTerminal);
    case HandlerEnters(h) => HandlerEntersKeepsInv(s, h);
    case Reload(h) => ReloadKeepsInv(s, h);
    case CompareAndRemove(h) => RemoveKeepsInv(s, h);
    case Fail(h) => DoneKeepsInv(s, h);
  }

  /** An entry leaves the store only after a terminal event for the very tip it holds was handled. */
  lemma RemovedOnlyWhenHandled(s: System, e: Event, stream: Stream)
    requires Inv(s) && Enabled(s, e)
    requires stream in s.store && stream !in Next(s, e).store
    ensures Request(stream, s.store[stream]) in s.handled
    ensures e.CompareAndRemove? && s.handlers[e.handler].stream == stream
  {
  }

  /** A stored tip is only ever replaced by the tip of a newer request. */
  lemma ReplacedOnlyByRequests(s: System, e: Event, stream: Stream)
    requires Inv(s) && Enabled(s, e)
    requires stream in Next(s, e).store && Lookup(s.store, stream) != Some(Next(s, e).store[stream])
    ensures e.Save? && s.writers[e.writer].stream == stream && Next(s, e).store[stream] == s.writers[e.writer].tip
  {
  }

  // ---------------------------------------------------------------- whole runs

  ghost predicate Runs(s: System, events: seq<Event>, t: System)
    decreases |events|
  {
    if events == [] then s == t else Enabled(s, events[0]) && Runs(Next(s, events[0]), events[1..], t)
  }

  lemma {:induction false} RunKeepsInv(s: System, events: seq<Event>, t: System)
    requires Inv(s) && Runs(s, events, t)
    ensures Inv(t)
    decreases |events|
  {
    if events != [] {
      StepKeepsInv(s, events[0]);
      RunKeepsInv(Next(s, events[0]), events[1..], t);
    }
  }

  /** Main result, for every interleaving of requests, polling handlers and failures. */
  lemma NoRequestIsLost(events: seq<Event>, t: System)
    requires Runs(INITIAL, events, t)
    // the latest request of every stream is stored, or a terminal event for its tip was handled
    ensures forall stream :: Latest(t.saved, stream).Some? ==>
      var tip := Latest(t.saved, stream).value;
      Lookup(t.store, stream) == Some(tip) || (stream !in t.store && Request(stream, tip) in t.handled)
    // no stream has two handlers in flight
    ensures forall h, g :: h in t.handlers && g in t.handlers && t.handlers[h].stream == t.handlers[g].stream ==> h == g
  {
    RunKeepsInv(INITIAL, events, t);
  }
}
