/**
 The state of a stream and the checks on it that the handlers share
 (packages/common/src/utils/stream-utils.ts), and the application of an anchor commit
 (packages/stream-handler-common/src/anchor-commit-utils.ts).
 */
module StreamState {
  import opened Wrappers

  type Cid = nat

  /** A value, up to what JavaScript makes of it in a condition. */
  datatype Value = Null | Falsy(value: nat) | Truthy(value: nat)

  type Content = Value

  /** A field may be missing, be there as null (or as another value that JavaScript takes for false), or be given. */
  datatype Field<T> = Missing | Cleared | Given(value: T)

  /** `controllers`, `forbidControllerChange` and `schema` of a header or of metadata; other fields do not matter. */
  datatype Header = Header(controllers: Field<seq<string>>, forbidControllerChange: Option<Value>,
                           schema: Field<string>)

  /** The flag is set when it is there and JavaScript takes it for true. */
  predicate ForbidsControllerChange(h: Header) {
    h.forbidControllerChange.Some? && h.forbidControllerChange.value.Truthy?
  }

  datatype EventType = INIT | DATA | TIME

  datatype LogEntry = LogEntry(cid: Cid, tpe: EventType, timestamp: Option<nat>)

  datatype SignatureStatus = GENESIS | SIGNED

  datatype AnchorStatus = NOT_REQUESTED | ANCHORED

  datatype NextState = NextState(content: Content, metadata: Header)

  datatype State = State(
    content: Content,
    metadata: Header,
    signature: SignatureStatus,
    anchorStatus: AnchorStatus,
    log: seq<LogEntry>,
    next: Option<NextState>)

  type Patch = nat

  datatype CommitData = CommitData(
    cid: Cid,
    id: Option<Cid>,
    prev: Cid,
    header: Header,
    signed: bool,
    content: Option<Content>,     // `data` of a genesis commit
    patch: Patch,                 // `data` of a signed commit
    isAnchor: bool,               // has a proof
    timestamp: Option<nat>,
    anchorValidationError: bool)

  /** Commits and streams have a first log entry. */
  predicate HasLog(s: State) {
    s.log != []
  }

  function Tip(s: State): Cid
    requires HasLog(s)
  {
    s.log[|s.log| - 1].cid
  }

  /** `assertCommitLinksToState` does not throw. */
  predicate LinksTo(s: State, c: CommitData)
    requires HasLog(s)
  {
    (c.id.Some? ==> c.id.value == s.log[0].cid) && c.prev == Tip(s)
  }

  /** `isStateSupersetOf` */
  predicate IsStateSupersetOf(s: State, base: State) {
    && |base.log| <= |s.log|
    && (forall i :: 0 <= i < |base.log| ==> s.log[i].cid == base.log[i].cid)
    && (|s.log| == |base.log| ==> s.anchorStatus == base.anchorStatus)
  }

  /** A zero timestamp counts as none. */
  function ToLogEntry(c: CommitData, tpe: EventType): LogEntry {
    LogEntry(c.cid, tpe, if c.timestamp == Some(0) then None else c.timestamp)
  }

  predicate HasTimestamp(entry: LogEntry) {
    entry.timestamp.Some? && entry.timestamp.value > 0
  }

  predicate NoneLater(log: seq<LogEntry>, i: nat) {
    forall j :: i < j < |log| ==> !HasTimestamp(log[j])
  }

  /** What a reader of the document sees, and what the next signed commit changes: `next?.content ?? content`. */
  function CurrentContent(s: State): Content {
    if s.next.Some? && !s.next.value.content.Null? then s.next.value.content else s.content
  }

  /** `next?.metadata ?? metadata` */
  function CurrentMetadata(s: State): Header {
    if s.next.Some? then s.next.value.metadata else s.metadata
  }

  // ---------------------------------------------------------------- anchor commits

  /** The timestamp of the first TIME entry of the log. */
  function FirstTime(log: seq<LogEntry>): Option<nat> {
    if log == [] then None else if log[0].tpe.TIME? then log[0].timestamp else FirstTime(log[1..])
  }

  /** Every entry that is not TIME carries the timestamp of the first TIME entry after it. */
  function Stamped(log: seq<LogEntry>): (r: seq<LogEntry>)
    ensures |r| == |log|
  {
    seq(|log|, i requires 0 <= i < |log| =>
      if log[i].tpe.TIME? then log[i] else log[i].(timestamp := FirstTime(log[i..])))
  }

  function AnchorLog(s: State, c: CommitData): seq<LogEntry> {
    Stamped(s.log + [LogEntry(c.cid, TIME, c.timestamp)])
  }

  predicate AnchorAccepted(s: State, c: CommitData) {
    HasLog(s) && LinksTo(s, c) && !c.anchorValidationError
  }

  /** The state after an accepted anchor commit. */
  function Anchored(s: State, c: CommitData): State {
    State(if s.next.Some? && s.next.value.content.Truthy? then s.next.value.content else s.content,
          if s.next.Some? then s.next.value.metadata else s.metadata,
          s.signature, ANCHORED, AnchorLog(s, c), None)
  }

  /** The state object that handlers update in place. */
  class StreamState {
    var content: Content
    var metadata: Header
    var signature: SignatureStatus
    var anchorStatus: AnchorStatus
    var log: seq<LogEntry>
    var next: Option<NextState>

    function Value(): State
      reads this
    {
      State(content, metadata, signature, anchorStatus, log, next)
    }

    constructor (content: Content, metadata: Header, signature: SignatureStatus, entry: LogEntry)
      ensures Value() == State(content, metadata, signature, NOT_REQUESTED, [entry], None)
    {
      this.content, this.metadata, this.signature := content, metadata, signature;
      anchorStatus, log, next := NOT_REQUESTED, [entry], None;
    }

    /** The timestamp when the stream was last anchored: the last one that is set and not zero. */
    method AnchorTimestampFromState() returns (r: Option<nat>)
      ensures r.None? ==> forall j :: 0 <= j < |log| ==> !HasTimestamp(log[j])
      ensures r.Some? ==>
        exists i :: 0 <= i < |log| && HasTimestamp(log[i]) && log[i].timestamp == r && NoneLater(log, i)
    {
      var i: nat := |log|;
      while i > 0
        invariant i <= |log|
        invariant forall j :: i <= j < |log| ==> !HasTimestamp(log[j])
      {
        i := i - 1;
        if HasTimestamp(log[i]) {
          assert NoneLater(log, i);
          return log[i].timestamp;
        }
      }
      return None;
    }

    method ApplyAnchorTimestampsToLog()
      modifies this`log
      ensures log == Stamped(old(log))
    {
      var timestamp: Option<nat> := None;
      var i: nat := |log|;
      while i > 0
        invariant i <= |log| == |old(log)|
        invariant timestamp == FirstTime(old(log)[i..])
        invariant log == old(log)[..i] + Stamped(old(log))[i..]
      {
        i := i - 1;
        ghost var was := old(log);
        assert was[i..][0] == was[i] && was[i..][1..] == was[i + 1..];
        assert log[i] == was[i];
        if log[i].tpe.TIME? {
          timestamp := log[i].timestamp;
        } else {
          log := log[i := log[i].(timestamp := timestamp)];
        }
        assert was[..i + 1] == was[..i] + [was[i]];
        assert was[..i] + [Stamped(was)[i]] + Stamped(was)[i + 1..] == was[..i] + Stamped(was)[i..];
      }
    }

    method ApplyAnchorCommit(c: CommitData) returns (r: Result<(), string>)
      requires HasLog(Value())
      modifies this
      ensures r.Success? <==> AnchorAccepted(old(Value()), c)
      ensures Value() == if r.Success? then Anchored(old(Value()), c) else old(Value())
    {
      if !LinksTo(Value(), c) {
        return Failure("Commit doesn't properly link to the state");
      }
      if c.anchorValidationError {
        return Failure("Invalid anchor");
      }
      anchorStatus := ANCHORED;
      log := log + [LogEntry(c.cid, TIME, c.timestamp)];
      ApplyAnchorTimestampsToLog();
      if next.Some? && next.value.content.Truthy? {
        content := next.value.content;
      }
      if next.Some? {
        metadata := next.value.metadata;
      }
      next := None;
      return Success(());
    }
  }
}
