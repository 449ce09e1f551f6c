/** Applying commits to a tile document (packages/stream-tile-handler/src/tile-document-handler.ts). */
module TileDocumentHandler {
  import opened Wrappers
  import opened StreamState

  /** What the handler asks others: signatures, JSON patches (`None` when one throws), schemas. */
  datatype Environment = Environment(
    verifySignature: (CommitData, string) -> bool,
    applyPatch: (Content, Patch) -> Option<Content>,
    validSchema: (Content, string) -> bool)

  /** The content `{}` of a document created without data. */
  const EMPTY_OBJECT := Truthy(0)

  predicate ValidDIDString(did: string) {
    |did| >= 4 && did[..4] == "did:"
  }

  function FirstController(h: Header): Option<string> {
    if h.controllers.Given? && h.controllers.value != [] && h.controllers.value[0] != ""
    then Some(h.controllers.value[0])
    else None
  }

  predicate SchemaHolds(env: Environment, content: Content, metadata: Header) {
    metadata.schema.Given? && metadata.schema.value != "" ==> env.validSchema(content, metadata.schema.value)
  }

  // ---------------------------------------------------------------- genesis

  function GenesisState(c: CommitData): State {
    State(if c.content.Some? && c.content.value.Truthy? then c.content.value else EMPTY_OBJECT,
          c.header, if c.signed then SIGNED else GENESIS, NOT_REQUESTED, [ToLogEntry(c, INIT)], None)
  }

  predicate GenesisAccepted(env: Environment, c: CommitData) {
    && c.header.controllers.Given? && |c.header.controllers.value| == 1
    && ValidDIDString(c.header.controllers.value[0])
    && (if c.signed then env.verifySignature(c, c.header.controllers.value[0])
        else !(c.content.Some? && c.content.value.Truthy?))
    && SchemaHolds(env, GenesisState(c).content, c.header)
  }

  // ---------------------------------------------------------------- signed commits

  /** `{ ...oldMetadata, ...header }`: whatever is there overwrites, also null. */
  function Merge(previous: Header, header: Header): Header {
    Header(if header.controllers.Missing? then previous.controllers else header.controllers,
           if header.forbidControllerChange.None? then previous.forbidControllerChange
           else header.forbidControllerChange,
           if header.schema.Missing? then previous.schema else header.schema)
  }

  /** The controller whose signature is needed: of the pending metadata if there is one. */
  function Signer(s: State): Option<string> {
    if s.next.Some? && FirstController(s.next.value.metadata).Some? then FirstController(s.next.value.metadata)
    else FirstController(s.metadata)
  }

  /** The checks before anything is changed. They compare with the anchored metadata. */
  predicate SignedChecks(env: Environment, s: State, c: CommitData) {
    && HasLog(s) && LinksTo(s, c)
    && Signer(s).Some? && env.verifySignature(c, Signer(s).value)
    && (c.header.controllers.Given? ==>
          |c.header.controllers.value| == 1 && c.header.controllers.value[0] != "")
    && (ForbidsControllerChange(s.metadata) && c.header.controllers.Given? ==>
          c.header.controllers == s.metadata.controllers)
    && (c.header.forbidControllerChange.Some? ==>
          c.header.forbidControllerChange == s.metadata.forbidControllerChange)
  }

  /** What is changed before the new content is computed. */
  function Pushed(s: State, c: CommitData): State {
    s.(signature := SIGNED, anchorStatus := NOT_REQUESTED, log := s.log + [ToLogEntry(c, DATA)])
  }

  predicate SignedAccepted(env: Environment, s: State, c: CommitData) {
    && SignedChecks(env, s, c)
    && var newContent := env.applyPatch(CurrentContent(s), c.patch);
       newContent.Some? && SchemaHolds(env, newContent.value, Merge(CurrentMetadata(s), c.header))
  }

  /** The state after an accepted signed commit. */
  function Signed(env: Environment, s: State, c: CommitData): State
    requires SignedAccepted(env, s, c)
  {
    var content, metadata := env.applyPatch(CurrentContent(s), c.patch).value, Merge(CurrentMetadata(s), c.header);
    Pushed(s, c).(next := Some(NextState(content, metadata)))
  }

  method StringArraysEqual(arr1: seq<string>, arr2: seq<string>) returns (r: bool)
    ensures r <==> arr1 == arr2
  {
    if |arr1| != |arr2| {
      return false;
    }
    for i := 0 to |arr1|
      invariant arr1[..i] == arr2[..i]
    {
      if arr1[i] != arr2[i] {
        return false;
      }
    }
    return true;
  }

  class TileDocumentHandler {
    const env: Environment

    constructor (env: Environment)
      ensures this.env == env
    {
      this.env := env;
    }

    method ApplyGenesis(c: CommitData) returns (r: Result<StreamState, string>)
      ensures r.Success? <==> GenesisAccepted(env, c)
      ensures r.Success? ==> fresh(r.value) && r.value.Value() == GenesisState(c)
    {
      if c.signed {
        if FirstController(c.header).None? || !env.verifySignature(c, FirstController(c.header).value) {
          return Failure("Invalid signature");
        }
      } else if c.content.Some? && c.content.value.Truthy? {
        return Failure("Genesis commit with contents should always be signed");
      }
      if !(c.header.controllers.Given? && |c.header.controllers.value| == 1) {
        return Failure("Exactly one controller must be specified");
      }
      if !ValidDIDString(c.header.controllers.value[0]) {
        return Failure("Invalid DID string");
      }
      var content := if c.content.Some? && c.content.value.Truthy? then c.content.value else EMPTY_OBJECT;
      if !SchemaHolds(env, content, c.header) {
        return Failure("Schema validation failed");
      }
      var state := new StreamState(content, c.header, if c.signed then SIGNED else GENESIS, ToLogEntry(c, INIT));
      return Success(state);
    }

    /**
     Updates the state in place. When the patch or the schema fails, the log entry has already been
     pushed and stays.
     */
    method ApplySigned(c: CommitData, state: StreamState) returns (r: Result<(), string>)
      requires HasLog(state.Value())
      modifies state
      ensures r.Success? <==> SignedAccepted(env, old(state.Value()), c)
      ensures state.Value() ==
        if SignedAccepted(env, old(state.Value()), c) then Signed(env, old(state.Value()), c)
        else if SignedChecks(env, old(state.Value()), c) then Pushed(old(state.Value()), c)
        else old(state.Value())
    {
      if !LinksTo(state.Value(), c) {
        return Failure("Commit doesn't properly link to the state");
      }
      var controller := Signer(state.Value());
      if controller.None? {
        return Failure("Controller is not set");
      }
      if !env.verifySignature(c, controller.value) {
        return Failure("Invalid signature");
      }
      var header := c.header;
      if header.controllers.Given? {
        if |header.controllers.value| != 1 {
          return Failure("Exactly one controller must be specified");
        }
        if header.controllers.value[0] == "" {
          return Failure("Controller cannot be updated to an undefined value.");
        }
      }
      if ForbidsControllerChange(state.metadata) && header.controllers.Given? {
        if !state.metadata.controllers.Given? {
          return Failure("Cannot read properties of undefined");
        }
        var same := StringArraysEqual(header.controllers.value, state.metadata.controllers.value);
        if !same {
          return Failure("Cannot change controllers since 'forbidControllerChange' is set");
        }
      }
      if header.forbidControllerChange.Some? && header.forbidControllerChange != state.metadata.forbidControllerChange {
        return Failure("Changing 'forbidControllerChange' metadata property is not allowed");
      }
      state.signature := SIGNED;
      state.anchorStatus := NOT_REQUESTED;
      state.log := state.log + [ToLogEntry(c, DATA)];
      var oldContent, oldMetadata := CurrentContent(state.Value()), CurrentMetadata(state.Value());
      var newContent := env.applyPatch(oldContent, c.patch);
      if newContent.None? {
        return Failure("Invalid patch");
      }
      var newMetadata := Merge(oldMetadata, header);
      if !SchemaHolds(env, newContent.value, newMetadata) {
        return Failure("Schema validation failed");
      }
      state.next := Some(NextState(newContent.value, newMetadata));
      return Success(());
    }

    /** Apply a commit to an existing stream. */
    method ApplyCommit(c: CommitData, state: StreamState) returns (r: Result<(), string>)
      requires HasLog(state.Value())
      modifies state
      ensures r.Success? <==> Accepted(env, old(state.Value()), c)
      ensures r.Success? ==> state.Value() == Applied(env, old(state.Value()), c)
    {
      if c.isAnchor {
        r := state.ApplyAnchorCommit(c);
      } else {
        r := ApplySigned(c, state);
      }
    }
  }

  predicate Accepted(env: Environment, s: State, c: CommitData) {
    if c.isAnchor then AnchorAccepted(s, c) else SignedAccepted(env, s, c)
  }

  function Applied(env: Environment, s: State, c: CommitData): State
    requires Accepted(env, s, c)
  {
    if c.isAnchor then Anchored(s, c) else Signed(env, s, c)
  }
}
