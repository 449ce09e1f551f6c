/**
 What an accepted commit makes of a tile document, field by field, and the content and log of a document
 after any run, in terms of the commits alone.
 */
module TileContent {
  import opened Wrappers
  import opened StreamState
  import opened TileDocumentHandler
  import opened TileRuns

  // ---------------------------------------------------------------- one commit

  /** A field that is there overwrites the one before. */
  ghost predicate Overwritten<T(!new)>(before: Field<T>, header: Field<T>, after: Field<T>) {
    if header == Missing then after == before else after == header
  }

  /** A signed commit stores the patched content and its header fields as what comes next, and nothing else. */
  lemma SignedCommitTakesEffect(env: Environment, s: State, c: CommitData)
    requires Accepted(env, s, c) && !c.isAnchor
    ensures var t := Applied(env, s, c);
      && t.next.Some? && env.applyPatch(CurrentContent(s), c.patch) == Some(t.next.value.content)
      && t.content == s.content && t.metadata == s.metadata
      && t.signature == SIGNED && t.anchorStatus == NOT_REQUESTED
      && t.log == s.log + [LogEntry(c.cid, DATA, if c.timestamp == Some(0) then None else c.timestamp)]
    ensures var before, after := CurrentMetadata(s), Applied(env, s, c).next.value.metadata;
      && Overwritten(before.controllers, c.header.controllers, after.controllers)
      && Overwritten(before.schema, c.header.schema, after.schema)
      && after.forbidControllerChange == (if c.header.forbidControllerChange.Some? then c.header.forbidControllerChange
                                          else before.forbidControllerChange)
  {
  }

  /** An anchor makes what was pending current, and leaves the signature as it is. */
  lemma AnchorTakesEffect(env: Environment, s: State, c: CommitData)
    requires Accepted(env, s, c) && c.isAnchor
    ensures var t := Applied(env, s, c);
      && t.next.None? && t.anchorStatus == ANCHORED && t.signature == s.signature
      && (s.next.None? ==> t.content == s.content && t.metadata == s.metadata)
      && (s.next.Some? ==> t.metadata == s.next.value.metadata)
      && (s.next.Some? && s.next.value.content.Truthy? ==> t.content == s.next.value.content)
      && (s.next.Some? && !s.next.value.content.Truthy? ==> t.content == s.content)
  {
  }

  /** Accepted commits follow the tip, name the right stream if any, and are signed by the controller of the moment. */
  lemma AcceptedCommitsBelong(env: Environment, s: State, c: CommitData)
    requires HasLog(s) && Accepted(env, s, c)
    ensures c.prev == s.log[|s.log| - 1].cid
    ensures c.id.Some? ==> c.id.value == s.log[0].cid
    ensures c.isAnchor ==> !c.anchorValidationError
    ensures !c.isAnchor && s.next.Some? && s.next.value.metadata.controllers.Given?
            && s.next.value.metadata.controllers.value != [] && s.next.value.metadata.controllers.value[0] != "" ==>
              env.verifySignature(c, s.next.value.metadata.controllers.value[0])
    ensures !c.isAnchor && (s.next.None? || !s.next.value.metadata.controllers.Given?) ==>
              s.metadata.controllers.Given? && s.metadata.controllers.value != []
              && s.metadata.controllers.value[0] != "" && env.verifySignature(c, s.metadata.controllers.value[0])
  {
  }

  /** Every anchor that follows the tip and passed validation is accepted. */
  lemma ValidAnchorIsAccepted(env: Environment, s: State, c: CommitData)
    requires HasLog(s) && c.isAnchor && !c.anchorValidationError
    requires c.prev == s.log[|s.log| - 1].cid && (c.id.None? || c.id.value == s.log[0].cid)
    ensures Accepted(env, s, c)
  {
  }

  /**
   An update of the content only, signed by the controller, is accepted exactly when the patch applies and
   the result obeys the schema in force.
   */
  lemma UpdateIsAcceptedIff(env: Environment, s: State, c: CommitData, controller: string)
    requires HasLog(s) && !c.isAnchor && c.header == Header(Missing, None, Missing)
    requires c.prev == s.log[|s.log| - 1].cid && (c.id.None? || c.id.value == s.log[0].cid)
    requires CurrentMetadata(s).controllers == Given([controller]) && controller != ""
    requires env.verifySignature(c, controller)
    ensures Accepted(env, s, c) <==>
      match env.applyPatch(CurrentContent(s), c.patch)
      case None => false
      case Some(content) =>
        (CurrentMetadata(s).schema.Given? && CurrentMetadata(s).schema.value != "" ==>
           env.validSchema(content, CurrentMetadata(s).schema.value))
  {
  }

  /** Without the flag the controller may hand over to any other, who has to sign from then on. */
  lemma ControllerMayChange(env: Environment, s: State, c: CommitData, controller: string, other: string)
    requires HasLog(s) && !c.isAnchor && c.header == Header(Given([other]), None, Missing) && other != ""
    requires c.prev == s.log[|s.log| - 1].cid && c.id.None?
    requires CurrentMetadata(s).controllers == Given([controller]) && controller != ""
    requires env.verifySignature(c, controller) && !ForbidsControllerChange(s.metadata)
    requires !CurrentMetadata(s).schema.Given? && env.applyPatch(CurrentContent(s), c.patch).Some?
    ensures Accepted(env, s, c)
    ensures forall d: CommitData :: !d.isAnchor && Accepted(env, Applied(env, s, c), d) ==>
              env.verifySignature(d, other)
  {
    var t := Applied(env, s, c);
    assert t.next.value.metadata.controllers.value[0] == other;
  }

  // ---------------------------------------------------------------- creation

  lemma GenesisAcceptedIff(env: Environment, c: CommitData, did: string)
    requires c.header.controllers == Given([did])
    ensures GenesisAccepted(env, c) <==>
      && did[..if |did| < 4 then |did| else 4] == "did:"
      && (if c.signed then env.verifySignature(c, did) else c.content.None? || !c.content.value.Truthy?)
      && (c.header.schema.Given? && c.header.schema.value != "" ==>
            env.validSchema(GenesisState(c).content, c.header.schema.value))
  {
  }

  lemma GenesisNeedsOneController(env: Environment, c: CommitData)
    requires GenesisAccepted(env, c)
    ensures c.header.controllers.Given? && |c.header.controllers.value| == 1
  {
  }

  /** A new document has the data and header of its first commit. */
  lemma GenesisIsAsGiven(c: CommitData)
    ensures var s := GenesisState(c);
      && (c.content.Some? && c.content.value.Truthy? ==> s.content == c.content.value)
      && (c.content.None? || !c.content.value.Truthy? ==> s.content == EMPTY_OBJECT)
      && s.metadata == c.header && s.next.None? && s.anchorStatus == NOT_REQUESTED
      && s.signature == (if c.signed then SIGNED else GENESIS)
      && s.log == [LogEntry(c.cid, INIT, if c.timestamp == Some(0) then None else c.timestamp)]
  {
  }

  // ---------------------------------------------------------------- the content of a run

  /** The anchored content, and the pending one if there is any. */
  datatype Contents = Contents(anchored: Content, pending: Option<Content>)

  /** What the next patch starts from; null means nothing is pending. */
  function Base(v: Contents): Content {
    match v.pending
    case None => v.anchored
    case Some(Null) => v.anchored
    case Some(content) => content
  }

  /** Signed commits patch; anchors move on, but drop what JavaScript takes for false. */
  function Move(env: Environment, v: Contents, c: CommitData): Contents {
    if !c.isAnchor then v.(pending := env.applyPatch(Base(v), c.patch))
    else Contents(if v.pending.Some? && v.pending.value.Truthy? then v.pending.value else v.anchored, None)
  }

  function ContentsAfter(env: Environment, v: Contents, commits: seq<CommitData>): Contents
    decreases |commits|
  {
    if commits == [] then v else ContentsAfter(env, Move(env, v, commits[0]), commits[1..])
  }

  function ContentsOf(s: State): Contents {
    Contents(s.content, if s.next.Some? then Some(s.next.value.content) else None)
  }

  lemma {:induction false} RunsPatchContent(env: Environment, s: State, commits: seq<CommitData>, t: State)
    requires Runs(env, s, commits, t)
    ensures ContentsOf(t) == ContentsAfter(env, ContentsOf(s), commits)
    decreases |commits|
  {
    if commits != [] {
      var c := commits[0];
      assert ContentsOf(Applied(env, s, c)) == Move(env, ContentsOf(s), c) by {
        if c.isAnchor {
          AnchorTakesEffect(env, s, c);
        } else {
          SignedCommitTakesEffect(env, s, c);
        }
      }
      RunsPatchContent(env, Applied(env, s, c), commits[1..], t);
    }
  }

  /** The patches of the signed commits, one after the other. */
  function Patched(env: Environment, content: Content, commits: seq<CommitData>): Option<Content>
    decreases |commits|
  {
    if commits == [] then Some(content)
    else if commits[0].isAnchor then Patched(env, content, commits[1..])
    else
      var next := env.applyPatch(content, commits[0].patch);
      if next.None? then None else Patched(env, next.value, commits[1..])
  }

  /** No patch along the way results in null or in anything else that JavaScript takes for false. */
  ghost predicate StaysTruthy(env: Environment, content: Content, commits: seq<CommitData>) {
    forall k, r :: 0 <= k <= |commits| && Patched(env, content, commits[..k]) == Some(r) ==> r.Truthy?
  }

  /**
   Main result: what a reader sees after any run from the first commit on is the first content with all
   patches applied in order, wherever the anchors are, as long as no patch makes it null or false.
   */
  lemma ContentIsPatched(env: Environment, c: CommitData, commits: seq<CommitData>, t: State)
    requires GenesisAccepted(env, c) && Runs(env, GenesisState(c), commits, t)
    requires StaysTruthy(env, GenesisState(c).content, commits)
    ensures Patched(env, GenesisState(c).content, commits) == Some(CurrentContent(t))
  {
    RunIsPatched(env, GenesisState(c), commits, t);
  }

  /** What is pending, if anything, is truthy: then it is what a reader sees. */
  ghost predicate Clean(s: State) {
    s.next.Some? ==> s.next.value.content.Truthy?
  }

  lemma {:induction false} RunIsPatched(env: Environment, s: State, commits: seq<CommitData>, t: State)
    requires Clean(s) && Runs(env, s, commits, t)
    requires StaysTruthy(env, CurrentContent(s), commits)
    ensures Patched(env, CurrentContent(s), commits) == Some(CurrentContent(t))
    decreases |commits|
  {
    if commits != [] {
      var c := commits[0];
      var u := Applied(env, s, c);
      if c.isAnchor {
        AnchorTakesEffect(env, s, c);
      } else {
        SignedCommitTakesEffect(env, s, c);
        assert commits[..1] == [c] && [c][1..] == [];
        assert Patched(env, CurrentContent(s), [c]) == Some(u.next.value.content);
      }
      forall k, r | 0 <= k <= |commits[1..]| && Patched(env, CurrentContent(u), commits[1..][..k]) == Some(r)
        ensures r.Truthy?
      {
        assert commits[..k + 1][1..] == commits[1..][..k];
        assert Patched(env, CurrentContent(s), commits[..k + 1]) == Some(r);
      }
      RunIsPatched(env, u, commits[1..], t);
    }
  }

  // ---------------------------------------------------------------- the log of a run

  /** The commits of a run are a chain behind the tip, and the log lists them. */
  lemma {:induction false} RunIsChain(env: Environment, s: State, commits: seq<CommitData>, t: State)
    requires HasLog(s) && Runs(env, s, commits, t)
    ensures |t.log| == |s.log| + |commits|
    ensures forall k :: 0 <= k < |s.log| ==> t.log[k].cid == s.log[k].cid
    ensures forall k :: 0 <= k < |commits| ==>
      && t.log[|s.log| + k].cid == commits[k].cid
      && t.log[|s.log| + k].tpe == (if commits[k].isAnchor then TIME else DATA)
      && commits[k].prev == t.log[|s.log| + k - 1].cid
      && (commits[k].id.Some? ==> commits[k].id.value == t.log[0].cid)
    decreases |commits|
  {
    if commits != [] {
      var u := Applied(env, s, commits[0]);
      LogGrows(env, s, commits[0]);
      RunIsChain(env, u, commits[1..], t);
      TypesStay(env, u, commits[1..], t);
      AcceptedCommitsBelong(env, s, commits[0]);
      forall k | 0 < k < |commits| ensures commits[k] == commits[1..][k - 1] {
      }
    }
  }

  lemma LogGrows(env: Environment, s: State, c: CommitData)
    requires HasLog(s) && Accepted(env, s, c)
    ensures var log := Applied(env, s, c).log;
      && |log| == |s.log| + 1
      && (forall k :: 0 <= k < |s.log| ==> log[k].cid == s.log[k].cid && log[k].tpe == s.log[k].tpe)
      && log[|s.log|].cid == c.cid && log[|s.log|].tpe == (if c.isAnchor then TIME else DATA)
  {
    if c.isAnchor {
      AnchorLogKeeps(s, c);
    }
  }

  lemma {:induction false} TypesStay(env: Environment, s: State, commits: seq<CommitData>, t: State)
    requires HasLog(s) && Runs(env, s, commits, t)
    ensures |t.log| >= |s.log| && forall k :: 0 <= k < |s.log| ==> t.log[k].tpe == s.log[k].tpe
    decreases |commits|
  {
    if commits != [] {
      LogGrows(env, s, commits[0]);
      TypesStay(env, Applied(env, s, commits[0]), commits[1..], t);
    }
  }

  // ---------------------------------------------------------------- controllers of a run

  /** One controller, or none after null. */
  predicate OneController(h: Header) {
    h.controllers.Cleared? || (h.controllers.Given? && |h.controllers.value| == 1 && h.controllers.value[0] != "")
  }

  lemma {:induction false} RunsKeepOneController(env: Environment, s: State, commits: seq<CommitData>, t: State)
    requires OneController(s.metadata) && OneController(CurrentMetadata(s)) && Runs(env, s, commits, t)
    ensures OneController(t.metadata) && OneController(CurrentMetadata(t))
    decreases |commits|
  {
    if commits != [] {
      RunsKeepOneController(env, Applied(env, s, commits[0]), commits[1..], t);
    }
  }
}
