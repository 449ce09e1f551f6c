/** What every run of accepted commits keeps of a tile document. */
module TileRuns {
  import opened Wrappers
  import opened StreamState
  import opened TileDocumentHandler

  ghost predicate Inv(s: State) {
    && HasLog(s)
    // one INIT entry, in front
    && s.log[0].tpe.INIT? && (forall i :: 1 <= i < |s.log| ==> !s.log[i].tpe.INIT?)
    // pending content exactly after a DATA entry
    && (s.next.Some? <==> s.log[|s.log| - 1].tpe.DATA?)
    // anchored exactly after a TIME entry
    && (s.anchorStatus.ANCHORED? <==> s.log[|s.log| - 1].tpe.TIME?)
    && s.content.Truthy?
  }

  /** A run: from one state, through accepted commits, to another. */
  ghost predicate Runs(env: Environment, s: State, commits: seq<CommitData>, t: State)
    decreases |commits|
  {
    if commits == [] then s == t
    else Accepted(env, s, commits[0]) && Runs(env, Applied(env, s, commits[0]), commits[1..], t)
  }

  lemma GenesisInv(env: Environment, c: CommitData)
    requires GenesisAccepted(env, c)
    ensures Inv(GenesisState(c))
  {
  }

  lemma AnchorLogKeeps(s: State, c: CommitData)
    ensures var log := AnchorLog(s, c);
      && |log| == |s.log| + 1
      && (forall i :: 0 <= i < |s.log| ==> log[i].cid == s.log[i].cid && log[i].tpe == s.log[i].tpe)
      && log[|s.log|] == LogEntry(c.cid, TIME, c.timestamp)
  {
  }

  lemma StepKeepsInv(env: Environment, s: State, c: CommitData)
    requires Inv(s) && Accepted(env, s, c)
    ensures Inv(Applied(env, s, c))
    ensures IsStateSupersetOf(Applied(env, s, c), s) && |Applied(env, s, c).log| == |s.log| + 1
  {
    if c.isAnchor {
      AnchorLogKeeps(s, c);
    }
  }

  /** Main result: the shape of the log, and every later state extends every earlier one. */
  lemma {:induction false} RunsKeepInv(env: Environment, s: State, commits: seq<CommitData>, t: State)
    requires Inv(s) && Runs(env, s, commits, t)
    ensures Inv(t) && IsStateSupersetOf(t, s) && |t.log| == |s.log| + |commits|
    decreases |commits|
  {
    if commits != [] {
      StepKeepsInv(env, s, commits[0]);
      RunsKeepInv(env, Applied(env, s, commits[0]), commits[1..], t);
    }
  }

  lemma RunsFromGenesis(env: Environment, c: CommitData, commits: seq<CommitData>, t: State)
    requires GenesisAccepted(env, c) && Runs(env, GenesisState(c), commits, t)
    ensures Inv(t) && IsStateSupersetOf(t, GenesisState(c)) && |t.log| == 1 + |commits|
  {
    GenesisInv(env, c);
    RunsKeepInv(env, GenesisState(c), commits, t);
  }

  // ---------------------------------------------------------------- anchoring

  /**
   An anchor leaves what readers see unchanged, except that pending content that JavaScript takes for
   false without being null (`false`, `0`, `""`) is dropped.
   */
  lemma AnchorKeepsWhatIsVisible(env: Environment, s: State, c: CommitData)
    requires Inv(s) && AnchorAccepted(s, c)
    ensures CurrentMetadata(Anchored(s, c)) == CurrentMetadata(s)
    ensures CurrentContent(Anchored(s, c)) == CurrentContent(s) <==> !(s.next.Some? && s.next.value.content.Falsy?)
  {
  }

  lemma {:induction false} FirstTimeOf(log: seq<LogEntry>, k: nat)
    requires k < |log| && log[k].tpe.TIME? && forall j :: 0 <= j < k ==> !log[j].tpe.TIME?
    ensures FirstTime(log) == log[k].timestamp
  {
    if k > 0 {
      FirstTimeOf(log[1..], k - 1);
    }
  }

  /** Right after an anchor each entry that is not TIME carries the timestamp of the first TIME entry after it. */
  lemma AnchorStampsTheLog(s: State, c: CommitData, i: nat, k: nat)
    requires AnchorAccepted(s, c) && i < k < |Anchored(s, c).log|
    requires !Anchored(s, c).log[i].tpe.TIME? && Anchored(s, c).log[k].tpe.TIME?
    requires forall j :: i <= j < k ==> !Anchored(s, c).log[j].tpe.TIME?
    ensures Anchored(s, c).log[i].timestamp == Anchored(s, c).log[k].timestamp
  {
    var before := s.log + [LogEntry(c.cid, TIME, c.timestamp)];
    assert Anchored(s, c).log == Stamped(before);
    StampedAt(before, i, k);
  }

  lemma StampedAt(log: seq<LogEntry>, i: nat, k: nat)
    requires i < k < |log| && !log[i].tpe.TIME? && log[k].tpe.TIME?
    requires forall j :: i <= j < k ==> !Stamped(log)[j].tpe.TIME?
    ensures Stamped(log)[i].timestamp == Stamped(log)[k].timestamp
  {
    forall j | 0 <= j < k - i ensures !log[i..][j].tpe.TIME? {
      assert log[i..][j] == log[i + j] && !Stamped(log)[i + j].tpe.TIME?;
    }
    assert log[i..][k - i] == log[k];
    FirstTimeOf(log[i..], k - i);
  }

  /** Every entry that is not TIME has a TIME entry after it once an anchor was applied. */
  lemma AnchorIsLast(s: State, c: CommitData)
    requires AnchorAccepted(s, c)
    ensures var log := Anchored(s, c).log; log[|log| - 1] == LogEntry(c.cid, TIME, c.timestamp)
  {
    AnchorLogKeeps(s, c);
  }

  // ---------------------------------------------------------------- controllers

  /** These are the controllers, and changing them is forbidden. */
  predicate Controlled(h: Header, controllers: seq<string>) {
    h.controllers == Given(controllers) && ForbidsControllerChange(h)
  }

  ghost predicate FullyControlled(s: State, controllers: seq<string>) {
    && Controlled(s.metadata, controllers)
    && (s.next.Some? ==> Controlled(s.next.value.metadata, controllers))
  }

  /** A signed commit whose header has the field, but with null in it: no check looks at it. */
  predicate ClearsControllers(c: CommitData) {
    !c.isAnchor && c.header.controllers.Cleared?
  }

  /** From a controlled state an accepted commit keeps control exactly when it does not clear the controllers. */
  lemma StepKeepsControlIff(env: Environment, s: State, c: CommitData, controllers: seq<string>)
    requires FullyControlled(s, controllers) && Accepted(env, s, c)
    ensures FullyControlled(Applied(env, s, c), controllers) <==> !ClearsControllers(c)
  {
  }

  /** Control is kept in every state of the run. */
  ghost predicate AlwaysControlled(env: Environment, s: State, commits: seq<CommitData>, controllers: seq<string>)
    decreases |commits|
  {
    && FullyControlled(s, controllers)
    && (commits != [] && Accepted(env, s, commits[0]) ==>
          AlwaysControlled(env, Applied(env, s, commits[0]), commits[1..], controllers))
  }

  /** A run keeps control throughout exactly when none of its commits clears the controllers. */
  lemma {:induction false} RunsKeepControlIff(env: Environment, s: State, commits: seq<CommitData>, t: State,
                                            controllers: seq<string>)
    requires FullyControlled(s, controllers) && Runs(env, s, commits, t)
    ensures AlwaysControlled(env, s, commits, controllers)
       <==> forall k :: 0 <= k < |commits| ==> !ClearsControllers(commits[k])
    decreases |commits|
  {
    if commits != [] {
      StepKeepsControlIff(env, s, commits[0], controllers);
      if !ClearsControllers(commits[0]) {
        RunsKeepControlIff(env, Applied(env, s, commits[0]), commits[1..], t, controllers);
        assert forall k :: 1 <= k < |commits| ==> commits[k] == commits[1..][k - 1];
        assert forall k :: 0 <= k < |commits[1..]| ==> commits[1..][k] == commits[k + 1];
      }
    }
  }

  /** What becomes of the controllers, by the commits alone. */
  datatype Control =
    | Kept
    | Pending  // cleared, and not anchored yet
    | Lost     // cleared for good

  function ControlAfter(control: Control, c: CommitData): Control {
    if control.Lost? then Lost
    else if c.isAnchor then (if control.Pending? then Lost else Kept)
    else match c.header.controllers
         case Missing => control
         case Cleared => Pending
         case Given(_) => Kept
  }

  function ControlAfterAll(control: Control, commits: seq<CommitData>): Control
    decreases |commits|
  {
    if commits == [] then control else ControlAfterAll(ControlAfter(control, commits[0]), commits[1..])
  }

  /** Pending metadata is out of reach of an anchor when there is none. */
  ghost predicate ControlIs(s: State, controllers: seq<string>, control: Control) {
    match control
    case Kept => FullyControlled(s, controllers)
    case Pending =>
      && Controlled(s.metadata, controllers) && s.next.Some?
      && s.next.value.metadata.controllers.Cleared? && ForbidsControllerChange(s.next.value.metadata)
    case Lost => s.next.None? && s.metadata.controllers.Cleared? && ForbidsControllerChange(s.metadata)
  }

  lemma StepMovesControl(env: Environment, s: State, c: CommitData, controllers: seq<string>, control: Control)
    requires ControlIs(s, controllers, control) && Accepted(env, s, c)
    ensures ControlIs(Applied(env, s, c), controllers, ControlAfter(control, c))
  {
  }

  lemma {:induction false} RunsMoveControl(env: Environment, s: State, commits: seq<CommitData>, t: State,
                                         controllers: seq<string>, control: Control)
    requires ControlIs(s, controllers, control) && Runs(env, s, commits, t)
    ensures ControlIs(t, controllers, ControlAfterAll(control, commits))
    decreases |commits|
  {
    if commits != [] {
      StepMovesControl(env, s, commits[0], controllers, control);
      RunsMoveControl(env, Applied(env, s, commits[0]), commits[1..], t, controllers,
                      ControlAfter(control, commits[0]));
    }
  }

  /**
   Main result: a tile created with `forbidControllerChange` keeps the flag, and nobody else ever controls
   it. It still has its controllers exactly when they were not cleared, or were given again before an
   anchor; only the anchored metadata is compared.
   */
  lemma ForbiddenControllerChange(env: Environment, c: CommitData, commits: seq<CommitData>, t: State)
    requires GenesisAccepted(env, c) && ForbidsControllerChange(c.header)
    requires Runs(env, GenesisState(c), commits, t)
    ensures FullyControlled(t, c.header.controllers.value) <==> ControlAfterAll(Kept, commits).Kept?
    ensures ForbidsControllerChange(t.metadata) && ForbidsControllerChange(CurrentMetadata(t))
    ensures Signer(t).None? <==> ControlAfterAll(Kept, commits).Lost?
    ensures Signer(t).Some? ==> Signer(t).value == c.header.controllers.value[0]
  {
    RunsMoveControl(env, GenesisState(c), commits, t, c.header.controllers.value, Kept);
  }

  /** Nobody can sign for this document. */
  predicate Frozen(s: State) {
    s.next.None? && FirstController(s.metadata).None?
  }

  /** A document without a controller accepts anchors only, and its content and metadata never change again. */
  lemma {:induction false} FrozenForever(env: Environment, s: State, commits: seq<CommitData>, t: State)
    requires Frozen(s) && Runs(env, s, commits, t)
    ensures forall k :: 0 <= k < |commits| ==> commits[k].isAnchor
    ensures Frozen(t) && t.content == s.content && t.metadata == s.metadata
    decreases |commits|
  {
    if commits != [] {
      FrozenForever(env, Applied(env, s, commits[0]), commits[1..], t);
      assert forall k :: 1 <= k < |commits| ==> commits[k] == commits[1..][k - 1];
    }
  }

  const OWNED := Header(Given(["did:me"]), Some(Truthy(1)), Missing)
  const CLEARING := Header(Cleared, None, Missing)

  function Commit(cid: Cid, prev: Cid, header: Header, isAnchor: bool): CommitData {
    CommitData(cid, None, prev, header, !isAnchor, None, 0, isAnchor, None, false)
  }

  /** The flag does not help: one signed commit with null for `controllers`, and an anchor, freeze the document. */
  lemma ClearedControllersFreeze(env: Environment) returns (t: State)
    requires env.verifySignature(Commit(1, 0, OWNED, false), "did:me")
    requires env.verifySignature(Commit(2, 1, CLEARING, false), "did:me")
    requires env.applyPatch(EMPTY_OBJECT, 0).Some?
    ensures GenesisAccepted(env, Commit(1, 0, OWNED, false)) && ForbidsControllerChange(OWNED)
    ensures Runs(env, GenesisState(Commit(1, 0, OWNED, false)),
                 [Commit(2, 1, CLEARING, false), Commit(3, 2, OWNED, true)], t)
    ensures Frozen(t) && t.metadata.controllers.Cleared?
  {
    var s := GenesisState(Commit(1, 0, OWNED, false));
    var clear, anchor := Commit(2, 1, CLEARING, false), Commit(3, 2, OWNED, true);
    assert Accepted(env, s, clear);
    var pending := Applied(env, s, clear);
    assert Accepted(env, pending, anchor);
    t := Applied(env, pending, anchor);
    assert Runs(env, t, [], t);
    assert [anchor][1..] == [] && Runs(env, pending, [anchor], t);
    assert [clear, anchor][1..] == [anchor] && Runs(env, s, [clear, anchor], t);
  }

  // ---------------------------------------------------------------- schemas

  /** The new content of an accepted commit obeys the schema, unless the commit clears that as well. */
  lemma SchemaIsEnforcedUnlessCleared(env: Environment, s: State, c: CommitData, schema: string)
    requires SignedChecks(env, s, c) && CurrentMetadata(s).schema == Given(schema) && schema != ""
    requires env.applyPatch(CurrentContent(s), c.patch).Some? && !c.header.schema.Given?
    ensures SignedAccepted(env, s, c)
       <==> c.header.schema.Cleared? || env.validSchema(env.applyPatch(CurrentContent(s), c.patch).value, schema)
  {
  }
}
