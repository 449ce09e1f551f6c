/**
 Empty `and` and `or` groups of a filter print nothing, so they vanish together with the negations around
 them. For which filters that changes the answer.
 */
module QueryFilterGroups {
  import opened Wrappers
  import opened Knex
  import opened QueryFilterParser
  import opened QueryFilterMeaning
  import opened QueryFilterAcceptance

  // ---------------------------------------------------------------- harmless groups

  /** The documented truth of a filter made of empty groups only. */
  predicate Constant(f: ApiFilter) {
    match f
    case ApiWhere(_) => true
    case ApiAnd(fs) => forall k :: 0 <= k < |fs| ==> Constant(fs[k])
    case ApiOr(fs) => exists k :: 0 <= k < |fs| && Constant(fs[k])
    case ApiNot(g) => !Constant(g)
    case Malformed => false
  }

  /**
   Whatever vanishes was true where it stood in an `and` or was the whole filter, and false where it
   stood in an `or`.
   */
  predicate Harmless(f: ApiFilter)
    decreases f, 0
  {
    if Prune(f).None? then Constant(f) else
    match f
    case ApiAnd(fs) => forall k :: 0 <= k < |fs| ==> HarmlessIn(fs[k], Connective.And)
    case ApiOr(fs) => forall k :: 0 <= k < |fs| ==> HarmlessIn(fs[k], Connective.Or)
    case ApiNot(g) => Harmless(g)
    case _ => true
  }

  predicate HarmlessIn(f: ApiFilter, connective: Connective)
    decreases f, 1
  {
    if Prune(f).None? then Constant(f) == connective.And? else Harmless(f)
  }

  function Neutral(connective: Connective): Truth {
    Decide(connective.And?)
  }

  lemma {:induction false} ConstantTruth(db: Database, row: Row, f: ApiFilter)
    requires Prune(f).None?
    ensures ApiTruth(db, row, f) == Decide(Constant(f))
  {
    match f
    case ApiWhere(_) =>
    case ApiAnd(fs) => ConstantTruths(db, row, fs);
    case ApiOr(fs) => ConstantTruths(db, row, fs);
    case ApiNot(g) => ConstantTruth(db, row, g);
  }

  lemma {:induction false} ConstantTruths(db: Database, row: Row, fs: seq<ApiFilter>)
    requires PruneList(fs) == []
    ensures ConjAll(ApiTruths(db, row, fs)) == Decide(forall k :: 0 <= k < |fs| ==> Constant(fs[k]))
    ensures DisjAll(ApiTruths(db, row, fs)) == Decide(exists k :: 0 <= k < |fs| && Constant(fs[k]))
  {
    if fs != [] {
      ConstantTruth(db, row, fs[0]);
      ConstantTruths(db, row, fs[1..]);
      assert ApiTruths(db, row, fs)[1..] == ApiTruths(db, row, fs[1..]);
      assert forall k :: 1 <= k < |fs| ==> fs[k] == fs[1..][k - 1];
      assert (exists k :: 0 <= k < |fs| && Constant(fs[k])) <==>
          Constant(fs[0]) || exists k :: 0 <= k < |fs[1..]| && Constant(fs[1..][k]) by {
        if k :| 0 <= k < |fs[1..]| && Constant(fs[1..][k]) {
          assert Constant(fs[k + 1]);
        }
      }
    }
  }

  /** Harmless groups may go without changing the truth of the filter on any row. */
  lemma {:induction false} PruningKeepsTruth(db: Database, row: Row, f: ApiFilter)
    requires Harmless(f)
    ensures PrunedTruth(db, row, f) == if Prune(f).None? then None else Some(ApiTruth(db, row, f))
  {
    if Prune(f).Some? {
      match f
      case ApiWhere(_) =>
      case ApiAnd(fs) => PruningKeepsFold(db, row, fs, Connective.And);
      case ApiOr(fs) => PruningKeepsFold(db, row, fs, Connective.Or);
      case ApiNot(g) => PruningKeepsTruth(db, row, g);
      case Malformed =>
    }
  }

  lemma {:induction false} PruningKeepsFold(db: Database, row: Row, fs: seq<ApiFilter>, connective: Connective)
    requires forall k :: 0 <= k < |fs| ==> HarmlessIn(fs[k], connective)
    ensures Fold(connective, ApiTruths(db, row, PruneList(fs))) == Fold(connective, ApiTruths(db, row, fs))
  {
    if fs != [] {
      PruningKeepsFold(db, row, fs[1..], connective);
      FoldStep(db, row, fs, connective);
      if Prune(fs[0]).None? {
        ConstantTruth(db, row, fs[0]);
      } else {
        PruningKeepsTruth(db, row, fs[0]);
      }
    }
  }

  /** The first member of a group, in the documented truth and in what is left. */
  lemma FoldStep(db: Database, row: Row, fs: seq<ApiFilter>, connective: Connective)
    requires fs != []
    ensures Fold(connective, ApiTruths(db, row, fs))
         == Connect(connective, ApiTruth(db, row, fs[0]), Fold(connective, ApiTruths(db, row, fs[1..])))
    ensures Fold(connective, ApiTruths(db, row, PruneList(fs))) ==
              var rest := Fold(connective, ApiTruths(db, row, PruneList(fs[1..])));
              if Prune(fs[0]).None? then rest else Connect(connective, PrunedTruth(db, row, fs[0]).value, rest)
  {
    assert fs == [fs[0]] + fs[1..];
    FoldInFront(db, row, fs[0], fs[1..], connective);
    if Prune(fs[0]).None? {
      assert PruneList(fs) == PruneList(fs[1..]);
    } else {
      FoldInFront(db, row, Prune(fs[0]).value, PruneList(fs[1..]), connective);
    }
  }

  /** Does the compiled filter select the row exactly when the filter is true for it? */
  ghost predicate Faithful(db: Database, row: Row, f: ApiFilter)
    requires Compile(f).Success?
  {
    Selects(db, row, Compile(f).value) <==> ApiTruth(db, row, f).Yes?
  }

  /** Without `notIn` and with harmless groups the compiled filter means what the API documents. */
  lemma CompilationIsFaithful(db: Database, row: Row, f: ApiFilter)
    requires Harmless(f) && !UsesNotIn(f) && Compile(f).Success?
    ensures Faithful(db, row, f)
  {
    NothingToReplace(f);
    CompilationPreservesMeaning(db, row, f);
    PruningKeepsTruth(db, row, f);
    if Prune(f).None? {
      ConstantTruth(db, row, f);
    }
  }

  // ---------------------------------------------------------------- filters of the same shape

  /** The same groups and negations around possibly other conditions. */
  ghost predicate SameShape(f: ApiFilter, g: ApiFilter) {
    match (f, g)
    case (ApiWhere(xs), ApiWhere(ys)) => xs == [] <==> ys == []
    case (ApiAnd(fs), ApiAnd(gs)) => SameShapes(fs, gs)
    case (ApiOr(fs), ApiOr(gs)) => SameShapes(fs, gs)
    case (ApiNot(a), ApiNot(b)) => SameShape(a, b)
    case (Malformed, Malformed) => true
    case _ => false
  }

  ghost predicate SameShapes(fs: seq<ApiFilter>, gs: seq<ApiFilter>)
    decreases fs
  {
    |fs| == |gs| && forall k :: 0 <= k < |fs| ==> SameShape(fs[k], gs[k])
  }

  lemma {:induction false} ShapeDecides(f: ApiFilter, g: ApiFilter)
    requires SameShape(f, g)
    ensures (Prune(f).None? <==> Prune(g).None?) && (Constant(f) <==> Constant(g)) && (Harmless(f) <==> Harmless(g))
  {
    match f
    case ApiWhere(_) =>
    case ApiAnd(fs) => ShapesDecide(fs, g.filters);
    case ApiOr(fs) => ShapesDecide(fs, g.filters);
    case ApiNot(a) => ShapeDecides(a, g.filter);
    case Malformed =>
  }

  lemma {:induction false} ShapesDecide(fs: seq<ApiFilter>, gs: seq<ApiFilter>)
    requires SameShapes(fs, gs)
    ensures PruneList(fs) == [] <==> PruneList(gs) == []
    ensures forall k :: 0 <= k < |fs| ==> (Prune(fs[k]).None? <==> Prune(gs[k]).None?)
    ensures forall k :: 0 <= k < |fs| ==> (Constant(fs[k]) <==> Constant(gs[k]))
    ensures forall k, c :: 0 <= k < |fs| ==> (HarmlessIn(fs[k], c) <==> HarmlessIn(gs[k], c))
    decreases fs
  {
    forall k | 0 <= k < |fs|
      ensures (Prune(fs[k]).None? <==> Prune(gs[k]).None?) && (Constant(fs[k]) <==> Constant(gs[k]))
      ensures Harmless(fs[k]) <==> Harmless(gs[k])
    {
      ShapeDecides(fs[k], gs[k]);
    }
    PrunedAwayIff(fs);
    PrunedAwayIff(gs);
  }

  lemma {:induction false} PrunedAwayIff(fs: seq<ApiFilter>)
    ensures PruneList(fs) == [] <==> forall k :: 0 <= k < |fs| ==> Prune(fs[k]).None?
  {
    if fs != [] {
      PrunedAwayIff(fs[1..]);
      assert forall k :: 1 <= k < |fs| ==> fs[k] == fs[1..][k - 1];
    }
  }

  // ---------------------------------------------------------------- harmful groups give wrong answers

  /** Filters that compile, and may stand inside others. */
  ghost predicate Usable(f: ApiFilter) {
    Accepted(f) && !UsesNotIn(f)
  }

  const EMPTY_ROW: Row := map[]

  /** A condition with this truth on the empty row. */
  function Leaf(t: bool): ApiFilter {
    ApiWhere([FieldFilter("x", [IsNull(t)])])
  }

  lemma LeafTruth(db: Database, t: bool)
    ensures Usable(Leaf(t)) && Prune(Leaf(t)) == Some(Leaf(t)) && ApiTruth(db, EMPTY_ROW, Leaf(t)) == Decide(t)
  {
    WhereOneOp(db, EMPTY_ROW, "x", IsNull(t));
  }

  /** The conditions can be chosen so that what is left of the filter has a given truth. */
  lemma {:induction false} Force(db: Database, f: ApiFilter, t: bool) returns (g: ApiFilter)
    requires Accepted(f) && Prune(f).Some?
    ensures SameShape(f, g) && Usable(g) && ApiTruth(db, EMPTY_ROW, g) != Unknown
    ensures PrunedTruth(db, EMPTY_ROW, g) == Some(Decide(t))
    decreases f
  {
    match f
    case ApiWhere(_) =>
      g := Leaf(t);
      LeafTruth(db, t);
    case ApiAnd(fs) =>
      var gs := ForceAll(db, fs, Connective.And, t);
      g := ApiAnd(gs);
      ShapeDecides(f, g);
    case ApiOr(fs) =>
      var gs := ForceAll(db, fs, Connective.Or, t);
      g := ApiOr(gs);
      ShapeDecides(f, g);
    case ApiNot(a) =>
      var b := Force(db, a, !t);
      g := ApiNot(b);
  }

  /** A list with the shape of `fs`. */
  ghost predicate Replaces(fs: seq<ApiFilter>, gs: seq<ApiFilter>) {
    SameShapes(fs, gs) && forall k :: 0 <= k < |gs| ==> Usable(gs[k])
  }

  /** The truth of a group on the empty row, and the truth of what is left of it. */
  function GroupTruth(db: Database, gs: seq<ApiFilter>, c: Connective): Truth {
    Fold(c, ApiTruths(db, EMPTY_ROW, gs))
  }

  function LeftTruth(db: Database, gs: seq<ApiFilter>, c: Connective): Truth {
    Fold(c, ApiTruths(db, EMPTY_ROW, PruneList(gs)))
  }

  lemma ReplaceFirst(db: Database, fs: seq<ApiFilter>, head: ApiFilter, rest: seq<ApiFilter>, c: Connective)
    requires fs != [] && SameShape(fs[0], head) && Usable(head) && Replaces(fs[1..], rest)
    ensures Replaces(fs, [head] + rest)
    ensures Prune(fs[0]).None? <==> Prune(head).None?
    ensures PruneList(fs[1..]) == [] <==> PruneList(rest) == []
    ensures PruneList(fs) == [] <==> Prune(head).None? && PruneList(rest) == []
    ensures GroupTruth(db, [head] + rest, c) == Connect(c, ApiTruth(db, EMPTY_ROW, head), GroupTruth(db, rest, c))
    ensures Prune(head).None? ==> LeftTruth(db, [head] + rest, c) == LeftTruth(db, rest, c)
    ensures Prune(head).Some? ==>
              LeftTruth(db, [head] + rest, c)
              == Connect(c, PrunedTruth(db, EMPTY_ROW, head).value, LeftTruth(db, rest, c))
  {
    var gs := [head] + rest;
    assert gs[1..] == rest;
    assert forall k :: 1 <= k < |fs| ==> fs[k] == fs[1..][k - 1] && gs[k] == rest[k - 1];
    ShapeDecides(fs[0], head);
    ShapesDecide(fs[1..], rest);
    FoldStep(db, EMPTY_ROW, gs, c);
  }

  lemma {:induction false} ForceAll(db: Database, fs: seq<ApiFilter>, c: Connective, t: bool)
    returns (gs: seq<ApiFilter>)
    requires forall k :: 0 <= k < |fs| ==> Accepted(fs[k])
    ensures Replaces(fs, gs)
    ensures GroupTruth(db, gs, c) != Unknown
    ensures LeftTruth(db, gs, c) == if PruneList(fs) == [] then Neutral(c) else Decide(t)
    decreases fs
  {
    if fs == [] {
      gs := [];
    } else {
      var rest := ForceAll(db, fs[1..], c, t);
      var head := fs[0];
      if Prune(fs[0]).Some? {
        head := Force(db, fs[0], t);
      } else {
        NothingPrinted(db, head);
      }
      gs := [head] + rest;
      ReplaceFirst(db, fs, head, rest, c);
    }
  }

  lemma NothingPrinted(db: Database, f: ApiFilter)
    requires Prune(f).None?
    ensures SameShape(f, f) && !UsesNotIn(f) && ApiTruth(db, EMPTY_ROW, f) == Decide(Constant(f))
  {
    SameShapeReflexive(f);
    NothingPrintedUsesNoNotIn(f);
    ConstantTruth(db, EMPTY_ROW, f);
  }

  lemma {:induction false} SameShapeReflexive(f: ApiFilter)
    ensures SameShape(f, f)
  {
    match f
    case ApiAnd(fs) =>
      forall k | 0 <= k < |fs| ensures SameShape(fs[k], fs[k]) {
        SameShapeReflexive(fs[k]);
      }
    case ApiOr(fs) =>
      forall k | 0 <= k < |fs| ensures SameShape(fs[k], fs[k]) {
        SameShapeReflexive(fs[k]);
      }
    case ApiNot(g) => SameShapeReflexive(g);
    case _ =>
  }

  lemma {:induction false} NothingPrintedUsesNoNotIn(f: ApiFilter)
    requires Prune(f).None?
    ensures !UsesNotIn(f)
  {
    match f
    case ApiWhere(_) =>
    case ApiAnd(fs) =>
      PrunedAwayIff(fs);
      forall k | 0 <= k < |fs| ensures !UsesNotIn(fs[k]) {
        NothingPrintedUsesNoNotIn(fs[k]);
      }
    case ApiOr(fs) =>
      PrunedAwayIff(fs);
      forall k | 0 <= k < |fs| ensures !UsesNotIn(fs[k]) {
        NothingPrintedUsesNoNotIn(fs[k]);
      }
    case ApiNot(g) => NothingPrintedUsesNoNotIn(g);
  }

  /** On the empty row what is left of the filter is decided otherwise than the filter. */
  ghost predicate Differs(db: Database, g: ApiFilter) {
    var t, p := ApiTruth(db, EMPTY_ROW, g), PrunedTruth(db, EMPTY_ROW, g);
    t != Unknown && p.Some? && p.value != Unknown && t != p.value
  }

  lemma {:induction false} HarmfulDiffers(db: Database, f: ApiFilter) returns (g: ApiFilter)
    requires Accepted(f) && Prune(f).Some? && !Harmless(f)
    ensures SameShape(f, g) && Usable(g) && Differs(db, g)
    decreases f
  {
    match f
    case ApiAnd(fs) =>
      var gs := HarmfulGroupDiffers(db, fs, Connective.And);
      g := ApiAnd(gs);
      ShapeDecides(f, g);
    case ApiOr(fs) =>
      var gs := HarmfulGroupDiffers(db, fs, Connective.Or);
      g := ApiOr(gs);
      ShapeDecides(f, g);
    case ApiNot(a) =>
      var b := HarmfulDiffers(db, a);
      g := ApiNot(b);
  }

  /** The truth of a group and of what is left of it are decided, and differ. */
  ghost predicate GroupDiffers(db: Database, gs: seq<ApiFilter>, c: Connective) {
    var t, p := GroupTruth(db, gs, c), LeftTruth(db, gs, c);
    t != Unknown && p != Unknown && t != p
  }

  lemma {:induction false} HarmfulGroupDiffers(db: Database, fs: seq<ApiFilter>, c: Connective)
    returns (gs: seq<ApiFilter>)
    requires forall k :: 0 <= k < |fs| ==> Accepted(fs[k])
    requires PruneList(fs) != [] && exists k :: 0 <= k < |fs| && !HarmlessIn(fs[k], c)
    ensures Replaces(fs, gs) && GroupDiffers(db, gs, c)
    decreases fs, 1
  {
    if k :| 0 <= k < |fs| && Prune(fs[k]).None? && Constant(fs[k]) != c.And? {
      gs := ForceAll(db, fs, c, c.And?);
      ShapesDecide(fs, gs);
      ConstantTruth(db, EMPTY_ROW, gs[k]);
      DominatedFold(ApiTruths(db, EMPTY_ROW, gs), c, k);
    } else {
      gs := RestDiffers(db, fs, c);
    }
  }

  lemma {:induction false} DominatedFold(ts: seq<Truth>, c: Connective, k: nat)
    requires k < |ts| && ts[k] == Not(Neutral(c))
    ensures Fold(c, ts) == Not(Neutral(c))
  {
    if k > 0 {
      DominatedFold(ts[1..], c, k - 1);
    }
  }

  /** When all members that print nothing are harmless, one that does print is not. */
  lemma {:induction false} RestDiffers(db: Database, fs: seq<ApiFilter>, c: Connective) returns (gs: seq<ApiFilter>)
    requires forall k :: 0 <= k < |fs| ==> Accepted(fs[k]) && (Prune(fs[k]).None? ==> HarmlessIn(fs[k], c))
    requires exists k :: 0 <= k < |fs| && !HarmlessIn(fs[k], c)
    ensures Replaces(fs, gs) && GroupDiffers(db, gs, c)
    decreases fs, 0
  {
    assert forall k :: 1 <= k < |fs| ==> fs[k] == fs[1..][k - 1];
    var head, rest;
    if HarmlessIn(fs[0], c) {
      head := NeutralMember(db, fs[0], c);
      rest := RestDiffers(db, fs[1..], c);
    } else {
      head := HarmfulDiffers(db, fs[0]);
      if ApiTruth(db, EMPTY_ROW, head) == Neutral(c) {
        if AllHarmless(fs[1..], c) {
          rest := NeutralMembers(db, fs[1..], c);
        } else {
          rest := RestDiffers(db, fs[1..], c);
          if GroupTruth(db, rest, c) != Neutral(c) {
            head := Force(db, fs[0], c.And?);
          }
        }
      } else {
        rest := ForceAll(db, fs[1..], c, c.And?);
      }
    }
    gs := [head] + rest;
    ReplaceFirst(db, fs, head, rest, c);
  }

  predicate AllHarmless(fs: seq<ApiFilter>, c: Connective) {
    forall k :: 0 <= k < |fs| ==> HarmlessIn(fs[k], c)
  }

  lemma NeutralMembers(db: Database, fs: seq<ApiFilter>, c: Connective) returns (gs: seq<ApiFilter>)
    requires forall k :: 0 <= k < |fs| ==> Accepted(fs[k])
    requires AllHarmless(fs, c)
    ensures Replaces(fs, gs) && GroupTruth(db, gs, c) == LeftTruth(db, gs, c) == Neutral(c)
  {
    gs := ForceAll(db, fs, c, c.And?);
    ShapesDecide(fs, gs);
    PruningKeepsFold(db, EMPTY_ROW, gs, c);
  }

  /** A harmless member can be made to matter to nobody else. */
  lemma NeutralMember(db: Database, f: ApiFilter, c: Connective) returns (g: ApiFilter)
    requires Accepted(f) && HarmlessIn(f, c)
    ensures SameShape(f, g) && Usable(g) && ApiTruth(db, EMPTY_ROW, g) == Neutral(c)
    ensures Prune(g).Some? ==> PrunedTruth(db, EMPTY_ROW, g) == Some(Neutral(c))
  {
    if Prune(f).None? {
      g := f;
      NothingPrinted(db, f);
    } else {
      g := Force(db, f, c.And?);
      ShapeDecides(f, g);
      PruningKeepsTruth(db, EMPTY_ROW, g);
    }
  }

  /**
   Main result: for filters with these groups, whatever the conditions in them, compilation is faithful
   on every row exactly when the empty groups are harmless.
   */
  lemma HarmlessExactly(db: Database, f: ApiFilter)
    requires Compile(f).Success?
    ensures Harmless(f) <==>
              forall g, row :: SameShape(f, g) && !UsesNotIn(g) && Compile(g).Success? ==> Faithful(db, row, g)
  {
    CompilesExactly(f);
    if Harmless(f) {
      forall g, row | SameShape(f, g) && !UsesNotIn(g) && Compile(g).Success? ensures Faithful(db, row, g) {
        ShapeDecides(f, g);
        CompilationIsFaithful(db, row, g);
      }
    } else {
      var g := f;
      if Prune(f).None? {
        NothingPrinted(db, f);
      } else {
        g := HarmfulDiffers(db, f);
      }
      CompilesExactly(g);
      NothingToReplace(g);
      CompilationPreservesMeaning(db, EMPTY_ROW, g);
      assert !Faithful(db, EMPTY_ROW, g);
    }
  }

  /** The negation of an empty `and` is false, and an empty `or` is false; both select every row. */
  lemma EmptyGroupsSelectEverything(db: Database, row: Row, f: ApiFilter)
    requires f == ApiNot(ApiAnd([])) || f == ApiOr([])
    ensures Compile(f).Success? && Selects(db, row, Compile(f).value) && ApiTruth(db, row, f).No?
  {
    CompilesExactly(f);
    NothingToReplace(f);
    CompilationPreservesMeaning(db, row, f);
    ConstantTruth(db, row, f);
  }
}
