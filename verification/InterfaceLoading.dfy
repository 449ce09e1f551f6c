/**
 Loading interfaces concurrently (packages/stream-model/src/model.ts:50-73). The table that calls share holds
 promises: an entry is there as soon as someone needs the interface, and whoever needs it later waits for
 the same promise. Steps are what happens between two suspension points, in any order.
 */
module InterfaceLoading {
  import opened Wrappers
  import opened ModelInterfaces

  type Answer = Result<seq<ModelId>, string>

  datatype Promise =
    | Fetching                    // `loadInterfaceImplements` is under way
    | Waiting(own: seq<ModelId>)  // for the interfaces that it implements directly
    | Settled(answer: Answer)

  datatype Loading = Loading(
    table: map<ModelId, Promise>,
    calls: map<nat, seq<ModelId>>,  // the calls from outside
    answers: map<nat, Answer>,
    fetched: seq<ModelId>)          // history of fetches

  datatype Event =
    | Call(call: nat, interfaces: seq<ModelId>)
    | Fetched(id: ModelId)
    | Settle(id: ModelId)
    | Reject(id: ModelId, parent: ModelId)
    | Return(call: nat)
    | Throw(call: nat, interface: ModelId)

  const NOTHING := Loading(map[], map[], map[], [])

  predicate Succeeded(table: map<ModelId, Promise>, id: ModelId) {
    id in table && table[id].Settled? && table[id].answer.Success?
  }

  predicate Failed(table: map<ModelId, Promise>, id: ModelId) {
    id in table && table[id].Settled? && table[id].answer.Failure?
  }

  predicate Pending(table: map<ModelId, Promise>, id: ModelId) {
    id in table && !table[id].Settled?
  }

  predicate AllSucceeded(table: map<ModelId, Promise>, ids: seq<ModelId>) {
    forall id :: id in ids ==> Succeeded(table, id)
  }

  predicate Enabled(s: Loading, e: Event) {
    match e
    case Call(c, _) => c !in s.calls
    case Fetched(id) => id in s.table && s.table[id].Fetching?
    case Settle(id) => id in s.table && s.table[id].Waiting? && AllSucceeded(s.table, s.table[id].own)
    case Reject(id, parent) =>
      id in s.table && s.table[id].Waiting? && parent in s.table[id].own && Failed(s.table, parent)
    case Return(c) => c in s.calls && c !in s.answers && AllSucceeded(s.table, s.calls[c])
    case Throw(c, id) => c in s.calls && c !in s.answers && id in s.calls[c] && Failed(s.table, id)
  }

  /** Starts fetching what nobody has asked for before. */
  function Claim(s: Loading, ids: seq<ModelId>): Loading
    decreases |ids|
  {
    if ids == [] then s
    else if ids[0] in s.table then Claim(s, ids[1..])
    else Claim(OneMore(s, ids[0]), ids[1..])
  }

  function OneMore(s: Loading, id: ModelId): Loading {
    s.(table := s.table[id := Fetching], fetched := s.fetched + [id])
  }

  /** `loaded.flat()` */
  function Flat(table: map<ModelId, Promise>, ids: seq<ModelId>): seq<ModelId>
    requires AllSucceeded(table, ids)
  {
    if ids == [] then [] else
    assert ids[0] in ids && Succeeded(table, ids[0]);
    table[ids[0]].answer.value + Flat(table, ids[1..])
  }

  function All(table: map<ModelId, Promise>, ids: seq<ModelId>): seq<ModelId>
    requires AllSucceeded(table, ids)
  {
    Unique(ids + Flat(table, ids))
  }

  function Next(models: Models, s: Loading, e: Event): Loading
    requires Enabled(s, e)
  {
    match e
    case Call(c, interfaces) => Claim(s, interfaces).(calls := s.calls[c := interfaces])
    case Fetched(id) =>
      var own := LoadInterfaceImplements(models, id);
      if own.Failure? then s.(table := s.table[id := Settled(own)])
      else
        var claimed := Claim(s, own.value);
        claimed.(table := claimed.table[id := Waiting(own.value)])
    case Settle(id) =>
      var own := s.table[id].own;
      s.(table := s.table[id := Settled(Success(own + All(s.table, own)))])
    case Reject(id, parent) => s.(table := s.table[id := s.table[parent]])
    case Return(c) => s.(answers := s.answers[c := Success(All(s.table, s.calls[c]))])
    case Throw(c, id) => s.(answers := s.answers[c := s.table[id].answer])
  }

  // ---------------------------------------------------------------- what every step keeps

  ghost predicate RightPromise(models: Models, table: map<ModelId, Promise>, id: ModelId, promise: Promise) {
    match promise
    case Fetching => true
    case Waiting(own) =>
      IsInterface(models, id) && own == Parents(models, id) && forall x :: x in own ==> x in table
    case Settled(answer) => RightEntry(models, id, answer)
  }

  ghost predicate PromisesRight(models: Models, table: map<ModelId, Promise>) {
    forall id :: id in table ==> RightPromise(models, table, id, table[id])
  }

  ghost predicate FetchedOnce(s: Loading) {
    Distinct(s.fetched) && forall id :: id in s.fetched <==> id in s.table
  }

  /** Someone outside needs this interface. */
  ghost predicate Needed(models: Models, calls: map<nat, seq<ModelId>>, id: ModelId) {
    exists c :: c in calls && ReachedFrom(models, calls[c], id)
  }

  ghost predicate OnlyNeeded(models: Models, s: Loading) {
    forall id :: id in s.table ==> Needed(models, s.calls, id)
  }

  ghost predicate CallsClaimed(s: Loading) {
    forall c :: c in s.calls ==> forall id :: id in s.calls[c] ==> id in s.table
  }

  /** Right, and without duplicates. */
  ghost predicate Answered(models: Models, interfaces: seq<ModelId>, answer: Answer) {
    RightAnswer(models, interfaces, answer) && (answer.Success? ==> Distinct(answer.value))
  }

  ghost predicate AnswersRight(models: Models, calls: map<nat, seq<ModelId>>, answers: map<nat, Answer>) {
    forall c :: c in answers ==> c in calls && Answered(models, calls[c], answers[c])
  }

  ghost predicate Inv(models: Models, s: Loading) {
    && PromisesRight(models, s.table) && FetchedOnce(s) && OnlyNeeded(models, s)
    && CallsClaimed(s) && AnswersRight(models, s.calls, s.answers)
  }

  /** Claiming only adds what is needed and not there, each once. */
  lemma {:induction false} ClaimAdds(s: Loading, ids: seq<ModelId>)
    ensures var t := Claim(s, ids);
      && t.calls == s.calls && t.answers == s.answers
      && (forall id :: id in t.table <==> id in s.table || id in ids)
      && (forall id :: id in t.table ==> t.table[id] == if id in s.table then s.table[id] else Fetching)
      && (FetchedOnce(s) ==> FetchedOnce(t))
    decreases |ids|
  {
    if ids != [] {
      ClaimAdds(if ids[0] in s.table then s else OneMore(s, ids[0]), ids[1..]);
    }
  }

  /** The answers that are there. */
  function Answers(table: map<ModelId, Promise>): map<ModelId, Answer> {
    map id | id in table && table[id].Settled? :: table[id].answer
  }

  lemma {:induction false} FlatIsInSome(table: map<ModelId, Promise>, ids: seq<ModelId>, x: ModelId)
    requires AllSucceeded(table, ids)
    ensures x in Flat(table, ids) <==> InSome(ids, Answers(table), x)
  {
    if ids != [] {
      FlatIsInSome(table, ids[1..], x);
      var id := ids[0];
      assert id in ids && Succeeded(table, id) && Answers(table)[id] == table[id].answer;
      assert forall y :: y in ids <==> y == id || y in ids[1..];
    }
  }

  /** When all have settled well, their answers make up the answer for the list. */
  lemma AllIsRight(models: Models, table: map<ModelId, Promise>, ids: seq<ModelId>)
    requires PromisesRight(models, table) && AllSucceeded(table, ids)
    ensures RightAnswer(models, ids, Success(All(table, ids)))
  {
    assert Filled(models, Answers(table)) by {
      forall id | id in Answers(table) ensures RightEntry(models, id, Answers(table)[id]) {
        assert RightPromise(models, table, id, table[id]);
      }
    }
    AnswerFromEntries(models, ids, Answers(table));
    forall x ensures x in All(table, ids) <==> ReachedFrom(models, ids, x) {
      FlatIsInSome(table, ids, x);
    }
  }

  /** One failure is enough for the list to fail. */
  lemma OneFailureIsRight(models: Models, table: map<ModelId, Promise>, ids: seq<ModelId>, id: ModelId)
    requires PromisesRight(models, table) && id in ids && Failed(table, id)
    ensures RightAnswer(models, ids, table[id].answer)
  {
    assert RightPromise(models, table, id, table[id]);
    var b :| ReachedFrom(models, [id], b) && !IsInterface(models, b);
    assert ReachedFrom(models, ids, b);
  }

  /** An entry changes, and the others stay right. */
  lemma UpdateKeepsRight(models: Models, table: map<ModelId, Promise>, id: ModelId, promise: Promise)
    requires PromisesRight(models, table) && id in table && RightPromise(models, table, id, promise)
    ensures PromisesRight(models, table[id := promise])
  {
    var after := table[id := promise];
    forall x | x in after ensures RightPromise(models, after, x, after[x]) {
      assert RightPromise(models, table, x, if x == id then promise else table[x]);
    }
  }

  lemma UpdateKeepsInv(models: Models, s: Loading, id: ModelId, promise: Promise)
    requires Inv(models, s) && id in s.table && RightPromise(models, s.table, id, promise)
    ensures Inv(models, s.(table := s.table[id := promise]))
  {
    UpdateKeepsRight(models, s.table, id, promise);
    UpdateKeepsNeeded(models, s, id, promise);
  }

  lemma UpdateKeepsNeeded(models: Models, s: Loading, id: ModelId, promise: Promise)
    requires OnlyNeeded(models, s) && id in s.table
    ensures OnlyNeeded(models, s.(table := s.table[id := promise]))
  {
  }

  lemma AnswerIsAdded(models: Models, calls: map<nat, seq<ModelId>>, answers: map<nat, Answer>, c: nat, answer: Answer)
    requires AnswersRight(models, calls, answers) && c in calls && Answered(models, calls[c], answer)
    ensures AnswersRight(models, calls, answers[c := answer])
  {
    forall d | d in answers[c := answer] ensures d in calls && Answered(models, calls[d], answers[c := answer][d]) {
      assert d == c || Answered(models, calls[d], answers[d]);
    }
  }

  lemma AnswerKeepsInv(models: Models, s: Loading, c: nat, answer: Answer)
    requires Inv(models, s) && c in s.calls && Answered(models, s.calls[c], answer)
    ensures Inv(models, s.(answers := s.answers[c := answer]))
  {
    AnswerIsAdded(models, s.calls, s.answers, c, answer);
  }

  lemma ClaimKeepsRight(models: Models, s: Loading, ids: seq<ModelId>)
    requires PromisesRight(models, s.table)
    ensures PromisesRight(models, Claim(s, ids).table)
  {
    ClaimAdds(s, ids);
    var after := Claim(s, ids).table;
    forall x | x in after ensures RightPromise(models, after, x, after[x]) {
      if x in s.table {
        assert RightPromise(models, s.table, x, s.table[x]);
      }
    }
  }

  /** What was needed stays needed when calls are added. */
  lemma NeededByMore(models: Models, calls: map<nat, seq<ModelId>>, c: nat, interfaces: seq<ModelId>, id: ModelId)
    requires c !in calls && (Needed(models, calls, id) || id in interfaces)
    ensures Needed(models, calls[c := interfaces], id)
  {
    if id in interfaces {
      ReachesItself(models, id);
      assert ReachedFrom(models, calls[c := interfaces][c], id);
    } else {
      var d :| d in calls && ReachedFrom(models, calls[d], id);
      assert calls[c := interfaces][d] == calls[d];
    }
  }

  lemma CallKeepsNeeded(models: Models, s: Loading, c: nat, interfaces: seq<ModelId>)
    requires OnlyNeeded(models, s) && c !in s.calls
    ensures OnlyNeeded(models, Next(models, s, Call(c, interfaces)))
  {
    var t := Next(models, s, Call(c, interfaces));
    ClaimAdds(s, interfaces);
    forall id | id in t.table ensures Needed(models, t.calls, id) {
      NeededByMore(models, s.calls, c, interfaces, id);
    }
  }

  lemma CallKeepsInv(models: Models, s: Loading, c: nat, interfaces: seq<ModelId>)
    requires Inv(models, s) && c !in s.calls
    ensures Inv(models, Next(models, s, Call(c, interfaces)))
  {
    ClaimAdds(s, interfaces);
    ClaimKeepsRight(models, s, interfaces);
    CallKeepsNeeded(models, s, c, interfaces);
    CallKeepsAnswers(models, s.calls, s.answers, c, interfaces);
  }

  lemma CallKeepsAnswers(models: Models, calls: map<nat, seq<ModelId>>, answers: map<nat, Answer>, c: nat,
                         interfaces: seq<ModelId>)
    requires AnswersRight(models, calls, answers) && c !in calls
    ensures AnswersRight(models, calls[c := interfaces], answers)
  {
    forall d | d in answers ensures d in calls && Answered(models, calls[c := interfaces][d], answers[d]) {
      assert Answered(models, calls[d], answers[d]);
    }
  }

  lemma {:induction false} ReachesOneMore(models: Models, a: ModelId, b: ModelId, c: ModelId)
    requires Reaches(models, a, b) && Names(models, b, c)
    ensures Reaches(models, a, c)
  {
    var chain :| Links(models, chain, a, b);
    assert Links(models, chain + [c], a, c);
  }

  lemma ParentsAreNeeded(models: Models, calls: map<nat, seq<ModelId>>, id: ModelId, x: ModelId)
    requires Needed(models, calls, id) && Names(models, id, x)
    ensures Needed(models, calls, x)
  {
    var c :| c in calls && ReachedFrom(models, calls[c], id);
    var a :| a in calls[c] && Reaches(models, a, id);
    ReachesOneMore(models, a, id, x);
    assert ReachedFrom(models, calls[c], x);
  }

  lemma ClaimKeepsNeeded(models: Models, s: Loading, id: ModelId)
    requires OnlyNeeded(models, s) && id in s.table
    ensures OnlyNeeded(models, Claim(s, Parents(models, id)))
  {
    var own := Parents(models, id);
    ClaimAdds(s, own);
    forall x | x in Claim(s, own).table ensures Needed(models, s.calls, x) {
      if x !in s.table {
        ParentsAreNeeded(models, s.calls, id, x);
      }
    }
  }

  /** What an interface implements is claimed with it. */
  lemma ClaimKeepsInv(models: Models, s: Loading, id: ModelId)
    requires Inv(models, s) && id in s.table
    ensures Inv(models, Claim(s, Parents(models, id)))
  {
    ClaimAdds(s, Parents(models, id));
    ClaimKeepsRight(models, s, Parents(models, id));
    ClaimKeepsNeeded(models, s, id);
  }

  lemma FetchedKeepsInv(models: Models, s: Loading, id: ModelId)
    requires Inv(models, s) && Enabled(s, Fetched(id))
    ensures Inv(models, Next(models, s, Fetched(id)))
  {
    var own := LoadInterfaceImplements(models, id);
    if own.Failure? {
      FailedEntryIsRight(models, id, own.error);
      UpdateKeepsInv(models, s, id, Settled(own));
    } else {
      WaitingKeepsInv(models, s, id, own.value);
    }
  }

  lemma WaitingKeepsInv(models: Models, s: Loading, id: ModelId, own: seq<ModelId>)
    requires Inv(models, s) && id in s.table && LoadInterfaceImplements(models, id) == Success(own)
    ensures var claimed := Claim(s, own);
      Inv(models, claimed.(table := claimed.table[id := Waiting(own)]))
  {
    ClaimKeepsInv(models, s, id);
    assert RightPromise(models, Claim(s, own).table, id, Waiting(own)) && id in Claim(s, own).table by {
      ClaimAdds(s, own);
    }
    UpdateKeepsInv(models, Claim(s, own), id, Waiting(own));
  }

  lemma SettleKeepsInv(models: Models, s: Loading, id: ModelId)
    requires Inv(models, s) && Enabled(s, Settle(id))
    ensures Inv(models, Next(models, s, Settle(id)))
  {
    var own := s.table[id].own;
    assert RightPromise(models, s.table, id, s.table[id]);
    AllIsRight(models, s.table, own);
    EntryFromParents(models, id, Success(All(s.table, own)));
    UpdateKeepsInv(models, s, id, Settled(Success(own + All(s.table, own))));
  }

  lemma RejectKeepsInv(models: Models, s: Loading, id: ModelId, parent: ModelId)
    requires Inv(models, s) && Enabled(s, Reject(id, parent))
    ensures Inv(models, Next(models, s, Reject(id, parent)))
  {
    assert RightPromise(models, s.table, id, s.table[id]);
    OneFailureIsRight(models, s.table, s.table[id].own, parent);
    EntryFromParents(models, id, s.table[parent].answer);
    UpdateKeepsInv(models, s, id, s.table[parent]);
  }

  lemma ReturnKeepsInv(models: Models, s: Loading, c: nat)
    requires Inv(models, s) && Enabled(s, Return(c))
    ensures Inv(models, Next(models, s, Return(c)))
  {
    AllIsRight(models, s.table, s.calls[c]);
    AnswerKeepsInv(models, s, c, Success(All(s.table, s.calls[c])));
  }

  lemma ThrowKeepsInv(models: Models, s: Loading, c: nat, id: ModelId)
    requires Inv(models, s) && Enabled(s, Throw(c, id))
    ensures Inv(models, Next(models, s, Throw(c, id)))
  {
    OneFailureIsRight(models, s.table, s.calls[c], id);
    AnswerKeepsInv(models, s, c, s.table[id].answer);
  }

  lemma PromiseStepKeepsInv(models: Models, s: Loading, e: Event)
    requires Inv(models, s) && Enabled(s, e) && (e.Fetched? || e.Settle? || e.Reject?)
    ensures Inv(models, Next(models, s, e))
  {
    match e
    case Fetched(id) => FetchedKeepsInv(models, s, id);
    case Settle(id) => SettleKeepsInv(models, s, id);
    case Reject(id, parent) => RejectKeepsInv(models, s, id, parent);
  }

  /** Every step keeps the table right and the answers given from it. */
  lemma StepKeepsInv(models: Models, s: Loading, e: Event)
    requires Inv(models, s) && Enabled(s, e)
    ensures Inv(models, Next(models, s, e))
  {
    match e
    case Call(c, interfaces) => CallKeepsInv(models, s, c, interfaces);
    case Return(c) => ReturnKeepsInv(models, s, c);
    case Throw(c, id) => ThrowKeepsInv(models, s, c, id);
    case _ => PromiseStepKeepsInv(models, s, e);
  }

  // ---------------------------------------------------------------- whole runs

  ghost predicate Runs(models: Models, s: Loading, events: seq<Event>, t: Loading)
    decreases |events|
  {
    if events == [] then s == t
    else Enabled(s, events[0]) && Runs(models, Next(models, s, events[0]), events[1..], t)
  }

  lemma {:induction false} RunKeepsInv(models: Models, s: Loading, events: seq<Event>, t: Loading)
    requires Inv(models, s) && Runs(models, s, events, t)
    ensures Inv(models, t)
    decreases |events|
  {
    if events != [] {
      StepKeepsInv(models, s, events[0]);
      RunKeepsInv(models, Next(models, s, events[0]), events[1..], t);
    }
  }

  /** Main result, for all concurrent calls and every order in which fetches return and promises settle. */
  lemma ConcurrentLoadsAreRight(models: Models, events: seq<Event>, t: Loading)
    requires Runs(models, NOTHING, events, t)
    // an answer holds exactly what is reachable, each once; it is a failure iff that is not all interfaces
    ensures forall c :: c in t.answers ==> c in t.calls && Answered(models, t.calls[c], t.answers[c])
    // nothing is fetched twice, or without need
    ensures Distinct(t.fetched) && forall id :: id in t.fetched ==> Needed(models, t.calls, id)
  {
    RunKeepsInv(models, NOTHING, events, t);
  }

  ghost predicate CanGoOn(s: Loading) {
    exists e :: Enabled(s, e) && !e.Call?
  }

  /** Behind a pending promise there is one that can make a step, as nothing waits for itself. */
  lemma {:induction false} PendingGoesOn(models: Models, rank: ModelId -> nat, s: Loading, id: ModelId)
    requires Ranked(models, rank) && PromisesRight(models, s.table) && Pending(s.table, id)
    ensures CanGoOn(s)
    decreases rank(id)
  {
    assert RightPromise(models, s.table, id, s.table[id]);
    if s.table[id].Fetching? {
      assert Enabled(s, Fetched(id));
    } else {
      var own := s.table[id].own;
      if x :| x in own && Pending(s.table, x) {
        PendingGoesOn(models, rank, s, x);
      } else if x :| x in own && Failed(s.table, x) {
        assert Enabled(s, Reject(id, x));
      } else {
        assert Enabled(s, Settle(id));
      }
    }
  }

  lemma CallGoesOn(models: Models, rank: ModelId -> nat, s: Loading, c: nat)
    requires Ranked(models, rank) && PromisesRight(models, s.table) && CallsClaimed(s)
    requires c in s.calls && c !in s.answers
    ensures CanGoOn(s)
  {
    if id :| id in s.calls[c] && Pending(s.table, id) {
      PendingGoesOn(models, rank, s, id);
    } else if id :| id in s.calls[c] && Failed(s.table, id) {
      assert Enabled(s, Throw(c, id));
    } else {
      assert Enabled(s, Return(c));
    }
  }

  /** No call waits forever: as long as one has no answer, some step other than a new call can be made. */
  lemma NoCallIsStuck(models: Models, rank: ModelId -> nat, events: seq<Event>, t: Loading, c: nat)
    requires Ranked(models, rank) && Runs(models, NOTHING, events, t)
    requires c in t.calls && c !in t.answers
    ensures CanGoOn(t)
  {
    RunKeepsInv(models, NOTHING, events, t);
    CallGoesOn(models, rank, t, c);
  }

  // ---------------------------------------------------------------- every run of steps comes to an end

  function Progress(promise: Promise): nat {
    match promise
    case Fetching => 0
    case Waiting(_) => 1
    case Settled(_) => 2
  }

  /** How far the promises have come, together. */
  function Sum(table: map<ModelId, Promise>, ids: seq<ModelId>): (r: nat)
    requires forall id :: id in ids ==> id in table
    ensures r <= 2 * |ids|
  {
    if ids == [] then 0
    else Sum(table, ids[..|ids| - 1]) + Progress(table[ids[|ids| - 1]])
  }

  /** Steps are counted by what they achieve. */
  function Achieved(s: Loading): nat
    requires FetchedOnce(s)
  {
    Sum(s.table, s.fetched) + |s.answers|
  }

  lemma {:induction false} SumOfUpdate(table: map<ModelId, Promise>, ids: seq<ModelId>, id: ModelId, promise: Promise)
    requires Distinct(ids) && forall x :: x in ids ==> x in table
    ensures var updated := Sum(table[id := promise], ids);
      updated == if id in ids then Sum(table, ids) - Progress(table[id]) + Progress(promise) else Sum(table, ids)
  {
    if ids != [] {
      var front, last := ids[..|ids| - 1], ids[|ids| - 1];
      assert ids == front + [last];
      SumOfUpdate(table, front, id, promise);
    }
  }

  lemma OneMoreAchievesNothing(s: Loading, id: ModelId)
    requires FetchedOnce(s) && id !in s.table
    ensures FetchedOnce(OneMore(s, id)) && Achieved(OneMore(s, id)) == Achieved(s)
  {
    SumOfUpdate(s.table, s.fetched, id, Fetching);
    assert (s.fetched + [id])[..|s.fetched|] == s.fetched;
  }

  lemma {:induction false} ClaimAchievesNothing(s: Loading, ids: seq<ModelId>)
    requires FetchedOnce(s)
    ensures FetchedOnce(Claim(s, ids)) && Achieved(Claim(s, ids)) == Achieved(s)
    decreases |ids|
  {
    if ids != [] {
      if ids[0] in s.table {
        ClaimAchievesNothing(s, ids[1..]);
      } else {
        OneMoreAchievesNothing(s, ids[0]);
        ClaimAchievesNothing(OneMore(s, ids[0]), ids[1..]);
      }
    }
  }

  lemma UpdateAchieves(s: Loading, id: ModelId, promise: Promise)
    requires FetchedOnce(s) && id in s.table && Progress(s.table[id]) < Progress(promise)
    ensures FetchedOnce(s.(table := s.table[id := promise]))
    ensures Achieved(s.(table := s.table[id := promise])) > Achieved(s)
  {
    SumOfUpdate(s.table, s.fetched, id, promise);
  }

  lemma FetchedAchieves(models: Models, s: Loading, id: ModelId)
    requires FetchedOnce(s) && Enabled(s, Fetched(id))
    ensures FetchedOnce(Next(models, s, Fetched(id)))
    ensures Achieved(Next(models, s, Fetched(id))) > Achieved(s)
  {
    var own := LoadInterfaceImplements(models, id);
    if own.Failure? {
      UpdateAchieves(s, id, Settled(own));
    } else {
      ClaimAdds(s, own.value);
      ClaimAchievesNothing(s, own.value);
      UpdateAchieves(Claim(s, own.value), id, Waiting(own.value));
    }
  }

  lemma CallAchievesNothing(models: Models, s: Loading, c: nat, interfaces: seq<ModelId>)
    requires FetchedOnce(s) && Enabled(s, Call(c, interfaces))
    ensures FetchedOnce(Next(models, s, Call(c, interfaces)))
    ensures Achieved(Next(models, s, Call(c, interfaces))) == Achieved(s)
  {
    ClaimAchievesNothing(s, interfaces);
  }

  /** Every step but a new call achieves something, and a new call undoes nothing. */
  lemma StepAchieves(models: Models, s: Loading, e: Event)
    requires FetchedOnce(s) && Enabled(s, e)
    ensures FetchedOnce(Next(models, s, e))
    ensures Achieved(Next(models, s, e)) >= Achieved(s) + if e.Call? then 0 else 1
  {
    match e
    case Call(c, interfaces) => CallAchievesNothing(models, s, c, interfaces);
    case Fetched(id) => FetchedAchieves(models, s, id);
    case Settle(id) => UpdateAchieves(s, id, Next(models, s, e).table[id]);
    case Reject(id, parent) => UpdateAchieves(s, id, s.table[parent]);
    case _ =>
  }

  function StepsBesideCalls(events: seq<Event>): nat {
    if events == [] then 0 else (if events[0].Call? then 0 else 1) + StepsBesideCalls(events[1..])
  }

  lemma {:induction false} RunAchieves(models: Models, s: Loading, events: seq<Event>, t: Loading)
    requires FetchedOnce(s) && Runs(models, s, events, t)
    ensures FetchedOnce(t) && Achieved(t) >= Achieved(s) + StepsBesideCalls(events)
    decreases |events|
  {
    if events != [] {
      StepAchieves(models, s, events[0]);
      RunAchieves(models, Next(models, s, events[0]), events[1..], t);
    }
  }

  /** With `NoCallIsStuck`: a run ends after a bounded number of steps, and then every call is answered. */
  lemma RunsAreBounded(models: Models, events: seq<Event>, t: Loading)
    requires Runs(models, NOTHING, events, t)
    ensures StepsBesideCalls(events) <= 2 * |t.fetched| + |t.answers|
  {
    RunAchieves(models, NOTHING, events, t);
  }
}
