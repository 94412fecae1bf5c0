/** The polling of process states after a service was started or stopped. Polls overlap: each is a
    coroutine that is suspended at its awaits. */
module ProcessPolling {
  import opened Basics

  type Id = nat

  datatype Item = Item(id: Id, status: string, runningStatus: string)

  /** A log as a result holds it: empty, the text that was fetched (or undefined), or, where the code does
      not await the fetch, a promise. */
  datatype Log = NoLog | Text(text: Option<string>) | Promised

  datatype Result = Result(processId: Id, instanceName: Option<string>, status: bool, stderrLog: Log, stdoutLog: Log)

  /** Where a poll is suspended: at the status request, or at one of the two log requests of `item`. */
  datatype Poll =
    | Asked(query: seq<Id>)
    | FetchingErr(item: Item, rest: seq<Item>)
    | FetchingOut(item: Item, stderrLog: Log, rest: seq<Item>)

  /** The component, with its suspended polls; `initial`, `taken` and `lost` are history: the ids given, those
      removed from the pending ones, again and again if so, and those whose log request failed. */
  datatype State = State(
    stop: bool, processIds: seq<Id>, names: map<Id, string>, results: seq<Result>,
    runStatus: nat, ticking: bool, completed: nat, polls: map<nat, Poll>, nextPoll: nat,
    initial: seq<Id>, taken: seq<Id>, lost: seq<Id>)

  function Fresh(stop: bool): State {
    State(stop, [], map[], [], 0, false, 0, map[], 0, [], [], [])
  }

  function Without(ids: seq<Id>, id: Id): seq<Id> {
    if ids == [] then [] else (if ids[0] != id then [ids[0]] else []) + Without(ids[1..], id)
  }

  predicate Stopped(item: Item) {
    item.runningStatus != "STOPPING" && item.runningStatus != "RUNNING"
  }

  predicate Started(item: Item) {
    || (item.status == "SUCCESS" && item.runningStatus != "STARTING" && item.runningStatus != "STOPPED")
    || item.status == "FAILURE"
  }

  function NameOf(s: State, id: Id): Option<string> {
    if id in s.names then Some(s.names[id]) else None
  }

  function StopResult(s: State, item: Item): Result {
    var log := if item.runningStatus == "FATAL" then Promised else NoLog;
    Result(item.id, NameOf(s, item.id), item.runningStatus == "STOPPED", log, log)
  }

  function StartResult(s: State, item: Item, stderrLog: Log, stdoutLog: Log): Result {
    Result(item.id, NameOf(s, item.id), item.runningStatus == "RUNNING", stderrLog, stdoutLog)
  }

  /** The end of a poll. */
  function Finish(s: State, poll: nat): State {
    var ended := s.(polls := s.polls - {poll});
    if s.processIds == [] then ended.(runStatus := 1, ticking := false, completed := s.completed + 1) else ended
  }

  /** The poll turns to a process: it is no longer pending. */
  function Taken(s: State, id: Id): State {
    s.(processIds := Without(s.processIds, id), taken := s.taken + [id])
  }

  /** The loop of the poll over the items that are left, up to the next await or the end. */
  function Proceed(s: State, poll: nat, items: seq<Item>): State
    decreases |items|
  {
    if items == [] then Finish(s, poll)
    else
      var item, rest := items[0], items[1..];
      var taken := Taken(s, item.id);
      if s.stop then
        if Stopped(item) then Proceed(taken.(results := s.results + [StopResult(s, item)]), poll, rest)
        else Proceed(s, poll, rest)
      else if Started(item) then
        if item.status == "SUCCESS" then taken.(polls := s.polls[poll := FetchingErr(item, rest)])
        else Proceed(taken.(results := s.results + [StartResult(s, item, NoLog, NoLog)]), poll, rest)
      else Proceed(s, poll, rest)
  }

  datatype Event =
    | Check(result: Option<seq<(Id, string)>>)
    | Tick
    | Reply(poll: nat, items: Option<seq<Item>>)
    | ErrLog(poll: nat, text: Option<string>)
    | OutLog(poll: nat, text: Option<string>)
    | Failed(poll: nat)

  function IdsOf(result: seq<(Id, string)>): seq<Id> {
    seq(|result|, i requires 0 <= i < |result| => result[i].0)
  }

  function NamesOf(names: map<Id, string>, result: seq<(Id, string)>): map<Id, string>
    decreases |result|
  {
    if result == [] then names else NamesOf(names[result[0].0 := result[0].1], result[1..])
  }

  /** One event; those that nothing waits for change nothing. */
  function Step(s: State, e: Event): State {
    match e
    case Check(None) => s.(runStatus := 2)
    case Check(Some(result)) =>
      s.(processIds := s.processIds + IdsOf(result), names := NamesOf(map[], result), ticking := true,
         initial := s.initial + IdsOf(result))
    case Tick =>
      if !s.ticking || s.processIds == [] then s
      else s.(polls := s.polls[s.nextPoll := Asked(s.processIds)], nextPoll := s.nextPoll + 1)
    case Reply(poll, items) =>
      if poll !in s.polls || !s.polls[poll].Asked? then s
      else if items.None? then Finish(s, poll)
      else Proceed(s, poll, items.value)
    case ErrLog(poll, text) =>
      if poll !in s.polls || !s.polls[poll].FetchingErr? then s
      else s.(polls := s.polls[poll := FetchingOut(s.polls[poll].item, Text(text), s.polls[poll].rest)])
    case OutLog(poll, text) =>
      if poll !in s.polls || !s.polls[poll].FetchingOut? then s
      else
        var p := s.polls[poll];
        Proceed(s.(results := s.results + [StartResult(s, p.item, p.stderrLog, Text(text))]), poll, p.rest)
    case Failed(poll) =>
      if poll !in s.polls then s
      else s.(polls := s.polls - {poll}, lost := s.lost + if s.polls[poll].Asked? then [] else [s.polls[poll].item.id])
  }

  function Run(stop: bool, events: seq<Event>): State {
    if events == [] then Fresh(stop) else Step(Run(stop, events[..|events| - 1]), events[|events| - 1])
  }

  // ----- Nothing is lost

  function Reported(results: seq<Result>): set<Id> {
    set r | r in results :: r.processId
  }

  /** The processes that a suspended poll has taken and not reported yet. */
  function InHand(polls: map<nat, Poll>): set<Id> {
    set p | p in polls && !polls[p].Asked? :: polls[p].item.id
  }

  function ItemIds(items: seq<Item>): set<Id> {
    set i | i in items :: i.id
  }

  /** What a poll may still report about. */
  function About(poll: Poll): set<Id> {
    match poll
    case Asked(query) => SetOf(query)
    case FetchingErr(item, rest) => {item.id} + ItemIds(rest)
    case FetchingOut(item, _, rest) => {item.id} + ItemIds(rest)
  }

  ghost predicate Conserved(s: State) {
    && SetOf(s.initial) == SetOf(s.processIds) + Reported(s.results) + InHand(s.polls) + SetOf(s.lost)
    && (forall p :: p in s.polls ==> About(s.polls[p]) <= SetOf(s.initial))
    && forall p :: p in s.polls ==> p < s.nextPoll
  }

  /** A reply speaks only of processes that were asked about. */
  predicate ReplyFits(s: State, e: Event) {
    e.Reply? && e.poll in s.polls && s.polls[e.poll].Asked? && e.items.Some? ==>
      ItemIds(e.items.value) <= SetOf(s.polls[e.poll].query)
  }

  ghost predicate RepliesFit(stop: bool, events: seq<Event>) {
    events == [] ||
    (RepliesFit(stop, events[..|events| - 1]) && ReplyFits(Run(stop, events[..|events| - 1]), events[|events| - 1]))
  }

  lemma {:induction false} WithoutMembers(ids: seq<Id>, id: Id)
    ensures SetOf(Without(ids, id)) == SetOf(ids) - {id}
    ensures Distinct(ids) ==> Distinct(Without(ids, id))
    ensures id !in ids ==> Without(ids, id) == ids
  {
    if ids != [] {
      var rest := Without(ids[1..], id);
      WithoutMembers(ids[1..], id);
      assert ids == [ids[0]] + ids[1..];
      assert SetOf(ids) == {ids[0]} + SetOf(ids[1..]);
      assert ids[0] != id ==> SetOf([ids[0]] + rest) == {ids[0]} + SetOf(rest);
      if Distinct(ids) {
        assert forall x :: x in rest ==> x in SetOf(rest) && x in ids[1..];
      }
    }
  }

  lemma ReportedGrows(results: seq<Result>, r: Result)
    ensures Reported(results + [r]) == Reported(results) + {r.processId}
  {
    assert forall x :: x in results + [r] <==> x in results || x == r;
  }

  lemma ItemIdsSplit(items: seq<Item>)
    requires items != []
    ensures ItemIds(items) == {items[0].id} + ItemIds(items[1..])
  {
    assert forall i :: i in items <==> i == items[0] || i in items[1..];
  }

  /** The invariant while a poll runs: what it has in hand is being dealt with. */
  ghost predicate ConservedExcept(s: State, poll: nat) {
    && SetOf(s.initial) == SetOf(s.processIds) + Reported(s.results) + InHand(s.polls - {poll}) + SetOf(s.lost)
    && (forall p :: p in s.polls && p != poll ==> About(s.polls[p]) <= SetOf(s.initial))
    && (forall p :: p in s.polls ==> p < s.nextPoll)
    && poll < s.nextPoll
  }

  lemma InHandPaused(polls: map<nat, Poll>, poll: nat, p: Poll)
    ensures InHand(polls[poll := p]) == InHand(polls - {poll}) + if p.Asked? then {} else {p.item.id}
  {
    var after := polls[poll := p];
    assert after[poll] == p;
    forall q | q in polls && q != poll ensures q in after && after[q] == polls[q] {}
    assert forall q :: q in polls - {poll} <==> q in polls && q != poll;
  }

  /** A process of the batch is reported. */
  lemma TakenConserves(s: State, poll: nat, r: Result)
    requires ConservedExcept(s, poll) && r.processId in SetOf(s.initial)
    ensures ConservedExcept(Taken(s, r.processId).(results := s.results + [r]), poll)
  {
    WithoutMembers(s.processIds, r.processId);
    ReportedGrows(s.results, r);
  }

  /** A process of the batch is taken in hand while its logs are fetched. */
  lemma PausedConserves(s: State, poll: nat, item: Item, rest: seq<Item>)
    requires ConservedExcept(s, poll) && {item.id} + ItemIds(rest) <= SetOf(s.initial)
    ensures Conserved(Taken(s, item.id).(polls := s.polls[poll := FetchingErr(item, rest)]))
  {
    WithoutMembers(s.processIds, item.id);
    InHandPaused(s.polls, poll, FetchingErr(item, rest));
  }

  lemma {:induction false} ProceedConserves(s: State, poll: nat, items: seq<Item>)
    requires ConservedExcept(s, poll) && ItemIds(items) <= SetOf(s.initial)
    ensures Conserved(Proceed(s, poll, items))
    decreases |items|
  {
    if items != [] {
      var item, rest := items[0], items[1..];
      ItemIdsSplit(items);
      assert item.id in ItemIds(items);
      var taken := Taken(s, item.id);
      if s.stop {
        if Stopped(item) {
          TakenConserves(s, poll, StopResult(s, item));
          ProceedConserves(taken.(results := s.results + [StopResult(s, item)]), poll, rest);
        } else {
          ProceedConserves(s, poll, rest);
        }
      } else if Started(item) {
        if item.status == "SUCCESS" {
          PausedConserves(s, poll, item, rest);
        } else {
          TakenConserves(s, poll, StartResult(s, item, NoLog, NoLog));
          ProceedConserves(taken.(results := s.results + [StartResult(s, item, NoLog, NoLog)]), poll, rest);
        }
      } else {
        ProceedConserves(s, poll, rest);
      }
    }
  }

  lemma HandSplit(polls: map<nat, Poll>, poll: nat)
    requires poll in polls
    ensures InHand(polls) == InHand(polls - {poll}) + if polls[poll].Asked? then {} else {polls[poll].item.id}
  {
    assert polls[poll := polls[poll]] == polls;
    InHandPaused(polls, poll, polls[poll]);
  }

  lemma SetOfJoin(a: seq<Id>, b: seq<Id>)
    ensures SetOf(a + b) == SetOf(a) + SetOf(b)
  {
  }

  lemma TickConserves(s: State)
    requires Conserved(s)
    ensures Conserved(Step(s, Tick))
  {
    InHandPaused(s.polls, s.nextPoll, Asked(s.processIds));
    assert s.polls - {s.nextPoll} == s.polls;
  }

  /** The process that a poll has in hand is reported. */
  lemma HandedOver(s: State, poll: nat, r: Result)
    requires Conserved(s) && poll in s.polls && s.polls[poll].FetchingOut? && r.processId == s.polls[poll].item.id
    ensures ConservedExcept(s.(results := s.results + [r]), poll)
  {
    HandSplit(s.polls, poll);
    ReportedGrows(s.results, r);
  }

  lemma OutLogConserves(s: State, poll: nat, text: Option<string>)
    requires Conserved(s) && poll in s.polls && s.polls[poll].FetchingOut?
    ensures Conserved(Step(s, OutLog(poll, text)))
  {
    var p := s.polls[poll];
    var r := StartResult(s, p.item, p.stderrLog, Text(text));
    HandedOver(s, poll, r);
    assert ItemIds(p.rest) <= About(p);
    ProceedConserves(s.(results := s.results + [r]), poll, p.rest);
  }

  lemma ErrLogConserves(s: State, poll: nat, text: Option<string>)
    requires Conserved(s) && poll in s.polls && s.polls[poll].FetchingErr?
    ensures Conserved(Step(s, ErrLog(poll, text)))
  {
    HandSplit(s.polls, poll);
    InHandPaused(s.polls, poll, FetchingOut(s.polls[poll].item, Text(text), s.polls[poll].rest));
  }

  lemma FailedConserves(s: State, poll: nat)
    requires Conserved(s) && poll in s.polls
    ensures Conserved(Step(s, Failed(poll)))
  {
    HandSplit(s.polls, poll);
    SetOfJoin(s.lost, if s.polls[poll].Asked? then [] else [s.polls[poll].item.id]);
  }

  lemma StepConserves(s: State, e: Event)
    requires Conserved(s) && ReplyFits(s, e)
    ensures Conserved(Step(s, e))
  {
    match e
    case Check(None) =>
    case Check(Some(result)) =>
      SetOfJoin(s.processIds, IdsOf(result));
      SetOfJoin(s.initial, IdsOf(result));
    case Tick => TickConserves(s);
    case Reply(poll, items) =>
      if poll in s.polls && s.polls[poll].Asked? {
        HandSplit(s.polls, poll);
        if items.Some? {
          ProceedConserves(s, poll, items.value);
        }
      }
    case ErrLog(poll, text) =>
      if poll in s.polls && s.polls[poll].FetchingErr? {
        ErrLogConserves(s, poll, text);
      }
    case OutLog(poll, text) =>
      if poll in s.polls && s.polls[poll].FetchingOut? {
        OutLogConserves(s, poll, text);
      }
    case Failed(poll) =>
      if poll in s.polls {
        FailedConserves(s, poll);
      }
  }

  /** In every interleaving of overlapping polls, whose replies speak only of what they asked about, each
      process is pending, or reported, or in the hands of a poll that awaits its logs, or lost to a log
      request that failed; and none is made up. */
  lemma {:induction false} NothingIsLost(stop: bool, events: seq<Event>)
    requires RepliesFit(stop, events)
    ensures Conserved(Run(stop, events))
    decreases |events|
  {
    if events != [] {
      NothingIsLost(stop, events[..|events| - 1]);
      StepConserves(Run(stop, events[..|events| - 1]), events[|events| - 1]);
    }
  }

  // ----- Polls that do not overlap

  function ReportedIds(results: seq<Result>): seq<Id> {
    seq(|results|, i requires 0 <= i < |results| => results[i].processId)
  }

  function AllIds(items: seq<Item>): seq<Id> {
    seq(|items|, i requires 0 <= i < |items| => items[i].id)
  }

  /** The processes are given once, a poll starts only when none is under way, and replies speak once of
      each process, and only of those asked about. */
  predicate Orderly(s: State, e: Event) {
    && (e.Check? && e.result.Some? ==> s.initial == [] && Distinct(IdsOf(e.result.value)))
    && (e.Tick? ==> s.polls == map[])
    && (e.Reply? && e.items.Some? ==> Distinct(AllIds(e.items.value)))
    && ReplyFits(s, e)
  }

  ghost predicate AllOrderly(stop: bool, events: seq<Event>) {
    events == [] ||
    (AllOrderly(stop, events[..|events| - 1]) && Orderly(Run(stop, events[..|events| - 1]), events[|events| - 1]))
  }

  /** Reported or lost. */
  predicate Gone(s: State, id: Id) {
    id in ReportedIds(s.results) || id in s.lost
  }

  ghost predicate PollFits(s: State, p: Poll) {
    match p
    case Asked(query) => query == s.processIds
    case FetchingErr(item, rest) => ItemFits(s, item, rest)
    case FetchingOut(item, _, rest) => ItemFits(s, item, rest)
  }

  ghost predicate ItemFits(s: State, item: Item, rest: seq<Item>) {
    && item.id !in s.processIds && !Gone(s, item.id)
    && Distinct(AllIds(rest)) && ItemIds(rest) <= SetOf(s.processIds)
  }

  ghost predicate OnceOnly(s: State) {
    && Distinct(s.processIds) && Distinct(ReportedIds(s.results)) && Distinct(s.lost)
    && (forall x :: x in s.lost ==> x !in ReportedIds(s.results))
    && forall x :: x in s.processIds ==> !Gone(s, x)
  }

  /** Nobody is reported twice, and completion is announced at most once, when nothing is left to do. */
  ghost predicate Single(s: State) {
    && OnceOnly(s)
    && s.completed <= 1 && (s.completed == 1 ==> s.processIds == [] && s.polls == map[])
    && (forall p :: p in s.polls ==> PollFits(s, s.polls[p]))
    && (forall p, q :: p in s.polls && q in s.polls ==> p == q)
    && (s.initial == [] ==> s.processIds == [] && s.results == [] && s.lost == [] && s.completed == 0 && s.polls == map[])
  }

  lemma AllIdsSplit(items: seq<Item>)
    requires items != [] && Distinct(AllIds(items))
    ensures Distinct(AllIds(items[1..])) && items[0].id !in ItemIds(items[1..])
  {
    assert forall i :: 0 <= i < |items| - 1 ==> AllIds(items[1..])[i] == AllIds(items)[i + 1];
    assert AllIds(items)[0] == items[0].id;
    forall i | i in items[1..] ensures i.id != items[0].id {
      var j :| 0 <= j < |items| - 1 && items[1..][j] == i;
      assert AllIds(items)[j + 1] == i.id;
    }
  }

  lemma ReportOnce(s: State, r: Result)
    requires OnceOnly(s) && r.processId !in s.processIds && !Gone(s, r.processId)
    ensures OnceOnly(s.(results := s.results + [r]))
    ensures forall x :: Gone(s.(results := s.results + [r]), x) <==> Gone(s, x) || x == r.processId
  {
    assert ReportedIds(s.results + [r]) == ReportedIds(s.results) + [r.processId];
  }

  lemma TakeOnce(s: State, id: Id)
    requires OnceOnly(s) && id in s.processIds
    ensures var taken := Taken(s, id);
            && OnceOnly(taken) && id !in taken.processIds && !Gone(taken, id)
            && SetOf(taken.processIds) == SetOf(s.processIds) - {id}
  {
    WithoutMembers(s.processIds, id);
    assert forall x :: x in Without(s.processIds, id) <==> x in SetOf(Without(s.processIds, id));
  }

  lemma {:induction false} ProceedSingle(s: State, poll: nat, items: seq<Item>)
    requires OnceOnly(s) && s.completed == 0 && s.polls.Keys <= {poll} && s.initial != []
    requires Distinct(AllIds(items)) && ItemIds(items) <= SetOf(s.processIds)
    ensures Single(Proceed(s, poll, items))
    decreases |items|
  {
    if items != [] {
      var item, rest := items[0], items[1..];
      ItemIdsSplit(items);
      AllIdsSplit(items);
      TakeOnce(s, item.id);
      var taken := Taken(s, item.id);
      if s.stop {
        if Stopped(item) {
          ReportOnce(taken, StopResult(s, item));
          ProceedSingle(taken.(results := s.results + [StopResult(s, item)]), poll, rest);
        } else {
          ProceedSingle(s, poll, rest);
        }
      } else if Started(item) {
        if item.status != "SUCCESS" {
          ReportOnce(taken, StartResult(s, item, NoLog, NoLog));
          ProceedSingle(taken.(results := s.results + [StartResult(s, item, NoLog, NoLog)]), poll, rest);
        }
      } else {
        ProceedSingle(s, poll, rest);
      }
    }
  }

  lemma OutLogSingle(s: State, poll: nat, text: Option<string>)
    requires Single(s) && poll in s.polls && s.polls[poll].FetchingOut?
    ensures Single(Step(s, OutLog(poll, text)))
  {
    var p := s.polls[poll];
    assert PollFits(s, p);
    var r := StartResult(s, p.item, p.stderrLog, Text(text));
    ReportOnce(s, r);
    ProceedSingle(s.(results := s.results + [r]), poll, p.rest);
  }

  lemma FailedSingle(s: State, poll: nat)
    requires Single(s) && poll in s.polls
    ensures Single(Step(s, Failed(poll)))
  {
    assert PollFits(s, s.polls[poll]);
    assert s.polls - {poll} == map[];
    assert s.lost + [] == s.lost;
  }

  lemma CheckSingle(s: State, result: seq<(Id, string)>)
    requires Single(s) && Orderly(s, Check(Some(result)))
    ensures Single(Step(s, Check(Some(result))))
  {
    assert [] + IdsOf(result) == IdsOf(result);
  }

  lemma TickSingle(s: State)
    requires Single(s) && Orderly(s, Tick)
    ensures Single(Step(s, Tick))
  {
  }

  lemma ReplySingle(s: State, poll: nat, items: Option<seq<Item>>)
    requires Single(s) && Orderly(s, Reply(poll, items)) && poll in s.polls && s.polls[poll].Asked?
    ensures Single(Step(s, Reply(poll, items)))
  {
    assert PollFits(s, s.polls[poll]);
    if items.Some? {
      ProceedSingle(s, poll, items.value);
    } else {
      assert s.polls - {poll} == map[];
    }
  }

  lemma ErrLogSingle(s: State, poll: nat, text: Option<string>)
    requires Single(s) && poll in s.polls && s.polls[poll].FetchingErr?
    ensures Single(Step(s, ErrLog(poll, text)))
  {
    assert PollFits(s, s.polls[poll]);
  }

  lemma StepSingle(s: State, e: Event)
    requires Single(s) && Orderly(s, e)
    ensures Single(Step(s, e))
  {
    if Step(s, e) != s {
      match e
      case Check(None) =>
      case Check(Some(result)) => CheckSingle(s, result);
      case Tick => TickSingle(s);
      case Reply(poll, items) => ReplySingle(s, poll, items);
      case ErrLog(poll, text) => ErrLogSingle(s, poll, text);
      case OutLog(poll, text) => OutLogSingle(s, poll, text);
      case Failed(poll) => FailedSingle(s, poll);
    }
  }

  lemma {:induction false} OrderlyIsSingle(stop: bool, events: seq<Event>)
    requires AllOrderly(stop, events)
    ensures Single(Run(stop, events)) && RepliesFit(stop, events)
    decreases |events|
  {
    if events != [] {
      OrderlyIsSingle(stop, events[..|events| - 1]);
      StepSingle(Run(stop, events[..|events| - 1]), events[|events| - 1]);
    }
  }

  /** When polls do not overlap, no process is reported twice and completion is announced at most once;
      once it is announced, every process was reported, except those whose log request failed. */
  lemma EachReportedOnce(stop: bool, events: seq<Event>)
    requires AllOrderly(stop, events)
    ensures var s := Run(stop, events);
            && Distinct(ReportedIds(s.results)) && s.completed <= 1
            && (s.completed == 1 ==> SetOf(ReportedIds(s.results)) == SetOf(s.initial) - SetOf(s.lost))
  {
    var s := Run(stop, events);
    OrderlyIsSingle(stop, events);
    NothingIsLost(stop, events);
    assert SetOf(ReportedIds(s.results)) == Reported(s.results) by {
      forall r | r in s.results ensures r.processId in ReportedIds(s.results) {
        var i :| 0 <= i < |s.results| && s.results[i] == r;
        assert ReportedIds(s.results)[i] == r.processId;
      }
    }
  }

  lemma RunSnoc(stop: bool, events: seq<Event>, e: Event)
    requires RepliesFit(stop, events) && ReplyFits(Run(stop, events), e)
    ensures RepliesFit(stop, events + [e]) && Run(stop, events + [e]) == Step(Run(stop, events), e)
  {
    assert (events + [e])[..|events|] == events;
  }

  /** Polls that overlap can report a process twice and announce completion twice. */
  lemma OverlappingPollsRepeat() returns (events: seq<Event>)
    ensures RepliesFit(true, events)
    ensures ReportedIds(Run(true, events).results) == [1, 1] && Run(true, events).completed == 2
  {
    var gone := Item(1, "SUCCESS", "STOPPED");
    var start := [(1, "a")];
    events := [];
    RunSnoc(true, events, Check(Some(start)));
    events := events + [Check(Some(start))];
    assert IdsOf(start) == [1] && [] + [1] == [1];
    assert Run(true, events).processIds == [1];
    RunSnoc(true, events, Tick);
    events := events + [Tick];
    RunSnoc(true, events, Tick);
    events := events + [Tick];
    assert Run(true, events).polls == map[0 := Asked([1]), 1 := Asked([1])];
    events := OverlapReply(events, 0, gone);
    events := OverlapReply(events, 1, gone);
  }

  lemma OverlapReply(events: seq<Event>, poll: nat, gone: Item) returns (more: seq<Event>)
    requires gone == Item(1, "SUCCESS", "STOPPED")
    requires RepliesFit(true, events)
    requires var s := Run(true, events);
             s.stop && poll in s.polls && s.polls[poll] == Asked([1]) && (s.processIds == [1] || s.processIds == [])
    ensures RepliesFit(true, more)
    ensures var s, after := Run(true, events), Run(true, more);
            && after.stop && after.processIds == [] && after.polls == s.polls - {poll}
            && ReportedIds(after.results) == ReportedIds(s.results) + [1] && after.completed == s.completed + 1
  {
    var s, e := Run(true, events), Reply(poll, Some([gone]));
    assert ItemIds([gone]) == {1} && 1 in [1];
    RunSnoc(true, events, e);
    more := events + [e];
    assert [gone][1..] == [];
    assert Without([1], 1) == [] && Without([], 1) == [] by { assert [1][1..] == []; }
    var taken := Taken(s, 1).(results := s.results + [StopResult(s, gone)]);
    assert Proceed(s, poll, [gone]) == Proceed(taken, poll, []);
    assert ReportedIds(taken.results) == ReportedIds(s.results) + [1];
  }
}
