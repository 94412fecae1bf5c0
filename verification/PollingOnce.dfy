/** Exactly when the polls take each process once, and exactly when completion can be announced again. */
module PollingOnce {
  import opened Basics
  import opened ProcessPolling

  /** The processes are given once, each listed once. */
  predicate GivenHere(s: State, e: Event) {
    e.Check? && e.result.Some? ==> s.initial == [] && Distinct(IdsOf(e.result.value))
  }

  ghost predicate GivenOnce(stop: bool, events: seq<Event>) {
    events == [] ||
    (GivenOnce(stop, events[..|events| - 1]) && GivenHere(Run(stop, events[..|events| - 1]), events[|events| - 1]))
  }

  predicate Takes(stop: bool, item: Item) {
    if stop then Stopped(item) else Started(item)
  }

  /** The guard that the loop over a reply lacks: each process that it takes, up to its next await, is still
      pending at that moment. */
  predicate PendingItems(stop: bool, ids: seq<Id>, items: seq<Item>)
    decreases |items|
  {
    items == [] ||
    if !Takes(stop, items[0]) then PendingItems(stop, ids, items[1..])
    else
      && items[0].id in ids
      && ((!stop && items[0].status == "SUCCESS") || PendingItems(stop, Without(ids, items[0].id), items[1..]))
  }

  predicate TakesPending(s: State, e: Event) {
    match e
    case Reply(poll, Some(items)) => poll in s.polls && s.polls[poll].Asked? ==> PendingItems(s.stop, s.processIds, items)
    case OutLog(poll, _) =>
      poll in s.polls && s.polls[poll].FetchingOut? ==> PendingItems(s.stop, s.processIds, s.polls[poll].rest)
    case _ => true
  }

  ghost predicate AllPending(stop: bool, events: seq<Event>) {
    events == [] ||
    (AllPending(stop, events[..|events| - 1]) && TakesPending(Run(stop, events[..|events| - 1]), events[|events| - 1]))
  }

  // ----- What is pending and what was taken

  /** Each process given is either pending or has been taken. */
  ghost predicate Parted(s: State) {
    && Distinct(s.processIds)
    && SetOf(s.initial) == SetOf(s.processIds) + SetOf(s.taken)
    && SetOf(s.processIds) !! SetOf(s.taken)
  }

  lemma SetOfSnoc(xs: seq<Id>, x: Id)
    ensures SetOf(xs + [x]) == SetOf(xs) + {x}
  {
    assert forall y :: y in xs + [x] <==> y in xs || y == x;
  }

  lemma TakenParted(s: State, id: Id)
    requires Parted(s) && id in SetOf(s.initial)
    ensures Parted(Taken(s, id))
    ensures Distinct(s.taken + [id]) <==> Distinct(s.taken) && id in s.processIds
  {
    WithoutMembers(s.processIds, id);
    SetOfSnoc(s.taken, id);
    assert id in s.processIds <==> id !in s.taken by {
      assert id in SetOf(s.processIds) <==> id !in SetOf(s.taken);
    }
    DistinctSnoc(s.taken, id);
  }

  lemma DistinctSnoc(xs: seq<Id>, x: Id)
    ensures Distinct(xs + [x]) <==> Distinct(xs) && x !in xs
  {
    var all := xs + [x];
    if Distinct(all) {
      forall i, j | 0 <= i < j < |xs| ensures xs[i] != xs[j] { assert all[i] != all[j]; }
      forall i | 0 <= i < |xs| ensures xs[i] != x { assert all[i] != all[|xs|]; }
    }
  }

  lemma {:induction false} ProceedParts(s: State, poll: nat, items: seq<Item>)
    requires Parted(s) && ItemIds(items) <= SetOf(s.initial)
    ensures var r := Proceed(s, poll, items);
            && Parted(r) && r.initial == s.initial
            && (Distinct(r.taken) <==> Distinct(s.taken) && PendingItems(s.stop, s.processIds, items))
    decreases |items|
  {
    if items != [] {
      var item, rest := items[0], items[1..];
      ItemIdsSplit(items);
      assert item.id in ItemIds(items);
      if Takes(s.stop, item) {
        TakenParted(s, item.id);
        var taken := Taken(s, item.id);
        if s.stop {
          ProceedParts(taken.(results := s.results + [StopResult(s, item)]), poll, rest);
        } else if item.status != "SUCCESS" {
          ProceedParts(taken.(results := s.results + [StartResult(s, item, NoLog, NoLog)]), poll, rest);
        }
      } else {
        ProceedParts(s, poll, rest);
      }
    }
  }

  lemma NothingGiven(s: State)
    requires Parted(s) && s.initial == []
    ensures s.processIds == [] && s.taken == []
  {
    assert SetOf(s.initial) == {};
    FirstMember(s.processIds);
    FirstMember(s.taken);
  }

  lemma FirstMember(xs: seq<Id>)
    ensures xs == [] || xs[0] in SetOf(xs)
  {
  }

  lemma StepParts(s: State, e: Event)
    requires Parted(s) && Conserved(s) && ReplyFits(s, e) && GivenHere(s, e)
    ensures Parted(Step(s, e))
    ensures Distinct(Step(s, e).taken) <==> Distinct(s.taken) && TakesPending(s, e)
  {
    match e
    case Check(Some(result)) =>
      NothingGiven(s);
      assert [] + IdsOf(result) == IdsOf(result);
    case Reply(poll, Some(items)) =>
      if poll in s.polls && s.polls[poll].Asked? {
        assert About(s.polls[poll]) <= SetOf(s.initial);
        ProceedParts(s, poll, items);
      }
    case OutLog(poll, text) =>
      if poll in s.polls && s.polls[poll].FetchingOut? {
        var p := s.polls[poll];
        assert ItemIds(p.rest) <= About(p) <= SetOf(s.initial);
        ProceedParts(s.(results := s.results + [StartResult(s, p.item, p.stderrLog, Text(text))]), poll, p.rest);
      }
    case _ =>
  }

  lemma {:induction false} RunParts(stop: bool, events: seq<Event>)
    requires RepliesFit(stop, events) && GivenOnce(stop, events)
    ensures Parted(Run(stop, events))
    ensures Distinct(Run(stop, events).taken) <==> AllPending(stop, events)
    decreases |events|
  {
    if events != [] {
      RunParts(stop, events[..|events| - 1]);
      NothingIsLost(stop, events[..|events| - 1]);
      StepParts(Run(stop, events[..|events| - 1]), events[|events| - 1]);
    }
  }

  // ----- What was taken and what was reported

  function HandOf(polls: map<nat, Poll>, poll: nat, x: Id): nat {
    if poll in polls && !polls[poll].Asked? && polls[poll].item.id == x then 1 else 0
  }

  /** How many of the first `n` polls have the process `x` in hand. */
  function Hands(polls: map<nat, Poll>, n: nat, x: Id): nat {
    if n == 0 then 0 else Hands(polls, n - 1, x) + HandOf(polls, n - 1, x)
  }

  lemma {:induction false} HandsSame(p: map<nat, Poll>, q: map<nat, Poll>, n: nat, x: Id)
    requires forall i :: 0 <= i < n ==> HandOf(p, i, x) == HandOf(q, i, x)
    ensures Hands(p, n, x) == Hands(q, n, x)
  {
    if n > 0 {
      HandsSame(p, q, n - 1, x);
    }
  }

  lemma {:induction false} HandsSplit(polls: map<nat, Poll>, poll: nat, n: nat, x: Id)
    requires poll < n
    ensures Hands(polls, n, x) == Hands(polls - {poll}, n, x) + HandOf(polls, poll, x)
  {
    if poll == n - 1 {
      HandsSame(polls, polls - {poll}, n - 1, x);
    } else {
      HandsSplit(polls, poll, n - 1, x);
    }
  }

  lemma HandsPaused(polls: map<nat, Poll>, poll: nat, p: Poll, n: nat, x: Id)
    requires poll < n
    ensures Hands(polls[poll := p], n, x) == Hands(polls - {poll}, n, x) + if !p.Asked? && p.item.id == x then 1 else 0
  {
    HandsSplit(polls[poll := p], poll, n, x);
    assert polls[poll := p] - {poll} == polls - {poll};
  }

  function Times(xs: seq<Id>, x: Id): nat {
    multiset(xs)[x]
  }

  /** The process `x` was taken as often as it has been reported, is in hand, or is lost. */
  ghost predicate Accounted(s: State, x: Id) {
    && (forall p :: p in s.polls ==> p < s.nextPoll)
    && Times(s.taken, x) == Times(ReportedIds(s.results), x) + Hands(s.polls, s.nextPoll, x) + Times(s.lost, x)
  }

  /** The same while a poll runs, which has nothing else in hand. */
  ghost predicate AccountedExcept(s: State, poll: nat, x: Id) {
    && (forall p :: p in s.polls ==> p < s.nextPoll) && poll < s.nextPoll
    && Times(s.taken, x) == Times(ReportedIds(s.results), x) + Hands(s.polls - {poll}, s.nextPoll, x) + Times(s.lost, x)
  }

  lemma ReportedSnoc(results: seq<Result>, r: Result, x: Id)
    ensures Times(ReportedIds(results + [r]), x) == Times(ReportedIds(results), x) + if r.processId == x then 1 else 0
  {
    assert ReportedIds(results + [r]) == ReportedIds(results) + [r.processId];
  }

  lemma TakenReported(s: State, poll: nat, r: Result, x: Id)
    requires AccountedExcept(s, poll, x)
    ensures AccountedExcept(Taken(s, r.processId).(results := s.results + [r]), poll, x)
  {
    ReportedSnoc(s.results, r, x);
  }

  lemma {:induction false} ProceedAccounts(s: State, poll: nat, items: seq<Item>, x: Id)
    requires AccountedExcept(s, poll, x)
    ensures Accounted(Proceed(s, poll, items), x)
    decreases |items|
  {
    if items != [] {
      var item, rest := items[0], items[1..];
      if Takes(s.stop, item) {
        var taken := Taken(s, item.id);
        if s.stop {
          TakenReported(s, poll, StopResult(s, item), x);
          ProceedAccounts(taken.(results := s.results + [StopResult(s, item)]), poll, rest, x);
        } else if item.status == "SUCCESS" {
          HandsPaused(s.polls, poll, FetchingErr(item, rest), s.nextPoll, x);
        } else {
          TakenReported(s, poll, StartResult(s, item, NoLog, NoLog), x);
          ProceedAccounts(taken.(results := s.results + [StartResult(s, item, NoLog, NoLog)]), poll, rest, x);
        }
      } else {
        ProceedAccounts(s, poll, rest, x);
      }
    }
  }

  lemma TickAccounts(s: State, x: Id)
    requires Accounted(s, x)
    ensures Accounted(Step(s, Tick), x)
  {
    HandsSame(s.polls, s.polls[s.nextPoll := Asked(s.processIds)], s.nextPoll, x);
  }

  lemma OutLogAccounts(s: State, poll: nat, text: Option<string>, x: Id)
    requires Accounted(s, x) && poll in s.polls && s.polls[poll].FetchingOut?
    ensures Accounted(Step(s, OutLog(poll, text)), x)
  {
    var p := s.polls[poll];
    var r := StartResult(s, p.item, p.stderrLog, Text(text));
    HandsSplit(s.polls, poll, s.nextPoll, x);
    ReportedSnoc(s.results, r, x);
    ProceedAccounts(s.(results := s.results + [r]), poll, p.rest, x);
  }

  lemma FailedAccounts(s: State, poll: nat, x: Id)
    requires Accounted(s, x) && poll in s.polls
    ensures Accounted(Step(s, Failed(poll)), x)
  {
    HandsSplit(s.polls, poll, s.nextPoll, x);
  }

  lemma ErrLogAccounts(s: State, poll: nat, text: Option<string>, x: Id)
    requires Accounted(s, x) && poll in s.polls && s.polls[poll].FetchingErr?
    ensures Accounted(Step(s, ErrLog(poll, text)), x)
  {
    HandsSplit(s.polls, poll, s.nextPoll, x);
    HandsPaused(s.polls, poll, FetchingOut(s.polls[poll].item, Text(text), s.polls[poll].rest), s.nextPoll, x);
  }

  lemma ReplyAccounts(s: State, poll: nat, items: Option<seq<Item>>, x: Id)
    requires Accounted(s, x) && poll in s.polls && s.polls[poll].Asked?
    ensures Accounted(Step(s, Reply(poll, items)), x)
  {
    HandsSplit(s.polls, poll, s.nextPoll, x);
    if items.Some? {
      ProceedAccounts(s, poll, items.value, x);
    }
  }

  lemma StepAccounts(s: State, e: Event, x: Id)
    requires Accounted(s, x)
    ensures Accounted(Step(s, e), x)
  {
    match e
    case Check(_) =>
    case Tick => TickAccounts(s, x);
    case Reply(poll, items) =>
      if poll in s.polls && s.polls[poll].Asked? {
        ReplyAccounts(s, poll, items, x);
      }
    case ErrLog(poll, text) =>
      if poll in s.polls && s.polls[poll].FetchingErr? {
        ErrLogAccounts(s, poll, text, x);
      }
    case OutLog(poll, text) =>
      if poll in s.polls && s.polls[poll].FetchingOut? {
        OutLogAccounts(s, poll, text, x);
      }
    case Failed(poll) =>
      if poll in s.polls {
        FailedAccounts(s, poll, x);
      }
  }

  lemma {:induction false} RunAccounts(stop: bool, events: seq<Event>, x: Id)
    ensures Accounted(Run(stop, events), x)
    decreases |events|
  {
    if events != [] {
      RunAccounts(stop, events[..|events| - 1], x);
      StepAccounts(Run(stop, events[..|events| - 1]), events[|events| - 1], x);
    }
  }

  lemma {:induction false} DistinctByCount(xs: seq<Id>)
    ensures Distinct(xs) <==> forall x :: Times(xs, x) <= 1
  {
    if xs != [] {
      var rest, x := xs[..|xs| - 1], xs[|xs| - 1];
      DistinctByCount(rest);
      DistinctSnoc(rest, x);
      assert xs == rest + [x];
      assert x in rest <==> Times(rest, x) > 0;
      forall y ensures Times(xs, y) == Times(rest, y) + if y == x then 1 else 0 {}
    }
  }

  predicate NothingInHand(s: State) {
    forall p :: p in s.polls ==> s.polls[p].Asked?
  }

  lemma {:induction false} NoHands(polls: map<nat, Poll>, n: nat, x: Id)
    requires forall p :: p in polls ==> polls[p].Asked?
    ensures Hands(polls, n, x) == 0
  {
    if n > 0 {
      NoHands(polls, n - 1, x);
    }
  }

  /** For one list of processes and every interleaving of polls: no process is taken twice if and only if
      each poll takes only processes that are still pending. Then none is reported twice; and once no poll
      awaits a log and no log request has failed, that is the exact condition for it. */
  lemma EachTakenOnceExactly(stop: bool, events: seq<Event>)
    requires RepliesFit(stop, events) && GivenOnce(stop, events)
    ensures var s := Run(stop, events);
            && (Distinct(s.taken) <==> AllPending(stop, events))
            && (AllPending(stop, events) ==> Distinct(ReportedIds(s.results)))
            && (NothingInHand(s) && s.lost == [] ==> (Distinct(ReportedIds(s.results)) <==> AllPending(stop, events)))
  {
    var s := Run(stop, events);
    RunParts(stop, events);
    DistinctByCount(s.taken);
    DistinctByCount(ReportedIds(s.results));
    forall x
      ensures Times(ReportedIds(s.results), x) <= Times(s.taken, x)
      ensures NothingInHand(s) && s.lost == [] ==> Times(ReportedIds(s.results), x) == Times(s.taken, x)
    {
      RunAccounts(stop, events, x);
      if NothingInHand(s) {
        NoHands(s.polls, s.nextPoll, x);
      }
    }
  }

  // ----- Announcing completion again

  function RunFrom(s: State, events: seq<Event>): State
    decreases |events|
  {
    if events == [] then s else RunFrom(Step(s, events[0]), events[1..])
  }

  /** No further list of processes. */
  predicate NoChecks(events: seq<Event>) {
    forall e :: e in events ==> !e.Check?
  }

  lemma {:induction false} ProceedWithNone(s: State, poll: nat, items: seq<Item>)
    requires s.processIds == []
    ensures var r := Proceed(s, poll, items);
            && r.processIds == []
            && (r.completed == s.completed + 1 ||
                (r.completed == s.completed && poll in r.polls && r.polls[poll].FetchingErr? && |r.polls[poll].rest| < |items|))
    decreases |items|
  {
    if items != [] {
      var item, rest := items[0], items[1..];
      if Takes(s.stop, item) {
        var taken := Taken(s, item.id);
        if s.stop {
          ProceedWithNone(taken.(results := s.results + [StopResult(s, item)]), poll, rest);
        } else if item.status != "SUCCESS" {
          ProceedWithNone(taken.(results := s.results + [StartResult(s, item, NoLog, NoLog)]), poll, rest);
        }
      } else {
        ProceedWithNone(s, poll, rest);
      }
    }
  }

  lemma RunFromCons(s: State, e: Event, more: seq<Event>)
    ensures RunFrom(s, [e] + more) == RunFrom(Step(s, e), more)
  {
    assert ([e] + more)[1..] == more;
  }

  /** A suspended poll can come to its end, which announces completion when nothing is pending. */
  lemma {:induction false} PollEnds(s: State, poll: nat) returns (events: seq<Event>)
    requires s.processIds == [] && poll in s.polls
    ensures NoChecks(events) && RunFrom(s, events).completed == s.completed + 1
    decreases if s.polls[poll].Asked? then 0 else 1 + 2 * |s.polls[poll].rest| + if s.polls[poll].FetchingErr? then 1 else 0
  {
    var e := match s.polls[poll] {
      case Asked(_) => Reply(poll, None)
      case FetchingErr(_, _) => ErrLog(poll, None)
      case FetchingOut(_, _, _) => OutLog(poll, None)
    };
    var after, more := Step(s, e), [];
    if s.polls[poll].FetchingOut? {
      var p := s.polls[poll];
      ProceedWithNone(s.(results := s.results + [StartResult(s, p.item, p.stderrLog, Text(None))]), poll, p.rest);
    }
    if after.completed == s.completed {
      more := PollEnds(after, poll);
    }
    RunFromCons(s, e, more);
    events := [e] + more;
  }

  lemma {:induction false} NoPollsNoAnnouncement(s: State, events: seq<Event>)
    requires s.processIds == [] && s.polls == map[] && NoChecks(events)
    ensures RunFrom(s, events).completed == s.completed
    decreases |events|
  {
    if events != [] {
      assert events[0] in events && !events[0].Check?;
      assert Step(s, events[0]) == s;
      assert forall e :: e in events[1..] ==> e in events;
      NoPollsNoAnnouncement(s, events[1..]);
    }
  }

  lemma {:induction false} ProceedCompletes(s: State, poll: nat, items: seq<Item>)
    ensures var r := Proceed(s, poll, items);
            && r.initial == s.initial && r.completed >= s.completed
            && (r.completed > s.completed ==> r.processIds == [])
            && (s.processIds == [] ==> r.processIds == [])
    decreases |items|
  {
    if items != [] {
      var item, rest := items[0], items[1..];
      if Takes(s.stop, item) {
        var taken := Taken(s, item.id);
        if s.stop {
          ProceedCompletes(taken.(results := s.results + [StopResult(s, item)]), poll, rest);
        } else if item.status != "SUCCESS" {
          ProceedCompletes(taken.(results := s.results + [StartResult(s, item, NoLog, NoLog)]), poll, rest);
        }
      } else {
        ProceedCompletes(s, poll, rest);
      }
    }
  }

  /** Completion is announced only when nothing is pending, and with one list that stays so. */
  lemma {:induction false} CompletedMeansNone(stop: bool, events: seq<Event>)
    requires GivenOnce(stop, events)
    ensures var s := Run(stop, events);
            && (s.completed > 0 ==> s.processIds == [])
            && (s.initial == [] ==> s.processIds == [] && s.polls == map[] && s.completed == 0)
    decreases |events|
  {
    if events != [] {
      var s, e := Run(stop, events[..|events| - 1]), events[|events| - 1];
      CompletedMeansNone(stop, events[..|events| - 1]);
      match e {
        case Reply(poll, Some(items)) => ProceedCompletes(s, poll, items);
        case OutLog(poll, text) =>
          if poll in s.polls && s.polls[poll].FetchingOut? {
            var p := s.polls[poll];
            ProceedCompletes(s.(results := s.results + [StartResult(s, p.item, p.stderrLog, Text(text))]), poll, p.rest);
          }
        case _ =>
      }
    }
  }

  /** Once completion has been announced, it can be announced again, without a further list, if and only if
      some poll is still suspended: that is what the announcement fails to check. */
  lemma AnnouncedAgainExactly(stop: bool, events: seq<Event>)
    requires GivenOnce(stop, events) && Run(stop, events).completed > 0
    ensures var s := Run(stop, events);
            (exists more :: NoChecks(more) && RunFrom(s, more).completed > s.completed) <==> s.polls != map[]
  {
    var s := Run(stop, events);
    CompletedMeansNone(stop, events);
    if s.polls != map[] {
      var poll :| poll in s.polls;
      var more := PollEnds(s, poll);
    } else {
      forall more | NoChecks(more) ensures RunFrom(s, more).completed == s.completed {
        NoPollsNoAnnouncement(s, more);
      }
    }
  }
}
