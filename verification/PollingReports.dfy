/** Which processes a poll takes and what it reports of each, in terms of the replies heard. */
module PollingReports {
  import opened Basics
  import opened ProcessPolling
  import opened PollingOnce

  /** Nothing more is to be expected of the process. */
  predicate Settled(stop: bool, item: Item) {
    if stop then item.runningStatus != "STOPPING" && item.runningStatus != "RUNNING"
    else item.status == "FAILURE" ||
         (item.status == "SUCCESS" && item.runningStatus != "STARTING" && item.runningStatus != "STOPPED")
  }

  /** The poll waits for the logs of a process that was started. */
  predicate Awaits(stop: bool, item: Item) {
    !stop && item.status == "SUCCESS" && item.runningStatus != "STARTING" && item.runningStatus != "STOPPED"
  }

  // ----- One stretch of a poll

  lemma {:induction false} WithoutInOrder(a: seq<Id>, b: seq<Id>, id: Id)
    ensures Without(a + b, id) == Without(a, id) + Without(b, id)
    ensures |a| == 1 ==> Without(a, id) == if a[0] == id then [] else a
    decreases |a|
  {
    if a == [] {
      assert a + b == b;
    } else {
      var first := if a[0] != id then [a[0]] else [];
      assert (a + b)[0] == a[0] && (a + b)[1..] == a[1..] + b;
      WithoutInOrder(a[1..], b, id);
      JoinAssociates(first, Without(a[1..], id), Without(b, id));
      assert |a| == 1 ==> Without(a[1..], id) == [] && first + [] == first;
    }
  }

  /** What the loop over `items` does to the processes pending, when it gets as far as the first `n`. */
  ghost predicate TakesFirst(s: State, items: seq<Item>, n: nat, after: State)
    requires n <= |items|
  {
    && (forall j :: 0 <= j < n && Settled(s.stop, items[j]) ==> items[j].id in after.taken && items[j].id !in after.processIds)
    && (forall x :: x in after.processIds ==> x in s.processIds)
    && (forall x :: x in s.processIds && x !in after.processIds ==> SaidSettled(s.stop, items, n, x))
    && (forall x :: x in s.taken ==> x in after.taken)
    && (forall x :: x in after.taken && x !in s.taken ==> SaidSettled(s.stop, items, n, x))
  }

  ghost predicate SaidSettled(stop: bool, items: seq<Item>, n: nat, x: Id)
    requires n <= |items|
  {
    exists j :: 0 <= j < n && items[j].id == x && Settled(stop, items[j])
  }

  /** The poll waits for the logs of the item before the `n`-th, and nothing is announced; or it has seen all
      items and ended, and completion is announced exactly if no process is pending. */
  ghost predicate StopsAt(s: State, poll: nat, items: seq<Item>, n: nat, after: State)
    requires n <= |items|
  {
    if poll in after.polls then
      && 0 < n && Awaits(s.stop, items[n - 1]) && after.polls == s.polls[poll := FetchingErr(items[n - 1], items[n..])]
      && (forall j :: 0 <= j < n - 1 ==> !Awaits(s.stop, items[j]))
      && after.completed == s.completed && after.runStatus == s.runStatus && after.ticking == s.ticking
    else
      && n == |items| && after.polls == s.polls - {poll}
      && (forall j :: 0 <= j < n ==> !Awaits(s.stop, items[j]))
      && (if after.processIds == [] then after.completed == s.completed + 1 && after.runStatus == 1 && !after.ticking
          else after.completed == s.completed && after.runStatus == s.runStatus && after.ticking == s.ticking)
  }

  lemma TakenMembers(s: State, id: Id)
    ensures var t := Taken(s, id);
            && id in t.taken && id !in t.processIds
            && (forall x :: x in t.processIds <==> x in s.processIds && x != id)
            && (forall x :: x in t.taken <==> x in s.taken || x == id)
  {
    WithoutMembers(s.processIds, id);
    assert forall x :: x in Without(s.processIds, id) <==> x in SetOf(Without(s.processIds, id));
  }

  /** One item in front of a stretch of which `n` items are seen. */
  lemma TakesOneMore(s: State, items: seq<Item>, s1: State, n: nat, after: State)
    requires items != [] && n <= |items| - 1 && s1.stop == s.stop
    requires if Settled(s.stop, items[0]) then s1.processIds == Without(s.processIds, items[0].id) && s1.taken == s.taken + [items[0].id]
             else s1.processIds == s.processIds && s1.taken == s.taken
    requires TakesFirst(s1, items[1..], n, after)
    ensures TakesFirst(s, items, n + 1, after)
  {
    var rest, id := items[1..], items[0].id;
    TakenMembers(s, id);
    forall j | 0 <= j < n + 1 && Settled(s.stop, items[j])
      ensures items[j].id in after.taken && items[j].id !in after.processIds
    {
      if j > 0 {
        assert rest[j - 1] == items[j];
      }
    }
    forall x | SaidSettled(s.stop, rest, n, x) ensures SaidSettled(s.stop, items, n + 1, x) {
      var j :| 0 <= j < n && rest[j].id == x && Settled(s.stop, rest[j]);
      assert items[j + 1] == rest[j];
    }
    assert Settled(s.stop, items[0]) ==> SaidSettled(s.stop, items, n + 1, id);
  }

  lemma StopsOneMore(s: State, poll: nat, items: seq<Item>, s1: State, n: nat, after: State)
    requires items != [] && n <= |items| - 1 && !Awaits(s.stop, items[0])
    requires s1.stop == s.stop && s1.polls == s.polls && s1.completed == s.completed
    requires s1.runStatus == s.runStatus && s1.ticking == s.ticking
    requires StopsAt(s1, poll, items[1..], n, after)
    ensures StopsAt(s, poll, items, n + 1, after)
  {
    var rest := items[1..];
    assert rest[n..] == items[n + 1..];
    forall j | 0 < j < n + 1 ensures items[j] == rest[j - 1] {}
  }

  /** The loop waits for the logs of the first item. */
  lemma FirstAwaits(s: State, poll: nat, items: seq<Item>)
    requires items != [] && Awaits(s.stop, items[0])
    ensures TakesFirst(s, items, 1, Proceed(s, poll, items)) && StopsAt(s, poll, items, 1, Proceed(s, poll, items))
  {
    TakenMembers(s, items[0].id);
    assert SaidSettled(s.stop, items, 1, items[0].id);
  }

  lemma FirstPasses(s: State, poll: nat, items: seq<Item>, n: nat)
    requires items != [] && !Awaits(s.stop, items[0]) && n <= |items| - 1
    requires var s1 := AfterFirst(s, items[0]);
             TakesFirst(s1, items[1..], n, Proceed(s1, poll, items[1..])) && StopsAt(s1, poll, items[1..], n, Proceed(s1, poll, items[1..]))
    ensures TakesFirst(s, items, n + 1, Proceed(s, poll, items)) && StopsAt(s, poll, items, n + 1, Proceed(s, poll, items))
  {
    var s1, after := AfterFirst(s, items[0]), Proceed(s, poll, items);
    FirstItem(s, poll, items);
    TakesOneMore(s, items, s1, n, after);
    StopsOneMore(s, poll, items, s1, n, after);
  }

  /** The loop goes on to the first item whose logs it has to wait for, or to the end; the processes it takes
      on its way are exactly those that are said to be settled. */
  lemma {:induction false} LoopTakesSettled(s: State, poll: nat, items: seq<Item>) returns (n: nat)
    ensures n <= |items|
    ensures TakesFirst(s, items, n, Proceed(s, poll, items))
    ensures StopsAt(s, poll, items, n, Proceed(s, poll, items))
    decreases |items|
  {
    if items == [] {
      n := 0;
    } else if Awaits(s.stop, items[0]) {
      n := 1;
      FirstAwaits(s, poll, items);
    } else {
      n := LoopTakesSettled(AfterFirst(s, items[0]), poll, items[1..]);
      FirstPasses(s, poll, items, n);
      n := n + 1;
    }
  }

  /** What an item that is not waited for leaves behind. */
  function AfterFirst(s: State, item: Item): State {
    if !Settled(s.stop, item) then s
    else Taken(s, item.id).(results := s.results + [ReportOf(s, item, NoLog, NoLog)])
  }

  /** The report on an item: it was meant to be stopped and has stopped, or to be started and runs. Logs of
      processes that were to be stopped are fetched for those in the state `FATAL`, without waiting. */
  function ReportOf(s: State, item: Item, stderrLog: Log, stdoutLog: Log): Result {
    Result(item.id, if item.id in s.names then Some(s.names[item.id]) else None,
           item.runningStatus == if s.stop then "STOPPED" else "RUNNING",
           if s.stop && item.runningStatus == "FATAL" then Promised else stderrLog,
           if s.stop && item.runningStatus == "FATAL" then Promised else stdoutLog)
  }

  lemma FirstItem(s: State, poll: nat, items: seq<Item>)
    requires items != [] && !Awaits(s.stop, items[0])
    ensures Proceed(s, poll, items) == Proceed(AfterFirst(s, items[0]), poll, items[1..])
  {
    if s.stop {
      assert Settled(true, items[0]) <==> Stopped(items[0]);
      assert StopResult(s, items[0]) == ReportOf(s, items[0], NoLog, NoLog);
    } else {
      assert Settled(false, items[0]) <==> Started(items[0]);
      assert StartResult(s, items[0], NoLog, NoLog) == ReportOf(s, items[0], NoLog, NoLog);
    }
  }

  /** A process stays pending as long as no reply says that it is settled. */
  lemma NotSettledStays(s: State, poll: nat, items: seq<Item>, id: Id)
    requires poll in s.polls && s.polls[poll].Asked? && id in s.processIds
    requires forall i :: 0 <= i < |items| && items[i].id == id ==>
               if s.stop then items[i].runningStatus == "STOPPING" || items[i].runningStatus == "RUNNING"
               else items[i].status != "FAILURE" &&
                    (items[i].status == "SUCCESS" ==> items[i].runningStatus == "STARTING" || items[i].runningStatus == "STOPPED")
    ensures id in Step(s, Reply(poll, Some(items))).processIds
  {
    var n := LoopTakesSettled(s, poll, items);
    assert !SaidSettled(s.stop, items, n, id);
  }

  /** A reply that says of every pending process that it is settled, and needs no logs, completes the run. */
  lemma SettledReplyCompletes(s: State, poll: nat, items: seq<Item>)
    requires poll in s.polls && s.polls[poll].Asked?
    requires forall i :: 0 <= i < |items| ==>
               if s.stop then items[i].runningStatus != "STOPPING" && items[i].runningStatus != "RUNNING"
               else items[i].status == "FAILURE"
    requires forall id :: id in s.processIds ==> exists i :: 0 <= i < |items| && items[i].id == id
    ensures var after := Step(s, Reply(poll, Some(items)));
            after.processIds == [] && after.completed == s.completed + 1 && after.runStatus == 1 && !after.ticking
  {
    var after := Proceed(s, poll, items);
    var n := LoopTakesSettled(s, poll, items);
    assert poll !in after.polls;
    if after.processIds != [] {
      var id := after.processIds[0];
      assert id in after.processIds;
      var i :| 0 <= i < |items| && items[i].id == id;
      assert Settled(s.stop, items[i]);
    }
  }

  // ----- Over whole runs

  ghost predicate Heard(events: seq<Event>, item: Item) {
    exists i :: 0 <= i < |events| && events[i].Reply? && events[i].items.Some? && item in events[i].items.value
  }

  ghost predicate NameGiven(events: seq<Event>, id: Id, name: string) {
    exists i :: 0 <= i < |events| && events[i].Check? && events[i].result.Some? && (id, name) in events[i].result.value
  }

  ghost predicate TakenWell(events: seq<Event>, stop: bool, id: Id) {
    exists item :: Heard(events, item) && item.id == id && Settled(stop, item)
  }

  /** The logs as the source fetches them for the item: for a started process each text in its own place. */
  ghost predicate LogsWell(events: seq<Event>, stop: bool, item: Item, stderrLog: Log, stdoutLog: Log) {
    if stop then
      stderrLog == stdoutLog == if item.runningStatus == "FATAL" then Promised else NoLog
    else if item.status == "SUCCESS" then
      exists poll: nat, err: Option<string>, out: Option<string> ::
        && ErrLog(poll, err) in events && OutLog(poll, out) in events
        && stderrLog == Text(err) && stdoutLog == Text(out)
    else stderrLog == stdoutLog == NoLog
  }

  ghost predicate ReportFits(events: seq<Event>, stop: bool, r: Result, item: Item) {
    && item.id == r.processId && Settled(stop, item)
    && r.status == (item.runningStatus == if stop then "STOPPED" else "RUNNING")
    && LogsWell(events, stop, item, r.stderrLog, r.stdoutLog)
  }

  ghost predicate ResultWell(events: seq<Event>, stop: bool, r: Result) {
    && (exists item :: Heard(events, item) && ReportFits(events, stop, r, item))
    && (r.instanceName.Some? ==> NameGiven(events, r.processId, r.instanceName.value))
  }

  ghost predicate AllHeard(events: seq<Event>, items: seq<Item>) {
    forall i :: 0 <= i < |items| ==> Heard(events, items[i])
  }

  ghost predicate PollWell(events: seq<Event>, stop: bool, p: nat, poll: Poll) {
    match poll
    case Asked(_) => true
    case FetchingErr(item, rest) => Awaits(stop, item) && Heard(events, item) && AllHeard(events, rest)
    case FetchingOut(item, log, rest) =>
      Awaits(stop, item) && Heard(events, item) && AllHeard(events, rest) && log.Text? && ErrLog(p, log.text) in events
  }

  ghost predicate HistoryWell(events: seq<Event>, s: State) {
    && (forall id :: id in s.taken ==> TakenWell(events, s.stop, id))
    && (forall r :: r in s.results ==> ResultWell(events, s.stop, r))
    && (forall id :: id in s.names ==> NameGiven(events, id, s.names[id]))
  }

  ghost predicate PollsWell(events: seq<Event>, s: State) {
    forall p :: p in s.polls ==> PollWell(events, s.stop, p, s.polls[p])
  }

  lemma HeardMore(events: seq<Event>, more: seq<Event>, item: Item)
    requires events <= more && Heard(events, item)
    ensures Heard(more, item)
  {
    var i :| 0 <= i < |events| && events[i].Reply? && events[i].items.Some? && item in events[i].items.value;
    assert more[i] == events[i];
  }

  lemma NameMore(events: seq<Event>, more: seq<Event>, id: Id, name: string)
    requires events <= more && NameGiven(events, id, name)
    ensures NameGiven(more, id, name)
  {
    var i :| 0 <= i < |events| && events[i].Check? && events[i].result.Some? && (id, name) in events[i].result.value;
    assert more[i] == events[i];
  }

  lemma ResultMore(events: seq<Event>, more: seq<Event>, stop: bool, r: Result)
    requires events <= more && ResultWell(events, stop, r)
    ensures ResultWell(more, stop, r)
  {
    var item :| Heard(events, item) && ReportFits(events, stop, r, item);
    HeardMore(events, more, item);
    assert forall e :: e in events ==> e in more;
    assert ReportFits(more, stop, r, item);
    if r.instanceName.Some? {
      NameMore(events, more, r.processId, r.instanceName.value);
    }
  }

  lemma HistoryMore(events: seq<Event>, more: seq<Event>, s: State)
    requires events <= more && HistoryWell(events, s)
    ensures HistoryWell(more, s)
  {
    forall id | id in s.taken ensures TakenWell(more, s.stop, id) {
      var item :| Heard(events, item) && item.id == id && Settled(s.stop, item);
      HeardMore(events, more, item);
    }
    forall r | r in s.results ensures ResultWell(more, s.stop, r) {
      ResultMore(events, more, s.stop, r);
    }
    forall id | id in s.names ensures NameGiven(more, id, s.names[id]) {
      NameMore(events, more, id, s.names[id]);
    }
  }

  lemma PollsMore(events: seq<Event>, more: seq<Event>, s: State)
    requires events <= more && PollsWell(events, s)
    ensures PollsWell(more, s)
  {
    forall p | p in s.polls ensures PollWell(more, s.stop, p, s.polls[p]) {
      assert PollWell(events, s.stop, p, s.polls[p]);
      forall item | Heard(events, item) ensures Heard(more, item) { HeardMore(events, more, item); }
      assert forall e :: e in events ==> e in more;
    }
  }

  /** A process is taken in hand. */
  lemma TakingWell(events: seq<Event>, s: State, item: Item)
    requires HistoryWell(events, s) && Heard(events, item) && Settled(s.stop, item)
    ensures HistoryWell(events, Taken(s, item.id))
  {
    assert TakenWell(events, s.stop, item.id);
    assert forall id :: id in s.taken + [item.id] ==> id in s.taken || id == item.id;
  }

  lemma ReportingWell(events: seq<Event>, s: State, r: Result, item: Item)
    requires HistoryWell(events, s) && Heard(events, item) && ReportFits(events, s.stop, r, item)
    requires r.instanceName == if r.processId in s.names then Some(s.names[r.processId]) else None
    ensures HistoryWell(events, s.(results := s.results + [r]))
  {
    assert ResultWell(events, s.stop, r);
    assert forall x :: x in s.results + [r] ==> x in s.results || x == r;
  }

  lemma FirstWell(events: seq<Event>, s: State, item: Item)
    requires HistoryWell(events, s) && Heard(events, item) && !Awaits(s.stop, item)
    ensures HistoryWell(events, AfterFirst(s, item))
  {
    if Settled(s.stop, item) {
      TakingWell(events, s, item);
      var r := ReportOf(s, item, NoLog, NoLog);
      assert ReportFits(events, s.stop, r, item);
      ReportingWell(events, Taken(s, item.id), r, item);
    }
  }

  lemma {:induction false} ProceedWell(events: seq<Event>, s: State, poll: nat, items: seq<Item>)
    requires HistoryWell(events, s) && PollsWell(events, s.(polls := s.polls - {poll})) && AllHeard(events, items)
    ensures HistoryWell(events, Proceed(s, poll, items)) && PollsWell(events, Proceed(s, poll, items))
    decreases |items|
  {
    if items != [] {
      var item, rest := items[0], items[1..];
      assert AllHeard(events, rest) by {
        forall i | 0 <= i < |rest| ensures Heard(events, rest[i]) { assert rest[i] == items[i + 1]; }
      }
      if Awaits(s.stop, item) {
        TakingWell(events, s, item);
        PausedWell(events, s, poll, item, rest);
      } else {
        FirstItem(s, poll, items);
        FirstWell(events, s, item);
        ProceedWell(events, AfterFirst(s, item), poll, rest);
      }
    }
  }

  lemma PausedWell(events: seq<Event>, s: State, poll: nat, item: Item, rest: seq<Item>)
    requires PollsWell(events, s.(polls := s.polls - {poll})) && Awaits(s.stop, item)
    requires Heard(events, item) && AllHeard(events, rest)
    ensures PollsWell(events, s.(polls := s.polls[poll := FetchingErr(item, rest)]))
  {
    assert PollWell(events, s.stop, poll, FetchingErr(item, rest));
    forall p | p in s.polls && p != poll ensures PollWell(events, s.stop, p, s.polls[p]) {
      assert p in s.polls - {poll};
    }
  }

  lemma {:induction false} NamesFrom(names: map<Id, string>, result: seq<(Id, string)>, id: Id)
    ensures id in NamesOf(names, result) <==> id in names || exists i :: 0 <= i < |result| && result[i].0 == id
    ensures id in NamesOf(names, result) ==>
              (id, NamesOf(names, result)[id]) in result || (id in names && names[id] == NamesOf(names, result)[id])
    decreases |result|
  {
    if result != [] {
      var first, rest := result[0], result[1..];
      NamesFrom(names[first.0 := first.1], rest, id);
      assert forall x :: x in rest ==> x in result;
      assert forall i :: 0 <= i < |rest| ==> rest[i] == result[i + 1];
    }
  }

  lemma CheckWell(events: seq<Event>, s: State, result: seq<(Id, string)>)
    requires HistoryWell(events, s) && Check(Some(result)) in events
    ensures HistoryWell(events, Step(s, Check(Some(result))))
  {
    var names := NamesOf(map[], result);
    forall id | id in names ensures NameGiven(events, id, names[id]) {
      NamesFrom(map[], result, id);
      var i :| 0 <= i < |events| && events[i] == Check(Some(result));
      assert (id, names[id]) in events[i].result.value;
    }
  }

  lemma ReplyWell(events: seq<Event>, s: State, poll: nat, items: seq<Item>)
    requires HistoryWell(events, s) && PollsWell(events, s) && Reply(poll, Some(items)) in events
    ensures HistoryWell(events, Proceed(s, poll, items)) && PollsWell(events, Proceed(s, poll, items))
  {
    var i :| 0 <= i < |events| && events[i] == Reply(poll, Some(items));
    forall j | 0 <= j < |items| ensures Heard(events, items[j]) {
      assert items[j] in events[i].items.value;
    }
    ProceedWell(events, s, poll, items);
  }

  /** The two texts of a process that was started come to stand in their places of its report. */
  lemma OutLogWell(events: seq<Event>, s: State, poll: nat, text: Option<string>)
    requires HistoryWell(events, s) && PollsWell(events, s) && OutLog(poll, text) in events
    requires poll in s.polls && s.polls[poll].FetchingOut?
    ensures HistoryWell(events, Step(s, OutLog(poll, text))) && PollsWell(events, Step(s, OutLog(poll, text)))
  {
    var p := s.polls[poll];
    assert PollWell(events, s.stop, poll, p);
    var r := StartResult(s, p.item, p.stderrLog, Text(text));
    assert r.stderrLog == Text(p.stderrLog.text);
    assert ReportFits(events, s.stop, r, p.item);
    ReportingWell(events, s, r, p.item);
    ProceedWell(events, s.(results := s.results + [r]), poll, p.rest);
  }

  lemma StepWell(events: seq<Event>, s: State, e: Event)
    requires HistoryWell(events, s) && PollsWell(events, s) && e in events
    ensures HistoryWell(events, Step(s, e)) && PollsWell(events, Step(s, e))
  {
    match e
    case Check(None) =>
    case Check(Some(result)) => CheckWell(events, s, result);
    case Tick =>
    case Reply(poll, items) =>
      if poll in s.polls && s.polls[poll].Asked? && items.Some? {
        ReplyWell(events, s, poll, items.value);
      }
    case ErrLog(poll, text) =>
      if poll in s.polls && s.polls[poll].FetchingErr? {
        assert PollWell(events, s.stop, poll, s.polls[poll]);
      }
    case OutLog(poll, text) =>
      if poll in s.polls && s.polls[poll].FetchingOut? {
        OutLogWell(events, s, poll, text);
      }
    case Failed(poll) =>
  }

  lemma {:induction false} RunWell(stop: bool, events: seq<Event>)
    ensures Run(stop, events).stop == stop
    ensures HistoryWell(events, Run(stop, events)) && PollsWell(events, Run(stop, events))
    decreases |events|
  {
    if events != [] {
      var init, e := events[..|events| - 1], events[|events| - 1];
      RunWell(stop, init);
      StopStays(Run(stop, init), e);
      HistoryMore(init, events, Run(stop, init));
      PollsMore(init, events, Run(stop, init));
      StepWell(events, Run(stop, init), e);
    }
  }

  lemma {:induction false} StopStaysInLoop(s: State, poll: nat, items: seq<Item>)
    ensures Proceed(s, poll, items).stop == s.stop && Proceed(s, poll, items).names == s.names
    ensures Proceed(s, poll, items).initial == s.initial
    decreases |items|
  {
    if items != [] && !Awaits(s.stop, items[0]) {
      FirstItem(s, poll, items);
      StopStaysInLoop(AfterFirst(s, items[0]), poll, items[1..]);
    }
  }

  lemma StopStays(s: State, e: Event)
    ensures Step(s, e).stop == s.stop
  {
    match e
    case Reply(poll, Some(items)) => StopStaysInLoop(s, poll, items);
    case OutLog(poll, text) =>
      if poll in s.polls && s.polls[poll].FetchingOut? {
        var p := s.polls[poll];
        StopStaysInLoop(s.(results := s.results + [StartResult(s, p.item, p.stderrLog, Text(text))]), poll, p.rest);
      }
    case _ =>
  }

  /** In every run a process is taken only after a reply has said of it: when stopping, that it neither stops
      nor runs; when starting, that it failed, or that it succeeded and neither starts nor is stopped. */
  lemma TakenOnlyIfSettled(stop: bool, events: seq<Event>, id: Id)
    requires id in Run(stop, events).taken
    ensures exists item :: Heard(events, item) && item.id == id &&
              if stop then item.runningStatus != "STOPPING" && item.runningStatus != "RUNNING"
              else item.status == "FAILURE" ||
                   (item.status == "SUCCESS" && item.runningStatus != "STARTING" && item.runningStatus != "STOPPED")
  {
    RunWell(stop, events);
    var item :| Heard(events, item) && item.id == id && Settled(stop, item);
  }

  /** In every run each report is about an item of a reply: it says whether the process is in the state asked
      for, and holds the logs that belong to its state, each in its place. */
  lemma ReportsAreTrue(stop: bool, events: seq<Event>, r: Result)
    requires r in Run(stop, events).results
    ensures exists item :: Heard(events, item) && ReportFits(events, stop, r, item)
    ensures r.instanceName.Some? ==> NameGiven(events, r.processId, r.instanceName.value)
  {
    RunWell(stop, events);
    assert ResultWell(events, stop, r);
  }

  lemma {:induction false} ResultsGrow(s: State, poll: nat, items: seq<Item>)
    ensures s.results <= Proceed(s, poll, items).results
    decreases |items|
  {
    if items != [] && !Awaits(s.stop, items[0]) {
      FirstItem(s, poll, items);
      ResultsGrow(AfterFirst(s, items[0]), poll, items[1..]);
    }
  }

  /** A poll that waits for the logs of a process reports it next, with the first text as its error log and
      the second as its output. */
  lemma TextsInPlace(s: State, poll: nat, item: Item, rest: seq<Item>, err: Option<string>, out: Option<string>)
    requires poll in s.polls && s.polls[poll] == FetchingErr(item, rest)
    ensures var after := Step(Step(s, ErrLog(poll, err)), OutLog(poll, out));
            && |s.results| < |after.results| && after.results[..|s.results|] == s.results
            && after.results[|s.results|] ==
               Result(item.id, if item.id in s.names then Some(s.names[item.id]) else None, item.runningStatus == "RUNNING", Text(err), Text(out))
  {
    var waiting := Step(s, ErrLog(poll, err));
    var r := StartResult(waiting, item, Text(err), Text(out));
    ResultsGrow(waiting.(results := s.results + [r]), poll, rest);
  }

  // ----- Names

  /** A list of processes is appended to those pending, its names replace those known, and the timer runs. */
  lemma ListIsAppended(s: State, result: seq<(Id, string)>)
    ensures var after := Step(s, Check(Some(result)));
            && |after.processIds| == |s.processIds| + |result| && after.processIds[..|s.processIds|] == s.processIds
            && (forall i :: 0 <= i < |result| ==> after.processIds[|s.processIds| + i] == result[i].0 && result[i].0 in after.names)
            && (forall id :: id in after.names ==> (id, after.names[id]) in result)
            && after.ticking && after.runStatus == s.runStatus && after.results == s.results && after.polls == s.polls
  {
    var names := NamesOf(map[], result);
    forall i | 0 <= i < |result| ensures result[i].0 in names {
      NamesFrom(map[], result, result[i].0);
    }
    forall id | id in names ensures (id, names[id]) in result {
      NamesFrom(map[], result, id);
    }
  }

  /** All processes given are known by name, and so were all those reported. */
  ghost predicate AllNamed(s: State) {
    && (forall id :: id in s.initial ==> id in s.names)
    && forall r :: r in s.results ==> r.instanceName.Some?
  }

  lemma {:induction false} ProceedNamed(s: State, poll: nat, items: seq<Item>)
    requires AllNamed(s) && ItemIds(items) <= SetOf(s.initial)
    ensures AllNamed(Proceed(s, poll, items))
    decreases |items|
  {
    if items != [] && !Awaits(s.stop, items[0]) {
      ItemIdsSplit(items);
      assert items[0].id in SetOf(s.initial);
      FirstItem(s, poll, items);
      ProceedNamed(AfterFirst(s, items[0]), poll, items[1..]);
    }
  }

  lemma StepNamed(s: State, e: Event)
    requires AllNamed(s) && Conserved(s) && ReplyFits(s, e) && GivenHere(s, e)
    ensures AllNamed(Step(s, e))
  {
    match e
    case Check(Some(result)) =>
      ListIsAppended(s, result);
      assert forall id :: id in s.initial + IdsOf(result) ==> exists i :: 0 <= i < |result| && result[i].0 == id;
    case Reply(poll, items) =>
      if poll in s.polls && s.polls[poll].Asked? && items.Some? {
        assert About(s.polls[poll]) <= SetOf(s.initial);
        ProceedNamed(s, poll, items.value);
      }
    case OutLog(poll, text) =>
      if poll in s.polls && s.polls[poll].FetchingOut? {
        var p := s.polls[poll];
        assert About(p) <= SetOf(s.initial) && p.item.id in About(p);
        assert p.item.id in SetOf(s.initial);
        ProceedNamed(s.(results := s.results + [StartResult(s, p.item, p.stderrLog, Text(text))]), poll, p.rest);
      }
    case _ =>
  }

  /** With one list of processes, and replies that speak only of them, each report has the name given. */
  lemma {:induction false} ReportsAreNamed(stop: bool, events: seq<Event>)
    requires RepliesFit(stop, events) && GivenOnce(stop, events)
    ensures AllNamed(Run(stop, events))
    ensures forall r :: r in Run(stop, events).results ==>
              r.instanceName.Some? && NameGiven(events, r.processId, r.instanceName.value)
    decreases |events|
  {
    if events != [] {
      var init, e := events[..|events| - 1], events[|events| - 1];
      ReportsAreNamed(stop, init);
      NothingIsLost(stop, init);
      StepNamed(Run(stop, init), e);
    }
    forall r | r in Run(stop, events).results ensures r.instanceName.Some? && NameGiven(events, r.processId, r.instanceName.value) {
      ReportsAreTrue(stop, events, r);
    }
  }
}
