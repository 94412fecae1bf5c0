/** Every chart is requested and drawn in the end, exactly unless a request has failed. */
module ChartProgress {
  import opened Basics
  import opened ChartScheduler

  // ----- With brokers the session never idles, and without it always does

  /** The session starts with exactly the first metric requested, if there are brokers; then it never idles,
      and otherwise nothing is ever requested. */
  lemma BusyExactlyWithBrokers(list: seq<Metric>, brokers: bool, events: seq<Event>)
    requires Distinct(list) && |list| >= 4
    ensures Run(list, true, []).requested == Run(list, true, []).pending == [list[0]]
    ensures Run(list, brokers, events).requested == [] <==> !brokers
  {
    SliceAt(list, 0, 4);
    RunValid(list, brokers, events);
  }

  // ----- What is due next

  /** Every metric requested has been answered, or will be. */
  ghost predicate Answered(s: State) {
    forall x :: x in s.requested ==> x in s.pending || x in s.charted
  }

  ghost predicate Serving(s: State) {
    Valid(s) && s.requested != [] && Answered(s)
  }

  /** The phases between two charts: to be noticed, to be asked for, under request, to be drawn. */
  function Phase(s: State): nat {
    if s.pending != [] then 2
    else if s.request == [] then 3
    else if |s.finished| < |s.requested| then 1
    else 4
  }

  function Left(s: State): int {
    4 * (|s.list| - |s.finished|) + Phase(s)
  }

  lemma ReplyIsDue(s: State) returns (e: Event)
    requires Serving(s) && s.pending != []
    ensures e == Reply(s.pending[0]) && Serving(Step(s, e)) && Left(Step(s, e)) < Left(s)
  {
    var x := s.pending[0];
    e := Reply(x);
    FinishedKeepUp(s);
    StepValid(s, e);
    assert s.pending == [x] && RemoveFirst([x], x) == [];
  }

  lemma ChartIsDue(s: State) returns (e: Event)
    requires Serving(s) && s.pending == [] && s.request != [] && |s.finished| < |s.requested|
    ensures e == Finished(s.requested[|s.requested| - 1]) && Serving(Step(s, e)) && Left(Step(s, e)) < Left(s)
    ensures Step(s, e).finished == s.finished + [s.requested[|s.requested| - 1]]
  {
    var x := s.requested[|s.requested| - 1];
    e := Finished(x);
    BatchFacts(s);
    assert x in s.requested && s.request[|s.already|] == x;
    FinishedShape(s, x);
    StepValid(s, e);
  }

  lemma WatcherIsDue(s: State) returns (e: Event)
    requires Serving(s) && s.pending == [] && s.request != [] && |s.finished| >= |s.requested|
    ensures e == Flush && Serving(Step(s, e)) && Left(Step(s, e)) < Left(s)
  {
    e := Flush;
    BatchFacts(s);
    StepValid(s, e);
    if |s.already| < |s.request| {
      FlushIsLoad(s);
    }
  }

  lemma ClickIsDue(s: State) returns (e: Event)
    requires Serving(s) && s.request == [] && s.finished != s.list
    ensures e == More && Serving(Step(s, e)) && Left(Step(s, e)) < Left(s)
  {
    e := More;
    if UnderWay(s) {
      BatchFacts(s);
    }
    assert s.list[..|s.list|] == s.list;
    MoreIsNextBatch(s);
    StepValid(s, e);
  }

  lemma SomethingIsDue(s: State) returns (e: Event)
    requires Serving(s) && s.finished != s.list
    ensures !e.Failed? && Serving(Step(s, e)) && Left(Step(s, e)) < Left(s)
  {
    if s.pending != [] {
      e := ReplyIsDue(s);
    } else if s.request == [] {
      e := ClickIsDue(s);
    } else if |s.finished| < |s.requested| {
      e := ChartIsDue(s);
    } else {
      e := WatcherIsDue(s);
    }
  }

  lemma LeftIsNat(s: State)
    requires Valid(s)
    ensures Left(s) >= 0
  {
    FinishedKeepUp(s);
  }

  // ----- From a state on

  function RunOn(s: State, events: seq<Event>): State
    decreases |events|
  {
    if events == [] then s else RunOn(Step(s, events[0]), events[1..])
  }

  lemma {:induction false} RunJoin(list: seq<Metric>, brokers: bool, events: seq<Event>, more: seq<Event>)
    ensures Run(list, brokers, events + more) == RunOn(Run(list, brokers, events), more)
    decreases |more|
  {
    if more == [] {
      assert events + more == events;
    } else {
      var next := events + [more[0]];
      assert next[..|events|] == events && events + more == next + more[1..];
      RunJoin(list, brokers, next, more[1..]);
    }
  }

  predicate NoFailures(events: seq<Event>) {
    forall i :: 0 <= i < |events| ==> !events[i].Failed?
  }

  lemma {:induction false} DrawnInTheEnd(s: State) returns (more: seq<Event>)
    requires Serving(s)
    ensures NoFailures(more) && RunOn(s, more).finished == s.list
    decreases Left(s)
  {
    LeftIsNat(s);
    more := [];
    if s.finished != s.list {
      var e := SomethingIsDue(s);
      LeftIsNat(Step(s, e));
      StepKeepsList(s, e);
      var rest := DrawnInTheEnd(Step(s, e));
      more := [e] + rest;
      assert more[1..] == rest;
    }
  }

  // ----- A request that failed

  /** The request in flight has failed. */
  ghost predicate Stuck(s: State) {
    Valid(s) && s.requested != [] && s.pending == [] && s.requested[|s.requested| - 1] !in s.charted
  }

  lemma StuckIsUnderWay(s: State)
    requires Stuck(s)
    ensures UnderWay(s) && |s.already| < |s.request| && s.request[|s.already|] == s.requested[|s.requested| - 1]
    ensures |s.requested| == Start(s) + |s.already| + 1 && (s.already == s.seen || s.already == [])
    ensures s.finished != s.list
  {
    var last := s.requested[|s.requested| - 1];
    assert last !in s.finished;
    assert BetweenBatches(s) ==> last in s.finished;
    BatchFacts(s);
    assert s.already != s.seen && s.already != [] ==> s.requested == s.finished;
    assert last in s.list;
  }

  lemma StuckStep(s: State, e: Event)
    requires Stuck(s)
    ensures Stuck(Step(s, e)) && Step(s, e).requested == s.requested && Step(s, e).finished == s.finished
  {
    StuckIsUnderWay(s);
    StepValid(s, e);
    BatchFacts(s);
    match e
    case Finished(x) =>
      if x in s.charted && x in s.request {
        WhichChart(s, x);
      }
    case _ =>
  }

  lemma {:induction false} StuckForever(s: State, more: seq<Event>)
    requires Stuck(s)
    ensures Stuck(RunOn(s, more)) && RunOn(s, more).list == s.list
    ensures RunOn(s, more).requested == s.requested && RunOn(s, more).finished == s.finished
    decreases |more|
  {
    if more != [] {
      StuckStep(s, more[0]);
      StepKeepsList(s, more[0]);
      StuckForever(Step(s, more[0]), more[1..]);
    }
  }

  /** All but the metric requested last have been drawn. */
  lemma AllButLast(s: State, x: Metric)
    requires Valid(s) && x in s.requested
    ensures x in s.charted || x == s.requested[|s.requested| - 1]
  {
    FinishedKeepUp(s);
    var i :| 0 <= i < |s.requested| && s.requested[i] == x;
    if i < |s.finished| {
      assert s.finished[i] == x;
    }
  }

  lemma UnansweredIsStuck(s: State)
    requires Valid(s) && s.requested != [] && !Answered(s)
    ensures Stuck(s)
  {
    var x :| x in s.requested && x !in s.pending && x !in s.charted;
    AllButLast(s, x);
    assert OneAtATime(s);
  }

  lemma ReplyAnswers(s: State, x: Metric)
    requires Serving(s) && x in s.pending
    ensures Answered(Step(s, Reply(x)))
  {
    assert s.pending == [x] && RemoveFirst([x], x) == [];
  }

  lemma StepAnswers(s: State, e: Event)
    requires Serving(s) && !e.Failed?
    ensures Answered(Step(s, e))
  {
    match e
    case Reply(x) =>
      if x in s.pending {
        ReplyAnswers(s, x);
      }
    case Finished(x) =>
    case Flush =>
    case More =>
  }

  lemma {:induction false} RunAnswers(list: seq<Metric>, events: seq<Event>)
    requires Distinct(list) && |list| >= 4 && NoFailures(events)
    ensures Serving(Run(list, true, events))
    decreases |events|
  {
    BusyExactlyWithBrokers(list, true, events);
    RunValid(list, true, events);
    if events != [] {
      var init, e := events[..|events| - 1], events[|events| - 1];
      RunAnswers(list, init);
      StepAnswers(Run(list, true, init), e);
    }
  }

  /** From a run with brokers, some further events request and draw every chart of the list if and only if
      no request has failed so far; and then no failures are needed for it. */
  lemma AllDrawnExactlyUnlessFailed(list: seq<Metric>, events: seq<Event>)
    requires Distinct(list) && |list| >= 4
    ensures Answered(Run(list, true, events)) <==> exists more :: Run(list, true, events + more).finished == list
    ensures Answered(Run(list, true, events)) ==>
              exists more :: NoFailures(more) && Run(list, true, events + more).finished == list
  {
    var s := Run(list, true, events);
    BusyExactlyWithBrokers(list, true, events);
    RunValid(list, true, events);
    if Answered(s) {
      var more := DrawnInTheEnd(s);
      RunJoin(list, true, events, more);
    } else {
      UnansweredIsStuck(s);
      forall more ensures Run(list, true, events + more).finished != list {
        RunJoin(list, true, events, more);
        StuckForever(s, more);
        StuckIsUnderWay(RunOn(s, more));
      }
    }
  }

  /** In particular every run in which no request fails can be continued until all charts of the list are
      requested and drawn. */
  lemma EveryChartIsRequested(list: seq<Metric>, events: seq<Event>) returns (more: seq<Event>)
    requires Distinct(list) && |list| >= 4 && NoFailures(events)
    ensures NoFailures(more)
    ensures Run(list, true, events + more).requested == Run(list, true, events + more).finished == list
  {
    RunAnswers(list, events);
    RunValid(list, true, events);
    more := DrawnInTheEnd(Run(list, true, events));
    RunJoin(list, true, events, more);
    RunValid(list, true, events + more);
    FinishedKeepUp(Run(list, true, events + more));
  }
}
