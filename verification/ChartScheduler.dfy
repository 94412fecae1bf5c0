/** The charts of the Kafka JVM page: metrics are requested one after the other, in batches. */
module ChartScheduler {
  import opened Basics

  type Metric = string

  const BATCH := 4

  /** `seen` is the value of `already` that the watcher has last handled: it runs some time after a
      change, and once for several changes. `pending` are the requests without a reply, `charted` the
      metrics whose charts exist; `requested` and `finished` are history. */
  datatype State = State(
    list: seq<Metric>, request: seq<Metric>, already: seq<Metric>, times: nat, seen: seq<Metric>,
    pending: seq<Metric>, charted: seq<Metric>, requested: seq<Metric>, finished: seq<Metric>)

  function Slice(xs: seq<Metric>, from: nat, to: nat): seq<Metric> {
    if from >= |xs| || to <= from then [] else if to <= |xs| then xs[from..to] else xs[from..]
  }

  /** `loadKafkaJvm(request[i])`: nothing happens beyond the end of the list. */
  function Load(s: State, i: nat): State {
    if i < |s.request|
    then s.(pending := s.pending + [s.request[i]], requested := s.requested + [s.request[i]])
    else s
  }

  /** The session starts with the default batch, which is the first of the list. */
  function Init(list: seq<Metric>, brokers: bool): State {
    var s := State(list, Slice(list, 0, BATCH), [], 1, [], [], [], [], []);
    if brokers then Load(s, 0) else s
  }

  datatype Event = Reply(metric: Metric) | Failed(metric: Metric) | Finished(metric: Metric) | Flush | More

  /** `triggerFinish`: a chart says that it is drawn, perhaps again. */
  function OnFinished(s: State, x: Metric): State {
    if x !in s.request then s
    else s.(already := Dedup(s.already + [x]), finished := if x in s.finished then s.finished else s.finished + [x])
  }

  /** The watcher of the finished charts. */
  function OnFlush(s: State): State {
    if s.already == s.seen then s
    else
      var w := s.(seen := s.already);
      if |s.already| == |s.request| && |s.request| > 0 then w.(request := [])
      else if |s.already| == 0 then w
      else Load(w, |s.already|)
  }

  /** The click on "view more". */
  function OnMore(s: State): State {
    if |s.request| > 0 then s
    else
      var from := BATCH * s.times;
      var len := if from > |s.list| then (if |s.list| == 0 then 0 else from % |s.list|) else BATCH;
      Load(s.(request := Slice(s.list, from, from + len), already := [], times := s.times + 1), 0)
  }

  function RemoveFirst(xs: seq<Metric>, x: Metric): seq<Metric> {
    if xs == [] then [] else if xs[0] == x then xs[1..] else [xs[0]] + RemoveFirst(xs[1..], x)
  }

  /** One event. A reply needs a pending request, and only a chart that exists can be finished. */
  function Step(s: State, e: Event): State {
    match e
    case Reply(x) => if x in s.pending then s.(pending := RemoveFirst(s.pending, x), charted := s.charted + [x]) else s
    case Failed(x) => s.(pending := RemoveFirst(s.pending, x))
    case Finished(x) => if x in s.charted then OnFinished(s, x) else s
    case Flush => OnFlush(s)
    case More => OnMore(s)
  }

  function Run(list: seq<Metric>, brokers: bool, events: seq<Event>): State {
    if events == [] then Init(list, brokers)
    else Step(Run(list, brokers, events[..|events| - 1]), events[|events| - 1])
  }

  // ----- Invariants

  function Min(a: int, b: int): int {
    if a < b then a else b
  }

  /** The current batch and where it starts. */
  function Start(s: State): int {
    BATCH * (s.times - 1)
  }

  /** The watcher has handled the finished charts, or all but the last, or those of the batch before. */
  ghost predicate SeenFits(s: State) {
    || s.seen == s.already
    || (|s.already| > 0 && s.seen == s.already[..|s.already| - 1])
    || (|s.already| <= 1 && 0 <= Start(s) <= |s.list| && s.seen != [] && forall x :: x in s.seen ==> x in s.list[..Start(s)])
  }

  /** A batch is under way: its first charts are finished, and the next metric is requested as soon as
      the watcher has noticed. */
  ghost predicate UnderWay(s: State) {
    var start, k := Start(s), |s.already|;
    && 0 <= start < |s.list| && s.request == Slice(s.list, start, start + BATCH)
    && k <= |s.request| && s.already == s.request[..k] && SeenFits(s)
    && (s.already == s.seen ==> k < |s.request|)
    && s.finished == s.list[..start + k]
    && s.requested == s.list[..start + if s.already == s.seen then k + 1 else if k == 0 then 1 else k]
  }

  /** All batches up to now are finished. */
  ghost predicate BetweenBatches(s: State) {
    && s.request == [] && s.pending == []
    && s.requested == s.finished == s.list[..Min(BATCH * s.times, |s.list|)]
    && (forall x :: x in s.seen ==> x in s.finished)
    && (forall x :: x in s.already ==> x in s.finished)
  }

  /** There are no brokers: nothing is ever requested. */
  ghost predicate Idle(s: State) {
    s.request != [] && s.requested == s.already == s.seen == s.finished == []
  }

  ghost predicate OneAtATime(s: State) {
    && |s.requested| <= |s.list| && s.requested == s.list[..|s.requested|]
    && (s.pending != [] ==> s.requested != [] && s.pending == [s.requested[|s.requested| - 1]])
    && (forall x :: x in s.charted ==> x in s.requested && x !in s.pending)
    && (forall x :: x in s.finished ==> x in s.charted)
  }

  ghost predicate Valid(s: State) {
    && Distinct(s.list) && |s.list| >= BATCH && s.times >= 1
    && OneAtATime(s)
    && (UnderWay(s) || BetweenBatches(s) || Idle(s))
  }

  lemma SliceAt(xs: seq<Metric>, from: nat, to: nat)
    requires from <= to
    ensures from < |xs| ==> |Slice(xs, from, to)| == Min(to, |xs|) - from
    ensures from < |xs| ==> forall j :: 0 <= j < |Slice(xs, from, to)| ==> Slice(xs, from, to)[j] == xs[from + j]
  {
  }

  lemma DedupSnoc(xs: seq<Metric>, x: Metric)
    requires Distinct(xs)
    ensures Dedup(xs + [x]) == if x in xs then xs else xs + [x]
  {
    DedupDistinct(xs);
    assert (xs + [x])[..|xs|] == xs;
  }

  lemma {:induction false} DedupDistinct(xs: seq<Metric>)
    requires Distinct(xs)
    ensures Dedup(xs) == xs
  {
    if xs != [] {
      DedupDistinct(xs[..|xs| - 1]);
    }
  }

  lemma PendingGone(s: State)
    requires OneAtATime(s) && s.requested != [] && s.requested[|s.requested| - 1] in s.charted
    ensures s.pending == []
  {
  }

  lemma LoadNext(s: State, i: nat)
    requires Distinct(s.list) && OneAtATime(s) && s.pending == []
    requires i < |s.request| && |s.requested| < |s.list| && s.request[i] == s.list[|s.requested|]
    ensures OneAtATime(Load(s, i)) && Load(s, i).requested == s.list[..|s.requested| + 1]
  {
    var r := Load(s, i);
    assert s.list[..|s.requested| + 1] == s.list[..|s.requested|] + [s.list[|s.requested|]];
    forall x | x in s.charted ensures x != s.request[i] {
      var j :| 0 <= j < |s.requested| && s.requested[j] == x;
      assert s.list[j] == x;
    }
  }

  /** A metric occurs once in the list. */
  lemma PlaceOf(s: State, x: Metric, i: nat, j: nat)
    requires Distinct(s.list) && i < |s.list| && j < |s.list| && s.list[i] == x && s.list[j] == x
    ensures i == j
  {
  }

  lemma BatchFacts(s: State)
    requires Valid(s) && UnderWay(s)
    ensures forall j :: 0 <= j < |s.request| ==> Start(s) + j < |s.list| && s.request[j] == s.list[Start(s) + j]
    ensures Distinct(s.already) && |s.request| == Min(Start(s) + BATCH, |s.list|) - Start(s)
    ensures forall x :: x in s.already ==> x in s.finished
  {
    var start := Start(s);
    SliceAt(s.list, start, start + BATCH);
    forall j | 0 <= j < |s.already| ensures s.already[j] in s.finished {
      assert s.finished[start + j] == s.list[start + j];
    }
  }

  /** The chart that reports is one that has reported before, or that of the metric requested last. */
  lemma WhichChart(s: State, x: Metric)
    requires Valid(s) && UnderWay(s) && x in s.charted && x in s.request
    ensures (x in s.already && x in s.finished) ||
            (|s.already| < |s.request| && x == s.request[|s.already|] && |s.requested| == Start(s) + |s.already| + 1)
  {
    BatchFacts(s);
    var j :| 0 <= j < |s.request| && s.request[j] == x;
    var i :| 0 <= i < |s.requested| && s.requested[i] == x;
    PlaceOf(s, x, i, Start(s) + j);
    if j < |s.already| {
      assert s.already[j] == x;
    }
  }

  lemma NotYetFinished(s: State, x: Metric)
    requires Valid(s) && UnderWay(s) && |s.already| < |s.request| && x == s.request[|s.already|]
    ensures x !in s.already && x !in s.finished && x !in s.list[..Start(s)]
  {
    BatchFacts(s);
    var at := Start(s) + |s.already|;
    forall i | 0 <= i < at ensures s.list[i] != x { }
    assert s.list[..Start(s)] <= s.finished;
  }

  lemma FinishedValid(s: State, x: Metric)
    requires Valid(s) && x in s.charted
    ensures Valid(OnFinished(s, x))
  {
    if x in s.request && UnderWay(s) {
      BatchFacts(s);
      WhichChart(s, x);
      DedupSnoc(s.already, x);
      if x !in s.already {
        FinishedNext(s, x);
      }
    }
  }

  /** The chart that is due has been finished. */
  ghost predicate Due(s: State, x: Metric) {
    && Valid(s) && UnderWay(s) && x in s.charted
    && |s.already| < |s.request| && x == s.request[|s.already|]
    && |s.requested| == Start(s) + |s.already| + 1
  }

  lemma FinishedShape(s: State, x: Metric)
    requires Due(s, x)
    ensures OnFinished(s, x) == s.(already := s.already + [x], finished := s.finished + [x])
  {
    BatchFacts(s);
    NotYetFinished(s, x);
    DedupSnoc(s.already, x);
    assert x in s.request;
  }

  lemma FinishedSeen(s: State, x: Metric)
    requires Due(s, x)
    ensures var r := s.(already := s.already + [x], finished := s.finished + [x]); SeenFits(r) && r.already != r.seen
  {
    NotYetFinished(s, x);
    assert (s.already + [x])[..|s.already|] == s.already;
    if s.seen != s.already {
      assert s.already == [];
      assert x in s.already + [x];
    }
  }

  lemma Snoc(xs: seq<Metric>, k: nat)
    requires k < |xs|
    ensures xs[..k + 1] == xs[..k] + [xs[k]]
  {
  }

  lemma FinishedOneAtATime(s: State, x: Metric)
    requires OneAtATime(s) && x in s.charted
    ensures OneAtATime(s.(already := s.already + [x], finished := s.finished + [x]))
  {
  }

  lemma FinishedLists(s: State, x: Metric)
    requires Due(s, x)
    ensures Start(s) + |s.already| < |s.list| && s.finished + [x] == s.list[..Start(s) + |s.already| + 1]
    ensures s.already + [x] == s.request[..|s.already| + 1]
  {
    BatchFacts(s);
    Snoc(s.request, |s.already|);
    Snoc(s.list, Start(s) + |s.already|);
  }

  lemma FinishedRequested(s: State, x: Metric)
    requires Due(s, x)
    ensures s.requested == s.list[..Start(s) + |s.already| + 1]
  {
  }

  lemma FinishedUnderWay(s: State, x: Metric)
    requires Due(s, x)
    ensures UnderWay(s.(already := s.already + [x], finished := s.finished + [x]))
  {
    FinishedLists(s, x);
    FinishedRequested(s, x);
    FinishedSeen(s, x);
  }

  lemma FinishedNext(s: State, x: Metric)
    requires Due(s, x)
    ensures UnderWay(OnFinished(s, x)) && OneAtATime(OnFinished(s, x))
  {
    FinishedShape(s, x);
    FinishedOneAtATime(s, x);
    FinishedUnderWay(s, x);
  }

  /** When the watcher runs, nothing is pending unless the batch has only just begun. */
  lemma NothingPending(s: State)
    requires Valid(s) && UnderWay(s) && s.already != s.seen && |s.already| > 0
    ensures s.pending == []
  {
    var last := Start(s) + |s.already| - 1;
    assert s.requested[last] == s.list[last] == s.finished[last];
    assert s.finished[last] in s.finished;
    PendingGone(s);
  }

  lemma FlushCompletes(s: State)
    requires Valid(s) && UnderWay(s) && s.already != s.seen && |s.already| == |s.request|
    ensures Valid(OnFlush(s))
  {
    BatchFacts(s);
    NothingPending(s);
    assert BetweenBatches(s.(seen := s.already, request := []));
  }

  lemma FlushIsLoad(s: State)
    requires Valid(s) && UnderWay(s) && s.already != s.seen && 0 < |s.already| < |s.request|
    ensures OnFlush(s) == Load(s.(seen := s.already), |s.already|) && s.pending == []
    ensures |s.requested| == Start(s) + |s.already| < |s.list| && s.request[|s.already|] == s.list[|s.requested|]
  {
    BatchFacts(s);
    NothingPending(s);
  }

  lemma FlushAdvances(s: State)
    requires Valid(s) && UnderWay(s) && s.already != s.seen && 0 < |s.already| < |s.request|
    ensures Valid(OnFlush(s))
  {
    FlushIsLoad(s);
    LoadNext(s.(seen := s.already), |s.already|);
    assert UnderWay(OnFlush(s));
  }

  lemma FlushValid(s: State)
    requires Valid(s)
    ensures Valid(OnFlush(s))
  {
    if UnderWay(s) && s.already != s.seen {
      BatchFacts(s);
      if |s.already| == |s.request| {
        FlushCompletes(s);
      } else if |s.already| > 0 {
        FlushAdvances(s);
      }
    }
  }

  /** The next block of the list, as the batch that a click starts. */
  function NextBatch(s: State): State {
    var from := BATCH * s.times;
    s.(request := Slice(s.list, from, from + BATCH), already := [], times := s.times + 1)
  }

  lemma MoreIsNextBatch(s: State)
    requires Valid(s) && s.request == [] && BATCH * s.times < |s.list|
    ensures OnMore(s) == Load(NextBatch(s), 0) && NextBatch(s).request[0] == s.list[BATCH * s.times]
    ensures s.requested == s.finished == s.list[..BATCH * s.times] && s.pending == []
  {
    SliceAt(s.list, BATCH * s.times, BATCH * s.times + BATCH);
  }

  lemma MoreSeen(s: State)
    requires Valid(s) && s.request == [] && BATCH * s.times < |s.list|
    ensures SeenFits(OnMore(s))
  {
    MoreIsNextBatch(s);
  }

  /** A click that starts a batch. */
  lemma MoreStarts(s: State)
    requires Valid(s) && s.request == [] && BATCH * s.times < |s.list|
    ensures UnderWay(OnMore(s)) && OneAtATime(OnMore(s))
  {
    MoreIsNextBatch(s);
    LoadNext(NextBatch(s), 0);
    MoreSeen(s);
  }

  /** A click when there is nothing more to show. */
  lemma MoreEnds(s: State)
    requires Valid(s) && s.request == [] && BATCH * s.times >= |s.list|
    ensures BetweenBatches(OnMore(s)) && OneAtATime(OnMore(s))
  {
    var from := BATCH * s.times;
    assert Slice(s.list, from, from + if from > |s.list| then from % |s.list| else BATCH) == [];
  }

  lemma MoreValid(s: State)
    requires Valid(s)
    ensures Valid(OnMore(s))
  {
    if s.request == [] {
      if BATCH * s.times < |s.list| {
        MoreStarts(s);
      } else {
        MoreEnds(s);
      }
    }
  }

  /** What becomes of the request in flight does not matter to the batch. */
  lemma SettledValid(s: State, r: State)
    requires Valid(s) && OneAtATime(r) && r == s.(pending := [], charted := r.charted)
    ensures Valid(r)
  {
    assert UnderWay(s) ==> UnderWay(r);
    assert BetweenBatches(s) ==> BetweenBatches(r);
  }

  lemma StepValid(s: State, e: Event)
    requires Valid(s)
    ensures Valid(Step(s, e))
  {
    match e
    case Reply(x) =>
      if x in s.pending {
        assert s.pending == [x] && RemoveFirst([x], x) == [];
        SettledValid(s, Step(s, e));
      }
    case Failed(x) =>
      if s.pending != [] {
        assert RemoveFirst(s.pending, x) == if s.pending[0] == x then [] else s.pending + RemoveFirst([], x);
        if s.pending[0] == x {
          SettledValid(s, Step(s, e));
        }
      }
    case Finished(x) =>
      if x in s.charted {
        FinishedValid(s, x);
      }
    case Flush => FlushValid(s);
    case More => MoreValid(s);
  }

  lemma StepBusy(s: State, e: Event)
    requires Valid(s)
    ensures Idle(s) ==> Idle(Step(s, e))
    ensures s.requested <= Step(s, e).requested
  {
    match e
    case Reply(x) =>
    case Failed(x) =>
    case Finished(x) =>
    case Flush =>
    case More =>
  }

  lemma InitValid(list: seq<Metric>, brokers: bool)
    requires Distinct(list) && |list| >= BATCH
    ensures Valid(Init(list, brokers)) && (Idle(Init(list, brokers)) <==> !brokers)
  {
    var s := Init(list, brokers);
    SliceAt(list, 0, BATCH);
    assert s.request[0] == list[0];
    if brokers {
      assert s.requested == list[..1] && UnderWay(s);
    } else {
      assert Idle(s);
    }
  }

  lemma StepKeepsList(s: State, e: Event)
    ensures Step(s, e).list == s.list
  {
  }

  lemma {:induction false} RunValid(list: seq<Metric>, brokers: bool, events: seq<Event>)
    requires Distinct(list) && |list| >= BATCH
    ensures Valid(Run(list, brokers, events)) && Run(list, brokers, events).list == list
    ensures Idle(Run(list, brokers, events)) <==> !brokers
    decreases |events|
  {
    if events == [] {
      InitValid(list, brokers);
    } else {
      var before := Run(list, brokers, events[..|events| - 1]);
      RunValid(list, brokers, events[..|events| - 1]);
      StepValid(before, events[|events| - 1]);
      StepBusy(before, events[|events| - 1]);
      StepKeepsList(before, events[|events| - 1]);
    }
  }

  // ----- What holds of every run

  /** Metrics are requested in the order of the list, each at most once, the next one only when all before
      it have been charted and finished; so at most one request is in flight. The charts finish in the
      same order. */
  lemma RequestsFollowTheList(list: seq<Metric>, brokers: bool, events: seq<Event>)
    requires Distinct(list) && |list| >= BATCH
    ensures
      var s := Run(list, brokers, events);
      && s.requested <= list && s.finished <= s.requested && |s.requested| <= |s.finished| + 1
      && (forall i, j :: 0 <= i < j < |s.requested| ==> s.requested[i] != s.requested[j])
      && (s.pending == [] || (|s.finished| < |s.requested| && s.pending == [s.requested[|s.requested| - 1]]))
  {
    RunValid(list, brokers, events);
    FinishedKeepUp(Run(list, brokers, events));
  }

  lemma FinishedKeepUp(s: State)
    requires Valid(s)
    ensures s.finished <= s.requested <= s.list && |s.requested| <= |s.finished| + 1
    ensures s.pending != [] ==> |s.finished| < |s.requested|
  {
    if UnderWay(s) {
      BatchFacts(s);
    }
    if s.pending != [] {
      assert s.requested[|s.requested| - 1] in s.pending;
      assert s.requested[|s.requested| - 1] !in s.finished;
    }
  }

  /** A click on "view more" starts the next batch only when every metric shown so far is finished, and
      the batches are the consecutive blocks of four of the list. */
  lemma BatchesAreComplete(list: seq<Metric>, brokers: bool, events: seq<Event>)
    requires Distinct(list) && |list| >= 4
    ensures
      var s := Run(list, brokers, events);
      var next := Step(s, More);
      next != s ==>
        && s.pending == [] && s.finished == list[..Min(4 * s.times, |list|)]
        && next.request == list[Min(4 * s.times, |list|)..Min(4 * s.times + 4, |list|)]
        && next.requested == if next.request == [] then s.requested else s.requested + [next.request[0]]
  {
    RunValid(list, brokers, events);
    ClickFacts(Run(list, brokers, events));
  }

  lemma ClickFacts(s: State)
    requires Valid(s)
    ensures
      var next := Step(s, More);
      next != s ==>
        && s.pending == [] && s.finished == s.list[..Min(BATCH * s.times, |s.list|)]
        && next.request == s.list[Min(BATCH * s.times, |s.list|)..Min(BATCH * s.times + BATCH, |s.list|)]
        && next.requested == if next.request == [] then s.requested else s.requested + [next.request[0]]
  {
    if s.request == [] {
      BetweenIsDone(s);
      BatchAfter(s);
    }
  }

  lemma BetweenIsDone(s: State)
    requires Valid(s) && s.request == []
    ensures s.pending == [] && s.finished == s.list[..Min(BATCH * s.times, |s.list|)]
  {
    if UnderWay(s) {
      BatchFacts(s);
    }
  }

  lemma BatchAfter(s: State)
    requires Valid(s) && s.request == []
    ensures
      var next := OnMore(s);
      && next.request == s.list[Min(BATCH * s.times, |s.list|)..Min(BATCH * s.times + BATCH, |s.list|)]
      && next.requested == if next.request == [] then s.requested else s.requested + [next.request[0]]
  {
    if BATCH * s.times < |s.list| {
      SliceAt(s.list, BATCH * s.times, BATCH * s.times + BATCH);
    } else {
      MoreEnds(s);
    }
  }

  /** When charts of the batch have been finished that the watcher has not seen, its next run asks for the
      next chart of the batch or, after the last one, closes it. */
  lemma WatcherMovesOn(list: seq<Metric>, brokers: bool, events: seq<Event>)
    requires Distinct(list) && |list| >= BATCH
    requires var s := Run(list, brokers, events); |s.already| > 0 && s.already != s.seen && s.request != []
    ensures
      var s := Run(list, brokers, events);
      var next := Step(s, Flush);
      if |s.already| == |s.request|
      then next.request == [] && next.requested == s.requested == list[..Min(BATCH * s.times, |list|)]
      else
        && |s.already| < |s.request|
        && next.requested == s.requested + [s.request[|s.already|]] && next.pending == [s.request[|s.already|]]
  {
    var s := Run(list, brokers, events);
    RunValid(list, brokers, events);
    BatchFacts(s);
    NothingPending(s);
  }

  // ----- The fields of the page and the methods that change them

  class Charts {
    const kafkaJvmList: seq<Metric>
    const defaultRequestkafkaJvmList: seq<Metric>
    var requestkafkaJvmList: seq<Metric>
    var kafkaJvmAlreadyList: seq<Metric>
    var kafkaJvmOrderList: seq<Metric>
    var viewJvmMoreTimes: nat
    /** The watcher's last value and the requests without a reply. */
    var watched: seq<Metric>
    var inFlight: seq<Metric>
    ghost var requested: seq<Metric>
    ghost var finished: seq<Metric>

    ghost function Current(): State
      reads this
    {
      State(kafkaJvmList, requestkafkaJvmList, kafkaJvmAlreadyList, viewJvmMoreTimes, watched, inFlight,
            kafkaJvmOrderList, requested, finished)
    }

    constructor (list: seq<Metric>)
      ensures kafkaJvmList == list && defaultRequestkafkaJvmList == Slice(list, 0, BATCH)
      ensures Current() == State(list, [], [], 1, [], [], [], [], [])
    {
      kafkaJvmList := list;
      defaultRequestkafkaJvmList := Slice(list, 0, BATCH);
      requestkafkaJvmList, kafkaJvmAlreadyList, kafkaJvmOrderList, viewJvmMoreTimes := [], [], [], 1;
      watched, inFlight, requested, finished := [], [], [], [];
    }

    method LoadKafkaJvm(i: nat)
      modifies this
      ensures Current() == Load(old(Current()), i)
    {
      if i < |requestkafkaJvmList| {
        inFlight := inFlight + [requestkafkaJvmList[i]];
        requested := requested + [requestkafkaJvmList[i]];
      }
    }

    /** Starts a session once the brokers are known, when no request of an earlier one is in flight. By then
        the watcher has seen that the list of finished charts was cleared. */
    method InitKafkaJvm(kafkaJvmBrokerNameList: seq<string>)
      requires defaultRequestkafkaJvmList == Slice(kafkaJvmList, 0, BATCH) && inFlight == []
      modifies this
      ensures Current() == Init(kafkaJvmList, |kafkaJvmBrokerNameList| > 0)
    {
      viewJvmMoreTimes := 1;
      kafkaJvmOrderList, kafkaJvmAlreadyList := [], [];
      watched, requested, finished := [], [], [];
      requestkafkaJvmList := defaultRequestkafkaJvmList;
      if |kafkaJvmBrokerNameList| > 0 {
        LoadKafkaJvm(0);
      }
    }

    method GotMetrics(target: Metric)
      modifies this
      ensures Current() == Step(old(Current()), Reply(target))
    {
      if target in inFlight {
        inFlight := RemoveFirst(inFlight, target);
        kafkaJvmOrderList := kafkaJvmOrderList + [target];
      }
    }

    method RequestFailed(target: Metric)
      modifies this
      ensures Current() == Step(old(Current()), Failed(target))
    {
      inFlight := RemoveFirst(inFlight, target);
    }

    /** Only a chart of the page calls this. */
    method TriggerFinish(value: Metric)
      modifies this
      ensures old(value in kafkaJvmOrderList) ==> Current() == Step(old(Current()), Finished(value))
      ensures Current() == OnFinished(old(Current()), value)
    {
      var some := false;
      for i := 0 to |requestkafkaJvmList|
        invariant some <==> value in requestkafkaJvmList[..i]
      {
        if requestkafkaJvmList[i] == value {
          some := true;
        }
      }
      assert requestkafkaJvmList[..|requestkafkaJvmList|] == requestkafkaJvmList;
      if some {
        kafkaJvmAlreadyList := Dedup(kafkaJvmAlreadyList + [value]);
        finished := if value in finished then finished else finished + [value];
      }
    }

    /** The watcher of the finished charts, run when the list is no longer the one it saw last. */
    method JoinKafkaJvmAlreadyList()
      modifies this
      ensures Current() == Step(old(Current()), Flush)
    {
      if kafkaJvmAlreadyList == watched {
        return;
      }
      watched := kafkaJvmAlreadyList;
      if |kafkaJvmAlreadyList| == |requestkafkaJvmList| && |requestkafkaJvmList| > 0 {
        requestkafkaJvmList := [];
        return;
      }
      if |kafkaJvmAlreadyList| == 0 {
        return;
      }
      LoadKafkaJvm(|kafkaJvmAlreadyList|);
    }

    method ViewKafkaJvmMore()
      modifies this
      ensures Current() == Step(old(Current()), More)
    {
      if |requestkafkaJvmList| > 0 {
        return;
      }
      LoadViewMoreKafkaJvmData();
    }

    method LoadViewMoreKafkaJvmData()
      requires |requestkafkaJvmList| == 0
      modifies this
      ensures Current() == OnMore(old(Current()))
    {
      var len := 4;
      if viewJvmMoreTimes * 4 > |kafkaJvmList| {
        len := if |kafkaJvmList| == 0 then 0 else viewJvmMoreTimes * 4 % |kafkaJvmList|;
      }
      requestkafkaJvmList := Slice(kafkaJvmList, viewJvmMoreTimes * 4, viewJvmMoreTimes * 4 + len);
      kafkaJvmAlreadyList := [];
      viewJvmMoreTimes := viewJvmMoreTimes + 1;
      LoadKafkaJvm(0);
    }
  }
}
