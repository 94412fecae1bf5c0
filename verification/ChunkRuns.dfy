/** What holds of every run of the bundle runtime, whatever the order of arrivals, requests and failures. */
module ChunkRuns {
  import opened Basics
  import opened ModuleRequire
  import opened ChunkInvariants
  import opened ChunkRuntime

  lemma InitialValid()
    ensures Valid(INITIAL)
  {
  }

  // ----- Arrivals before the runtime

  lemma {:induction false} NotReadyMembers(chunks: map<ChunkId, ChunkState>, ts: seq<Entry>, e: Entry)
    ensures multiset(NotReady(chunks, ts))[e] == if Ready(chunks, e) then 0 else multiset(ts)[e]
  {
    if ts != [] {
      NotReadyMembers(chunks, ts[1..], e);
      assert ts == [ts[0]] + ts[1..];
    }
  }

  lemma {:induction false} CheckNothing(s: State, kept: seq<Entry>, ts: seq<Entry>)
    requires forall e :: e in ts ==> !Ready(s.chunks, e)
    ensures Check(s, kept, ts) == s.(deferred := kept + ts)
    decreases |ts|
  {
    if ts == [] {
      assert kept + ts == kept;
    } else {
      CheckNothing(s, kept + [ts[0]], ts[1..]);
      assert kept + [ts[0]] + ts[1..] == kept + ts;
    }
  }

  lemma NoneReady(s: State)
    requires Valid(s) && !s.threw
    ensures forall e :: e in s.deferred ==> !Ready(s.chunks, e)
    ensures Check(s, [], s.deferred) == s
  {
    forall e | e in s.deferred ensures !Ready(s.chunks, e) {
      NotReadyMembers(s.chunks, s.pushed, e);
      assert multiset(s.deferred)[e] > 0;
    }
    CheckNothing(s, [], s.deferred);
    assert [] + s.deferred == s.deferred;
  }

  function Pushes(queue: seq<Payload>): seq<Input> {
    seq(|queue|, i requires 0 <= i < |queue| => Push(queue[i]))
  }

  lemma {:induction false} RunCons(s: State, i: Input, rest: seq<Input>)
    ensures Run(s, [i] + rest) == Run(Step(s, i), rest)
    decreases |rest|
  {
    var all := [i] + rest;
    if rest == [] {
      assert all[..|all| - 1] == [] && all[|all| - 1] == i;
    } else {
      RunCons(s, i, rest[..|rest| - 1]);
      assert all[..|all| - 1] == [i] + rest[..|rest| - 1];
    }
  }

  lemma {:induction false} ThrewStays(s: State, inputs: seq<Input>)
    ensures s.threw ==> Run(s, inputs).threw
    decreases |inputs|
  {
    if inputs != [] {
      var before, i := Run(s, inputs[..|inputs| - 1]), inputs[|inputs| - 1];
      ThrewStays(s, inputs[..|inputs| - 1]);
      if i.Push? {
        var d := Deliver(before, i.payload);
        CheckEntries(d, [], d.deferred);
      }
    }
  }

  /** Payloads pushed before the runtime starts count as if they were pushed right after it. */
  lemma {:induction false} ReplayIsPush(s: State, queue: seq<Payload>)
    requires Valid(s) && !s.threw
    ensures Boot(s, queue).threw <==> Run(s, Pushes(queue)).threw
    ensures !Boot(s, queue).threw ==> Boot(s, queue) == Run(s, Pushes(queue))
    decreases |queue|
  {
    if queue == [] {
      NoneReady(s);
    } else {
      var first := Callback(s, queue[0]);
      assert Pushes(queue) == [Push(queue[0])] + Pushes(queue[1..]);
      RunCons(s, Push(queue[0]), Pushes(queue[1..]));
      if first.threw {
        ThrewStays(first, Pushes(queue[1..]));
      } else {
        CallbackValid(s, queue[0]);
        ReplayIsPush(first, queue[1..]);
      }
    }
  }

  // ----- What a run has delivered

  ghost predicate Delivered(inputs: seq<Input>, c: ChunkId) {
    c == RUNTIME || exists p :: Push(p) in inputs && c in p.ids
  }

  ghost predicate EntryPushed(inputs: seq<Input>, e: Entry) {
    exists p :: Push(p) in inputs && e in p.entries
  }

  lemma StepLoads(s: State, i: Input, c: ChunkId)
    ensures IsLoaded(Step(s, i).chunks, c) <==> IsLoaded(s.chunks, c) || (i.Push? && c in i.payload.ids)
  {
    if i.Push? {
      MarkLoadedEffect(s.chunks, i.payload.ids);
      var d := Deliver(s, i.payload);
      CheckEntries(d, [], d.deferred);
    }
  }

  lemma StepPushes(s: State, i: Input)
    ensures Step(s, i).pushed == s.pushed + if i.Push? then i.payload.entries else []
    ensures Step(s, i).table == if i.Push? then s.table + i.payload.modules else s.table
  {
    if i.Push? {
      var d := Deliver(s, i.payload);
      CheckEntries(d, [], d.deferred);
    }
  }

  lemma {:induction false} RunLoads(inputs: seq<Input>, c: ChunkId)
    ensures IsLoaded(Run(INITIAL, inputs).chunks, c) <==> Delivered(inputs, c)
    decreases |inputs|
  {
    if inputs != [] {
      var init, i := inputs[..|inputs| - 1], inputs[|inputs| - 1];
      RunLoads(init, c);
      StepLoads(Run(INITIAL, init), i, c);
      assert inputs == init + [i];
      assert forall x :: x in inputs <==> x in init || x == i;
    }
  }

  lemma {:induction false} RunPushes(inputs: seq<Input>, e: Entry)
    ensures e in Run(INITIAL, inputs).pushed <==> EntryPushed(inputs, e)
    decreases |inputs|
  {
    if inputs != [] {
      var init, i := inputs[..|inputs| - 1], inputs[|inputs| - 1];
      RunPushes(init, e);
      StepPushes(Run(INITIAL, init), i);
      assert inputs == init + [i];
      assert forall x :: x in inputs <==> x in init || x == i;
    }
  }

  // ----- The entry module

  /** No factory requires `m`. */
  ghost predicate NotRequired(table: ModuleTable, m: ModuleId) {
    forall k :: k in table ==> m !in table[k]
  }

  lemma {:induction false} RequireOthers(table: ModuleTable, installed: set<ModuleId>, x: ModuleId, m: ModuleId)
    requires NotRequired(table, m) && x != m && m !in installed
    ensures m !in Require(table, installed, x).installed
    decreases table.Keys - installed, 0
  {
    if x !in installed && x in table {
      RequireAllOthers(table, installed + {x}, table[x], m);
    }
  }

  lemma {:induction false} RequireAllOthers(table: ModuleTable, installed: set<ModuleId>, xs: seq<ModuleId>, m: ModuleId)
    requires NotRequired(table, m) && m !in xs && m !in installed
    ensures m !in RequireAll(table, installed, xs).installed
    decreases table.Keys - installed, |xs| + 1
  {
    if xs != [] {
      RequireOthers(table, installed, xs[0], m);
      var first := Require(table, installed, xs[0]);
      if first.ok {
        RequireAllOthers(table, first.installed, xs[1..], m);
      }
    }
  }

  ghost predicate InstalledAsMain(s: State, m: ModuleId) {
    m in s.installed ==> exists e :: e in s.executed && e.main == m
  }

  lemma {:induction false} CheckInstallsMains(s: State, kept: seq<Entry>, ts: seq<Entry>, m: ModuleId)
    requires NotRequired(s.table, m) && InstalledAsMain(s, m)
    ensures InstalledAsMain(Check(s, kept, ts), m)
    decreases |ts|
  {
    if ts != [] {
      if Ready(s.chunks, ts[0]) {
        var r := Execute(s, ts[0]);
        assert forall e :: e in r.executed <==> e in s.executed || e == ts[0];
        if ts[0].main != m && m !in s.installed {
          RequireOthers(s.table, s.installed, ts[0].main, m);
        }
        if Require(s.table, s.installed, ts[0].main).ok {
          CheckInstallsMains(r, kept, ts[1..], m);
        }
      } else {
        CheckInstallsMains(s, kept + [ts[0]], ts[1..], m);
      }
    }
  }

  ghost predicate NeverRequired(inputs: seq<Input>, m: ModuleId) {
    forall p :: Push(p) in inputs ==> NotRequired(p.modules, m)
  }

  lemma {:induction false} RunInstallsMains(inputs: seq<Input>, m: ModuleId)
    requires NeverRequired(inputs, m)
    ensures NotRequired(Run(INITIAL, inputs).table, m) && InstalledAsMain(Run(INITIAL, inputs), m)
    decreases |inputs|
  {
    if inputs != [] {
      var init, i := inputs[..|inputs| - 1], inputs[|inputs| - 1];
      var s := Run(INITIAL, init);
      assert inputs == init + [i];
      assert forall x :: x in init ==> x in inputs;
      RunInstallsMains(init, m);
      StepPushes(s, i);
      if i.Push? {
        assert i in inputs;
        var d := Deliver(s, i.payload);
        CheckInstallsMains(d, [], d.deferred, m);
      }
    }
  }

  ghost predicate Complete(inputs: seq<Input>, e: Entry) {
    EntryPushed(inputs, e) && forall d :: d in e.deps ==> Delivered(inputs, d)
  }

  // ----- When something throws

  /** The modules that the payloads have registered. */
  function TableOf(inputs: seq<Input>): ModuleTable {
    if inputs == [] then map[]
    else
      var last := inputs[|inputs| - 1];
      TableOf(inputs[..|inputs| - 1]) + if last.Push? then last.payload.modules else map[]
  }

  lemma {:induction false} RunTable(inputs: seq<Input>)
    ensures Run(INITIAL, inputs).table == TableOf(inputs)
    decreases |inputs|
  {
    if inputs != [] {
      RunTable(inputs[..|inputs| - 1]);
      StepPushes(Run(INITIAL, inputs[..|inputs| - 1]), inputs[|inputs| - 1]);
      assert TableOf(inputs[..|inputs| - 1]) + map[] == TableOf(inputs[..|inputs| - 1]);
    }
  }

  /** Whatever the main module of an entry needs has arrived by the time that the entry is complete, and
      does not go away. */
  ghost predicate AllSupported(inputs: seq<Input>) {
    forall n, e :: 0 <= n <= |inputs| && Complete(inputs[..n], e) ==> Supported(TableOf(inputs[..n]), {}, e.main)
  }

  /** Every main module of an entry that is complete has what it needs. */
  ghost predicate NowSupported(inputs: seq<Input>) {
    forall e :: Complete(inputs, e) ==> Supported(TableOf(inputs), {}, e.main)
  }

  lemma SupportedMore(table: ModuleTable, installed: set<ModuleId>, m: ModuleId)
    requires Supported(table, {}, m)
    ensures Supported(table, installed, m)
  {
    var C: set<ModuleId> :| m in C && Supports(table, {}, C);
    assert Supports(table, installed, C);
  }

  /** A check of entries whose ready ones are supported does not throw, and keeps those that are not ready. */
  lemma {:induction false} CheckSucceeds(s: State, kept: seq<Entry>, ts: seq<Entry>)
    requires forall e :: e in ts && Ready(s.chunks, e) ==> Supported(s.table, {}, e.main)
    ensures Check(s, kept, ts).threw == s.threw
    ensures Check(s, kept, ts).deferred == kept + NotReady(s.chunks, ts)
    decreases |ts|
  {
    if ts == [] {
      assert kept + [] == kept;
    } else {
      var rest := NotReady(s.chunks, ts[1..]);
      if Ready(s.chunks, ts[0]) {
        SupportedMore(s.table, s.installed, ts[0].main);
        RequireThrowsExactly(s.table, s.installed, ts[0].main);
        CheckSucceeds(Execute(s, ts[0]), kept, ts[1..]);
        assert [] + rest == rest;
      } else {
        CheckSucceeds(s, kept + [ts[0]], ts[1..]);
        assert kept + [ts[0]] + rest == kept + ([ts[0]] + rest);
      }
    }
  }

  lemma ReadyIsDelivered(inputs: seq<Input>, e: Entry)
    ensures Ready(Run(INITIAL, inputs).chunks, e) <==> forall d :: d in e.deps ==> Delivered(inputs, d)
  {
    forall d ensures IsLoaded(Run(INITIAL, inputs).chunks, d) <==> Delivered(inputs, d) {
      RunLoads(inputs, d);
    }
  }

  lemma PushedOrNot(s: State, e: Entry)
    requires EntriesMatch(s)
    ensures e in s.pushed <==> e in s.deferred || e in s.executed
  {
    assert e in s.pushed <==> multiset(s.pushed)[e] > 0;
  }

  lemma RunSnoc(inputs: seq<Input>, i: Input)
    ensures Run(INITIAL, inputs + [i]) == Step(Run(INITIAL, inputs), i)
  {
    assert (inputs + [i])[..|inputs|] == inputs;
  }

  /** The entries that a callback finds ready are those that are complete. */
  lemma DeliverFindsComplete(inputs: seq<Input>, p: Payload, e: Entry)
    ensures var d := Deliver(Run(INITIAL, inputs), p);
            && d.table == TableOf(inputs + [Push(p)])
            && (e in d.deferred && Ready(d.chunks, e) ==> Complete(inputs + [Push(p)], e))
  {
    var s, all := Run(INITIAL, inputs), inputs + [Push(p)];
    var d := Deliver(s, p);
    InitialValid();
    RunValid(INITIAL, inputs);
    RunSnoc(inputs, Push(p));
    RunTable(all);
    CheckFrame(d, [], d.deferred);
    ReadyIsDelivered(all, e);
    RunPushes(all, e);
    if e in d.deferred {
      PushedOrNot(s, e);
    }
  }

  /** After every callback no entry that is ready is left, whatever has happened before, if only what is
      complete has what it needs by then: each complete entry has been executed. */
  lemma NothingLeftReady(inputs: seq<Input>, p: Payload)
    requires NowSupported(inputs + [Push(p)])
    ensures var s := Run(INITIAL, inputs + [Push(p)]);
            && s.threw == Run(INITIAL, inputs).threw
            && (forall e :: e in s.deferred ==> !Ready(s.chunks, e))
            && forall e :: Complete(inputs + [Push(p)], e) ==> e in s.executed && e !in s.deferred
  {
    var before, all := Run(INITIAL, inputs), inputs + [Push(p)];
    var d, s := Deliver(before, p), Run(INITIAL, all);
    RunSnoc(inputs, Push(p));
    forall e | e in d.deferred && Ready(d.chunks, e) ensures Supported(d.table, {}, e.main) {
      DeliverFindsComplete(inputs, p, e);
    }
    CheckSucceeds(d, [], d.deferred);
    CheckFrame(d, [], d.deferred);
    forall e | e in s.deferred ensures !Ready(s.chunks, e) {
      NotReadyMembers(d.chunks, d.deferred, e);
      assert multiset(s.deferred)[e] > 0;
    }
    InitialValid();
    RunValid(INITIAL, all);
    forall e | Complete(all, e) ensures e in s.executed && e !in s.deferred {
      ReadyIsDelivered(all, e);
      RunPushes(all, e);
      PushedOrNot(s, e);
    }
  }

  lemma PrefixSupported(inputs: seq<Input>, n: nat)
    requires AllSupported(inputs) && n <= |inputs|
    ensures AllSupported(inputs[..n]) && NowSupported(inputs[..n])
  {
    forall k, e | 0 <= k <= n && Complete(inputs[..n][..k], e) ensures Supported(TableOf(inputs[..n][..k]), {}, e.main) {
      assert inputs[..n][..k] == inputs[..k];
    }
  }

  /** Where every complete entry has what it needs, nothing throws. */
  lemma {:induction false} SupportedRunsDoNotThrow(inputs: seq<Input>)
    requires AllSupported(inputs)
    ensures !Run(INITIAL, inputs).threw
    decreases |inputs|
  {
    if inputs != [] {
      var n := |inputs| - 1;
      PrefixSupported(inputs, n);
      PrefixSupported(inputs, n + 1);
      SupportedRunsDoNotThrow(inputs[..n]);
      assert inputs[..n + 1] == inputs == inputs[..n] + [inputs[n]];
      if inputs[n].Push? {
        NothingLeftReady(inputs[..n], inputs[n].payload);
      }
    }
  }

  /** No module is delivered twice with different requirements, as in the chunks of one build. */
  ghost predicate OneDefinition(inputs: seq<Input>) {
    forall p, q, m :: Push(p) in inputs && Push(q) in inputs && m in p.modules && m in q.modules ==>
      p.modules[m] == q.modules[m]
  }

  lemma {:induction false} TableFrom(inputs: seq<Input>, m: ModuleId) returns (p: Payload)
    requires m in TableOf(inputs)
    ensures Push(p) in inputs && m in p.modules && p.modules[m] == TableOf(inputs)[m]
    decreases |inputs|
  {
    var last := inputs[|inputs| - 1];
    if last.Push? && m in last.payload.modules {
      p := last.payload;
    } else {
      p := TableFrom(inputs[..|inputs| - 1], m);
    }
  }

  /** What is installed is registered, with all that it requires. */
  ghost predicate InstalledClosed(s: State) {
    Supports(s.table, {}, s.installed)
  }

  lemma {:induction false} CheckInstallsClosed(s: State, kept: seq<Entry>, ts: seq<Entry>)
    requires InstalledClosed(s) && !Check(s, kept, ts).threw
    ensures InstalledClosed(Check(s, kept, ts))
    decreases |ts|
  {
    if ts != [] {
      if Ready(s.chunks, ts[0]) {
        RequireSound(s.table, s.installed, ts[0].main);
        if Require(s.table, s.installed, ts[0].main).ok {
          assert InstalledClosed(Execute(s, ts[0])) by {
            var r := Require(s.table, s.installed, ts[0].main);
            assert forall x :: x in r.installed && x !in s.installed ==> x in SetOf(r.ran);
          }
          CheckInstallsClosed(Execute(s, ts[0]), kept, ts[1..]);
        }
      } else {
        CheckInstallsClosed(s, kept + [ts[0]], ts[1..]);
      }
    }
  }

  lemma {:induction false} RunInstallsClosed(inputs: seq<Input>)
    requires OneDefinition(inputs) && !Run(INITIAL, inputs).threw
    ensures InstalledClosed(Run(INITIAL, inputs))
    decreases |inputs|
  {
    if inputs != [] {
      var init, i := inputs[..|inputs| - 1], inputs[|inputs| - 1];
      var s := Run(INITIAL, init);
      assert inputs == init + [i];
      assert forall x :: x in init ==> x in inputs;
      ThrewStays(s, [i]);
      assert Run(s, [i]) == Step(s, i) by { assert [i][..0] == []; }
      RunInstallsClosed(init);
      if i.Push? {
        var d := Deliver(s, i.payload);
        forall m | m in s.table && m in i.payload.modules ensures s.table[m] == i.payload.modules[m] {
          RunTable(init);
          var p := TableFrom(init, m);
          assert Push(p) in inputs && Push(i.payload) in inputs;
        }
        assert InstalledClosed(d);
        CheckInstallsClosed(d, [], d.deferred);
      }
    }
  }

  /** For the payloads of one build: a run throws exactly if at some time an entry is complete whose main
      module lacks something that it needs. */
  lemma ThrowsExactlyWhenUnsupported(inputs: seq<Input>)
    requires OneDefinition(inputs)
    ensures !Run(INITIAL, inputs).threw <==> AllSupported(inputs)
  {
    if AllSupported(inputs) {
      SupportedRunsDoNotThrow(inputs);
    }
    if !Run(INITIAL, inputs).threw {
      forall n, e | 0 <= n <= |inputs| && Complete(inputs[..n], e) ensures Supported(TableOf(inputs[..n]), {}, e.main) {
        var s := Run(INITIAL, inputs[..n]);
        assert inputs == inputs[..n] + inputs[n..];
        RunJoin(INITIAL, inputs[..n], inputs[n..]);
        ThrewStays(s, inputs[n..]);
        assert forall x :: x in inputs[..n] ==> x in inputs;
        RunInstallsClosed(inputs[..n]);
        RunTable(inputs[..n]);
        CompleteIsExecuted(inputs[..n], e);
      }
    }
  }

  lemma CompleteIsExecuted(inputs: seq<Input>, e: Entry)
    requires !Run(INITIAL, inputs).threw && Complete(inputs, e)
    ensures e in Run(INITIAL, inputs).executed && e.main in Run(INITIAL, inputs).installed
  {
    var s := Run(INITIAL, inputs);
    InitialValid();
    RunValid(INITIAL, inputs);
    NoneReady(s);
    ReadyIsDelivered(inputs, e);
    RunPushes(inputs, e);
    PushedOrNot(s, e);
  }

  // ----- The entry module in every run

  /** Only the entry `e` names its main module, and no factory requires it. */
  ghost predicate OwnMain(inputs: seq<Input>, e: Entry) {
    NeverRequired(inputs, e.main) && forall e' :: EntryPushed(inputs, e') && e'.main == e.main ==> e' == e
  }

  /** Whatever throws: a main module never runs before its entry and all its chunks have arrived, no factory
      runs twice, and no entry is lost, for each is executed once or still deferred. */
  lemma MainNeverRunsEarly(inputs: seq<Input>, e: Entry)
    requires OwnMain(inputs, e)
    ensures var s := Run(INITIAL, inputs);
            && Distinct(RanIn(s.log))
            && (e.main in RanIn(s.log) ==> Complete(inputs, e))
            && multiset(s.pushed) == multiset(s.deferred) + multiset(s.executed)
            && (EntryPushed(inputs, e) <==> e in s.deferred || e in s.executed)
  {
    var s := Run(INITIAL, inputs);
    InitialValid();
    RunValid(INITIAL, inputs);
    RunInstallsMains(inputs, e.main);
    RunPushes(inputs, e);
    PushedOrNot(s, e);
    ReadyIsDelivered(inputs, e);
    if e.main in RanIn(s.log) {
      assert e.main in SetOf(RanIn(s.log));
      var e' :| e' in s.executed && e'.main == e.main;
      PushedOrNot(s, e');
      RunPushes(inputs, e');
    }
  }

  /** In every run in which whatever is complete has what it needs, a main module has run exactly if its entry
      and all its chunks have arrived, in whatever order; and no factory runs twice. */
  lemma MainRunsExactlyWhenComplete(inputs: seq<Input>, e: Entry)
    requires AllSupported(inputs) && OwnMain(inputs, e)
    ensures Distinct(RanIn(Run(INITIAL, inputs).log))
    ensures e.main in RanIn(Run(INITIAL, inputs).log) <==> Complete(inputs, e)
  {
    SupportedRunsDoNotThrow(inputs);
    MainNeverRunsEarly(inputs, e);
    if Complete(inputs, e) {
      var s := Run(INITIAL, inputs);
      CompleteIsExecuted(inputs, e);
      InitialValid();
      RunValid(INITIAL, inputs);
      assert e.main in SetOf(RanIn(s.log));
    }
  }

  lemma OwnMainBefore(inputs: seq<Input>, more: seq<Input>, e: Entry)
    requires OwnMain(inputs + more, e)
    ensures OwnMain(inputs, e)
  {
    assert forall x :: x in inputs ==> x in inputs + more;
  }

  /** So it runs in the very call that completes it. */
  lemma MainRunsInCompletingCall(inputs: seq<Input>, i: Input, e: Entry)
    requires AllSupported(inputs + [i]) && OwnMain(inputs + [i], e)
    ensures var before, after := Run(INITIAL, inputs), Run(INITIAL, inputs + [i]);
            e.main in RanIn(after.log) && e.main !in RanIn(before.log) <==>
            Complete(inputs + [i], e) && !Complete(inputs, e)
  {
    PrefixSupported(inputs + [i], |inputs|);
    assert (inputs + [i])[..|inputs|] == inputs;
    OwnMainBefore(inputs, [i], e);
    MainRunsExactlyWhenComplete(inputs, e);
    MainRunsExactlyWhenComplete(inputs + [i], e);
  }

  lemma {:induction false} RunJoin(s: State, a: seq<Input>, b: seq<Input>)
    ensures Run(s, a + b) == Run(Run(s, a), b)
    decreases |b|
  {
    if b == [] {
      assert a + b == a;
    } else {
      RunJoin(s, a, b[..|b| - 1]);
      assert (a + b)[..|a + b| - 1] == a + b[..|b| - 1];
    }
  }

  /** The same with some payloads pushed before the runtime starts: only what has arrived by now decides,
      not when it arrived. */
  lemma MainRunsInAnyOrder(queue: seq<Payload>, inputs: seq<Input>, e: Entry)
    requires AllSupported(Pushes(queue) + inputs) && OwnMain(Pushes(queue) + inputs, e)
    ensures !Boot(INITIAL, queue).threw && Boot(INITIAL, queue) == Run(INITIAL, Pushes(queue))
    ensures Distinct(RanIn(Run(Boot(INITIAL, queue), inputs).log))
    ensures e.main in RanIn(Run(Boot(INITIAL, queue), inputs).log) <==> Complete(Pushes(queue) + inputs, e)
  {
    InitialValid();
    PrefixSupported(Pushes(queue) + inputs, |queue|);
    assert (Pushes(queue) + inputs)[..|queue|] == Pushes(queue);
    SupportedRunsDoNotThrow(Pushes(queue));
    ReplayIsPush(INITIAL, queue);
    RunJoin(INITIAL, Pushes(queue), inputs);
    MainRunsExactlyWhenComplete(Pushes(queue) + inputs, e);
  }

  // ----- Requests and failures

  /** A script is injected exactly for a request of a chunk that is neither loaded nor pending, which
      includes a chunk whose last attempt failed. */
  lemma InjectedExactlyWhenAbsent(s: State, i: Input, c: ChunkId, attempt: nat)
    ensures s.log <= Step(s, i).log
    ensures Injected(c, attempt) in Step(s, i).log[|s.log|..] <==> i == Ask(c) && c !in s.chunks && attempt == s.next
  {
    match i
    case Push(p) =>
      var d := Deliver(s, p);
      CheckLog(d, [], d.deferred);
      assert forall k :: |s.log| <= k < |d.log| ==> !d.log[k].Injected?;
    case Ask(_) =>
    case Done(_) =>
  }

  lemma {:induction false} CheckLog(s: State, kept: seq<Entry>, ts: seq<Entry>)
    ensures |s.log| <= |Check(s, kept, ts).log|
    ensures forall k :: 0 <= k < |s.log| ==> Check(s, kept, ts).log[k] == s.log[k]
    ensures forall k :: |s.log| <= k < |Check(s, kept, ts).log| ==> Check(s, kept, ts).log[k].Ran?
    decreases |ts|
  {
    if ts != [] {
      if Ready(s.chunks, ts[0]) {
        if Require(s.table, s.installed, ts[0].main).ok {
          CheckLog(Execute(s, ts[0]), kept, ts[1..]);
        }
      } else {
        CheckLog(s, kept + [ts[0]], ts[1..]);
      }
    }
  }

  /** Over every run: a loaded chunk stays loaded, no promise is settled twice, a promise is resolved only by
      a payload that has been registered and names the chunk that was asked for, and no factory runs twice. */
  lemma RunsAreSafe(inputs: seq<Input>, more: seq<Input>, c: ChunkId)
    ensures IsLoaded(Run(INITIAL, inputs).chunks, c) ==> IsLoaded(Run(INITIAL, inputs + more).chunks, c)
    ensures var log := Run(INITIAL, inputs).log;
            Distinct(SettledIn(log)) && Distinct(RanIn(log)) && ResolvedWell(log)
  {
    InitialValid();
    RunValid(INITIAL, inputs);
    RunLoads(inputs, c);
    RunLoads(inputs + more, c);
    assert forall x :: x in inputs ==> x in inputs + more;
  }
}
