/** Every event of the bundle runtime keeps its invariants. */
module ChunkInvariants {
  import opened Basics
  import opened ModuleRequire
  import opened ChunkRuntime

  lemma {:induction false} NotReadyJoin(chunks: map<ChunkId, ChunkState>, a: seq<Entry>, b: seq<Entry>)
    ensures NotReady(chunks, a + b) == NotReady(chunks, a) + NotReady(chunks, b)
  {
    if a == [] {
      assert a + b == b;
    } else {
      assert (a + b)[1..] == a[1..] + b;
      NotReadyJoin(chunks, a[1..], b);
    }
  }

  /** Chunks that are loaded stay loaded, so filtering again gives what filtering once gives. */
  lemma {:induction false} NotReadyLater(before: map<ChunkId, ChunkState>, after: map<ChunkId, ChunkState>, ts: seq<Entry>)
    requires forall c :: IsLoaded(before, c) ==> IsLoaded(after, c)
    ensures NotReady(after, NotReady(before, ts)) == NotReady(after, ts)
  {
    if ts != [] {
      NotReadyLater(before, after, ts[1..]);
      var rest := NotReady(before, ts[1..]);
      if Ready(before, ts[0]) {
        assert NotReady(before, ts) == rest && NotReady(after, ts) == NotReady(after, ts[1..]);
      } else {
        assert NotReady(before, ts) == [ts[0]] + rest && ([ts[0]] + rest)[1..] == rest;
      }
    }
  }

  lemma {:induction false} NotReadySame(before: map<ChunkId, ChunkState>, after: map<ChunkId, ChunkState>, ts: seq<Entry>)
    requires forall c :: IsLoaded(before, c) <==> IsLoaded(after, c)
    ensures NotReady(after, ts) == NotReady(before, ts)
  {
    if ts != [] {
      NotReadySame(before, after, ts[1..]);
    }
  }

  lemma {:induction false} MarkLoadedEffect(chunks: map<ChunkId, ChunkState>, ids: seq<ChunkId>)
    ensures MarkLoaded(chunks, ids).Keys == chunks.Keys + SetOf(ids)
    ensures forall c :: c in ids ==> MarkLoaded(chunks, ids)[c] == Loaded
    ensures forall c :: c in chunks && c !in ids ==> MarkLoaded(chunks, ids)[c] == chunks[c]
    decreases |ids|
  {
    if ids != [] {
      MarkLoadedEffect(chunks[ids[0] := Loaded], ids[1..]);
      assert ids == [ids[0]] + ids[1..];
    }
  }

  ghost predicate OneAttemptEach(chunks: map<ChunkId, ChunkState>) {
    forall c, d :: c in chunks && d in chunks && chunks[c].Pending? && chunks[c] == chunks[d] ==> c == d
  }

  lemma {:induction false} WaitingEffect(chunks: map<ChunkId, ChunkState>, ids: seq<ChunkId>)
    requires OneAttemptEach(chunks)
    ensures Distinct(Waiting(chunks, ids))
    ensures forall a :: a in Waiting(chunks, ids) ==> exists c :: c in ids && c in chunks && chunks[c] == Pending(a)
    decreases |ids|
  {
    if ids != [] {
      var rest := chunks[ids[0] := Loaded];
      WaitingEffect(rest, ids[1..]);
      assert ids == [ids[0]] + ids[1..];
      forall a | a in Waiting(rest, ids[1..]) ensures exists c :: c in ids && c != ids[0] && c in chunks && chunks[c] == Pending(a) {
        var c :| c in ids[1..] && c in rest && rest[c] == Pending(a);
      }
    }
  }

  /** A delivery resolves exactly the attempts that a chunk it names waits for. */
  lemma {:induction false} WaitingExactly(chunks: map<ChunkId, ChunkState>, ids: seq<ChunkId>, a: nat)
    ensures a in Waiting(chunks, ids) <==> exists c :: c in ids && c in chunks && chunks[c] == Pending(a)
    decreases |ids|
  {
    if ids != [] {
      var rest := chunks[ids[0] := Loaded];
      WaitingExactly(rest, ids[1..], a);
      assert ids == [ids[0]] + ids[1..];
      if c :| c in ids && c in chunks && chunks[c] == Pending(a) {
        assert c == ids[0] || (c in ids[1..] && c in rest && rest[c] == Pending(a));
      }
      if c :| c in ids[1..] && c in rest && rest[c] == Pending(a) {
        assert c in ids && c in chunks && chunks[c] == Pending(a);
      }
    }
  }

  lemma ExecuteLog(s: State, e: Entry)
    requires ResolvedWell(s.log)
    ensures var log := Execute(s, e).log;
            && SettledIn(log) == SettledIn(s.log) && RegisteredIn(log) == RegisteredIn(s.log) && ResolvedWell(log)
            && RanIn(log) == RanIn(s.log) + Require(s.table, s.installed, e.main).ran
  {
    var r := Require(s.table, s.installed, e.main);
    RanEventsLog(r.ran);
    LogJoin(s.log, RanEvents(r.ran));
    WellJoin(s.log, RanEvents(r.ran));
    assert SettledIn(s.log) + [] == SettledIn(s.log);
  }

  lemma ExecuteValid(s: State, e: Entry)
    requires ValidTables(s) && Ready(s.chunks, e)
    ensures ValidTables(Execute(s, e)) && e.main in Execute(s, e).installed
  {
    var r := Require(s.table, s.installed, e.main);
    RequireSound(s.table, s.installed, e.main);
    ExecuteLog(s, e);
    DistinctJoin(RanIn(s.log), r.ran);
    assert SetOf(RanIn(s.log) + r.ran) == SetOf(RanIn(s.log)) + SetOf(r.ran);
  }

  lemma {:induction false} CheckTables(s: State, kept: seq<Entry>, ts: seq<Entry>)
    requires ValidTables(s)
    ensures ValidTables(Check(s, kept, ts))
    decreases |ts|
  {
    if ts != [] {
      if Ready(s.chunks, ts[0]) {
        ExecuteValid(s, ts[0]);
        if Require(s.table, s.installed, ts[0].main).ok {
          CheckTables(Execute(s, ts[0]), kept, ts[1..]);
        }
      } else {
        CheckTables(s, kept + [ts[0]], ts[1..]);
      }
    }
  }

  lemma {:induction false} CheckFrame(s: State, kept: seq<Entry>, ts: seq<Entry>)
    ensures var r := Check(s, kept, ts);
            && r.chunks == s.chunks && r.pushed == s.pushed && r.live == s.live && r.next == s.next
            && r.table == s.table && (s.threw ==> r.threw)
    decreases |ts|
  {
    if ts != [] {
      if Ready(s.chunks, ts[0]) {
        if Require(s.table, s.installed, ts[0].main).ok {
          CheckFrame(Execute(s, ts[0]), kept, ts[1..]);
        }
      } else {
        CheckFrame(s, kept + [ts[0]], ts[1..]);
      }
    }
  }

  lemma {:induction false} CheckLosesNothing(s: State, kept: seq<Entry>, ts: seq<Entry>)
    ensures var r := Check(s, kept, ts);
            multiset(r.deferred) + multiset(r.executed) == multiset(kept) + multiset(ts) + multiset(s.executed)
    decreases |ts|
  {
    if ts != [] {
      assert ts == [ts[0]] + ts[1..];
      if Ready(s.chunks, ts[0]) {
        if Require(s.table, s.installed, ts[0].main).ok {
          CheckLosesNothing(Execute(s, ts[0]), kept, ts[1..]);
        }
      } else {
        CheckLosesNothing(s, kept + [ts[0]], ts[1..]);
      }
    }
  }

  lemma {:induction false} CheckKeeps(s: State, kept: seq<Entry>, ts: seq<Entry>)
    requires !Check(s, kept, ts).threw
    ensures Check(s, kept, ts).deferred == kept + NotReady(s.chunks, ts)
    decreases |ts|
  {
    if ts == [] {
      assert kept + [] == kept;
    } else {
      var rest := NotReady(s.chunks, ts[1..]);
      if Ready(s.chunks, ts[0]) {
        if Require(s.table, s.installed, ts[0].main).ok {
          CheckKeeps(Execute(s, ts[0]), kept, ts[1..]);
        }
        assert [] + rest == rest;
      } else {
        CheckKeeps(s, kept + [ts[0]], ts[1..]);
        assert kept + [ts[0]] + rest == kept + ([ts[0]] + rest);
      }
    }
  }

  function ReadyOnes(chunks: map<ChunkId, ChunkState>, ts: seq<Entry>): seq<Entry> {
    if ts == [] then []
    else (if forall d :: d in ts[0].deps ==> d in chunks && chunks[d] == Loaded then [ts[0]] else []) + ReadyOnes(chunks, ts[1..])
  }

  /** The executed entries `done`, and the first of `ts` if it is ready. */
  lemma ReadyFirst(chunks: map<ChunkId, ChunkState>, ts: seq<Entry>, done: seq<Entry>)
    requires ts != []
    ensures done + ReadyOnes(chunks, ts) ==
            (if Ready(chunks, ts[0]) then done + [ts[0]] else done) + ReadyOnes(chunks, ts[1..])
  {
    var first := if Ready(chunks, ts[0]) then [ts[0]] else [];
    JoinAssociates(done, first, ReadyOnes(chunks, ts[1..]));
    assert done + [] == done;
    assert ReadyOnes(chunks, ts) == first + ReadyOnes(chunks, ts[1..]);
  }

  /** Unless one throws, exactly the entries whose chunks are all loaded are executed, in their order. */
  lemma {:induction false} CheckRunsInOrder(s: State, kept: seq<Entry>, ts: seq<Entry>)
    requires !Check(s, kept, ts).threw
    ensures Check(s, kept, ts).executed == s.executed + ReadyOnes(s.chunks, ts)
    decreases |ts|
  {
    if ts == [] {
      assert s.executed + [] == s.executed;
    } else {
      ReadyFirst(s.chunks, ts, s.executed);
      if !Ready(s.chunks, ts[0]) {
        CheckRunsInOrder(s, kept + [ts[0]], ts[1..]);
      } else if Require(s.table, s.installed, ts[0].main).ok {
        CheckRunsInOrder(Execute(s, ts[0]), kept, ts[1..]);
      }
    }
  }

  /** The check runs the entries that are ready and keeps the others, in order; where one throws, those
      behind it stay deferred. */
  lemma CheckEntries(s: State, kept: seq<Entry>, ts: seq<Entry>)
    ensures var r := Check(s, kept, ts);
            && r.chunks == s.chunks && r.pushed == s.pushed && r.live == s.live && r.next == s.next
            && r.table == s.table && (s.threw ==> r.threw)
            && multiset(r.deferred) + multiset(r.executed) == multiset(kept) + multiset(ts) + multiset(s.executed)
            && (!r.threw ==> r.deferred == kept + NotReady(s.chunks, ts))
  {
    CheckFrame(s, kept, ts);
    CheckLosesNothing(s, kept, ts);
    if !Check(s, kept, ts).threw {
      CheckKeeps(s, kept, ts);
    }
  }

  lemma DeliverLog(s: State, p: Payload)
    ensures var r := Deliver(s, p);
            && SettledIn(r.log) == SettledIn(s.log) + Waiting(s.chunks, p.ids)
            && RanIn(r.log) == RanIn(s.log)
            && RegisteredIn(r.log) == RegisteredIn(s.log) + p.modules.Keys
  {
    var attempts, e := Waiting(s.chunks, p.ids), Registered(p.ids, p.modules.Keys);
    OneEvent(s.log, e);
    ResolvedEventsLog(attempts);
    LogJoin(s.log + [e], ResolvedEvents(attempts));
  }

  /** It settles the promises that were settled before and exactly those that a chunk it names waits for. */
  lemma DeliverSettles(s: State, p: Payload, a: nat)
    ensures a in SettledIn(Deliver(s, p).log) <==>
            a in SettledIn(s.log) || exists c :: c in p.ids && c in s.chunks && s.chunks[c] == Pending(a)
  {
    DeliverLog(s, p);
    WaitingExactly(s.chunks, p.ids, a);
  }

  lemma DeliverResolves(s: State, p: Payload)
    requires ScriptsMatch(s) && PromisesMatch(s) && ResolvedWell(s.log)
    ensures ResolvedWell(Deliver(s, p).log)
  {
    var e := Registered(p.ids, p.modules.Keys);
    WellSnoc(s.log, e);
    WaitingAskedFor(s, p.ids, e);
    WellJoin(s.log + [e], ResolvedEvents(Waiting(s.chunks, p.ids)));
  }

  lemma WaitingAskedFor(s: State, ids: seq<ChunkId>, e: Event)
    requires ScriptsMatch(s) && PromisesMatch(s)
    ensures forall i :: 0 <= i < |Waiting(s.chunks, ids)| ==> AskedFor(s.log + [e], ids, Waiting(s.chunks, ids)[i])
  {
    WaitingEffect(s.chunks, ids);
    forall i | 0 <= i < |Waiting(s.chunks, ids)| ensures AskedFor(s.log + [e], ids, Waiting(s.chunks, ids)[i]) {
      var a := Waiting(s.chunks, ids)[i];
      assert a in Waiting(s.chunks, ids);
      var c :| c in ids && c in s.chunks && s.chunks[c] == Pending(a);
      assert Injected(c, a) in s.log;
    }
  }

  /** A chunk that a delivery leaves pending was pending before, and its promise is not resolved. */
  lemma StillPending(s: State, p: Payload, c: ChunkId)
    requires ScriptsMatch(s) && c in Deliver(s, p).chunks && Deliver(s, p).chunks[c].Pending?
    ensures c in s.chunks && s.chunks[c] == Deliver(s, p).chunks[c] && c !in p.ids
    ensures s.chunks[c].attempt !in Waiting(s.chunks, p.ids)
  {
    MarkLoadedEffect(s.chunks, p.ids);
    WaitingEffect(s.chunks, p.ids);
  }

  lemma DeliverScripts(s: State, p: Payload)
    requires ScriptsMatch(s)
    ensures ScriptsMatch(Deliver(s, p))
  {
    MarkLoadedEffect(s.chunks, p.ids);
  }

  lemma DeliverPromises(s: State, p: Payload)
    requires ScriptsMatch(s) && PromisesMatch(s)
    ensures PromisesMatch(Deliver(s, p))
  {
    var r, attempts := Deliver(s, p), Waiting(s.chunks, p.ids);
    DeliverLog(s, p);
    WaitingEffect(s.chunks, p.ids);
    DistinctJoin(SettledIn(s.log), attempts);
    forall c | c in r.chunks && r.chunks[c].Pending?
      ensures r.chunks[c].attempt !in SettledIn(r.log) && Injected(c, r.chunks[c].attempt) in r.log
    {
      StillPending(s, p, c);
    }
  }

  lemma DeliverTables(s: State, p: Payload)
    requires ValidTables(s)
    ensures ValidTables(Deliver(s, p))
  {
    DeliverScripts(s, p);
    DeliverPromises(s, p);
    DeliverLog(s, p);
    DeliverResolves(s, p);
    MarkLoadedEffect(s.chunks, p.ids);
  }

  lemma LoadedStays(s: State, i: Input, c: ChunkId)
    requires IsLoaded(s.chunks, c)
    ensures IsLoaded(Step(s, i).chunks, c)
  {
    if i.Push? {
      MarkLoadedEffect(s.chunks, i.payload.ids);
      var d := Deliver(s, i.payload);
      CheckEntries(d, [], d.deferred);
    }
  }

  lemma CallbackValid(s: State, p: Payload)
    requires Valid(s)
    ensures Valid(Callback(s, p))
  {
    var d, r := Deliver(s, p), Callback(s, p);
    DeliverTables(s, p);
    CheckTables(d, [], d.deferred);
    CheckEntries(d, [], d.deferred);
    MarkLoadedEffect(s.chunks, p.ids);
    if !r.threw {
      NotReadyJoin(d.chunks, s.deferred, p.entries);
      NotReadyLater(s.chunks, d.chunks, s.pushed);
      NotReadyJoin(d.chunks, s.pushed, p.entries);
    }
  }

  lemma RequestTables(s: State, c: ChunkId)
    requires ValidTables(s) && c !in s.chunks
    ensures ValidTables(Request(s, c))
  {
    OneEvent(s.log, Injected(c, s.next));
    WellSnoc(s.log, Injected(c, s.next));
    RequestScripts(s, c);
  }

  lemma RequestScripts(s: State, c: ChunkId)
    requires ScriptsMatch(s) && c !in s.chunks
    ensures ScriptsMatch(Request(s, c))
  {
  }

  lemma RequestValid(s: State, c: ChunkId)
    requires Valid(s)
    ensures Valid(Request(s, c))
  {
    if c !in s.chunks {
      RequestTables(s, c);
      NotReadySame(s.chunks, Request(s, c).chunks, s.pushed);
    }
  }

  lemma ScriptDoneScripts(s: State, attempt: nat)
    requires ScriptsMatch(s) && attempt in s.live
    ensures ScriptsMatch(ScriptDone(s, attempt))
    ensures s.chunks[s.live[attempt]] != Loaded ==> s.chunks[s.live[attempt]] == Pending(attempt)
  {
  }

  lemma ScriptDonePromises(s: State, attempt: nat)
    requires ScriptsMatch(s) && PromisesMatch(s) && ResolvedWell(s.log) && attempt in s.live
    ensures var r := ScriptDone(s, attempt);
            && PromisesMatch(r) && RanIn(r.log) == RanIn(s.log)
            && RegisteredIn(r.log) == RegisteredIn(s.log) && ResolvedWell(r.log)
  {
    if s.chunks[s.live[attempt]] != Loaded {
      var e := Rejected(attempt);
      ScriptDoneScripts(s, attempt);
      OneEvent(s.log, e);
      WellSnoc(s.log, e);
      DistinctJoin(SettledIn(s.log), [attempt]);
    }
  }

  lemma ScriptDoneValid(s: State, attempt: nat)
    requires Valid(s)
    ensures Valid(ScriptDone(s, attempt))
  {
    if attempt in s.live {
      ScriptDoneScripts(s, attempt);
      ScriptDonePromises(s, attempt);
      NotReadySame(s.chunks, ScriptDone(s, attempt).chunks, s.pushed);
    }
  }

  lemma StepValid(s: State, i: Input)
    requires Valid(s)
    ensures Valid(Step(s, i))
  {
    match i
    case Push(p) => CallbackValid(s, p);
    case Ask(c) => RequestValid(s, c);
    case Done(a) => ScriptDoneValid(s, a);
  }

  lemma {:induction false} RunValid(s: State, inputs: seq<Input>)
    requires Valid(s)
    ensures Valid(Run(s, inputs))
    decreases |inputs|
  {
    if inputs != [] {
      RunValid(s, inputs[..|inputs| - 1]);
      StepValid(Run(s, inputs[..|inputs| - 1]), inputs[|inputs| - 1]);
    }
  }
}
