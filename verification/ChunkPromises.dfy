/** What becomes of the promises that the bundle runtime hands out. */
module ChunkPromises {
  import opened Basics
  import opened ModuleRequire
  import opened ChunkInvariants
  import opened ChunkRuns
  import opened ChunkRuntime

  /** The chunk `c` waits for the attempt `a`. */
  predicate PendingWith(s: State, c: ChunkId, a: nat) {
    c in s.chunks && s.chunks[c] == Pending(a)
  }

  /** The events that a step adds to the log. */
  function Added(s: State, i: Input): seq<Event>
    requires |s.log| <= |Step(s, i).log|
  {
    Step(s, i).log[|s.log|..]
  }

  /** A delivery registers, then resolves, then runs factories. */
  lemma PushLog(s: State, p: Payload) returns (ran: seq<Event>)
    ensures Step(s, Push(p)).log ==
            s.log + ([Registered(p.ids, p.modules.Keys)] + ResolvedEvents(Waiting(s.chunks, p.ids)) + ran)
    ensures forall k :: 0 <= k < |ran| ==> ran[k].Ran?
  {
    var d, r := Deliver(s, p), Step(s, Push(p));
    CheckLog(d, [], d.deferred);
    ran := r.log[|d.log|..];
    assert r.log == d.log + ran;
    assert d.log == s.log + ([Registered(p.ids, p.modules.Keys)] + ResolvedEvents(Waiting(s.chunks, p.ids)));
  }

  lemma ResolvedAmong(e: Event, attempts: seq<nat>, ran: seq<Event>, a: nat)
    requires e.Registered? && forall k :: 0 <= k < |ran| ==> ran[k].Ran?
    ensures Resolved(a) in [e] + ResolvedEvents(attempts) + ran <==> a in attempts
    ensures Rejected(a) !in [e] + ResolvedEvents(attempts) + ran
  {
    var events := ResolvedEvents(attempts);
    assert forall x :: x in [e] + events + ran <==> x == e || x in events || x in ran;
    assert forall i :: 0 <= i < |attempts| ==> events[i] == Resolved(attempts[i]);
  }

  lemma PushAdds(s: State, p: Payload, a: nat)
    ensures s.log <= Step(s, Push(p)).log
    ensures Resolved(a) in Added(s, Push(p)) <==> a in Waiting(s.chunks, p.ids)
    ensures Rejected(a) !in Added(s, Push(p))
  {
    var ran := PushLog(s, p);
    ResolvedAmong(Registered(p.ids, p.modules.Keys), Waiting(s.chunks, p.ids), ran, a);
  }

  /** A promise is resolved by exactly the payloads that name a chunk waiting for it, and rejected exactly
      when its own script ends while its chunk still waits. */
  lemma SettlesExactly(s: State, i: Input, a: nat)
    requires ScriptsMatch(s)
    ensures s.log <= Step(s, i).log
    ensures Resolved(a) in Added(s, i) <==> i.Push? && exists c :: c in i.payload.ids && PendingWith(s, c, a)
    ensures Rejected(a) in Added(s, i) <==> i == Done(a) && a in s.live && PendingWith(s, s.live[a], a)
  {
    match i
    case Push(p) =>
      PushAdds(s, p, a);
      WaitingExactly(s.chunks, p.ids, a);
      assert (exists c :: c in p.ids && PendingWith(s, c, a)) <==>
             exists c :: c in p.ids && c in s.chunks && s.chunks[c] == Pending(a);
    case Ask(_) =>
    case Done(_) =>
  }

  lemma {:induction false} SettledMember(log: seq<Event>, e: Event)
    requires e in log && (e.Resolved? || e.Rejected?)
    ensures e.attempt in SettledIn(log)
  {
    var last := log[|log| - 1];
    if e != last {
      assert log == log[..|log| - 1] + [last];
      SettledMember(log[..|log| - 1], e);
    }
  }

  /** After a step a chunk that waited for an attempt still waits for it, or its promise was settled. */
  lemma StillPendingOrSettled(s: State, i: Input, c: ChunkId, a: nat)
    requires ScriptsMatch(s) && PendingWith(s, c, a)
    ensures PendingWith(Step(s, i), c, a) || a in SettledIn(Step(s, i).log)
  {
    SettlesExactly(s, i, a);
    var e := if i.Push? then Resolved(a) else Rejected(a);
    if e in Added(s, i) {
      SettledMember(Step(s, i).log, e);
    } else if i.Push? {
      MarkLoadedEffect(s.chunks, i.payload.ids);
      var d := Deliver(s, i.payload);
      CheckFrame(d, [], d.deferred);
    }
  }

  lemma SettledStays(s: State, i: Input, a: nat)
    requires ScriptsMatch(s) && a in SettledIn(s.log)
    ensures a in SettledIn(Step(s, i).log)
  {
    SettlesExactly(s, i, a);
    LogJoin(s.log, Added(s, i));
    assert Step(s, i).log == s.log + Added(s, i);
  }

  /** No promise is forgotten: over every run, each attempt that was made has been settled, or its chunk
      waits for it and its script is still to end. */
  lemma {:induction false} NoPromiseForgotten(inputs: seq<Input>, c: ChunkId, a: nat)
    requires Injected(c, a) in Run(INITIAL, inputs).log
    ensures var s := Run(INITIAL, inputs);
            a in SettledIn(s.log) || (PendingWith(s, c, a) && a in s.live && s.live[a] == c)
    decreases |inputs|
  {
    InitialValid();
    RunValid(INITIAL, inputs);
    var init, i := inputs[..|inputs| - 1], inputs[|inputs| - 1];
    var s := Run(INITIAL, init);
    RunValid(INITIAL, init);
    InjectedExactlyWhenAbsent(s, i, c, a);
    if Injected(c, a) in s.log {
      NoPromiseForgotten(init, c, a);
      if PendingWith(s, c, a) {
        StillPendingOrSettled(s, i, c, a);
      } else {
        SettledStays(s, i, a);
      }
    } else {
      assert Step(s, i).log == s.log + Added(s, i);
    }
  }

  /** Over every run: a payload that names a waiting chunk resolves its promise in the same call. */
  lemma ArrivalResolves(inputs: seq<Input>, p: Payload, c: ChunkId, a: nat)
    requires PendingWith(Run(INITIAL, inputs), c, a) && c in p.ids
    ensures var s, after := Run(INITIAL, inputs), Run(INITIAL, inputs + [Push(p)]);
            s.log <= after.log && Resolved(a) in after.log[|s.log|..] && IsLoaded(after.chunks, c)
  {
    InitialValid();
    RunValid(INITIAL, inputs);
    RunSnoc(inputs, Push(p));
    SettlesExactly(Run(INITIAL, inputs), Push(p), a);
    StepLoads(Run(INITIAL, inputs), Push(p), c);
  }

  /** Over every run: when the script of a waiting chunk fails or times out, its promise is rejected in that
      call, and the next request makes a new attempt; when the chunk has arrived, its end does nothing. */
  lemma FailureRejects(inputs: seq<Input>, a: nat)
    requires a in Run(INITIAL, inputs).live
    ensures
      var s := Run(INITIAL, inputs);
      var c := s.live[a];
      var after := Run(INITIAL, inputs + [Done(a)]);
      if IsLoaded(s.chunks, c) then after == s.(live := s.live - {a})
      else
        && after.log == s.log + [Rejected(a)] && c !in after.chunks && a !in after.live
        && Step(after, Ask(c)).log == after.log + [Injected(c, s.next)] && PendingWith(Step(after, Ask(c)), c, s.next)
  {
    InitialValid();
    RunValid(INITIAL, inputs);
    RunSnoc(inputs, Done(a));
  }
}
