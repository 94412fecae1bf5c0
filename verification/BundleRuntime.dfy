/** The bundle runtime itself: mutable tables changed by loops and callbacks, each of which is one step
    of the state machine. */
module BundleRuntime {
  import opened Basics
  import opened ModuleRequire
  import opened ChunkInvariants
  import opened ChunkPromises
  import opened ChunkRuntime

  class Runtime {
    var table: ModuleTable
    var installed: set<ModuleId>
    var chunks: map<ChunkId, ChunkState>
    var deferred: seq<Entry>
    var live: map<nat, ChunkId>
    var next: nat
    ghost var pushed: seq<Entry>
    ghost var executed: seq<Entry>
    ghost var log: seq<Event>
    ghost var threw: bool

    ghost function Current(): State
      reads this
    {
      State(table, installed, chunks, deferred, live, next, pushed, executed, log, threw)
    }

    /** `f`: false stands for a thrown error. */
    method Require(m: ModuleId) returns (ok: bool)
      modifies this`installed, this`log
      ensures var r := ModuleRequire.Require(table, old(installed), m);
              installed == r.installed && ok == r.ok && log == old(log) + RanEvents(r.ran)
      decreases table.Keys - installed, 0
    {
      if m in installed {
        assert RanEvents([]) == [];
        return true;
      }
      installed := installed + {m};
      if m !in table {
        assert RanEvents([]) == [];
        return false;
      }
      log := log + [Ran(m)];
      ok := RunFactory(table[m]);
      ghost var r := RequireAll(table, old(installed) + {m}, table[m]);
      assert RanEvents([m] + r.ran) == [Ran(m)] + RanEvents(r.ran);
    }

    /** What a factory does as far as modules are concerned: it requires others, one after the other. */
    method RunFactory(ms: seq<ModuleId>) returns (ok: bool)
      modifies this`installed, this`log
      ensures var r := RequireAll(table, old(installed), ms);
              installed == r.installed && ok == r.ok && log == old(log) + RanEvents(r.ran)
      decreases table.Keys - installed, |ms| + 1
    {
      if ms == [] {
        assert RanEvents([]) == [];
        return true;
      }
      ok := Require(ms[0]);
      ghost var first := ModuleRequire.Require(table, old(installed), ms[0]);
      if ok {
        ok := RunFactory(ms[1..]);
        ghost var rest := RequireAll(table, first.installed, ms[1..]);
        assert RanEvents(first.ran + rest.ran) == RanEvents(first.ran) + RanEvents(rest.ran);
      }
    }

    method AllLoaded(entry: Entry) returns (ready: bool)
      ensures ready == Ready(chunks, entry)
    {
      ready := true;
      for d := 0 to |entry.deps|
        invariant ready <==> forall i :: 0 <= i < d ==> IsLoaded(chunks, entry.deps[i])
      {
        if !IsLoaded(chunks, entry.deps[d]) {
          ready := false;
        }
      }
    }

    method RunEntry(entry: Entry) returns (ok: bool)
      modifies this`installed, this`log, this`executed, this`threw
      ensures Current() == Execute(old(Current()), entry)
      ensures ok == ModuleRequire.Require(table, old(installed), entry.main).ok
    {
      ok := Require(entry.main);
      executed := executed + [entry];
      threw := threw || !ok;
    }

    /** `n`: runs the deferred entries whose chunks are all loaded, removing each from the list first. */
    method CheckDeferred() returns (ok: bool)
      modifies this`installed, this`log, this`deferred, this`executed, this`threw
      ensures Current() == Check(old(Current()), [], old(deferred))
      ensures threw == (old(threw) || !ok)
    {
      var c := 0;
      ghost var goal := Check(Current(), [], deferred);
      assert deferred[..0] == [] && deferred[0..] == deferred;
      while c < |deferred|
        invariant c <= |deferred| && threw == old(threw)
        invariant Check(Current(), deferred[..c], deferred[c..]) == goal
        decreases |deferred| - c
      {
        var entry := deferred[c];
        CheckStep(Current(), deferred[..c], entry, deferred[c + 1..]);
        AroundEntry(deferred, c);
        var ready := AllLoaded(entry);
        if ready {
          deferred := deferred[..c] + deferred[c + 1..];
          ok := RunEntry(entry);
          if !ok {
            return;
          }
        } else {
          c := c + 1;
        }
      }
      assert deferred[..c] == deferred && deferred[c..] == [];
      return true;
    }

    /** `c`: the callback that every chunk script calls with its payload. */
    method Callback(p: Payload) returns (ok: bool)
      modifies this
      ensures Current() == ChunkRuntime.Callback(old(Current()), p)
      ensures threw == (old(threw) || !ok)
      ensures old(log) <= log
      ensures forall c :: c in p.ids && c in old(chunks) && old(chunks)[c].Pending? ==>
        Resolved(old(chunks)[c].attempt) in log[|old(log)|..]
    {
      ghost var before := Current();
      CallbackResolves(before, p);
      var resolves := MarkIds(p.ids);
      RegisterModules(p.ids, p.modules);
      ResolveAll(resolves);
      deferred := deferred + p.entries;
      pushed := pushed + p.entries;
      ok := CheckDeferred();
    }

    method RegisterModules(ghost ids: seq<ChunkId>, more: ModuleTable)
      modifies this`table, this`log
      ensures table == old(table) + more && log == old(log) + [Registered(ids, more.Keys)]
    {
      var todo := more.Keys;
      while todo != {}
        invariant todo <= more.Keys && log == old(log)
        invariant table == old(table) + map m | m in more && m !in todo :: more[m]
        decreases todo
      {
        var u :| u in todo;
        table := table[u := more[u]];
        todo := todo - {u};
      }
      assert table == old(table) + more;
      log := log + [Registered(ids, more.Keys)];
    }

    /** Resolves the promises one after the other, once the modules are there. */
    method ResolveAll(attempts: seq<nat>)
      modifies this`log
      ensures log == old(log) + ResolvedEvents(attempts)
    {
      var k := attempts;
      while k != []
        invariant |k| <= |attempts| && k == attempts[|attempts| - |k|..]
        invariant log == old(log) + ResolvedEvents(attempts[..|attempts| - |k|])
        decreases |k|
      {
        log := log + [Resolved(k[0])];
        k := k[1..];
      }
      assert attempts[..|attempts|] == attempts;
    }

    /** The first loop of the callback: marks the chunks loaded and collects who waits for them. */
    method MarkIds(ids: seq<ChunkId>) returns (resolves: seq<nat>)
      modifies this`chunks
      ensures chunks == MarkLoaded(old(chunks), ids) && resolves == Waiting(old(chunks), ids)
      ensures forall a :: a in resolves <==> exists c :: c in ids && c in old(chunks) && old(chunks)[c] == Pending(a)
    {
      resolves := [];
      forall a
        ensures a in Waiting(chunks, ids) <==> exists c :: c in ids && c in chunks && chunks[c] == Pending(a)
      {
        WaitingExactly(chunks, ids, a);
      }
      assert ids[0..] == ids;
      for o := 0 to |ids|
        invariant MarkLoaded(chunks, ids[o..]) == MarkLoaded(old(chunks), ids)
        invariant resolves + Waiting(chunks, ids[o..]) == Waiting(old(chunks), ids)
      {
        var d := ids[o];
        assert ids[o..] == [d] + ids[o + 1..];
        assert ([d] + ids[o + 1..])[1..] == ids[o + 1..];
        if d in chunks && chunks[d].Pending? {
          resolves := resolves + [chunks[d].attempt];
        } else {
          assert [] + Waiting(chunks[d := Loaded], ids[o + 1..]) == Waiting(chunks[d := Loaded], ids[o + 1..]);
        }
        chunks := chunks[d := Loaded];
      }
    }

    /** `f.e`: the attempt whose promise the caller gets, unless the chunk is loaded already. */
    method Request(c: ChunkId) returns (promise: Option<nat>)
      modifies this`chunks, this`live, this`next, this`log
      ensures Current() == ChunkRuntime.Request(old(Current()), c)
      ensures promise == if IsLoaded(old(chunks), c) then None else Some(chunks[c].attempt)
    {
      if c in chunks && chunks[c] == Loaded {
        return None;
      }
      if c in chunks {
        return Some(chunks[c].attempt);
      }
      chunks := chunks[c := Pending(next)];
      live := live[next := c];
      log := log + [Injected(c, next)];
      next := next + 1;
      return Some(next - 1);
    }

    /** `h`: the handler of the load, error and timeout events of one script. */
    method ScriptDone(attempt: nat)
      requires attempt in live
      modifies this`chunks, this`live, this`log
      ensures Current() == ChunkRuntime.ScriptDone(old(Current()), attempt)
    {
      var c := live[attempt];
      live := live - {attempt};
      if !IsLoaded(chunks, c) {
        if c in chunks {
          log := log + [Rejected(chunks[c].attempt)];
        }
        chunks := chunks - {c};
      }
    }

    /** The runtime starts with the payloads pushed before it. */
    constructor (queue: seq<Payload>)
      ensures Current() == Boot(INITIAL, queue)
    {
      table, installed, chunks, deferred, live, next := map[], {}, map[RUNTIME := Loaded], [], map[], 0;
      pushed, executed, log, threw := [], [], [], false;
      new;
      assert queue[0..] == queue;
      for k := 0 to |queue|
        invariant !threw && Boot(Current(), queue[k..]) == Boot(INITIAL, queue)
      {
        assert queue[k..][1..] == queue[k + 1..];
        var ok := Callback(queue[k]);
        if !ok {
          return;
        }
      }
      var _ := CheckDeferred();
    }
  }

  lemma CallbackResolves(s: State, p: Payload)
    ensures s.log <= Callback(s, p).log
    ensures forall c :: c in p.ids && c in s.chunks && s.chunks[c].Pending? ==>
      Resolved(s.chunks[c].attempt) in Callback(s, p).log[|s.log|..]
  {
    PushAdds(s, p, 0);
    assert Step(s, Push(p)) == Callback(s, p);
    forall c | c in p.ids && c in s.chunks && s.chunks[c].Pending?
      ensures Resolved(s.chunks[c].attempt) in Added(s, Push(p))
    {
      PushAdds(s, p, s.chunks[c].attempt);
      WaitingExactly(s.chunks, p.ids, s.chunks[c].attempt);
    }
  }

  lemma AroundEntry(ts: seq<Entry>, c: nat)
    requires c < |ts|
    ensures ts[c..] == [ts[c]] + ts[c + 1..] && ts[..c + 1] == ts[..c] + [ts[c]]
    ensures var without := ts[..c] + ts[c + 1..]; without[..c] == ts[..c] && without[c..] == ts[c + 1..]
  {
  }

  lemma CheckStep(s: State, kept: seq<Entry>, entry: Entry, rest: seq<Entry>)
    ensures Ready(s.chunks, entry) ==>
              var after := Execute(s.(deferred := kept + rest), entry);
              Check(s, kept, [entry] + rest) ==
              if ModuleRequire.Require(s.table, s.installed, entry.main).ok then Check(after, kept, rest) else after
    ensures !Ready(s.chunks, entry) ==> Check(s, kept, [entry] + rest) == Check(s, kept + [entry], rest)
  {
    assert ([entry] + rest)[1..] == rest;
    CheckIgnoresDeferred(Execute(s, entry), kept + rest, kept, rest);
  }

  lemma {:induction false} CheckIgnoresDeferred(s: State, d: seq<Entry>, kept: seq<Entry>, ts: seq<Entry>)
    ensures Check(s.(deferred := d), kept, ts) == Check(s, kept, ts)
    decreases |ts|
  {
    if ts != [] {
      if Ready(s.chunks, ts[0]) {
        if ModuleRequire.Require(s.table, s.installed, ts[0].main).ok {
          CheckIgnoresDeferred(Execute(s, ts[0]), d, kept, ts[1..]);
        }
      } else {
        CheckIgnoresDeferred(s, d, kept + [ts[0]], ts[1..]);
      }
    }
  }
}
