/** The bundle runtime: chunks that arrive in any order, entries deferred until their chunks are there,
    requests, failures and retries, as a state machine over its events. */
module ChunkRuntime {
  import opened Basics
  import opened ModuleRequire

  type ChunkId = string

  /** A chunk that is neither loaded nor pending is not in the table. Each request attempt has its own
      promise and its own script element. */
  datatype ChunkState = Loaded | Pending(attempt: nat)

  datatype Entry = Entry(main: ModuleId, deps: seq<ChunkId>)

  datatype Payload = Payload(ids: seq<ChunkId>, modules: ModuleTable, entries: seq<Entry>)

  /** What an observer sees, in order. */
  datatype Event =
    | Registered(ids: seq<ChunkId>, modules: set<ModuleId>)
    | Resolved(attempt: nat)
    | Rejected(attempt: nat)
    | Injected(chunk: ChunkId, attempt: nat)
    | Ran(m: ModuleId)

  /** `live` are the scripts whose load, error and timeout handlers have not fired yet. The fields from
      `pushed` on are history. */
  datatype State = State(
    table: ModuleTable, installed: set<ModuleId>, chunks: map<ChunkId, ChunkState>, deferred: seq<Entry>,
    live: map<nat, ChunkId>, next: nat,
    pushed: seq<Entry>, executed: seq<Entry>, log: seq<Event>, threw: bool)

  const RUNTIME: ChunkId := "runtime"

  const INITIAL := State(map[], {}, map[RUNTIME := Loaded], [], map[], 0, [], [], [], false)

  predicate IsLoaded(chunks: map<ChunkId, ChunkState>, c: ChunkId) {
    c in chunks && chunks[c] == Loaded
  }

  predicate Ready(chunks: map<ChunkId, ChunkState>, e: Entry) {
    forall d :: d in e.deps ==> IsLoaded(chunks, d)
  }

  function RanEvents(ms: seq<ModuleId>): seq<Event> {
    seq(|ms|, i requires 0 <= i < |ms| => Ran(ms[i]))
  }

  /** Runs the main module of one deferred entry. */
  function Execute(s: State, e: Entry): State {
    var r := Require(s.table, s.installed, e.main);
    s.(installed := r.installed, executed := s.executed + [e], log := s.log + RanEvents(r.ran), threw := s.threw || !r.ok)
  }

  /** The check of the deferred entries `ts`, after the entries `kept` were found not ready. It stops
      where an entry throws. */
  function Check(s: State, kept: seq<Entry>, ts: seq<Entry>): State
    decreases |ts|
  {
    if ts == [] then s.(deferred := kept)
    else if Ready(s.chunks, ts[0]) then
      if Require(s.table, s.installed, ts[0].main).ok then Check(Execute(s, ts[0]), kept, ts[1..])
      else Execute(s, ts[0]).(deferred := kept + ts[1..])
    else Check(s, kept + [ts[0]], ts[1..])
  }

  function MarkLoaded(chunks: map<ChunkId, ChunkState>, ids: seq<ChunkId>): map<ChunkId, ChunkState>
    decreases |ids|
  {
    if ids == [] then chunks else MarkLoaded(chunks[ids[0] := Loaded], ids[1..])
  }

  /** The attempts whose promises the arrival of the chunks `ids` resolves. */
  function Waiting(chunks: map<ChunkId, ChunkState>, ids: seq<ChunkId>): seq<nat>
    decreases |ids|
  {
    if ids == [] then []
    else
      (if ids[0] in chunks && chunks[ids[0]].Pending? then [chunks[ids[0]].attempt] else [])
      + Waiting(chunks[ids[0] := Loaded], ids[1..])
  }

  function ResolvedEvents(attempts: seq<nat>): seq<Event> {
    seq(|attempts|, i requires 0 <= i < |attempts| => Resolved(attempts[i]))
  }

  /** The state of a callback before it checks the deferred entries. */
  function Deliver(s: State, p: Payload): State {
    s.(chunks := MarkLoaded(s.chunks, p.ids),
       table := s.table + p.modules,
       deferred := s.deferred + p.entries,
       pushed := s.pushed + p.entries,
       log := s.log + [Registered(p.ids, p.modules.Keys)] + ResolvedEvents(Waiting(s.chunks, p.ids)))
  }

  /** The callback for one pushed payload. */
  function Callback(s: State, p: Payload): State {
    var delivered := Deliver(s, p);
    Check(delivered, [], delivered.deferred)
  }

  function Request(s: State, c: ChunkId): State {
    if c in s.chunks then s
    else s.(chunks := s.chunks[c := Pending(s.next)], live := s.live[s.next := c], next := s.next + 1,
            log := s.log + [Injected(c, s.next)])
  }

  /** A script has loaded, failed or timed out. Its handlers fire once. */
  function ScriptDone(s: State, attempt: nat): State {
    if attempt !in s.live then s
    else
      var c := s.live[attempt];
      var fired := s.(live := s.live - {attempt});
      if c !in s.chunks || s.chunks[c] == Loaded then fired
      else fired.(chunks := s.chunks - {c}, log := s.log + [Rejected(s.chunks[c].attempt)])
  }

  datatype Input = Push(payload: Payload) | Ask(chunk: ChunkId) | Done(attempt: nat)

  function Step(s: State, i: Input): State {
    match i
    case Push(p) => Callback(s, p)
    case Ask(c) => Request(s, c)
    case Done(a) => ScriptDone(s, a)
  }

  function Run(s: State, inputs: seq<Input>): State {
    if inputs == [] then s else Step(Run(s, inputs[..|inputs| - 1]), inputs[|inputs| - 1])
  }

  /** The start of the runtime: the payloads pushed before it are replayed, then the deferred entries
      are checked once more. A payload that throws ends it. */
  function Boot(s: State, queue: seq<Payload>): State
    decreases |queue|
  {
    if queue == [] then Check(s, [], s.deferred)
    else
      var first := Callback(s, queue[0]);
      if first.threw then first else Boot(first, queue[1..])
  }

  // ----- What the log says

  /** The attempts whose promises were settled, in order. */
  function SettledIn(log: seq<Event>): seq<nat> {
    if log == [] then []
    else
      var e := log[|log| - 1];
      SettledIn(log[..|log| - 1]) + if e.Resolved? || e.Rejected? then [e.attempt] else []
  }

  /** The modules whose factories were run, in order. */
  function RanIn(log: seq<Event>): seq<ModuleId> {
    if log == [] then []
    else
      var e := log[|log| - 1];
      RanIn(log[..|log| - 1]) + if e.Ran? then [e.m] else []
  }

  function RegisteredIn(log: seq<Event>): set<ModuleId> {
    if log == [] then {}
    else
      var e := log[|log| - 1];
      RegisteredIn(log[..|log| - 1]) + if e.Registered? then e.modules else {}
  }

  /** The chunks of the payload that was registered last. */
  function LastDelivery(log: seq<Event>): seq<ChunkId> {
    if log == [] then []
    else if log[|log| - 1].Registered? then log[|log| - 1].ids
    else LastDelivery(log[..|log| - 1])
  }

  ghost predicate AskedFor(log: seq<Event>, ids: seq<ChunkId>, attempt: nat) {
    exists c :: c in ids && Injected(c, attempt) in log
  }

  /** A promise is resolved only by a payload that has been registered and that names a chunk for which
      this attempt was made. */
  ghost predicate ResolvedWell(log: seq<Event>) {
    log == [] ||
    var before, e := log[..|log| - 1], log[|log| - 1];
    ResolvedWell(before) && (e.Resolved? ==> AskedFor(before, LastDelivery(before), e.attempt))
  }

  lemma OneEvent(log: seq<Event>, e: Event)
    ensures SettledIn(log + [e]) == SettledIn(log) + if e.Resolved? || e.Rejected? then [e.attempt] else []
    ensures RanIn(log + [e]) == RanIn(log) + if e.Ran? then [e.m] else []
    ensures RegisteredIn(log + [e]) == RegisteredIn(log) + if e.Registered? then e.modules else {}
  {
    assert (log + [e])[..|log|] == log;
  }

  lemma {:induction false} LogJoin(a: seq<Event>, b: seq<Event>)
    ensures SettledIn(a + b) == SettledIn(a) + SettledIn(b)
    ensures RanIn(a + b) == RanIn(a) + RanIn(b)
    ensures RegisteredIn(a + b) == RegisteredIn(a) + RegisteredIn(b)
    decreases |b|
  {
    if b == [] {
      assert a + b == a;
    } else {
      var init, last := b[..|b| - 1], b[|b| - 1];
      LogJoin(a, init);
      OneEvent(a + init, last);
      assert a + b == a + init + [last];
    }
  }

  lemma WellSnoc(log: seq<Event>, e: Event)
    requires ResolvedWell(log) && (e.Resolved? ==> AskedFor(log, LastDelivery(log), e.attempt))
    ensures ResolvedWell(log + [e]) && LastDelivery(log + [e]) == if e.Registered? then e.ids else LastDelivery(log)
  {
    assert (log + [e])[..|log|] == log;
  }

  lemma {:induction false} WellJoin(a: seq<Event>, b: seq<Event>)
    requires ResolvedWell(a)
    requires forall i :: 0 <= i < |b| ==> !b[i].Registered? && (b[i].Resolved? ==> AskedFor(a, LastDelivery(a), b[i].attempt))
    ensures ResolvedWell(a + b) && LastDelivery(a + b) == LastDelivery(a)
    decreases |b|
  {
    if b == [] {
      assert a + b == a;
    } else {
      var init, last := b[..|b| - 1], b[|b| - 1];
      WellJoin(a, init);
      if last.Resolved? {
        var c :| c in LastDelivery(a) && Injected(c, last.attempt) in a;
        assert Injected(c, last.attempt) in a + init;
      }
      WellSnoc(a + init, last);
      assert a + b == a + init + [last];
    }
  }

  lemma {:induction false} RanEventsLog(ms: seq<ModuleId>)
    ensures SettledIn(RanEvents(ms)) == [] && RanIn(RanEvents(ms)) == ms && RegisteredIn(RanEvents(ms)) == {}
  {
    if ms != [] {
      RanEventsLog(ms[..|ms| - 1]);
      assert RanEvents(ms)[..|ms| - 1] == RanEvents(ms[..|ms| - 1]);
    }
  }

  lemma {:induction false} ResolvedEventsLog(attempts: seq<nat>)
    ensures var events := ResolvedEvents(attempts);
            SettledIn(events) == attempts && RanIn(events) == [] && RegisteredIn(events) == {}
  {
    if attempts != [] {
      ResolvedEventsLog(attempts[..|attempts| - 1]);
      assert ResolvedEvents(attempts)[..|attempts| - 1] == ResolvedEvents(attempts[..|attempts| - 1]);
    }
  }

  // ----- Invariants over all runs

  /** Every pending chunk has one live script, its own; a live script belongs to a chunk that is loaded
      or waits for that script. */
  ghost predicate ScriptsMatch(s: State) {
    && (forall c :: c in s.chunks && s.chunks[c].Pending? ==>
          s.chunks[c].attempt in s.live && s.live[s.chunks[c].attempt] == c)
    && (forall a :: a in s.live ==>
          (a < s.next && s.live[a] in s.chunks && (s.chunks[s.live[a]] == Loaded || s.chunks[s.live[a]] == Pending(a))))
  }

  /** No promise was settled twice, and none that a chunk still waits for; a pending chunk waits for an
      attempt that was made for it. */
  ghost predicate PromisesMatch(s: State) {
    && Distinct(SettledIn(s.log))
    && (forall a :: a in SettledIn(s.log) ==> a < s.next)
    && (forall c :: c in s.chunks && s.chunks[c].Pending? ==> s.chunks[c].attempt !in SettledIn(s.log))
    && (forall c :: c in s.chunks && s.chunks[c].Pending? ==> Injected(c, s.chunks[c].attempt) in s.log)
  }

  /** No factory was run twice; unless something threw, the installed modules are those that ran. */
  ghost predicate ModulesMatch(s: State) {
    && Distinct(RanIn(s.log))
    && SetOf(RanIn(s.log)) <= s.installed
    && (!s.threw ==> SetOf(RanIn(s.log)) == s.installed)
  }

  function NotReady(chunks: map<ChunkId, ChunkState>, ts: seq<Entry>): seq<Entry> {
    if ts == [] then []
    else (if Ready(chunks, ts[0]) then [] else [ts[0]]) + NotReady(chunks, ts[1..])
  }

  /** Every pushed entry is deferred or was executed once, when it was ready. Unless something threw, exactly
      those that are not ready are still deferred. */
  ghost predicate EntriesMatch(s: State) {
    && multiset(s.pushed) == multiset(s.deferred) + multiset(s.executed)
    && (!s.threw ==> s.deferred == NotReady(s.chunks, s.pushed))
  }

  ghost predicate ValidTables(s: State) {
    && ScriptsMatch(s) && PromisesMatch(s) && ModulesMatch(s)
    && ResolvedWell(s.log) && s.table.Keys <= RegisteredIn(s.log)
    && forall e :: e in s.executed ==> e.main in s.installed && Ready(s.chunks, e)
  }

  ghost predicate Valid(s: State) {
    ValidTables(s) && EntriesMatch(s)
  }
}
