/** `debounce`: the timer machine, and exactly when its calls go through. */
module Debounce {
  import opened Basics

  /** How a debounced function was made. */
  datatype Setting = Setting(wait: nat, immediate: bool)

  datatype Call = Call(time: nat, context: int, args: seq<int>)

  /** An invocation of the wrapped function: when, how long after the latest call, with which `this`, and
      with which arguments (`None`: undefined or null, which is a call without arguments); `call` is the
      latest call, for which the invocation stands. */
  datatype Invocation = Invocation(time: nat, since: nat, context: Option<int>, args: Option<seq<int>>, call: Option<Call>)

  function Latest(calls: seq<Call>): Option<Call> {
    if calls == [] then None else Some(calls[|calls| - 1])
  }

  /** The closure variables, with the pending timer given by its deadline; and what has happened. */
  datatype State = State(
    timeout: Option<nat>, args: Option<seq<int>>, context: Option<int>, timestamp: nat,
    now: nat, calls: seq<Call>, invocations: seq<Invocation>)

  const INITIAL := State(None, None, None, 0, 0, [], [])

  datatype Event = Called(call: Call) | TimerFires

  /** Timers are exact: one fires at its deadline, so no call can come later than a pending deadline.
      Within the same millisecond either may come first. */
  predicate Enabled(s: State, e: Event) {
    match e
    case Called(c) => s.now <= c.time && (s.timeout.Some? ==> c.time <= s.timeout.value)
    case TimerFires => s.timeout.Some? && s.now <= s.timeout.value
  }

  /** The function that `debounce` returns. Its parameter `args` hides the closure variable `args`. */
  function OnCall(p: Setting, s: State, c: Call): State {
    var callNow := p.immediate && s.timeout.None?;
    var timed := s.(context := Some(c.context), timestamp := c.time, now := c.time, calls := s.calls + [c],
                    timeout := if s.timeout.None? then Some(c.time + p.wait) else s.timeout);
    if callNow
    then timed.(invocations := s.invocations + [Invocation(c.time, 0, Some(c.context), Some(c.args), Some(c))], context := None)
    else timed
  }

  /** `later` */
  function Later(p: Setting, s: State): State
    requires Enabled(s, TimerFires)
  {
    var now := s.timeout.value;
    var last := now - s.timestamp;
    if last < p.wait && last > 0 then s.(now := now, timeout := Some(now + (p.wait - last)))
    else
      var stopped := s.(now := now, timeout := None);
      if p.immediate then stopped
      else stopped.(invocations := s.invocations + [Invocation(now, if last < 0 then 0 else last, s.context, s.args, Latest(s.calls))],
                    context := None, args := None)
  }

  function Step(p: Setting, s: State, e: Event): State
    requires Enabled(s, e)
  {
    match e
    case Called(c) => OnCall(p, s, c)
    case TimerFires => Later(p, s)
  }

  ghost predicate Feasible(p: Setting, events: seq<Event>)
    decreases |events|, 0
  {
    events == [] ||
    (Feasible(p, events[..|events| - 1]) && Enabled(Run(p, events[..|events| - 1]), events[|events| - 1]))
  }

  ghost function Run(p: Setting, events: seq<Event>): State
    requires Feasible(p, events)
    decreases |events|, 1
  {
    if events == [] then INITIAL else Step(p, Run(p, events[..|events| - 1]), events[|events| - 1])
  }

  /** A call in the millisecond in which a timer is about to fire. */
  predicate Tie(s: State, e: Event) {
    e.Called? && s.timeout == Some(e.call.time)
  }

  ghost predicate NoTies(p: Setting, events: seq<Event>)
    requires Feasible(p, events)
    decreases |events|
  {
    events == [] ||
    (NoTies(p, events[..|events| - 1]) && !Tie(Run(p, events[..|events| - 1]), events[|events| - 1]))
  }

  // ----- What debouncing means

  /** The call at `i` ends a burst: the next one comes `wait` or more after it. */
  predicate EndsBurst(p: Setting, calls: seq<Call>, i: int)
    requires 0 <= i < |calls| - 1
  {
    calls[i].time + p.wait <= calls[i + 1].time
  }

  function Trailing(p: Setting, c: Call): Invocation {
    Invocation(c.time + p.wait, p.wait, Some(c.context), None, Some(c))
  }

  /** One invocation for each burst that another call has ended, `wait` after its last call. */
  function PastBursts(p: Setting, calls: seq<Call>): seq<Invocation>
    decreases |calls|
  {
    if |calls| < 2 then []
    else PastBursts(p, calls[..|calls| - 1]) +
         if EndsBurst(p, calls, |calls| - 2) then [Trailing(p, calls[|calls| - 2])] else []
  }

  /** One invocation for each burst, at its first call. */
  function Leading(p: Setting, calls: seq<Call>): seq<Invocation>
    decreases |calls|
  {
    if calls == [] then []
    else
      var c := calls[|calls| - 1];
      Leading(p, calls[..|calls| - 1]) +
      if |calls| == 1 || EndsBurst(p, calls, |calls| - 2)
      then [Invocation(c.time, 0, Some(c.context), Some(c.args), Some(c))] else []
  }

  /** At most one timer is pending, and its deadline is at most `wait` after the latest call. */
  ghost predicate TimerInvariant(p: Setting, s: State) {
    && s.args == None
    && (s.timeout.Some? ==>
          && s.calls != []
          && s.now <= s.timeout.value <= s.timestamp + p.wait)
    && (s.calls != [] ==> s.timestamp == s.calls[|s.calls| - 1].time && s.timestamp <= s.now)
  }

  lemma {:induction false} TimerInvariantHolds(p: Setting, events: seq<Event>)
    requires Feasible(p, events)
    ensures TimerInvariant(p, Run(p, events))
    decreases |events|
  {
    if events != [] {
      TimerInvariantHolds(p, events[..|events| - 1]);
    }
  }

  ghost predicate Debounced(p: Setting, s: State) {
    && TimerInvariant(p, s)
    && (s.timeout.Some? ==> s.timestamp < s.timeout.value || p.wait == 0)
    && (s.timeout.None? && s.calls != [] ==> s.timestamp + p.wait <= s.now)
    && if p.immediate then s.invocations == Leading(p, s.calls)
       else if s.timeout.Some? then
         s.context == Some(s.calls[|s.calls| - 1].context) && s.invocations == PastBursts(p, s.calls)
       else s.invocations == PastBursts(p, s.calls) +
              if s.calls == [] then [] else [Trailing(p, s.calls[|s.calls| - 1])]
  }

  lemma BurstsGrow(p: Setting, calls: seq<Call>, c: Call)
    ensures calls != [] ==>
              PastBursts(p, calls + [c]) == PastBursts(p, calls) +
                if calls[|calls| - 1].time + p.wait <= c.time then [Trailing(p, calls[|calls| - 1])] else []
    ensures calls == [] ==> PastBursts(p, calls + [c]) == []
    ensures Leading(p, calls + [c]) == Leading(p, calls) +
              if calls == [] || calls[|calls| - 1].time + p.wait <= c.time
              then [Invocation(c.time, 0, Some(c.context), Some(c.args), Some(c))] else []
  {
    var after := calls + [c];
    assert after[..|after| - 1] == calls && after[|after| - 1] == c;
    if calls == [] {
      assert PastBursts(p, after) == [] && Leading(p, calls) == [];
    } else {
      assert after[|after| - 2] == calls[|calls| - 1];
      assert EndsBurst(p, after, |after| - 2) <==> calls[|calls| - 1].time + p.wait <= c.time;
    }
  }

  lemma CallKeepsDebounced(p: Setting, s: State, c: Call)
    requires Debounced(p, s) && Enabled(s, Called(c)) && !Tie(s, Called(c))
    ensures Debounced(p, OnCall(p, s, c))
  {
    BurstsGrow(p, s.calls, c);
    assert s.invocations + [] == s.invocations;
    if s.timeout.Some? {
      assert s.timestamp + p.wait > c.time;
    }
  }

  lemma TimerKeepsDebounced(p: Setting, s: State)
    requires Debounced(p, s) && Enabled(s, TimerFires)
    ensures Debounced(p, Later(p, s))
  {
  }

  /** Without ties a trailing debounce invokes the function once per burst, exactly `wait` after the last
      call of the burst and with the `this` of that call; an immediate one at the first call. */
  lemma {:induction false} DebouncedWithoutTies(p: Setting, events: seq<Event>)
    requires Feasible(p, events) && NoTies(p, events)
    ensures Debounced(p, Run(p, events))
    decreases |events|
  {
    if events != [] {
      var s, e := Run(p, events[..|events| - 1]), events[|events| - 1];
      DebouncedWithoutTies(p, events[..|events| - 1]);
      match e {
        case Called(c) => CallKeepsDebounced(p, s, c);
        case TimerFires => TimerKeepsDebounced(p, s);
      }
    }
  }

  /** For a positive wait, and once no timer is pending: every invocation came `wait` after the call
      before it exactly if there was no tie. */
  lemma OnTimeIffNoTies(p: Setting, events: seq<Event>)
    requires p.wait > 0 && !p.immediate
    requires Feasible(p, events) && Run(p, events).timeout.None?
    ensures (forall i :: i in Run(p, events).invocations ==> i.since == p.wait) <==> NoTies(p, events)
  {
    TiesShow(p, events);
  }

  /** A tie is either still to fire or has led to an invocation right after a call. */
  lemma {:induction false} TiesShow(p: Setting, events: seq<Event>)
    requires p.wait > 0 && !p.immediate && Feasible(p, events)
    ensures var s := Run(p, events);
            && TimerInvariant(p, s)
            && (forall i :: i in s.invocations ==> i.since == 0 || i.since == p.wait)
            && (NoTies(p, events) <==>
                  s.timeout != Some(s.timestamp) && forall i :: i in s.invocations ==> i.since == p.wait)
    decreases |events|
  {
    TimerInvariantHolds(p, events);
    if events != [] {
      var before, e := events[..|events| - 1], events[|events| - 1];
      TiesShow(p, before);
      TimerInvariantHolds(p, before);
    }
  }

  /** What the wrapped function receives. */
  function Received(args: Option<seq<int>>): seq<int> {
    if args.Some? then args.value else []
  }

  /** A trailing invocation never passes arguments: the variable it reads is never assigned any. So it
      passes those of the call it stands for, `since` before, exactly if that call had none. */
  lemma {:induction false} TrailingArgumentsAreLost(p: Setting, events: seq<Event>, i: Invocation)
    requires !p.immediate && Feasible(p, events)
    requires i in Run(p, events).invocations
    ensures i.call.Some? && i.call.value in Run(p, events).calls && i.time == i.call.value.time + i.since
    ensures Received(i.args) == i.call.value.args <==> i.call.value.args == []
    decreases |events|
  {
    var before := events[..|events| - 1];
    TimerInvariantHolds(p, before);
    if i in Run(p, before).invocations {
      TrailingArgumentsAreLost(p, before, i);
    }
  }

  lemma RunNext(p: Setting, events: seq<Event>, e: Event)
    requires Feasible(p, events) && Enabled(Run(p, events), e)
    ensures Feasible(p, events + [e]) && Run(p, events + [e]) == Step(p, Run(p, events), e)
    ensures NoTies(p, events + [e]) <==> NoTies(p, events) && !Tie(Run(p, events), e)
  {
    assert (events + [e])[..|events|] == events;
  }

  /** One call with an argument, and the timer: the function is invoked without it. */
  lemma ArgumentLost(wait: nat, c: Call) returns (events: seq<Event>)
    requires c.args != []
    ensures var p := Setting(wait, false);
            && Feasible(p, events) && Run(p, events).calls == [c]
            && Run(p, events).invocations == [Invocation(c.time + wait, wait, Some(c.context), None, Some(c))]
  {
    var p := Setting(wait, false);
    assert Feasible(p, []) && Run(p, []) == INITIAL;
    RunNext(p, [], Called(c));
    events := [] + [Called(c)];
    assert Run(p, events).calls == [c] && Run(p, events).timeout == Some(c.time + wait);
    RunNext(p, events, TimerFires);
    events := events + [TimerFires];
  }

  /** Two calls, the second in the millisecond in which the timer fires: the function is invoked at once
      instead of `wait` later. */
  lemma TieFiresEarly(wait: nat, c: Call, d: Call) returns (events: seq<Event>)
    requires wait > 0 && d.time == c.time + wait
    ensures var p := Setting(wait, false);
            && Feasible(p, events) && !NoTies(p, events) && Run(p, events).calls == [c, d]
            && Run(p, events).invocations == [Invocation(d.time, 0, Some(d.context), None, Some(d))]
  {
    var p := Setting(wait, false);
    assert Feasible(p, []) && Run(p, []) == INITIAL;
    RunNext(p, [], Called(c));
    events := [] + [Called(c)];
    assert Run(p, events).timeout == Some(d.time);
    RunNext(p, events, Called(d));
    events := events + [Called(d)];
    assert Run(p, events).calls == [c] + [d];
    RunNext(p, events, TimerFires);
    events := events + [TimerFires];
  }

  /** The debounced function as an object: the closure variables, changed by each call and timer. */
  class DebouncedFunction {
    const p: Setting
    var timeout: Option<nat>
    var args: Option<seq<int>>
    var context: Option<int>
    var timestamp: nat
    ghost var now: nat
    ghost var calls: seq<Call>
    ghost var invocations: seq<Invocation>

    constructor (p: Setting)
      ensures this.p == p && Current() == INITIAL
    {
      this.p := p;
      timeout, args, context, timestamp, now, calls, invocations := None, None, None, 0, 0, [], [];
    }

    ghost function Current(): State
      reads this
    {
      State(timeout, args, context, timestamp, now, calls, invocations)
    }

    /** Calls the wrapped function if this call opens a burst of an immediate debounce. */
    method Call(c: Call) returns (invoked: Option<seq<int>>)
      requires Enabled(Current(), Called(c))
      modifies this
      ensures Current() == OnCall(p, old(Current()), c)
      ensures invoked == if p.immediate && old(timeout).None? then Some(c.args) else None
    {
      now, calls := c.time, calls + [c];
      context := Some(c.context);
      timestamp := c.time;
      var callNow := p.immediate && timeout.None?;
      if timeout.None? {
        timeout := Some(c.time + p.wait);
      }
      invoked := None;
      if callNow {
        invocations := invocations + [Invocation(c.time, 0, context, Some(c.args), Some(c))];
        invoked := Some(c.args);
        context := None;
      }
    }

    /** The timer fires at its deadline. */
    method Fire() returns (invoked: bool)
      requires Enabled(Current(), TimerFires)
      modifies this
      ensures Current() == Later(p, old(Current()))
      ensures invoked <==> invocations != old(invocations)
    {
      var time := timeout.value;
      var last := time - timestamp;
      now, invoked := time, false;
      if last < p.wait && last > 0 {
        timeout := Some(time + (p.wait - last));
      } else {
        timeout := None;
        if !p.immediate {
          invocations := invocations + [Invocation(time, if last < 0 then 0 else last, context, args, Latest(calls))];
          invoked := true;
          context, args := None, None;
        }
      }
    }
  }
}
