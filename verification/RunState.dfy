/** The component that polls: its fields, changed by each stretch of code between two awaits. */
module RunState {
  import opened Basics
  import opened ProcessPolling

  /** One more process of the list, behind the ids `done`. */
  lemma ListStep(names: map<Id, string>, items: seq<(Id, string)>, i: nat, done: seq<Id>)
    requires i < |items|
    ensures NamesOf(names, items[i..]) == NamesOf(names[items[i].0 := items[i].1], items[i + 1..])
    ensures done + IdsOf(items[..i + 1]) == done + IdsOf(items[..i]) + [items[i].0]
  {
    assert items[i..][1..] == items[i + 1..];
    assert IdsOf(items[..i + 1]) == IdsOf(items[..i]) + [items[i].0];
  }

  class RunStateView {
    const stop: bool
    var processIds: seq<Id>
    var instanceParam: map<Id, string>
    var runResult: seq<Result>
    var runStatus: nat
    var ticking: bool
    var completed: nat
    var polls: map<nat, Poll>
    var nextPoll: nat
    ghost var initial: seq<Id>
    ghost var taken: seq<Id>
    ghost var lost: seq<Id>

    constructor (stop: bool)
      ensures Current() == Fresh(stop)
    {
      this.stop := stop;
      processIds, instanceParam, runResult, runStatus, ticking, completed := [], map[], [], 0, false, 0;
      polls, nextPoll, initial, taken, lost := map[], 0, [], [], [];
    }

    ghost function Current(): State
      reads this
    {
      State(stop, processIds, instanceParam, runResult, runStatus, ticking, completed, polls, nextPoll, initial, taken, lost)
    }

    method CheckProcessState(result: Option<seq<(Id, string)>>)
      modifies this
      ensures Current() == Step(old(Current()), Check(result))
    {
      if result.None? {
        runStatus := 2;
        return;
      }
      var items := result.value;
      instanceParam := map[];
      assert items[0..] == items && IdsOf(items[..0]) == [];
      for i := 0 to |items|
        invariant processIds == old(processIds) + IdsOf(items[..i])
        invariant NamesOf(instanceParam, items[i..]) == NamesOf(map[], items)
        invariant Current() == old(Current()).(processIds := processIds, names := instanceParam)
      {
        ListStep(instanceParam, items, i, old(processIds));
        processIds := processIds + [items[i].0];
        instanceParam := instanceParam[items[i].0 := items[i].1];
      }
      assert items[..|items|] == items;
      ticking := true;
      initial := initial + IdsOf(items);
    }

    /** A tick of the timer: up to the await of the status request. */
    method GetProcessRunningStatus() returns (asked: Option<seq<Id>>)
      modifies this`polls, this`nextPoll
      ensures Current() == Step(old(Current()), Tick)
      ensures asked == if ticking && processIds != [] then Some(processIds) else None
      ensures asked.Some? ==> polls == old(polls)[old(nextPoll) := Asked(processIds)] && nextPoll == old(nextPoll) + 1
      ensures asked.None? ==> polls == old(polls) && nextPoll == old(nextPoll)
    {
      asked := None;
      if ticking && |processIds| >= 1 {
        polls := polls[nextPoll := Asked(processIds)];
        nextPoll := nextPoll + 1;
        asked := Some(processIds);
      }
    }

    method OnReply(poll: nat, items: Option<seq<Item>>)
      requires poll in polls && polls[poll].Asked?
      modifies this
      ensures Current() == Step(old(Current()), Reply(poll, items))
    {
      if items.Some? {
        Loop(poll, items.value);
      } else {
        End(poll);
      }
    }

    method OnErrLog(poll: nat, text: Option<string>)
      requires poll in polls && polls[poll].FetchingErr?
      modifies this`polls
      ensures Current() == Step(old(Current()), ErrLog(poll, text))
    {
      polls := polls[poll := FetchingOut(polls[poll].item, Text(text), polls[poll].rest)];
    }

    method OnOutLog(poll: nat, text: Option<string>)
      requires poll in polls && polls[poll].FetchingOut?
      modifies this
      ensures Current() == Step(old(Current()), OutLog(poll, text))
    {
      var p := polls[poll];
      var name := InstanceName(p.item.id);
      runResult := runResult + [Result(p.item.id, name, p.item.runningStatus == "RUNNING", p.stderrLog, Text(text))];
      Loop(poll, p.rest);
    }

    method OnFailure(poll: nat)
      requires poll in polls
      modifies this`polls, this`lost
      ensures Current() == Step(old(Current()), Failed(poll))
    {
      lost := lost + if polls[poll].Asked? then [] else [polls[poll].item.id];
      polls := polls - {poll};
    }

    method InstanceName(id: Id) returns (name: Option<string>)
      ensures name == if id in instanceParam then Some(instanceParam[id]) else None
    {
      name := if id in instanceParam then Some(instanceParam[id]) else None;
    }

    /** `processIds.filter` */
    method Remove(id: Id)
      modifies this`processIds, this`taken
      ensures processIds == Without(old(processIds), id) && taken == old(taken) + [id]
    {
      var list := [];
      assert processIds[0..] == processIds;
      for i := 0 to |processIds|
        invariant list + Without(processIds[i..], id) == Without(processIds, id)
      {
        assert processIds[i..][1..] == processIds[i + 1..];
        if processIds[i] != id {
          list := list + [processIds[i]];
        } else {
          assert [] + Without(processIds[i + 1..], id) == Without(processIds[i + 1..], id);
        }
      }
      processIds, taken := list, taken + [id];
    }

    /** The loop over the items of a reply, until it has to wait for a log or is through. */
    method Loop(poll: nat, items: seq<Item>)
      modifies this
      ensures Current() == Proceed(old(Current()), poll, items)
    {
      ghost var goal := Proceed(Current(), poll, items);
      assert items[0..] == items;
      for i := 0 to |items|
        invariant Proceed(Current(), poll, items[i..]) == goal
      {
        var item := items[i];
        assert items[i..][0] == item && items[i..][1..] == items[i + 1..];
        var paused := Take(poll, item, items[i + 1..]);
        if paused {
          return;
        }
      }
      assert items[|items|..] == [];
      End(poll);
    }

    /** The loop body for one item; `rest` is what the poll goes on with after it has waited. */
    method Take(poll: nat, item: Item, rest: seq<Item>) returns (paused: bool)
      modifies this
      ensures var goal := Proceed(old(Current()), poll, [item] + rest);
              if paused then Current() == goal else Proceed(Current(), poll, rest) == goal
    {
      assert ([item] + rest)[1..] == rest;
      paused := false;
      var name := InstanceName(item.id);
      if stop {
        if item.runningStatus != "STOPPING" && item.runningStatus != "RUNNING" {
          Remove(item.id);
          var stderrLog, stdoutLog := NoLog, NoLog;
          if item.runningStatus == "FATAL" {
            stderrLog, stdoutLog := Promised, Promised;
          }
          runResult := runResult + [Result(item.id, name, item.runningStatus == "STOPPED", stderrLog, stdoutLog)];
        }
      } else if (item.status == "SUCCESS" && item.runningStatus != "STARTING" && item.runningStatus != "STOPPED")
                || item.status == "FAILURE" {
        Remove(item.id);
        if item.status == "SUCCESS" {
          polls := polls[poll := FetchingErr(item, rest)];
          paused := true;
        } else {
          runResult := runResult + [Result(item.id, name, item.runningStatus == "RUNNING", NoLog, NoLog)];
        }
      }
    }

    method End(poll: nat)
      modifies this
      ensures Current() == Finish(old(Current()), poll)
    {
      polls := polls - {poll};
      if |processIds| < 1 {
        runStatus, ticking := 1, false;
        completed := completed + 1;
      }
    }
  }
}
