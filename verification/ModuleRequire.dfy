/** The memoised `require` of the bundle runtime, as a function of the module table. */
module ModuleRequire {
  import opened Basics

  type ModuleId = string

  /** A registered module, as the modules that its factory requires, in order. */
  type ModuleTable = map<ModuleId, seq<ModuleId>>

  /** `installed` afterwards, the factories that were run, and whether nothing threw. A module that is
      not registered counts as installed from then on, although the call throws. */
  datatype Outcome = Outcome(installed: set<ModuleId>, ran: seq<ModuleId>, ok: bool)

  function Require(table: ModuleTable, installed: set<ModuleId>, m: ModuleId): (r: Outcome)
    ensures installed <= r.installed
    decreases table.Keys - installed, 0
  {
    if m in installed then Outcome(installed, [], true)
    else if m !in table then Outcome(installed + {m}, [], false)
    else
      var r := RequireAll(table, installed + {m}, table[m]);
      Outcome(r.installed, [m] + r.ran, r.ok)
  }

  function RequireAll(table: ModuleTable, installed: set<ModuleId>, ms: seq<ModuleId>): (r: Outcome)
    ensures installed <= r.installed
    decreases table.Keys - installed, |ms| + 1
  {
    if ms == [] then Outcome(installed, [], true)
    else
      var first := Require(table, installed, ms[0]);
      if !first.ok then first
      else
        var rest := RequireAll(table, first.installed, ms[1..]);
        Outcome(rest.installed, first.ran + rest.ran, rest.ok)
  }

  /** What one call adds: every factory it runs is run once and was not installed before; it runs all
      that it installs, unless it throws; and what a module requires is installed with it. */
  ghost predicate Sound(table: ModuleTable, installed: set<ModuleId>, r: Outcome) {
    && Distinct(r.ran)
    && (forall m :: m in r.ran ==> m in r.installed && m !in installed)
    && (r.ok ==> r.installed == installed + SetOf(r.ran))
    && (r.ok ==> forall m :: m in r.ran ==> m in table && forall d :: d in table[m] ==> d in r.installed)
  }

  lemma SoundSequence(table: ModuleTable, installed: set<ModuleId>, first: Outcome, rest: Outcome, both: Outcome)
    requires Sound(table, installed, first) && first.ok && Sound(table, first.installed, rest)
    requires installed <= first.installed <= rest.installed
    requires both == Outcome(rest.installed, first.ran + rest.ran, rest.ok)
    ensures Sound(table, installed, both)
  {
    DistinctJoin(first.ran, rest.ran);
    assert forall m :: m in both.ran <==> m in first.ran || m in rest.ran;
    assert SetOf(both.ran) == SetOf(first.ran) + SetOf(rest.ran);
  }

  lemma {:induction false} RequireSound(table: ModuleTable, installed: set<ModuleId>, m: ModuleId)
    ensures Sound(table, installed, Require(table, installed, m))
    ensures m in Require(table, installed, m).installed
    decreases table.Keys - installed, 0
  {
    if m !in installed && m in table {
      var r := RequireAll(table, installed + {m}, table[m]);
      RequireAllSound(table, installed + {m}, table[m]);
      var all := [m] + r.ran;
      assert forall x :: x in all <==> x == m || x in r.ran;
      assert SetOf(all) == {m} + SetOf(r.ran);
    }
  }

  lemma {:induction false} RequireAllSound(table: ModuleTable, installed: set<ModuleId>, ms: seq<ModuleId>)
    ensures var r := RequireAll(table, installed, ms);
            Sound(table, installed, r) && (r.ok ==> forall m :: m in ms ==> m in r.installed)
    decreases table.Keys - installed, |ms| + 1
  {
    if ms != [] {
      var first := Require(table, installed, ms[0]);
      RequireSound(table, installed, ms[0]);
      if first.ok {
        var rest := RequireAll(table, first.installed, ms[1..]);
        RequireAllSound(table, first.installed, ms[1..]);
        SoundSequence(table, installed, first, rest, RequireAll(table, installed, ms));
      }
    }
  }

  /** Every module of `C` that is not installed is registered, and what it requires is in `C`. */
  ghost predicate Supports(table: ModuleTable, installed: set<ModuleId>, C: set<ModuleId>) {
    forall x :: x in C && x !in installed ==> x in table && forall d :: d in table[x] ==> d in C
  }

  /** Whatever `m` needs, directly or not, is registered or installed. */
  ghost predicate Supported(table: ModuleTable, installed: set<ModuleId>, m: ModuleId) {
    exists C: set<ModuleId> :: m in C && Supports(table, installed, C)
  }

  lemma {:induction false} RequireWorks(table: ModuleTable, installed: set<ModuleId>, m: ModuleId, C: set<ModuleId>)
    requires m in C && Supports(table, installed, C)
    ensures Require(table, installed, m).ok
    decreases table.Keys - installed, 0
  {
    if m !in installed {
      RequireAllWorks(table, installed + {m}, table[m], C);
    }
  }

  lemma {:induction false} RequireAllWorks(table: ModuleTable, installed: set<ModuleId>, ms: seq<ModuleId>, C: set<ModuleId>)
    requires (forall m :: m in ms ==> m in C) && Supports(table, installed, C)
    ensures RequireAll(table, installed, ms).ok
    decreases table.Keys - installed, |ms| + 1
  {
    if ms != [] {
      RequireWorks(table, installed, ms[0], C);
      RequireAllWorks(table, Require(table, installed, ms[0]).installed, ms[1..], C);
    }
  }

  /** A require throws exactly if something that it needs, directly or not, is missing. */
  lemma RequireThrowsExactly(table: ModuleTable, installed: set<ModuleId>, m: ModuleId)
    ensures Require(table, installed, m).ok <==> Supported(table, installed, m)
  {
    var r := Require(table, installed, m);
    RequireSound(table, installed, m);
    if r.ok {
      assert forall x :: x in r.installed && x !in installed ==> x in SetOf(r.ran);
      assert Supports(table, installed, r.installed);
    }
    if Supported(table, installed, m) {
      var C: set<ModuleId> :| m in C && Supports(table, installed, C);
      RequireWorks(table, installed, m, C);
    }
  }
}
