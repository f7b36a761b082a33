/** A run in which interleaved reports open a circuit although at no point more than half of the
    credential's requests had failed. */
module SchedulerRace {
  import opened SchedulerModel
  import opened S = SchedulerSteps

  /** At no point of the run has c failed at least ten requests, or more than half of them. */
  ghost predicate Calm(actions: seq<Action>) {
    forall k :: 0 <= k <= |actions| ==> !IsTripping(S.Run(actions[..k]), "c")
  }

  ghost predicate Reached(actions: seq<Action>, m: Machine) {
    S.Run(actions) == m && Calm(actions)
  }

  lemma Extend(actions: seq<Action>, m: Machine, a: Action, next: Machine) returns (all: seq<Action>)
    requires Reached(actions, m) && S.Do(m, a) == next && !IsTripping(next, "c")
    ensures Reached(all, next)
  {
    all := actions + [a];
    assert all[..|actions|] == actions && all[..|all|] == all;
    forall k | 0 <= k <= |all| ensures !IsTripping(S.Run(all[..k]), "c") {
      if k <= |actions| { assert all[..k] == actions[..k]; }
    }
  }

  function Report(success: bool): Pending {
    Reporting("c", success, 0, 0, 0)
  }

  lemma ExtendAccess(actions: seq<Action>, m: Machine, x: Metrics, t: nat, p: Pending) returns (all: seq<Action>)
    requires p.Reporting? && p.id == "c" && p.done < 4 && Reached(actions, With(m, "c", x, t, p))
    requires !Trips(Counted(x, p).totalReqs, Counted(x, p).totalErrors)
    ensures Reached(all, With(m, "c", Counted(x, p), t, Next(p)))
  {
    CountingAccess(m, "c", x, t, p);
    all := Extend(actions, With(m, "c", x, t, p), Advance(t), With(m, "c", Counted(x, p), t, Next(p)));
  }

  function Next(p: Pending): Pending
    requires p.Reporting?
  {
    p.(done := p.done + 1)
  }

  lemma BeginStep(m: Machine, t: nat, success: bool)
    requires t !in m.threads && "c" in m.books
    ensures S.Do(m, BeginReport(t, "c", success, 0)) == With(m, "c", m.books["c"], t, Report(success))
  {
  }

  /** A report up to its second counter. */
  lemma ExtendToTwo(actions: seq<Action>, m: Machine, t: nat, p: Pending) returns (all: seq<Action>)
    requires p.Reporting? && p == Report(p.success) && Reached(actions, m) && t !in m.threads && "c" in m.books
    requires var x := m.books["c"]; !Trips(x.totalReqs, x.totalErrors) && !Trips(x.totalReqs + 1, x.totalErrors)
    ensures Reached(all, With(m, "c", Counted(Counted(m.books["c"], p), Next(p)), t, Next(Next(p))))
  {
    var x := m.books["c"];
    BeginStep(m, t, p.success);
    all := Extend(actions, m, BeginReport(t, "c", p.success, 0), With(m, "c", x, t, p));
    all := ExtendAccess(all, m, x, t, p);
    all := ExtendAccess(all, m, Counted(x, p), t, Next(p));
  }

  /** A report from its second to its fourth counter. */
  lemma ExtendToFour(actions: seq<Action>, m: Machine, x: Metrics, t: nat, p: Pending) returns (all: seq<Action>)
    requires p.Reporting? && p.id == "c" && p.done == 2 && Reached(actions, With(m, "c", x, t, p))
    requires !Trips(x.totalReqs, x.totalErrors)
    requires !Trips(x.totalReqs, x.totalErrors + if p.success then 0 else 1)
    ensures Reached(all, With(m, "c", Counted(Counted(x, p), Next(p)), t, Next(Next(p))))
  {
    all := ExtendAccess(actions, m, x, t, p);
    all := ExtendAccess(all, m, Counted(x, p), t, Next(p));
  }

  lemma FourCounts(x: Metrics, p: Pending)
    requires p.Reporting? && p == Report(p.success)
    ensures var two := Counted(Counted(x, p), Next(p));
      Counted(Counted(two, Next(Next(p))), Next(Next(Next(p)))) == Tallied(x, p)
  {
  }

  /** A report up to its four counters. */
  lemma ExtendReport(actions: seq<Action>, m: Machine, t: nat, success: bool) returns (all: seq<Action>)
    requires Reached(actions, m) && t !in m.threads && "c" in m.books
    requires var x := Tallied(m.books["c"], Report(success));
      !Trips(x.totalReqs, m.books["c"].totalErrors) && !Trips(x.totalReqs, x.totalErrors)
    ensures Reached(all, With(m, "c", Tallied(m.books["c"], Report(success)), t, Report(success).(done := 4)))
  {
    var x, p := m.books["c"], Report(success);
    NotTripping(actions, m);
    FourCounts(x, p);
    all := ExtendToTwo(actions, m, t, p);
    all := ExtendToFour(all, m, Counted(Counted(x, p), Next(p)), t, Next(Next(p)));
  }

  lemma NotTripping(actions: seq<Action>, m: Machine)
    requires Reached(actions, m)
    ensures !IsTripping(m, "c")
  {
    assert actions[..|actions|] == actions;
  }

  /** The test of a report that is not interrupted, and finds no reason to open the circuit. */
  lemma ExtendTest(actions: seq<Action>, m: Machine, x: Metrics, t: nat, p: Pending) returns (all: seq<Action>)
    requires p.Reporting? && p.id == "c" && p.done == 4 && t !in m.threads
    requires Reached(actions, With(m, "c", x, t, p))
    ensures Reached(all, Machine(m.books["c" := x], m.threads))
  {
    var read := p.(done := 5, requests := x.totalReqs);
    NotTripping(actions, With(m, "c", x, t, p));
    all := Extend(actions, With(m, "c", x, t, p), Advance(t), With(m, "c", x, t, read));
    assert m.threads[t := read] - {t} == m.threads;
    all := Extend(all, With(m, "c", x, t, read), Advance(t), Machine(m.books["c" := x], m.threads));
  }

  function OneBook(x: Metrics, threads: map<nat, Pending>): Machine {
    Machine(map["c" := x], threads)
  }

  /** A whole report. */
  lemma ExtendWhole(actions: seq<Action>, x: Metrics, threads: map<nat, Pending>, t: nat, success: bool)
    returns (all: seq<Action>)
    requires Reached(actions, OneBook(x, threads)) && t !in threads
    requires var y := Tallied(x, Report(success));
      !Trips(y.totalReqs, x.totalErrors) && !Trips(y.totalReqs, y.totalErrors)
    ensures Reached(all, OneBook(Tallied(x, Report(success)), threads))
  {
    var m, y := OneBook(x, threads), Tallied(x, Report(success));
    all := ExtendReport(actions, m, t, success);
    all := ExtendTest(all, m, y, t, Report(success).(done := 4));
    assert m.books["c" := y] == map["c" := y];
  }

  function Idle(n: nat): Machine {
    if n == 0 then Start else OneBook(Metrics(n, 0, 0, 0, false), map[])
  }

  lemma SelectStep(n: nat)
    ensures var chosen := Later(Idle(n), 0, Chosen("c"));
      S.Do(Idle(n), Choose(0, "c")) == chosen && S.Do(chosen, S.Count(0)) == Idle(n + 1)
  {
    assert Later(Idle(n), 0, Chosen("c")).threads - {0} == map[];
  }

  /** n selections. */
  lemma {:induction false} Selected(n: nat) returns (all: seq<Action>)
    ensures Reached(all, Idle(n))
  {
    if n == 0 {
      all := [];
    } else {
      var chosen := Later(Idle(n - 1), 0, Chosen("c"));
      SelectStep(n - 1);
      all := Selected(n - 1);
      all := Extend(all, Idle(n - 1), Choose(0, "c"), chosen);
      all := Extend(all, chosen, S.Count(0), Idle(n));
    }
  }

  /** The books after n reports of twelve selections, the first four of them failures. */
  function AfterReports(n: nat): Metrics {
    Metrics(12 - n, n, if n < 4 then n else 4, 0, false)
  }

  lemma ReportStep(n: nat)
    requires n < 9
    ensures var y := Tallied(AfterReports(n), Report(n >= 4));
      y == AfterReports(n + 1) && !Trips(y.totalReqs, AfterReports(n).totalErrors) && !Trips(y.totalReqs, y.totalErrors)
  {
  }

  lemma {:induction false} Reported(n: nat) returns (all: seq<Action>)
    requires n <= 9
    ensures Reached(all, OneBook(AfterReports(n), map[]))
  {
    if n == 0 {
      var twelve := 12;
      all := Selected(twelve);
    } else {
      all := Reported(n - 1);
      ReportStep(n - 1);
      all := ExtendWhole(all, AfterReports(n - 1), map[], 0, n - 1 >= 4);
    }
  }

  /** The successful report, up to its reading of ten requests. */
  lemma ReadTen(nine: seq<Action>, p: Pending) returns (all: seq<Action>)
    requires Reached(nine, OneBook(Metrics(3, 9, 4, 0, false), map[])) && p == Reporting("c", true, 0, 5, 10)
    ensures Reached(all, OneBook(Metrics(2, 10, 4, 0, false), map[1 := p]))
  {
    var m, x := OneBook(Metrics(3, 9, 4, 0, false), map[]), Metrics(2, 10, 4, 0, false);
    all := ExtendReport(nine, m, 1, true);
    all := Extend(all, With(m, "c", x, 1, Report(true).(done := 4)), Advance(1), OneBook(x, map[1 := p]));
  }

  /** Its reading of six errors, and its setting of the flag. */
  lemma OpenAfterRead(twelve: seq<Action>, p: Pending) returns (all: seq<Action>)
    requires Reached(twelve, OneBook(Metrics(0, 12, 6, 0, false), map[1 := p])) && p == Reporting("c", true, 0, 5, 10)
    ensures Reached(all, OneBook(Metrics(0, 12, 6, 0, true), map[]))
  {
    var x := Metrics(0, 12, 6, 0, false);
    all := Extend(twelve, OneBook(x, map[1 := p]), Advance(1), OneBook(x, map[1 := p.(done := 6)]));
    all := Extend(all, OneBook(x, map[1 := p.(done := 6)]), Advance(1), OneBook(Metrics(0, 12, 6, 0, true), map[]));
  }

  /** Two failed reports. */
  lemma TwoFailures(ten: seq<Action>, p: Pending) returns (all: seq<Action>)
    requires Reached(ten, OneBook(Metrics(2, 10, 4, 0, false), map[1 := p]))
    ensures Reached(all, OneBook(Metrics(0, 12, 6, 0, false), map[1 := p]))
  {
    assert Tallied(Metrics(2, 10, 4, 0, false), Report(false)) == Metrics(1, 11, 5, 0, false);
    assert Tallied(Metrics(1, 11, 5, 0, false), Report(false)) == Metrics(0, 12, 6, 0, false);
    all := ExtendWhole(ten, Metrics(2, 10, 4, 0, false), map[1 := p], 2, false);
    all := ExtendWhole(all, Metrics(1, 11, 5, 0, false), map[1 := p], 2, false);
  }

  lemma NineReached() returns (all: seq<Action>)
    ensures Reached(all, OneBook(Metrics(3, 9, 4, 0, false), map[]))
  {
    var nine := 9;
    all := Reported(nine);
  }

  /** Two failed reports between the two reads of a successful one open the circuit, although
      at no point more than half of the requests had failed: 4 of 9 and of 10, 5 of 11, 6 of 12. */
  lemma RaceOpensCircuit()
    ensures exists actions :: Calm(actions) && S.Run(actions) == OneBook(Metrics(0, 12, 6, 0, true), map[])
  {
    var p := Reporting("c", true, 0, 5, 10);
    var nine := NineReached();
    var ten := ReadTen(nine, p);
    var twelve := TwoFailures(ten, p);
    var all := OpenAfterRead(twelve, p);
  }
}
