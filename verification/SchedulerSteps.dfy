/** The scheduler with its calls taken apart: a selection chooses before it counts, and a report
    touches its counters one atomic access at a time. */
module SchedulerSteps {
  import opened SchedulerModel

  /** What a thread is in the middle of. A report has `done` of its accesses behind it and
      remembers the number of requests it read. */
  datatype Pending =
    | Chosen(id: string)
    | Reporting(id: string, success: bool, latency: int, done: nat, requests: int)

  datatype Machine = Machine(books: Books, threads: map<nat, Pending>)

  const Start := Machine(map[], map[])

  /** Choose stands for the moment a selection reads the flag of the credential its strategy
      then answers; no strategy answers one whose flag was set. */
  datatype Action =
    | Choose(thread: nat, id: string)
    | Count(thread: nat)
    | BeginReport(thread: nat, id: string, success: bool, latency: int)
    | Advance(thread: nat)

  function Put(m: Machine, id: string, x: Metrics): Machine {
    m.(books := m.books[id := x])
  }

  function Finish(m: Machine, t: nat): Machine {
    m.(threads := m.threads - {t})
  }

  function Later(m: Machine, t: nat, p: Pending): Machine {
    m.(threads := m.threads[t := p])
  }

  /** The next access of a report. */
  function Access(m: Machine, t: nat, p: Pending): Machine
    requires p.Reporting?
  {
    var x, next := MetricsOf(m.books, p.id), Later(m, t, p.(done := p.done + 1));
    if p.done == 0 then Put(next, p.id, x.(activeConns := x.activeConns - 1))
    else if p.done == 1 then Put(next, p.id, x.(totalReqs := x.totalReqs + 1))
    else if p.done == 2 then Put(next, p.id, x.(totalLatency := x.totalLatency + p.latency))
    else if p.done == 3 then Put(next, p.id, x.(totalErrors := x.totalErrors + if p.success then 0 else 1))
    else if p.done == 4 then Later(m, t, p.(done := 5, requests := x.totalReqs))
    else if p.done == 5 then if Trips(p.requests, x.totalErrors) then next else Finish(m, t)
    else Put(Finish(m, t), p.id, x.(circuitOpen := true))
  }

  function Do(m: Machine, a: Action): Machine {
    match a
    case Choose(t, id) =>
      if t in m.threads || MetricsOf(m.books, id).circuitOpen then m else Later(m, t, Chosen(id))
    case Count(t) =>
      if t !in m.threads || !m.threads[t].Chosen? then m
      else
        var id := m.threads[t].id;
        var x := MetricsOf(m.books, id);
        Put(Finish(m, t), id, x.(activeConns := x.activeConns + 1))
    case BeginReport(t, id, success, latency) =>
      if t in m.threads then m
      else Put(Later(m, t, Reporting(id, success, latency, 0, 0)), id, MetricsOf(m.books, id))
    case Advance(t) =>
      if t !in m.threads || !m.threads[t].Reporting? then m else Access(m, t, m.threads[t])
  }

  function Run(actions: seq<Action>): Machine {
    if actions == [] then Start else Do(Run(actions[..|actions| - 1]), actions[|actions| - 1])
  }

  // ----- an undisturbed report -----

  function Iterate(f: Machine -> Machine, m: Machine, n: nat): Machine
    decreases m, n
  {
    if n == 0 then m else f(Iterate(f, m, n - 1))
  }

  lemma {:induction false} IterateAdd(f: Machine -> Machine, m: Machine, k: nat, n: nat)
    ensures Iterate(f, m, k + n) == Iterate(f, Iterate(f, m, k), n)
    decreases n
  {
    if n > 0 { IterateAdd(f, m, k, n - 1); }
  }

  function Advancing(t: nat): Machine -> Machine {
    m => Do(m, Advance(t))
  }

  /** n accesses of one thread in a row. */
  function Advances(m: Machine, t: nat, n: nat): Machine {
    Iterate(Advancing(t), m, n)
  }

  /** The machine m, but for one credential's metrics and one thread. */
  function With(m: Machine, id: string, x: Metrics, t: nat, p: Pending): Machine {
    Machine(m.books[id := x], m.threads[t := p])
  }

  /** What the first four accesses make of the metrics. */
  function Counted(x: Metrics, p: Pending): Metrics
    requires p.Reporting? && p.done < 4
  {
    if p.done == 0 then x.(activeConns := x.activeConns - 1)
    else if p.done == 1 then x.(totalReqs := x.totalReqs + 1)
    else if p.done == 2 then x.(totalLatency := x.totalLatency + p.latency)
    else x.(totalErrors := x.totalErrors + if p.success then 0 else 1)
  }

  lemma CountingAccess(m: Machine, id: string, x: Metrics, t: nat, p: Pending)
    requires p.Reporting? && p.id == id && p.done < 4
    ensures Do(With(m, id, x, t, p), Advance(t)) == With(m, id, Counted(x, p), t, p.(done := p.done + 1))
  {
    var next := p.(done := p.done + 1);
    assert m.books[id := x][id := Counted(x, p)] == m.books[id := Counted(x, p)];
    assert m.threads[t := p][t := next] == m.threads[t := next];
  }

  lemma AdvanceOnce(m: Machine, t: nat, n: nat, r: Machine)
    requires Advances(m, t, n) == r
    ensures Advances(m, t, n + 1) == Do(r, Advance(t))
  {
  }

  /** The metrics once a report's four counters are done. */
  function Tallied(x: Metrics, p: Pending): Metrics
    requires p.Reporting?
  {
    Metrics(x.activeConns - 1, x.totalReqs + 1, x.totalErrors + if p.success then 0 else 1,
            x.totalLatency + p.latency, x.circuitOpen)
  }

  function Tested(x: Metrics): Metrics {
    x.(circuitOpen := x.circuitOpen || Trips(x.totalReqs, x.totalErrors))
  }

  lemma FourAccesses(m: Machine, id: string, x: Metrics, t: nat, p: Pending)
    requires p.Reporting? && p.id == id && p.done == 0
    ensures Advances(With(m, id, x, t, p), t, 4) == With(m, id, Tallied(x, p), t, p.(done := 4))
  {
    var start, p1, p2, p3 := With(m, id, x, t, p), p.(done := 1), p.(done := 2), p.(done := 3);
    var x1 := Counted(x, p);
    var x2 := Counted(x1, p1);
    var x3 := Counted(x2, p2);
    CountingAccess(m, id, x, t, p);
    CountingAccess(m, id, x1, t, p1);
    CountingAccess(m, id, x2, t, p2);
    CountingAccess(m, id, x3, t, p3);
    AdvanceOnce(start, t, 0, start);
    AdvanceOnce(start, t, 1, With(m, id, x1, t, p1));
    AdvanceOnce(start, t, 2, With(m, id, x2, t, p2));
    AdvanceOnce(start, t, 3, With(m, id, x3, t, p3));
  }

  /** The test of a report whose four counters are done. */
  lemma LastAccesses(m: Machine, id: string, x: Metrics, t: nat, p: Pending)
    requires p.Reporting? && p.id == id && p.done == 4 && t !in m.threads
    ensures Advances(With(m, id, x, t, p), t, 3) == Machine(m.books[id := Tested(x)], m.threads)
  {
    var start, read := With(m, id, x, t, p), p.(done := 5, requests := x.totalReqs);
    var trips, decided := Trips(x.totalReqs, x.totalErrors), read.(done := 6);
    AdvanceOnce(start, t, 0, start);
    assert Do(start, Advance(t)) == With(m, id, x, t, read);
    AdvanceOnce(start, t, 1, With(m, id, x, t, read));
    assert m.threads[t := read] - {t} == m.threads && m.threads[t := decided] - {t} == m.threads;
    if trips {
      assert Do(With(m, id, x, t, read), Advance(t)) == With(m, id, x, t, decided);
      AdvanceOnce(start, t, 2, With(m, id, x, t, decided));
    } else {
      assert Do(With(m, id, x, t, read), Advance(t)) == Machine(m.books[id := x], m.threads);
      AdvanceOnce(start, t, 2, Machine(m.books[id := x], m.threads));
    }
  }

  lemma SevenAccesses(m: Machine, id: string, x: Metrics, t: nat, p: Pending, n: nat)
    requires p.Reporting? && p.id == id && p.done == 0 && t !in m.threads && n == 7
    ensures Advances(With(m, id, x, t, p), t, n) == Machine(m.books[id := Tested(Tallied(x, p))], m.threads)
  {
    var four := With(m, id, Tallied(x, p), t, p.(done := 4));
    var after := Machine(m.books[id := Tested(Tallied(x, p))], m.threads);
    FourAccesses(m, id, x, t, p);
    LastAccesses(m, id, Tallied(x, p), t, p.(done := 4));
    IterateAdd(Advancing(t), With(m, id, x, t, p), 4, n - 4);
    assert Advances(four, t, n - 4) == after;
  }

  /** A report that nothing comes between does what the atomic report does. */
  lemma UndisturbedReport(m: Machine, t: nat, id: string, success: bool, latency: int)
    requires t !in m.threads
    ensures Advances(Do(m, BeginReport(t, id, success, latency)), t, 7) ==
      Machine(m.books[id := Reported(MetricsOf(m.books, id), success, latency)], m.threads)
  {
    var x, p := MetricsOf(m.books, id), Reporting(id, success, latency, 0, 0);
    assert Do(m, BeginReport(t, id, success, latency)) == With(m, id, x, t, p);
    SevenAccesses(m, id, x, t, p, 7);
  }

  /** So does a selection that nothing comes between. */
  lemma UndisturbedSelection(m: Machine, t: nat, id: string)
    requires t !in m.threads && !MetricsOf(m.books, id).circuitOpen
    ensures Do(Do(m, Choose(t, id)), Count(t)) == Machine(Opened(m.books, id), m.threads)
  {
    assert m.threads[t := Chosen(id)] - {t} == m.threads;
  }

  // ----- conservation -----

  /** The threads that choose id, and those whose report of id is between its two counters. */
  function Choosing(m: Machine, id: string): set<nat> {
    set t | t in m.threads && m.threads[t] == Chosen(id)
  }

  function Between(m: Machine, id: string): set<nat> {
    set t | t in m.threads && m.threads[t].Reporting? && m.threads[t].id == id && m.threads[t].done == 1
  }

  function Selections(actions: seq<Action>, id: string): nat {
    if actions == [] then 0
    else
      var before, last := actions[..|actions| - 1], actions[|actions| - 1];
      Selections(before, id) + if last.Count? && last.thread in Choosing(Run(before), id) then 1 else 0
  }

  /** What one action does to a credential's sum and to the threads that are between. */
  lemma ActionBalance(m: Machine, a: Action, id: string)
    ensures var x, y := MetricsOf(m.books, id), MetricsOf(Do(m, a).books, id);
      y.activeConns + y.totalReqs + |Between(Do(m, a), id)| ==
        x.activeConns + x.totalReqs + |Between(m, id)| + if a.Count? && a.thread in Choosing(m, id) then 1 else 0
  {
    BetweenBalance(m, a, id);
    match a
    case Advance(t) => AdvanceBalance(m, t, id);
    case _ =>
  }

  predicate IsBetween(m: Machine, t: nat, id: string) {
    t in m.threads && m.threads[t].Reporting? && m.threads[t].id == id && m.threads[t].done == 1
  }

  lemma BetweenBalance(m: Machine, a: Action, id: string)
    ensures |Between(Do(m, a), id)| == |Between(m, id)|
      - (if IsBetween(m, a.thread, id) then 1 else 0) + if IsBetween(Do(m, a), a.thread, id) then 1 else 0
  {
    var were, are := Between(m, id), Between(Do(m, a), id);
    assert are - {a.thread} == were - {a.thread};
    Differ(were, are, a.thread);
  }

  /** What an access does to the sum of the two counters. */
  lemma AdvanceBalance(m: Machine, t: nat, id: string)
    ensures var x, y := MetricsOf(m.books, id), MetricsOf(Do(m, Advance(t)).books, id);
      y.activeConns + y.totalReqs == x.activeConns + x.totalReqs
        + (if IsBetween(m, t, id) then 1 else 0) - if IsBetween(Do(m, Advance(t)), t, id) then 1 else 0
  {
  }

  lemma Differ(a: set<nat>, b: set<nat>, t: nat)
    requires a - {t} == b - {t}
    ensures |b| == |a| - (if t in a then 1 else 0) + if t in b then 1 else 0
  {
    assert t in a ==> |a - {t}| == |a| - 1;
    assert t in b ==> |b - {t}| == |b| - 1;
    assert t !in a ==> a - {t} == a;
    assert t !in b ==> b - {t} == b;
  }

  /** However calls interleave, open connections and finished requests add up to the counted
      selections, but for the reports that are between their two counters. */
  lemma {:induction false} InterleavedBalance(actions: seq<Action>, id: string)
    ensures var m := Run(actions);
      var x := MetricsOf(m.books, id);
      x.activeConns + x.totalReqs + |Between(m, id)| == Selections(actions, id)
  {
    if actions == [] {
      assert Between(Start, id) == {};
    } else {
      InterleavedBalance(actions[..|actions| - 1], id);
      ActionBalance(Run(actions[..|actions| - 1]), actions[|actions| - 1], id);
    }
  }

  // ----- the circuit -----

  lemma OpenNotChosen(m: Machine, a: Action, id: string)
    requires MetricsOf(m.books, id).circuitOpen
    ensures MetricsOf(Do(m, a).books, id).circuitOpen
    ensures |Choosing(Do(m, a), id)| + (if a.Count? && a.thread in Choosing(m, id) then 1 else 0) <= |Choosing(m, id)|
  {
    var were, are := Choosing(m, id), Choosing(Do(m, a), id);
    assert are - {a.thread} == were - {a.thread};
    Differ(were, are, a.thread);
  }

  /** Once open a circuit stays open, and only the selections that had already chosen the
      credential are still counted for it. */
  lemma {:induction false} LateSelections(actions: seq<Action>, k: nat, id: string)
    requires k <= |actions| && MetricsOf(Run(actions[..k]).books, id).circuitOpen
    ensures MetricsOf(Run(actions).books, id).circuitOpen
    ensures Selections(actions, id) + |Choosing(Run(actions), id)| <=
      Selections(actions[..k], id) + |Choosing(Run(actions[..k]), id)|
  {
    if k < |actions| {
      var before := actions[..|actions| - 1];
      assert before[..k] == actions[..k];
      LateSelections(before, k, id);
      OpenNotChosen(Run(before), actions[|actions| - 1], id);
    } else {
      assert actions[..k] == actions;
    }
  }

  ghost predicate TripsAcross(actions: seq<Action>, i: nat, j: nat, id: string)
    requires i <= |actions| && j <= |actions|
  {
    var requests := MetricsOf(Run(actions[..i]).books, id).totalReqs;
    requests >= 10 && 2 * MetricsOf(Run(actions[..j]).books, id).totalErrors > requests
  }

  /** Requests at one point of the run against errors at a later one. */
  ghost predicate Tripped(actions: seq<Action>, id: string) {
    exists i, j :: 0 <= i <= j <= |actions| && TripsAcross(actions, i, j, id)
  }

  ghost predicate WasRead(actions: seq<Action>, id: string, requests: int) {
    exists i :: 0 <= i <= |actions| && MetricsOf(Run(actions[..i]).books, id).totalReqs == requests
  }

  /** What a report that is under way has established. */
  ghost predicate Grounded(actions: seq<Action>, p: Pending) {
    p.Reporting? ==>
      && (p.done == 5 ==> WasRead(actions, p.id, p.requests))
      && (p.done >= 6 ==> Tripped(actions, p.id))
  }

  lemma StillGrounded(actions: seq<Action>, a: Action, p: Pending)
    requires Grounded(actions, p)
    ensures Grounded(actions + [a], p)
  {
    if p.Reporting? && p.done == 5 {
      var i :| 0 <= i <= |actions| && MetricsOf(Run(actions[..i]).books, p.id).totalReqs == p.requests;
      assert (actions + [a])[..i] == actions[..i];
    }
    if p.Reporting? && p.done >= 6 { StillTripped(actions, a, p.id); }
  }

  lemma StillTripped(actions: seq<Action>, a: Action, id: string)
    requires Tripped(actions, id)
    ensures Tripped(actions + [a], id)
  {
    var i, j :| 0 <= i <= j <= |actions| && TripsAcross(actions, i, j, id);
    assert (actions + [a])[..i] == actions[..i] && (actions + [a])[..j] == actions[..j];
    assert TripsAcross(actions + [a], i, j, id);
  }

  lemma ReadNow(actions: seq<Action>, id: string)
    ensures WasRead(actions, id, MetricsOf(Run(actions).books, id).totalReqs)
  {
    assert actions[..|actions|] == actions;
  }

  lemma TrippedNow(actions: seq<Action>, id: string, requests: int)
    requires WasRead(actions, id, requests) && Trips(requests, MetricsOf(Run(actions).books, id).totalErrors)
    ensures Tripped(actions, id)
  {
    var i :| 0 <= i <= |actions| && MetricsOf(Run(actions[..i]).books, id).totalReqs == requests;
    assert actions[..|actions|] == actions;
    assert TripsAcross(actions, i, |actions|, id);
  }

  ghost predicate AllGrounded(actions: seq<Action>) {
    && (forall t :: t in Run(actions).threads ==> Grounded(actions, Run(actions).threads[t]))
    && forall id :: MetricsOf(Run(actions).books, id).circuitOpen ==> Tripped(actions, id)
  }

  lemma ActionGrounded(actions: seq<Action>, a: Action)
    requires AllGrounded(actions)
    ensures AllGrounded(actions + [a])
  {
    var m, after, all := Run(actions), Do(Run(actions), a), actions + [a];
    assert all[..|actions|] == actions;
    forall t | t in after.threads ensures Grounded(all, after.threads[t]) {
      if t in m.threads {
        var p := m.threads[t];
        StillGrounded(actions, a, p);
        if p.Reporting? && p.done == 4 {
          ReadNow(actions, p.id);
          StillGrounded(actions, a, p.(done := 5, requests := MetricsOf(m.books, p.id).totalReqs));
        } else if p.Reporting? && p.done == 5 && Trips(p.requests, MetricsOf(m.books, p.id).totalErrors) {
          TrippedNow(actions, p.id, p.requests);
          StillTripped(actions, a, p.id);
        }
      }
    }
    forall id | MetricsOf(after.books, id).circuitOpen ensures Tripped(all, id) {
      if MetricsOf(m.books, id).circuitOpen {
        StillTripped(actions, a, id);
      } else {
        assert Grounded(actions, m.threads[a.thread]);
        StillTripped(actions, a, id);
      }
    }
  }

  lemma {:induction false} RunGrounded(actions: seq<Action>)
    ensures AllGrounded(actions)
  {
    if actions != [] {
      var before := actions[..|actions| - 1];
      RunGrounded(before);
      ActionGrounded(before, actions[|actions| - 1]);
      assert before + [actions[|actions| - 1]] == actions;
    }
  }

  /** A circuit opens only when errors read at some point outweigh requests read at that or an
      earlier point, ten at least. */
  lemma OpenNeedsErrors(actions: seq<Action>, id: string)
    ensures MetricsOf(Run(actions).books, id).circuitOpen ==> Tripped(actions, id)
  {
    RunGrounded(actions);
  }

  // ----- a circuit that is due to open -----

  /** A report of id that will open the circuit, as long as the error rate stays as it is: it has
      not yet read the requests, has read enough of them, or is about to set the flag. */
  predicate Due(m: Machine, t: nat, id: string) {
    t in m.threads && m.threads[t].Reporting? && m.threads[t].id == id &&
    (m.threads[t].done == 5 ==> m.threads[t].requests >= ErrorWindow)
  }

  predicate IsTripping(m: Machine, id: string) {
    MetricsOf(m.books, id).totalReqs >= 10 && 2 * MetricsOf(m.books, id).totalErrors > MetricsOf(m.books, id).totalReqs
  }

  /** What a report has read is not more than there is now. */
  ghost predicate ReadsArePast(m: Machine) {
    forall t :: t in m.threads && m.threads[t].Reporting? && m.threads[t].done == 5 ==>
      m.threads[t].requests <= MetricsOf(m.books, m.threads[t].id).totalReqs
  }

  /** A tripping circuit is open or about to be opened. */
  ghost predicate Guarded(m: Machine, id: string) {
    IsTripping(m, id) && !MetricsOf(m.books, id).circuitOpen ==> exists t :: Due(m, t, id)
  }

  lemma RequestsGrow(m: Machine, a: Action, id: string)
    ensures MetricsOf(m.books, id).totalReqs <= MetricsOf(Do(m, a).books, id).totalReqs
  {
  }

  lemma ReadsStayPast(m: Machine, a: Action)
    requires ReadsArePast(m)
    ensures ReadsArePast(Do(m, a))
  {
    var after := Do(m, a);
    forall t | t in after.threads && after.threads[t].Reporting? && after.threads[t].done == 5
      ensures after.threads[t].requests <= MetricsOf(after.books, after.threads[t].id).totalReqs
    {
      RequestsGrow(m, a, after.threads[t].id);
    }
  }

  /** An action that makes a circuit trip is an access of a report that has not read yet. */
  lemma TrippingIsDue(m: Machine, a: Action, id: string)
    requires !IsTripping(m, id) && IsTripping(Do(m, a), id)
    ensures a.Advance? && Due(Do(m, a), a.thread, id)
  {
  }

  /** A report that is due stays so, or opens the circuit. */
  lemma DueStays(m: Machine, a: Action, t: nat, id: string)
    requires ReadsArePast(m) && Due(m, t, id) && IsTripping(m, id)
    ensures Due(Do(m, a), t, id) || MetricsOf(Do(m, a).books, id).circuitOpen
  {
    if a == Advance(t) && m.threads[t].done == 5 {
      assert m.threads[t].requests <= MetricsOf(m.books, id).totalReqs;
    }
  }

  lemma StaysOpen(m: Machine, a: Action, id: string)
    requires MetricsOf(m.books, id).circuitOpen
    ensures MetricsOf(Do(m, a).books, id).circuitOpen
  {
  }

  lemma StaysGuarded(m: Machine, a: Action, id: string)
    requires ReadsArePast(m) && Guarded(m, id)
    ensures Guarded(Do(m, a), id)
  {
    if IsTripping(Do(m, a), id) && !MetricsOf(Do(m, a).books, id).circuitOpen {
      if !IsTripping(m, id) {
        TrippingIsDue(m, a, id);
      } else if MetricsOf(m.books, id).circuitOpen {
        StaysOpen(m, a, id);
      } else {
        var t :| Due(m, t, id);
        DueStays(m, a, t, id);
      }
    }
  }

  lemma {:induction false} RunGuarded(actions: seq<Action>, id: string)
    ensures ReadsArePast(Run(actions)) && Guarded(Run(actions), id)
  {
    if actions != [] {
      var before := actions[..|actions| - 1];
      RunGuarded(before, id);
      ReadsStayPast(Run(before), actions[|actions| - 1]);
      StaysGuarded(Run(before), actions[|actions| - 1], id);
    }
  }

  /** No report of id is under way. */
  ghost predicate Quiet(m: Machine, id: string) {
    forall t :: t in m.threads && m.threads[t].Reporting? ==> m.threads[t].id != id
  }

  /** However calls interleave, a circuit that trips while no report of it is under way is open. */
  lemma QuietTripIsOpen(actions: seq<Action>, id: string)
    requires Quiet(Run(actions), id) && IsTripping(Run(actions), id)
    ensures MetricsOf(Run(actions).books, id).circuitOpen
  {
    RunGuarded(actions, id);
  }

  ghost predicate QuietTripAt(actions: seq<Action>, k: nat, id: string)
    requires k <= |actions|
  {
    Quiet(Run(actions[..k]), id) && IsTripping(Run(actions[..k]), id)
  }

  /** The two bounds of an interleaved circuit: it is open once its counts tripped at some quiet
      point, and only if errors at some point tripped with requests at that or an earlier one. */
  lemma CircuitBounds(actions: seq<Action>, id: string)
    ensures (exists k :: 0 <= k <= |actions| && QuietTripAt(actions, k, id)) ==>
      MetricsOf(Run(actions).books, id).circuitOpen
    ensures MetricsOf(Run(actions).books, id).circuitOpen ==> Tripped(actions, id)
  {
    OpenNeedsErrors(actions, id);
    if k :| 0 <= k <= |actions| && QuietTripAt(actions, k, id) {
      QuietTripIsOpen(actions[..k], id);
      LateSelections(actions, k, id);
    }
  }
}
