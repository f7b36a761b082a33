/** What the books keep over every run. */
module SchedulerProofs {
  import opened Text
  import opened SchedulerModel

  // ----- counting the steps of a run -----

  function Selections(steps: seq<Step>, id: string): nat {
    if steps == [] then 0
    else
      var before, last := steps[..|steps| - 1], steps[|steps| - 1];
      Selections(before, id) +
      if last.Select? && SelectFrom(Run(before), last.pool, last.strategy) == Selected(id) then 1 else 0
  }

  function Reports(steps: seq<Step>, id: string): nat {
    if steps == [] then 0
    else
      var last := steps[|steps| - 1];
      Reports(steps[..|steps| - 1], id) + if last.Report? && last.id == id then 1 else 0
  }

  function Errors(steps: seq<Step>, id: string): nat {
    if steps == [] then 0
    else
      var last := steps[|steps| - 1];
      Errors(steps[..|steps| - 1], id) + if last.Report? && last.id == id && !last.success then 1 else 0
  }

  function Latency(steps: seq<Step>, id: string): int {
    if steps == [] then 0
    else
      var last := steps[|steps| - 1];
      Latency(steps[..|steps| - 1], id) + if last.Report? && last.id == id then last.latency else 0
  }

  /** In every run the open connections and the finished requests of a credential add up to
      its selections, and the totals count its reports. */
  lemma {:induction false} BooksBalance(steps: seq<Step>, id: string)
    ensures var m := MetricsOf(Run(steps), id);
      && m.activeConns + m.totalReqs == Selections(steps, id)
      && m.totalReqs == Reports(steps, id) && m.totalErrors == Errors(steps, id)
      && m.totalLatency == Latency(steps, id)
  {
    if steps != [] { BooksBalance(steps[..|steps| - 1], id); }
  }

  /** ActiveConns is negative exactly when more requests were reported than selected. */
  lemma NeverNegativeIff(steps: seq<Step>, id: string)
    ensures MetricsOf(Run(steps), id).activeConns >= 0 <==> Reports(steps, id) <= Selections(steps, id)
  {
    BooksBalance(steps, id);
  }

  // ----- the circuit -----

  /** At some point of the run at least ten requests were reported, more than half of them failed. */
  ghost predicate Tripped(steps: seq<Step>, id: string) {
    exists k :: 0 <= k <= |steps| && TripsAt(steps, k, id)
  }

  ghost predicate TripsAt(steps: seq<Step>, k: nat, id: string)
    requires k <= |steps|
  {
    Reports(steps[..k], id) >= 10 && 2 * Errors(steps[..k], id) > Reports(steps[..k], id)
  }

  lemma TrippedNext(steps: seq<Step>, id: string)
    requires steps != []
    ensures Tripped(steps, id) <==>
      Tripped(steps[..|steps| - 1], id) || Trips(Reports(steps, id), Errors(steps, id))
  {
    var n, before := |steps|, steps[..|steps| - 1];
    assert steps[..n] == steps;
    if Tripped(steps, id) {
      var k :| 0 <= k <= n && TripsAt(steps, k, id);
      if k < n {
        assert before[..k] == steps[..k];
        assert TripsAt(before, k, id);
      }
    }
    if Tripped(before, id) {
      var k :| 0 <= k <= n - 1 && TripsAt(before, k, id);
      assert before[..k] == steps[..k];
      assert TripsAt(steps, k, id);
    }
    if Trips(Reports(steps, id), Errors(steps, id)) { assert TripsAt(steps, n, id); }
  }

  /** The circuit of a credential is open exactly when its reports tripped it at some point. */
  lemma {:induction false} OpenIffTripped(steps: seq<Step>, id: string)
    ensures MetricsOf(Run(steps), id).circuitOpen <==> Tripped(steps, id)
  {
    if steps == [] {
      assert forall k :: 0 <= k <= |steps| ==> !TripsAt(steps, k, id);
    } else {
      var before := steps[..|steps| - 1];
      OpenIffTripped(before, id);
      TrippedNext(steps, id);
      BooksBalance(steps, id);
      BooksBalance(before, id);
      TrippedNow(before, id);
    }
  }

  lemma TrippedNow(steps: seq<Step>, id: string)
    ensures Trips(Reports(steps, id), Errors(steps, id)) ==> Tripped(steps, id)
  {
    assert steps[..|steps|] == steps;
    if Trips(Reports(steps, id), Errors(steps, id)) { assert TripsAt(steps, |steps|, id); }
  }

  /** Once open a circuit stays open, and its credential is not selected again. */
  lemma {:induction false} OpenIsForGood(steps: seq<Step>, k: nat, id: string)
    requires k <= |steps| && MetricsOf(Run(steps[..k]), id).circuitOpen
    ensures MetricsOf(Run(steps), id).circuitOpen
    ensures Selections(steps, id) == Selections(steps[..k], id)
  {
    if k < |steps| {
      var before, last := steps[..|steps| - 1], steps[|steps| - 1];
      assert before[..k] == steps[..k];
      OpenIsForGood(before, k, id);
      if last.Select? { OpenIsNotSelected(Run(before), last.pool, last.strategy, id); }
    } else {
      assert steps[..k] == steps;
    }
  }

  /** No strategy selects a credential whose circuit is open. */
  lemma OpenIsNotSelected(books: Books, pool: Option<seq<Credential>>, strategy: Strategy, id: string)
    requires MetricsOf(books, id).circuitOpen
    ensures SelectFrom(books, pool, strategy) != Selected(id)
  {
  }

  // ----- least load balances -----

  /** The open connections of the usable credentials differ by at most one. */
  ghost predicate Balanced(books: Books, creds: seq<Credential>) {
    forall i, j :: 0 <= i < |creds| && 0 <= j < |creds| && Usable(books, creds[i]) && Usable(books, creds[j]) ==>
      MetricsOf(books, creds[i].id).activeConns <= MetricsOf(books, creds[j].id).activeConns + 1
  }

  predicate Usable(books: Books, cred: Credential) {
    cred.enabled && !MetricsOf(books, cred.id).circuitOpen
  }

  lemma {:induction false} UsableIsCandidate(books: Books, creds: seq<Credential>, i: nat)
    requires i < |creds| && Usable(books, creds[i])
    ensures exists c :: c in Healthy(Candidates(books, creds)) && c.id == creds[i].id
  {
    var n := |creds| - 1;
    if i < n {
      UsableIsCandidate(books, creds[..n], i);
      var c :| c in Healthy(Candidates(books, creds[..n])) && c.id == creds[i].id;
      assert c in Healthy(Candidates(books, creds));
    } else {
      var m := MetricsOf(books, creds[n].id);
      assert Candidate(creds[n].id, creds[n].weight, m.activeConns, m.circuitOpen) in Healthy(Candidates(books, creds));
    }
  }

  /** The credential selected by least load has no more open connections than any usable one. */
  lemma SelectedIsLeast(books: Books, creds: seq<Credential>, id: string, i: nat)
    requires SelectFrom(books, Some(creds), LeastLoad) == Selected(id) && i < |creds| && Usable(books, creds[i])
    ensures MetricsOf(books, id).activeConns <= MetricsOf(books, creds[i].id).activeConns
  {
    var h := Healthy(Candidates(books, creds));
    UsableIsCandidate(books, creds, i);
    var c :| c in h && c.id == creds[i].id;
    assert h[..|h|] == h;
    assert IsLeast(h, LeastIndex(h, |h|));
  }

  lemma OpenedBalanced(books: Books, creds: seq<Credential>, id: string)
    requires Balanced(books, creds)
    requires forall i :: 0 <= i < |creds| && Usable(books, creds[i]) ==>
      MetricsOf(books, id).activeConns <= MetricsOf(books, creds[i].id).activeConns
    ensures Balanced(Opened(books, id), creds)
  {
    forall i | 0 <= i < |creds| ensures Usable(Opened(books, id), creds[i]) <==> Usable(books, creds[i]) {}
  }

  /** A selection by least load keeps the usable credentials balanced. */
  lemma LeastLoadBalances(books: Books, creds: seq<Credential>)
    requires Balanced(books, creds)
    ensures Balanced(Do(books, Select(Some(creds), LeastLoad)), creds)
  {
    var s := SelectFrom(books, Some(creds), LeastLoad);
    if s.Selected? {
      forall i | 0 <= i < |creds| && Usable(books, creds[i])
        ensures MetricsOf(books, s.id).activeConns <= MetricsOf(books, creds[i].id).activeConns
      {
        SelectedIsLeast(books, creds, s.id, i);
      }
      OpenedBalanced(books, creds, s.id);
    }
  }
}
