/** When the circuit law of atomic reports holds of interleaved ones: when no two reports of a
    credential overlap, whatever selections and the reports of other credentials do. */
module SchedulerSerial {
  import opened SchedulerModel
  import opened S = SchedulerSteps

  predicate Reports(m: Machine, t: nat, id: string) {
    t in m.threads && m.threads[t].Reporting? && m.threads[t].id == id
  }

  /** At most one report of id is under way. */
  ghost predicate AtMostOne(m: Machine, id: string) {
    forall t, u :: Reports(m, t, id) && Reports(m, u, id) ==> t == u
  }

  /** No two reports of id overlap in the run. */
  ghost predicate Serial(actions: seq<Action>, id: string) {
    forall k :: 0 <= k <= |actions| ==> AtMostOne(S.Run(actions[..k]), id)
  }

  /** At some point of the run the counts of id tripped. */
  ghost predicate HasTripped(actions: seq<Action>, id: string) {
    exists k :: 0 <= k <= |actions| && IsTripping(S.Run(actions[..k]), id)
  }

  /** A report that has counted its request and will open a tripping circuit. */
  predicate Opening(m: Machine, t: nat, id: string) {
    Due(m, t, id) && m.threads[t].done >= 2
  }

  /** What a report knows: the requests it has read are those there are, and it sets the flag
      only when the counts have tripped. */
  predicate Informed(m: Machine, t: nat, id: string, tripped: bool) {
    Reports(m, t, id) ==>
      && (m.threads[t].done == 5 ==> m.threads[t].requests == MetricsOf(m.books, id).totalReqs)
      && (m.threads[t].done >= 6 ==> tripped)
  }

  /** The circuit is open only if the counts have tripped; while it is not yet, they still trip
      and a report is about to open it. */
  ghost predicate Settled(m: Machine, id: string, tripped: bool) {
    && (MetricsOf(m.books, id).circuitOpen || IsTripping(m, id) ==> tripped)
    && (tripped && !MetricsOf(m.books, id).circuitOpen ==> IsTripping(m, id) && exists t :: Opening(m, t, id))
    && forall t :: Informed(m, t, id, tripped)
  }

  /** Whatever is no access of a report of id leaves its counts and its reports alone. */
  lemma OtherAction(m: Machine, a: Action, id: string)
    requires !(a.Advance? && Reports(m, a.thread, id))
    ensures var x, y := MetricsOf(m.books, id), MetricsOf(S.Do(m, a).books, id);
      y.totalReqs == x.totalReqs && y.totalErrors == x.totalErrors && y.circuitOpen == x.circuitOpen
    ensures forall t :: Reports(m, t, id) ==> Reports(S.Do(m, a), t, id) && S.Do(m, a).threads[t] == m.threads[t]
    ensures forall t :: Reports(S.Do(m, a), t, id) && !Reports(m, t, id) ==> S.Do(m, a).threads[t].done == 0
  {
  }

  lemma OtherSettled(m: Machine, a: Action, id: string, tripped: bool)
    requires Settled(m, id, tripped) && !(a.Advance? && Reports(m, a.thread, id))
    ensures Settled(S.Do(m, a), id, tripped || IsTripping(S.Do(m, a), id))
  {
    var after := S.Do(m, a);
    OtherAction(m, a, id);
    forall t ensures Informed(after, t, id, tripped) { assert Informed(m, t, id, tripped); }
    if tripped && !MetricsOf(after.books, id).circuitOpen {
      var t :| Opening(m, t, id);
      assert Opening(after, t, id);
    }
  }

  /** The report of id that is under way is the one that is about to open the circuit, if any. */
  lemma OnlyOne(m: Machine, t: nat, id: string, tripped: bool)
    requires Settled(m, id, tripped) && AtMostOne(m, id) && Reports(m, t, id)
    ensures tripped && !MetricsOf(m.books, id).circuitOpen ==> Opening(m, t, id)
    ensures forall u :: Reports(S.Do(m, Advance(t)), u, id) ==> u == t
  {
    forall u | Reports(S.Do(m, Advance(t)), u, id) ensures u == t {
      assert u != t ==> Reports(m, u, id);
    }
    if tripped && !MetricsOf(m.books, id).circuitOpen {
      var u :| Opening(m, u, id);
      assert Reports(m, u, id);
    }
  }

  /** An access of the one report of id, up to its reading of the requests. */
  lemma CountingSettled(m: Machine, t: nat, id: string, tripped: bool)
    requires Settled(m, id, tripped) && AtMostOne(m, id) && Reports(m, t, id) && m.threads[t].done < 5
    ensures Settled(S.Do(m, Advance(t)), id, tripped || IsTripping(S.Do(m, Advance(t)), id))
  {
    var after := S.Do(m, Advance(t));
    assert Reports(after, t, id) && after.threads[t].done == m.threads[t].done + 1;
    OnlyOne(m, t, id, tripped);
    if (tripped || IsTripping(after, id)) && !MetricsOf(after.books, id).circuitOpen {
      assert Opening(after, t, id);
    }
  }

  /** Its reading of the errors and its setting of the flag. */
  lemma TestingSettled(m: Machine, t: nat, id: string, tripped: bool)
    requires Settled(m, id, tripped) && AtMostOne(m, id) && Reports(m, t, id) && m.threads[t].done >= 5
    ensures Settled(S.Do(m, Advance(t)), id, tripped || IsTripping(S.Do(m, Advance(t)), id))
  {
    var after := S.Do(m, Advance(t));
    assert Informed(m, t, id, tripped);
    OnlyOne(m, t, id, tripped);
    if tripped && !MetricsOf(after.books, id).circuitOpen {
      assert Opening(after, t, id);
    }
  }

  lemma ActionSettled(m: Machine, a: Action, id: string, tripped: bool)
    requires Settled(m, id, tripped) && AtMostOne(m, id)
    ensures Settled(S.Do(m, a), id, tripped || IsTripping(S.Do(m, a), id))
  {
    if a.Advance? && Reports(m, a.thread, id) {
      if m.threads[a.thread].done < 5 {
        CountingSettled(m, a.thread, id, tripped);
      } else {
        TestingSettled(m, a.thread, id, tripped);
      }
    } else {
      OtherSettled(m, a, id, tripped);
    }
  }

  lemma HasTrippedNext(actions: seq<Action>, id: string)
    requires actions != []
    ensures HasTripped(actions, id) <==> HasTripped(actions[..|actions| - 1], id) || IsTripping(S.Run(actions), id)
  {
    var n, before := |actions|, actions[..|actions| - 1];
    assert actions[..n] == actions;
    assert forall k :: 0 <= k < n ==> before[..k] == actions[..k];
    if HasTripped(before, id) {
      var k :| 0 <= k <= n - 1 && IsTripping(S.Run(before[..k]), id);
      assert IsTripping(S.Run(actions[..k]), id);
    }
    if HasTripped(actions, id) {
      var k :| 0 <= k <= n && IsTripping(S.Run(actions[..k]), id);
      if k < n { assert IsTripping(S.Run(before[..k]), id); }
    }
  }

  lemma SerialBefore(actions: seq<Action>, id: string)
    requires Serial(actions, id) && actions != []
    ensures Serial(actions[..|actions| - 1], id) && AtMostOne(S.Run(actions[..|actions| - 1]), id)
  {
    var before := actions[..|actions| - 1];
    forall k | 0 <= k <= |before| ensures AtMostOne(S.Run(before[..k]), id) {
      assert before[..k] == actions[..k];
    }
  }

  lemma {:induction false} RunSettled(actions: seq<Action>, id: string)
    requires Serial(actions, id)
    ensures Settled(S.Run(actions), id, HasTripped(actions, id))
  {
    if actions == [] {
      assert !HasTripped([], id);
    } else {
      var before, last := actions[..|actions| - 1], actions[|actions| - 1];
      SerialBefore(actions, id);
      RunSettled(before, id);
      ActionSettled(S.Run(before), last, id, HasTripped(before, id));
      HasTrippedNext(actions, id);
    }
  }

  /** When no two reports of a credential overlap, its circuit is open, once the last of them is
      over, if and only if its counts tripped at some point of the run: as with atomic reports,
      whatever selections and the reports of other credentials do in between. */
  lemma SerialOpenIffTripped(actions: seq<Action>, id: string)
    requires Serial(actions, id) && Quiet(S.Run(actions), id)
    ensures MetricsOf(S.Run(actions).books, id).circuitOpen <==> HasTripped(actions, id)
  {
    RunSettled(actions, id);
  }

  /** Before that, an open circuit has tripped, and one that tripped is open or about to be opened. */
  lemma SerialOpening(actions: seq<Action>, id: string)
    requires Serial(actions, id)
    ensures MetricsOf(S.Run(actions).books, id).circuitOpen ==> HasTripped(actions, id)
    ensures HasTripped(actions, id) ==>
      MetricsOf(S.Run(actions).books, id).circuitOpen || exists t :: Opening(S.Run(actions), t, id)
  {
    RunSettled(actions, id);
  }
}
