/** Cleanup is invisible: expired quota marks change no answer, so leaving out any cleanup of a
    run changes none either. */
module RegistryCleanup {
  import opened Text
  import opened RegistryModel
  import opened RegistryProofs
  import opened RegistryEquivalence
  import opened RegistryQueries

  // ----- queries do not see expired marks -----

  function Cleaned(o: Option<Registration>, now: int): Option<Registration> {
    if o.Some? then Some(o.value.(quota := Fresh(o.value.quota, now))) else None
  }

  lemma CleanupRecord(s: State, now: int, m: string)
    ensures Lookup(Cleanup(s, now).models, m) == Cleaned(Lookup(s.models, m), now)
  {
  }

  /** Dropping the marks expired at some time changes no query at that time or later. */
  lemma QueriesIgnoreExpired(s: State, now: int, later: int, m: string, provider: string)
    requires now <= later
    ensures ModelCount(Cleanup(s, now), m, later) == ModelCount(s, m, later)
    ensures AvailableModels(Cleanup(s, now), later) == AvailableModels(s, later)
    ensures AvailableBy(Cleanup(s, now), provider, m, later) <==> AvailableBy(s, provider, m, later)
  {
    var t := Cleanup(s, now);
    forall n | n in s.models ensures Cooling(t.models[n], later) == Cooling(s.models[n], later) {
    }
    assert TrimmedLists(t) == TrimmedLists(s);
    assert ClientsOf(t, provider) == ClientsOf(s, provider);
    forall n ensures Available(t, n, later) <==> Available(s, n, later) {
      if n in s.models {
        assert t.models[n].suspended == s.models[n].suspended;
        assert Cooling(t.models[n], later) == Cooling(s.models[n], later);
        assert CooldownSuspended(t.models[n]) == CooldownSuspended(s.models[n]);
        assert OtherSuspended(t.models[n]) == OtherSuspended(s.models[n]);
      }
    }
    SameWithin(s, t, provider, m, later);
  }

  lemma SameWithin(s: State, t: State, provider: string, m: string, later: int)
    requires t == s.(models := t.models) && t.models.Keys == s.models.Keys
    requires m in s.models ==>
      t.models[m].suspended == s.models[m].suspended && Cooling(t.models[m], later) == Cooling(s.models[m], later)
    requires ScannedCount(t, provider, m) == ScannedCount(s, provider, m)
    ensures AvailableBy(t, provider, m, later) <==> AvailableBy(s, provider, m, later)
  {
    if m in s.models {
      assert CooldownSuspended(t.models[m]) == CooldownSuspended(s.models[m]);
      assert OtherSuspended(t.models[m]) == OtherSuspended(s.models[m]);
    }
  }

  // ----- operations do not see them either -----

  lemma FreshWithout(quota: map<string, int>, c: string, now: int)
    ensures Fresh(quota - {c}, now) == Fresh(quota, now) - {c}
  {
  }

  lemma DecreaseCleaned(o: Option<Registration>, c: string, p: string, n: nat, now: int)
    ensures Cleaned(Fewer(o, c, p, n, now), now) == Fewer(Cleaned(o, now), c, p, n, now)
  {
    if o.Some? { FreshWithout(o.value.quota, c, now); }
  }

  lemma IncreaseCleaned(o: Option<Registration>, p: string, info: ModelInfo, n: nat, now: int)
    ensures Cleaned(Some(Increase(o, p, info, n, now)), now) == Some(Increase(Cleaned(o, now), p, info, n, now))
  {
  }

  lemma ReconcileCleaned(o: Option<Registration>, c: string, oldP: string, was: nat, p: string, listed: nat,
                         info: ModelInfo, now: int)
    ensures Cleaned(Some(Reconcile(o, c, oldP, was, p, listed, info, now)), now)
         == Some(Reconcile(Cleaned(o, now), c, oldP, was, p, listed, info, now))
  {
    if o.Some? { FreshWithout(o.value.quota, c, now); }
  }

  /** States with the same relation whose records agree one by one. */
  lemma SameRecords(a: State, b: State)
    requires a == b.(models := a.models) && forall m :: Lookup(a.models, m) == Lookup(b.models, m)
    ensures a == b
  {
    SameIndexes(a.models, b.models);
  }

  lemma UnregisterCommutes(s: State, c: string, now: int)
    ensures Cleanup(Unregister(s, c, now), now) == Unregister(Cleanup(s, now), c, now)
  {
    var a, b := Cleanup(Unregister(s, c, now), now), Unregister(Cleanup(s, now), c, now);
    forall m ensures Lookup(a.models, m) == Lookup(b.models, m) {
      CleanupRecord(Unregister(s, c, now), now, m);
      UnregisterLookup(s, c, now, m);
      CleanupRecord(s, now, m);
      UnregisterLookup(Cleanup(s, now), c, now, m);
      DecreaseCleaned(Lookup(s.models, m), c, ProviderOf(s, c), Occurs(ModelsOf(s, c), m), now);
    }
    SameRecords(a, b);
  }

  lemma UpdateCleaned(s: State, c: string, p: string, raw: seq<string>, infos: map<string, ModelInfo>, now: int,
                      m: string)
    ensures Cleaned(Lookup(RegisterKnown(s, c, p, raw, infos, now).models, m), now)
         == Lookup(RegisterKnown(Cleanup(s, now), c, p, raw, infos, now).models, m)
  {
    var o, was := Lookup(s.models, m), Occurs(ModelsOf(s, c), m);
    CleanupRecord(s, now, m);
    KnownRecord(s, c, p, raw, infos, now, m);
    KnownRecord(Cleanup(s, now), c, p, raw, infos, now, m);
    if m in infos {
      ReconcileCleaned(o, c, ProviderOf(s, c), was, p, Occurs(raw, m), infos[m], now);
    } else {
      DecreaseCleaned(o, c, ProviderOf(s, c), was, now);
    }
  }

  lemma KnownCommutes(s: State, c: string, p: string, raw: seq<string>, infos: map<string, ModelInfo>, now: int)
    ensures Cleanup(RegisterKnown(s, c, p, raw, infos, now), now)
         == RegisterKnown(Cleanup(s, now), c, p, raw, infos, now)
  {
    var t := RegisterKnown(s, c, p, raw, infos, now);
    var a, b := Cleanup(t, now), RegisterKnown(Cleanup(s, now), c, p, raw, infos, now);
    forall m ensures Lookup(a.models, m) == Lookup(b.models, m) {
      CleanupRecord(t, now, m);
      UpdateCleaned(s, c, p, raw, infos, now, m);
    }
    SameRecords(a, b);
  }

  lemma NewRecord(s: State, c: string, p: string, raw: seq<string>, infos: map<string, ModelInfo>, now: int, m: string)
    ensures Lookup(RegisterNew(s, c, p, raw, infos, now).models, m) ==
      if m in infos then Some(Increase(Lookup(s.models, m), p, infos[m], Occurs(raw, m), now)) else Lookup(s.models, m)
  {
  }

  lemma NewCommutes(s: State, c: string, p: string, raw: seq<string>, infos: map<string, ModelInfo>, now: int)
    ensures Cleanup(RegisterNew(s, c, p, raw, infos, now), now) == RegisterNew(Cleanup(s, now), c, p, raw, infos, now)
  {
    var t := RegisterNew(s, c, p, raw, infos, now);
    var a, b := Cleanup(t, now), RegisterNew(Cleanup(s, now), c, p, raw, infos, now);
    forall m ensures Lookup(a.models, m) == Lookup(b.models, m) {
      CleanupRecord(t, now, m);
      CleanupRecord(s, now, m);
      NewRecord(s, c, p, raw, infos, now, m);
      NewRecord(Cleanup(s, now), c, p, raw, infos, now, m);
      if m in infos { IncreaseCleaned(Lookup(s.models, m), p, infos[m], Occurs(raw, m), now); }
    }
    SameRecords(a, b);
  }

  /** One record under an operation that only marks. */
  function MarkRecord(r: Registration, op: Op, m: string, now: int): Registration
    requires !op.RegisterOp? && !op.UnregisterOp?
  {
    match op
    case SetQuotaOp(c, n) => if m == n then r.(quota := r.quota[c := now]) else r
    case ClearQuotaOp(c, n) => if m == n then r.(quota := r.quota - {c}) else r
    case SuspendOp(c, n, why) =>
      if c == "" || m == "" || m != n || c in r.suspended then r
      else r.(suspended := r.suspended[c := why], lastUpdated := now)
    case ResumeOp(c, n) =>
      if c == "" || m == "" || m != n || c !in r.suspended then r
      else r.(suspended := r.suspended - {c}, lastUpdated := now)
    case CleanupOp => r.(quota := Fresh(r.quota, now))
  }

  lemma MarkedRecord(s: State, op: Op, now: int, m: string)
    requires !op.RegisterOp? && !op.UnregisterOp?
    ensures Lookup(Step(s, op, now).models, m) ==
      if m in s.models then Some(MarkRecord(s.models[m], op, m, now)) else None
  {
  }

  lemma MarkCleaned(r: Registration, op: Op, m: string, now: int)
    requires !op.RegisterOp? && !op.UnregisterOp?
    ensures MarkRecord(r.(quota := Fresh(r.quota, now)), op, m, now)
         == var t := MarkRecord(r, op, m, now); t.(quota := Fresh(t.quota, now))
  {
    match op
    case SetQuotaOp(c, _) => assert Fresh(r.quota[c := now], now) == Fresh(r.quota, now)[c := now];
    case ClearQuotaOp(c, _) => FreshWithout(r.quota, c, now);
    case _ =>
  }

  lemma MarksCommute(s: State, op: Op, now: int)
    requires !op.RegisterOp? && !op.UnregisterOp?
    ensures Cleanup(Step(s, op, now), now) == Step(Cleanup(s, now), op, now)
  {
    var t := Step(s, op, now);
    var a, b := Cleanup(t, now), Step(Cleanup(s, now), op, now);
    forall m ensures Lookup(a.models, m) == Lookup(b.models, m) {
      CleanupRecord(t, now, m);
      CleanupRecord(s, now, m);
      MarkedRecord(s, op, now, m);
      MarkedRecord(Cleanup(s, now), op, now, m);
      if m in s.models { MarkCleaned(s.models[m], op, m, now); }
    }
    MarkShape(s, op, now);
    MarkShape(Cleanup(s, now), op, now);
    SameRecords(a, b);
  }

  lemma FreshTwice(quota: map<string, int>, now: int, later: int)
    requires now <= later
    ensures Fresh(Fresh(quota, now), later) == Fresh(quota, later)
  {
  }

  /** Cleaning up after an operation or before it comes to the same. */
  lemma StepCommutes(s: State, op: Op, now: int)
    ensures Cleanup(Step(s, op, now), now) == Step(Cleanup(s, now), op, now)
  {
    match op
    case RegisterOp(c, rawProvider, ms) =>
      var p, raw, infos := ToLower(rawProvider), RawIds(ms), FirstInfos(ms);
      if raw == [] {
        UnregisterCommutes(s, c, now);
      } else if c in s.clientModels {
        KnownCommutes(s, c, p, raw, infos, now);
      } else {
        NewCommutes(s, c, p, raw, infos, now);
      }
    case UnregisterOp(c) => UnregisterCommutes(s, c, now);
    case _ => MarksCommute(s, op, now);
  }

  // ----- runs -----

  /** States that differ in expired quota marks at most. */
  ghost predicate Alike(s: State, t: State, now: int) {
    Cleanup(s, now) == Cleanup(t, now)
  }

  lemma CleanupTwice(s: State, now: int, later: int)
    requires now <= later
    ensures Cleanup(Cleanup(s, now), later) == Cleanup(s, later)
  {
    var a, b := Cleanup(Cleanup(s, now), later), Cleanup(s, later);
    forall m ensures Lookup(a.models, m) == Lookup(b.models, m) {
      CleanupRecord(Cleanup(s, now), later, m);
      CleanupRecord(s, now, m);
      CleanupRecord(s, later, m);
      if m in s.models { FreshTwice(s.models[m].quota, now, later); }
    }
    SameRecords(a, b);
  }

  lemma AlikeLater(s: State, t: State, now: int, later: int)
    requires Alike(s, t, now) && now <= later
    ensures Alike(s, t, later)
  {
    CleanupTwice(s, now, later);
    CleanupTwice(t, now, later);
  }

  lemma StepKeepsAlike(s: State, t: State, op: Op, now: int)
    requires Alike(s, t, now)
    ensures Alike(Step(s, op, now), Step(t, op, now), now)
  {
    StepCommutes(s, op, now);
    StepCommutes(t, op, now);
  }

  predicate TimeOrdered(ops: seq<(Op, int)>) {
    forall i, j :: 0 <= i < j < |ops| ==> ops[i].1 <= ops[j].1
  }

  /** The run without the cleanups at the given positions. */
  function Without(ops: seq<(Op, int)>, positions: set<nat>): seq<(Op, int)> {
    if ops == [] then []
    else
      var n := |ops| - 1;
      Without(ops[..n], positions) + if ops[n].0.CleanupOp? && n in positions then [] else [ops[n]]
  }

  /** Leaving out any cleanups of a run in time order leaves a state that differs in expired
      marks at most. */
  lemma {:induction false} RunsStayAlike(ops: seq<(Op, int)>, positions: set<nat>, later: int)
    requires TimeOrdered(ops) && (ops != [] ==> ops[|ops| - 1].1 <= later)
    ensures Alike(Run(ops), Run(Without(ops, positions)), later)
  {
    if ops != [] {
      var n := |ops| - 1;
      var op, now := ops[n].0, ops[n].1;
      var s, t := Run(ops[..n]), Run(Without(ops[..n], positions));
      RunsStayAlike(ops[..n], positions, now);
      if op.CleanupOp? && n in positions {
        CleanupTwice(s, now, now);
        assert Without(ops, positions) == Without(ops[..n], positions);
      } else {
        StepKeepsAlike(s, t, op, now);
        RunAppend(Without(ops[..n], positions), ops[n]);
      }
      AlikeLater(Run(ops), Run(Without(ops, positions)), now, later);
    }
  }

  lemma RunAppend(ops: seq<(Op, int)>, last: (Op, int))
    ensures Run(ops + [last]) == Step(Run(ops), last.0, last.1)
  {
    assert (ops + [last])[..|ops|] == ops;
  }

  /** No query, at the end of the run or later, tells whether any of its cleanups took place. */
  lemma CleanupsAreInvisible(ops: seq<(Op, int)>, positions: set<nat>, later: int, m: string, provider: string)
    requires TimeOrdered(ops) && (ops != [] ==> ops[|ops| - 1].1 <= later)
    ensures var s, t := Run(ops), Run(Without(ops, positions));
      && ModelCount(s, m, later) == ModelCount(t, m, later)
      && AvailableModels(s, later) == AvailableModels(t, later)
      && (AvailableBy(s, provider, m, later) <==> AvailableBy(t, provider, m, later))
  {
    var s, t := Run(ops), Run(Without(ops, positions));
    RunsStayAlike(ops, positions, later);
    QueriesIgnoreExpired(s, later, later, m, provider);
    QueriesIgnoreExpired(t, later, later, m, provider);
  }
}
