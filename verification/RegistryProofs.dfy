/** The index agrees with the relation in every reachable state. */
module RegistryProofs {
  import opened Text
  import opened RegistryModel

  // ----- sums over clients -----

  lemma {:induction false} SumPick(lists: map<string, seq<string>>, cs: set<string>, c: string, m: string)
    requires c in cs && cs <= lists.Keys
    ensures Sum(lists, cs, m) == Occurs(lists[c], m) + Sum(lists, cs - {c}, m)
    decreases |cs|
  {
    var d :| d in cs && Sum(lists, cs, m) == Occurs(lists[d], m) + Sum(lists, cs - {d}, m);
    if c != d {
      SumPick(lists, cs - {d}, c, m);
      SumPick(lists, cs - {c}, d, m);
      assert cs - {d} - {c} == cs - {c} - {d};
    }
  }

  lemma {:induction false} SumFrame(a: map<string, seq<string>>, b: map<string, seq<string>>, cs: set<string>,
                                    m: string)
    requires cs <= a.Keys && cs <= b.Keys
    requires forall c :: c in cs ==> a[c] == b[c]
    ensures Sum(a, cs, m) == Sum(b, cs, m)
    decreases |cs|
  {
    if cs != {} {
      var c :| c in cs;
      SumPick(a, cs, c, m);
      SumPick(b, cs, c, m);
      SumFrame(a, b, cs - {c}, m);
    }
  }

  lemma {:induction false} SumMonotone(lists: map<string, seq<string>>, cs: set<string>, ds: set<string>, m: string)
    requires cs <= ds && ds <= lists.Keys
    ensures Sum(lists, cs, m) <= Sum(lists, ds, m)
    decreases |cs|
  {
    if cs != {} {
      var c :| c in cs;
      SumPick(lists, cs, c, m);
      SumPick(lists, ds, c, m);
      SumMonotone(lists, cs - {c}, ds - {c}, m);
    }
  }

  lemma SumWithout(lists: map<string, seq<string>>, cs: set<string>, c: string, m: string)
    requires cs <= lists.Keys
    ensures Sum(lists, cs, m) == Sum(lists, cs - {c}, m) + if c in cs then Occurs(lists[c], m) else 0
  {
    if c in cs { SumPick(lists, cs, c, m); } else { assert cs - {c} == cs; }
  }

  /** Only client c's list and membership change. */
  lemma SumReplace(a: map<string, seq<string>>, cs: set<string>, b: map<string, seq<string>>, ds: set<string>,
                   c: string, m: string)
    requires cs <= a.Keys && ds <= b.Keys && cs - {c} == ds - {c}
    requires forall d :: d in cs - {c} ==> a[d] == b[d]
    ensures Sum(b, ds, m) - (if c in ds then Occurs(b[c], m) else 0)
         == Sum(a, cs, m) - (if c in cs then Occurs(a[c], m) else 0)
    ensures c in cs ==> Sum(a, cs, m) >= Occurs(a[c], m)
  {
    assert Sum(a, cs - {c}, m) == Sum(b, cs - {c}, m) by { SumFrame(a, b, cs - {c}, m); }
    SumWithout(a, cs, c, m);
    SumWithout(b, ds, c, m);
  }

  ghost predicate OnlyClientChanges(s: State, t: State, c: string) {
    forall d :: d != c ==>
      Lookup(s.clientModels, d) == Lookup(t.clientModels, d) && ProviderOf(s, d) == ProviderOf(t, d)
  }

  lemma SupplyChange(s: State, t: State, c: string, m: string)
    requires OnlyClientChanges(s, t, c)
    ensures Supply(t, m) == Supply(s, m) - Occurs(ModelsOf(s, c), m) + Occurs(ModelsOf(t, c), m)
    ensures Occurs(ModelsOf(s, c), m) <= Supply(s, m)
  {
    forall d | d != c ensures d in s.clientModels <==> d in t.clientModels {
      assert Lookup(s.clientModels, d) == Lookup(t.clientModels, d);
    }
    assert s.clientModels.Keys - {c} == t.clientModels.Keys - {c};
    forall d | d in s.clientModels.Keys - {c} ensures s.clientModels[d] == t.clientModels[d] {
      assert Lookup(s.clientModels, d) == Lookup(t.clientModels, d);
    }
    SumReplace(s.clientModels, s.clientModels.Keys, t.clientModels, t.clientModels.Keys, c, m);
  }

  function PartBy(s: State, c: string, p: string, m: string): nat {
    if c in s.clientModels && ProviderOf(s, c) == p then Occurs(s.clientModels[c], m) else 0
  }

  lemma SupplyByChange(s: State, t: State, c: string, p: string, m: string)
    requires OnlyClientChanges(s, t, c)
    ensures SupplyBy(t, p, m) == SupplyBy(s, p, m) - PartBy(s, c, p, m) + PartBy(t, c, p, m)
    ensures PartBy(s, c, p, m) <= SupplyBy(s, p, m)
  {
    forall d | d != c
      ensures d in ClientsOf(s, p) <==> d in ClientsOf(t, p)
      ensures d in ClientsOf(s, p) ==> s.clientModels[d] == t.clientModels[d]
    {
      assert Lookup(s.clientModels, d) == Lookup(t.clientModels, d) && ProviderOf(s, d) == ProviderOf(t, d);
    }
    assert ClientsOf(s, p) - {c} == ClientsOf(t, p) - {c};
    SumReplace(s.clientModels, ClientsOf(s, p), t.clientModels, ClientsOf(t, p), c, m);
  }

  /** When one client supplies all of m, no other provider has a share in it. */
  lemma SoleSupplier(s: State, c: string, p: string, m: string)
    requires c in s.clientModels && Supply(s, m) == Occurs(s.clientModels[c], m) && ProviderOf(s, c) != p
    ensures SupplyBy(s, p, m) == 0
  {
    SumPick(s.clientModels, s.clientModels.Keys, c, m);
    SumMonotone(s.clientModels, ClientsOf(s, p), s.clientModels.Keys - {c}, m);
  }

  // ----- every operation keeps the agreement -----

  function Count(o: Option<Registration>): int {
    if o.Some? then o.value.count else 0
  }

  function Share(o: Option<Registration>, p: string): int {
    if o.Some? then CountIn(o.value.providers, p) else 0
  }

  /** A record that could agree with some relation. */
  ghost predicate Sane(o: Option<Registration>) {
    o.Some? ==>
      && o.value.count > 0
      && "" !in o.value.providers
      && (forall p :: p in o.value.providers ==> o.value.providers[p] > 0)
      && o.value.infoByProvider.Keys == o.value.providers.Keys
  }

  /** From o to n, one client's `was` supplies under oldProvider become `listed`
      supplies under provider. */
  ghost predicate Moves(o: Option<Registration>, n: Option<Registration>,
                        oldProvider: string, was: nat, provider: string, listed: nat)
  {
    && Sane(n)
    && Count(n) == Count(o) - was + listed
    && (n.Some? ==> forall p :: p != "" ==>
          Share(n, p) == Share(o, p) - (if p == oldProvider then was else 0) + (if p == provider then listed else 0))
  }

  lemma DecreaseMoves(r: Registration, c: string, p: string, n: nat, now: int)
    requires Sane(Some(r)) && n <= r.count
    requires p != "" ==> n <= CountIn(r.providers, p)
    ensures Moves(Some(r), Decrease(r, c, p, n, now), p, n, "", 0)
  {
  }

  lemma IncreaseMoves(o: Option<Registration>, p: string, info: ModelInfo, n: nat, now: int)
    requires Sane(o) && n > 0
    ensures Moves(o, Some(Increase(o, p, info, n, now)), "", 0, p, n)
  {
  }

  lemma ReconcileMoves(o: Option<Registration>, c: string, oldP: string, was: nat, p: string, listed: nat,
                       info: ModelInfo, now: int)
    requires Sane(o) && was <= Count(o) && listed > 0
    requires oldP != "" ==> was <= Share(o, oldP)
    ensures Moves(o, Some(Reconcile(o, c, oldP, was, p, listed, info, now)), oldP, was, p, listed)
  {
    var r := if o.Some? then o.value else Blank;
    var dropped := DropProvider(r.providers, oldP, was);
    assert DropInfo(r.infoByProvider, r.providers, oldP, was).Keys == dropped.Keys;
    var n := Reconcile(o, c, oldP, was, p, listed, info, now);
    assert n.providers == AddProvider(dropped, p, listed);
    assert n.infoByProvider.Keys == n.providers.Keys;
  }

  lemma RecordAgrees(s: State, t: State, c: string, m: string, was: nat, listed: nat)
    requires OnlyClientChanges(s, t, c) && Agrees(s, m)
    requires was == Occurs(ModelsOf(s, c), m) && listed == Occurs(ModelsOf(t, c), m)
    requires Moves(Lookup(s.models, m), Lookup(t.models, m), ProviderOf(s, c), was, ProviderOf(t, c), listed)
    ensures Agrees(t, m)
  {
    SupplyChange(s, t, c, m);
    if m in t.models {
      forall p | p != "" ensures CountIn(t.models[m].providers, p) == SupplyBy(t, p, m) {
        SupplyByChange(s, t, c, p, m);
        assert PartBy(s, c, p, m) == if p == ProviderOf(s, c) then was else 0;
        assert PartBy(t, c, p, m) == if p == ProviderOf(t, c) then listed else 0;
        if m !in s.models { NothingSupplied(s, p, m); }
        assert Share(Lookup(s.models, m), p) == SupplyBy(s, p, m);
        assert Share(Lookup(t.models, m), p) == SupplyBy(t, p, m);
      }
    }
  }

  lemma NothingSupplied(s: State, p: string, m: string)
    requires Supply(s, m) == 0
    ensures SupplyBy(s, p, m) == 0
  {
    SumMonotone(s.clientModels, ClientsOf(s, p), s.clientModels.Keys, m);
  }

  /** What the agreement gives for one client. */
  lemma ClientShare(s: State, c: string, m: string)
    requires Agrees(s, m)
    ensures Sane(Lookup(s.models, m))
    ensures Occurs(ModelsOf(s, c), m) <= Count(Lookup(s.models, m))
    ensures c in s.clientModels && ProviderOf(s, c) != "" ==>
      Occurs(ModelsOf(s, c), m) <= Share(Lookup(s.models, m), ProviderOf(s, c))
  {
    SupplyChange(s, s, c, m);
    SupplyByChange(s, s, c, ProviderOf(s, c), m);
  }

  lemma OutRecord(s: State, c: string, m: string, now: int)
    requires m in s.models && Agrees(s, m)
    ensures Moves(Some(s.models[m]), UnregisteredRecord(s, c, m, now), ProviderOf(s, c), Occurs(ModelsOf(s, c), m),
                  "", 0)
  {
    ClientShare(s, c, m);
    if c in s.clientModels {
      DecreaseMoves(s.models[m], c, ProviderOf(s, c), Occurs(ModelsOf(s, c), m), now);
    }
  }

  lemma UnregisterShape(s: State, c: string, now: int)
    requires Books(s)
    ensures var t := Unregister(s, c, now);
      && OnlyClientChanges(s, t, c) && ModelsOf(t, c) == [] && ProviderOf(t, c) == ""
      && Books(t)
  {
  }

  lemma UnregisterKeeps(s: State, c: string, now: int)
    requires Inv(s)
    ensures Inv(Unregister(s, c, now))
  {
    var t := Unregister(s, c, now);
    UnregisterShape(s, c, now);
    forall m ensures Agrees(t, m) {
      UnregisterRecordAgrees(s, c, now, m);
    }
  }

  lemma UnregisterRecordAgrees(s: State, c: string, now: int, m: string)
    requires Books(s) && Agrees(s, m)
    ensures Agrees(Unregister(s, c, now), m)
  {
    var t := Unregister(s, c, now);
    UnregisterShape(s, c, now);
    if m in s.models {
      assert Lookup(t.models, m) == UnregisteredRecord(s, c, m, now);
      OutRecord(s, c, m, now);
    } else {
      ClientShare(s, c, m);
      assert m !in t.models;
    }
    RecordAgrees(s, t, c, m, Occurs(ModelsOf(s, c), m), 0);
  }

  lemma BookedShape(s: State, c: string, provider: string, raw: seq<string>, infos: map<string, ModelInfo>,
                    models: Index)
    ensures var t := Booked(s, c, provider, raw, infos, models);
      && OnlyClientChanges(s, t, c) && ModelsOf(t, c) == raw && ProviderOf(t, c) == provider
      && (Books(s) && Listing(raw, infos) ==> Books(t))
  {
  }

  lemma RegisterNewRecord(s: State, c: string, provider: string, raw: seq<string>, infos: map<string, ModelInfo>,
                          now: int, m: string)
    requires Agrees(s, m) && ModelsOf(s, c) == [] && Listing(raw, infos)
    ensures Agrees(RegisterNew(s, c, provider, raw, infos, now), m)
  {
    var t := RegisterNew(s, c, provider, raw, infos, now);
    var o, listed := Lookup(s.models, m), Occurs(raw, m);
    BookedShape(s, c, provider, raw, infos, t.models);
    assert Sane(o) by { ClientShare(s, c, m); }
    assert Moves(o, Lookup(t.models, m), ProviderOf(s, c), 0, provider, listed) by {
      if m in infos {
        IncreaseMoves(o, provider, infos[m], listed, now);
      } else {
        assert Lookup(t.models, m) == o;
      }
    }
    RecordAgrees(s, t, c, m, 0, listed);
  }

  lemma RegisterKnownRecord(s: State, c: string, provider: string, raw: seq<string>, infos: map<string, ModelInfo>,
                            now: int, m: string)
    requires Agrees(s, m) && c in s.clientModels && Listing(raw, infos)
    ensures Agrees(RegisterKnown(s, c, provider, raw, infos, now), m)
  {
    var t := RegisterKnown(s, c, provider, raw, infos, now);
    var o, was, listed := Lookup(s.models, m), Occurs(ModelsOf(s, c), m), Occurs(raw, m);
    BookedShape(s, c, provider, raw, infos, t.models);
    assert Moves(o, Lookup(t.models, m), ProviderOf(s, c), was, provider, listed) by {
      ClientShare(s, c, m);
      if m in infos {
        assert Lookup(t.models, m) == UpdatedRecord(s, c, provider, raw, infos, m, now);
        ReconcileMoves(o, c, ProviderOf(s, c), was, provider, listed, infos[m], now);
      } else if m in s.models {
        assert Lookup(t.models, m) == UpdatedRecord(s, c, provider, raw, infos, m, now);
        OutRecord(s, c, m, now);
      }
    }
    RecordAgrees(s, t, c, m, was, listed);
  }

  lemma RegisterKeeps(s: State, c: string, rawProvider: string, ms: seq<Option<ModelInfo>>, now: int)
    requires Inv(s)
    ensures Inv(Register(s, c, rawProvider, ms, now))
  {
    var provider, raw, infos := ToLower(rawProvider), RawIds(ms), FirstInfos(ms);
    if raw == [] {
      UnregisterKeeps(s, c, now);
    } else {
      var t := Register(s, c, rawProvider, ms, now);
      BookedShape(s, c, provider, raw, infos, t.models);
      forall m ensures Agrees(t, m) {
        if c in s.clientModels {
          RegisterKnownRecord(s, c, provider, raw, infos, now, m);
        } else {
          RegisterNewRecord(s, c, provider, raw, infos, now, m);
        }
      }
    }
  }

  predicate SameCounters(r: Registration, q: Registration) {
    r.count == q.count && r.providers == q.providers && r.infoByProvider == q.infoByProvider
  }

  /** Marks and cleanup touch neither the relation nor the counters. */
  lemma MarkShape(s: State, op: Op, now: int)
    requires !op.RegisterOp? && !op.UnregisterOp?
    ensures var t := Step(s, op, now);
      && t == s.(models := t.models)
      && t.models.Keys == s.models.Keys
      && forall m :: m in s.models ==> SameCounters(s.models[m], t.models[m])
  {
  }

  lemma MarkKeeps(s: State, t: State)
    requires Inv(s) && t == s.(models := t.models) && t.models.Keys == s.models.Keys
    requires forall m :: m in s.models ==> SameCounters(s.models[m], t.models[m])
    ensures Inv(t)
  {
    forall m ensures Agrees(t, m) {
      assert Agrees(s, m);
      assert forall p :: ClientsOf(t, p) == ClientsOf(s, p);
    }
  }

  /** The index equals the sums over all clients after any run of operations. */
  lemma {:induction false} Reachable(ops: seq<(Op, int)>)
    ensures Inv(Run(ops))
  {
    if ops != [] {
      var before, op, now := Run(ops[..|ops| - 1]), ops[|ops| - 1].0, ops[|ops| - 1].1;
      Reachable(ops[..|ops| - 1]);
      match op
      case RegisterOp(c, p, ms) => RegisterKeeps(before, c, p, ms, now);
      case UnregisterOp(c) => UnregisterKeeps(before, c, now);
      case _ =>
        MarkShape(before, op, now);
        MarkKeeps(before, Run(ops));
    }
  }
}
