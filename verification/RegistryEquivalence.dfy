/** Updating a known client incrementally against removing it and registering it afresh:
    the two agree, apart from lastUpdated, exactly when no stray mark is in the way. */
module RegistryEquivalence {
  import opened Text
  import opened RegistryModel
  import opened RegistryProofs

  function Untimed(o: Option<Registration>): Option<Registration> {
    if o.Some? then Some(o.value.(lastUpdated := 0)) else None
  }

  /** The state with every lastUpdated forgotten. */
  function Timeless(s: State): State {
    s.(models := map m | m in s.models :: s.models[m].(lastUpdated := 0))
  }

  function Afresh(s: State, c: string, provider: string, raw: seq<string>, infos: map<string, ModelInfo>,
                  left: int, joined: int): State {
    RegisterNew(Unregister(s, c, left), c, provider, raw, infos, joined)
  }

  /** No mark that only one of the two ways would wipe: c has no mark on a model it is about
      to start listing, and a model that c alone supplies carries no other client's mark. */
  predicate NoStrayMark(s: State, c: string, m: string) {
    m in s.models ==>
      var r := s.models[m];
      if Occurs(ModelsOf(s, c), m) == 0 then c !in r.quota && c !in r.suspended
      else if r.count <= Occurs(ModelsOf(s, c), m) then r.quota.Keys <= {c} && r.suspended.Keys <= {c}
      else true
  }

  ghost predicate NoStrayMarks(s: State, c: string, raw: seq<string>) {
    forall m :: Occurs(raw, m) > 0 ==> NoStrayMark(s, c, m)
  }

  /** When c alone supplies m, its record holds no provider but c's. */
  lemma SoleRecord(s: State, c: string, m: string)
    requires Agrees(s, m) && m in s.models && s.models[m].count == Occurs(ModelsOf(s, c), m)
    ensures s.models[m].providers ==
      if ProviderOf(s, c) == "" then map[] else map[ProviderOf(s, c) := Occurs(ModelsOf(s, c), m)]
  {
    var r, p := s.models[m], ProviderOf(s, c);
    forall q | q != "" && q != p ensures q !in r.providers {
      SoleSupplier(s, c, q, m);
      assert CountIn(r.providers, q) == 0;
    }
    if p != "" {
      ClientShare(s, c, m);
      SupplyChange(s, s, c, m);
      SumMonotone(s.clientModels, ClientsOf(s, p), s.clientModels.Keys, m);
      assert CountIn(r.providers, p) == SupplyBy(s, p, m);
    }
  }

  /** The record of one listed model: both ways, side by side. */
  lemma ListedRecord(o: Registration, c: string, oldP: string, was: nat, p: string, n: nat, info: ModelInfo,
                     left: int, joined: int)
    requires 0 < was < o.count && n > 0
    ensures Decrease(o, c, oldP, was, left).Some?
    ensures Increase(Decrease(o, c, oldP, was, left), p, info, n, joined)
         == Reconcile(Some(o), c, oldP, was, p, n, info, joined)
  {
  }

  lemma SoleListedRecord(s: State, c: string, m: string, p: string, n: nat, info: ModelInfo, now: int)
    requires Agrees(s, m) && m in s.models && s.models[m].count == Occurs(ModelsOf(s, c), m) && n > 0
    ensures var was := Occurs(ModelsOf(s, c), m);
      var k := Reconcile(Lookup(s.models, m), c, ProviderOf(s, c), was, p, n, info, now);
      k.(quota := map[], suspended := map[]) == Increase(None, p, info, n, now)
  {
    var was, oldP, r := Occurs(ModelsOf(s, c), m), ProviderOf(s, c), s.models[m];
    SoleRecord(s, c, m);
    assert DropProvider(r.providers, oldP, was) == map[];
    assert r.infoByProvider.Keys == r.providers.Keys;
    assert DropInfo(r.infoByProvider, r.providers, oldP, was) == map[];
  }

  lemma KnownRecord(s: State, c: string, provider: string, raw: seq<string>, infos: map<string, ModelInfo>, now: int,
                    m: string)
    ensures Lookup(RegisterKnown(s, c, provider, raw, infos, now).models, m) ==
      if m in s.models.Keys + infos.Keys then UpdatedRecord(s, c, provider, raw, infos, m, now) else None
  {
  }

  lemma UnregisterLookup(s: State, c: string, now: int, m: string)
    ensures Lookup(Unregister(s, c, now).models, m)
         == Fewer(Lookup(s.models, m), c, ProviderOf(s, c), Occurs(ModelsOf(s, c), m), now)
  {
    assert m in s.models ==>
      Lookup(Unregister(s, c, now).models, m) == UnregisteredRecord(s, c, m, now);
  }

  lemma AfreshRecord(s: State, c: string, provider: string, raw: seq<string>, infos: map<string, ModelInfo>,
                     left: int, joined: int, m: string)
    ensures Lookup(Afresh(s, c, provider, raw, infos, left, joined).models, m) ==
      var out := if m in s.models then UnregisteredRecord(s, c, m, left) else None;
      if m in infos then Some(Increase(out, provider, infos[m], Occurs(raw, m), joined)) else out
  {
    assert Lookup(Unregister(s, c, left).models, m) ==
      if m in s.models then UnregisteredRecord(s, c, m, left) else None;
  }

  lemma EmptiedBy<V>(marks: map<string, V>, c: string)
    ensures marks - {c} == map[] <==> marks.Keys <= {c}
  {
    if marks.Keys <= {c} {
      assert (marks - {c}).Keys == {};
    } else {
      var d :| d in marks && d != c;
      assert d in marks - {c};
    }
  }

  /** Both ways for a model on the new list. */
  lemma ListedBothWays(s: State, c: string, p: string, m: string, n: nat, info: ModelInfo, left: int, joined: int)
    requires Agrees(s, m) && n > 0
    ensures var out := if m in s.models then UnregisteredRecord(s, c, m, left) else None;
      var k := Reconcile(Lookup(s.models, m), c, ProviderOf(s, c), Occurs(ModelsOf(s, c), m), p, n, info, joined);
      k == Increase(out, p, info, n, joined) <==> NoStrayMark(s, c, m)
  {
    var was, oldP := Occurs(ModelsOf(s, c), m), ProviderOf(s, c);
    ClientShare(s, c, m);
    if m !in s.models {
    } else if was == 0 {
      NotListedRecord(s.models[m], c, oldP, p, n, info, joined);
    } else if was < s.models[m].count {
      ListedRecord(s.models[m], c, oldP, was, p, n, info, left, joined);
    } else {
      SoleListedRecord(s, c, m, p, n, info, joined);
      EmptiedBy(s.models[m].quota, c);
      EmptiedBy(s.models[m].suspended, c);
    }
  }

  lemma RecordBothWays(s: State, c: string, provider: string, raw: seq<string>, infos: map<string, ModelInfo>,
                       left: int, joined: int, m: string)
    requires Agrees(s, m) && Listing(raw, infos)
    ensures var k, f := Lookup(RegisterKnown(s, c, provider, raw, infos, joined).models, m),
                        Lookup(Afresh(s, c, provider, raw, infos, left, joined).models, m);
      && (Untimed(k) == Untimed(f) <==> (Occurs(raw, m) > 0 ==> NoStrayMark(s, c, m)))
      && (Untimed(k) == Untimed(f) && left == joined ==> k == f)
  {
    KnownRecord(s, c, provider, raw, infos, joined, m);
    AfreshRecord(s, c, provider, raw, infos, left, joined, m);
    if m in infos {
      ListedBothWays(s, c, provider, m, Occurs(raw, m), infos[m], left, joined);
    }
  }

  lemma NotListedRecord(o: Registration, c: string, oldP: string, p: string, n: nat, info: ModelInfo, now: int)
    requires Sane(Some(o)) && n > 0
    ensures Reconcile(Some(o), c, oldP, 0, p, n, info, now)
         == Increase(Some(o), p, info, n, now).(quota := o.quota - {c}, suspended := o.suspended - {c})
    ensures o.quota - {c} == o.quota <==> c !in o.quota
    ensures o.suspended - {c} == o.suspended <==> c !in o.suspended
  {
    assert DropProvider(o.providers, oldP, 0) == o.providers;
  }

  /** The incremental update of a known client equals removal followed by a fresh
      registration, apart from lastUpdated, exactly when no stray mark is in the way;
      with one clock reading for all steps it equals it entirely. */
  lemma IncrementalEqualsAfresh(s: State, c: string, provider: string, raw: seq<string>, infos: map<string, ModelInfo>,
                                left: int, joined: int)
    requires Inv(s) && c in s.clientModels && Listing(raw, infos)
    ensures Timeless(RegisterKnown(s, c, provider, raw, infos, joined))
         == Timeless(Afresh(s, c, provider, raw, infos, left, joined))
        <==> NoStrayMarks(s, c, raw)
    ensures NoStrayMarks(s, c, raw) && left == joined ==>
      RegisterKnown(s, c, provider, raw, infos, joined) == Afresh(s, c, provider, raw, infos, left, joined)
  {
    var k, f := RegisterKnown(s, c, provider, raw, infos, joined), Afresh(s, c, provider, raw, infos, left, joined);
    SameBooks(s, c, provider, raw, infos, left, joined);
    forall m
      ensures Untimed(Lookup(k.models, m)) == Untimed(Lookup(f.models, m)) <==>
        (Occurs(raw, m) > 0 ==> NoStrayMark(s, c, m))
      ensures Untimed(Lookup(k.models, m)) == Untimed(Lookup(f.models, m)) && left == joined ==>
        Lookup(k.models, m) == Lookup(f.models, m)
    {
      assert Agrees(s, m);
      RecordBothWays(s, c, provider, raw, infos, left, joined, m);
    }
    SameStates(k, f);
  }

  lemma SameBooks(s: State, c: string, provider: string, raw: seq<string>, infos: map<string, ModelInfo>, left: int,
                  joined: int)
    ensures var k := RegisterKnown(s, c, provider, raw, infos, joined);
      var f := Afresh(s, c, provider, raw, infos, left, joined);
      k == f.(models := k.models)
  {
    Rebooked(s.clientModels, c, raw);
    Rebooked(s.clientInfos, c, infos);
    Rebooked(s.clientProviders, c, provider);
    assert s.clientProviders - {c} == s.clientProviders - {c} - {c};
  }

  lemma Rebooked<V>(m: map<string, V>, c: string, v: V)
    ensures (m - {c})[c := v] == m[c := v]
  {
  }

  lemma SameStates(k: State, f: State)
    requires k == f.(models := k.models)
    ensures Timeless(k) == Timeless(f) <==> forall m :: Untimed(Lookup(k.models, m)) == Untimed(Lookup(f.models, m))
    ensures k == f <==> forall m :: Lookup(k.models, m) == Lookup(f.models, m)
  {
    assert forall m :: Lookup(Timeless(k).models, m) == Untimed(Lookup(k.models, m));
    assert forall m :: Lookup(Timeless(f).models, m) == Untimed(Lookup(f.models, m));
    SameIndexes(k.models, f.models);
    SameIndexes(Timeless(k).models, Timeless(f).models);
  }

  lemma SameIndexes(a: Index, b: Index)
    ensures a == b <==> forall m :: Lookup(a, m) == Lookup(b, m)
  {
    if forall m :: Lookup(a, m) == Lookup(b, m) {
      forall m ensures (m in a <==> m in b) && (m in a ==> a[m] == b[m]) {
        assert Lookup(a, m) == Lookup(b, m);
      }
    }
  }

  // ----- marks in runs -----

  lemma NobodyElse(s: State, c: string, d: string, m: string)
    requires Supply(s, m) <= Occurs(ModelsOf(s, c), m) && d != c
    ensures Occurs(ModelsOf(s, d), m) == 0
  {
    if d in s.clientModels {
      SumPick(s.clientModels, s.clientModels.Keys, d, m);
      if c in s.clientModels {
        SumPick(s.clientModels, s.clientModels.Keys - {d}, c, m);
      }
    }
  }

  lemma SoundMarksAreNotStray(s: State, c: string, raw: seq<string>)
    requires Inv(s) && MarksSound(s)
    ensures NoStrayMarks(s, c, raw)
  {
    forall m | Occurs(raw, m) > 0 ensures NoStrayMark(s, c, m) {
      assert Agrees(s, m);
      if m in s.models && s.models[m].count <= Occurs(ModelsOf(s, c), m) {
        forall d | Marked(s, m, d) ensures d == c {
          if d != c { NobodyElse(s, c, d, m); }
        }
        assert forall d :: d in s.models[m].quota || d in s.models[m].suspended ==> Marked(s, m, d);
      }
    }
  }

  /** Registration and removal of d only wipe marks, and wipe all of d's that lose their ground. */
  lemma RegisterMarks(s: State, d: string, provider: string, ms: seq<Option<ModelInfo>>, now: int, m: string, c: string)
    requires Marked(Register(s, d, provider, ms, now), m, c)
    ensures c == d ==> Occurs(RawIds(ms), m) > 0 || (Occurs(ModelsOf(s, d), m) == 0 && Marked(s, m, d))
    ensures c != d ==> Marked(s, m, c)
  {
    var raw, infos, p := RawIds(ms), FirstInfos(ms), ToLower(provider);
    var t := Register(s, d, provider, ms, now);
    var r := t.models[m];
    if raw == [] {
      assert Lookup(t.models, m) == UnregisteredRecord(s, d, m, now);
    } else if d in s.clientModels {
      KnownRecord(s, d, p, raw, infos, now, m);
    } else if m !in infos {
      assert r == s.models[m];
    }
  }

  lemma RegisterLists(s: State, d: string, provider: string, ms: seq<Option<ModelInfo>>, now: int, c: string)
    ensures ModelsOf(Register(s, d, provider, ms, now), c) == if c == d then RawIds(ms) else ModelsOf(s, c)
  {
  }

  lemma RegisterKeepsMarks(s: State, d: string, provider: string, ms: seq<Option<ModelInfo>>, now: int)
    requires MarksSound(s)
    ensures MarksSound(Register(s, d, provider, ms, now))
  {
    var t := Register(s, d, provider, ms, now);
    forall m, c | Marked(t, m, c) ensures Occurs(ModelsOf(t, c), m) > 0 {
      RegisterMarks(s, d, provider, ms, now, m, c);
      RegisterLists(s, d, provider, ms, now, c);
    }
  }

  lemma MarksStaySound(s: State, op: Op, now: int)
    requires MarksSound(s) && Guarded(s, op)
    ensures MarksSound(Step(s, op, now))
  {
    match op
    case RegisterOp(d, p, ms) => RegisterKeepsMarks(s, d, p, ms, now);
    case UnregisterOp(d) => RegisterKeepsMarks(s, d, "", [], now);
    case SetQuotaOp(d, m) =>
      forall n, c | Marked(SetQuota(s, d, m, now), n, c) ensures Occurs(ModelsOf(s, c), n) > 0 {
        assert Marked(s, n, c) || (n == m && c == d);
      }
    case SuspendOp(d, m, why) =>
      forall n, c | Marked(Suspend(s, d, m, why, now), n, c) ensures Occurs(ModelsOf(s, c), n) > 0 {
        assert Marked(s, n, c) || (n == m && c == d);
      }
    case _ =>
      forall n, c | Marked(Step(s, op, now), n, c) ensures Occurs(ModelsOf(s, c), n) > 0 {
        assert Marked(s, n, c);
      }
  }

  ghost predicate GuardedRun(ops: seq<(Op, int)>) {
    ops != [] ==> GuardedRun(ops[..|ops| - 1]) && Guarded(Run(ops[..|ops| - 1]), ops[|ops| - 1].0)
  }

  /** After any run whose callers mark only supporting clients, marks sit only on those. */
  lemma {:induction false} ReachableMarksSound(ops: seq<(Op, int)>)
    requires GuardedRun(ops)
    ensures MarksSound(Run(ops))
  {
    if ops != [] {
      ReachableMarksSound(ops[..|ops| - 1]);
      MarksStaySound(Run(ops[..|ops| - 1]), ops[|ops| - 1].0, ops[|ops| - 1].1);
    }
  }

  /** After any such run, updating a client and registering it afresh come to the same. */
  lemma IncrementalEqualsAfreshInRuns(ops: seq<(Op, int)>, c: string, provider: string, ms: seq<Option<ModelInfo>>,
                                      left: int, joined: int)
    requires GuardedRun(ops)
    ensures Timeless(Register(Run(ops), c, provider, ms, joined))
         == Timeless(Register(Unregister(Run(ops), c, left), c, provider, ms, joined))
  {
    var s, raw, infos := Run(ops), RawIds(ms), FirstInfos(ms);
    Reachable(ops);
    ReachableMarksSound(ops);
    SoundMarksAreNotStray(s, c, raw);
    UnregisterShape(s, c, left);
    if c !in s.clientModels {
      UnregisterUnknown(s, c, left);
    } else if raw == [] {
      UnregisterTwice(s, c, left, joined);
    } else {
      IncrementalEqualsAfresh(s, c, ToLower(provider), raw, infos, left, joined);
    }
  }

  lemma UnregisterUnknownShape(s: State, c: string, now: int)
    requires s.clientInfos.Keys == s.clientModels.Keys && c !in s.clientModels
    ensures Unregister(s, c, now) == s.(clientProviders := s.clientProviders - {c})
  {
    var t := Unregister(s, c, now);
    forall m ensures Lookup(t.models, m) == Lookup(s.models, m) {
      UnregisterLookup(s, c, now, m);
    }
    SameIndexes(t.models, s.models);
    assert c !in s.clientInfos;
  }

  lemma UnregisterUnknown(s: State, c: string, now: int)
    requires Books(s) && c !in s.clientModels
    ensures Unregister(s, c, now) == s
  {
    UnregisterUnknownShape(s, c, now);
  }

  lemma UnregisterTimes(s: State, c: string, left: int, joined: int)
    ensures Timeless(Unregister(s, c, left)) == Timeless(Unregister(s, c, joined))
  {
    var a, b := Unregister(s, c, left), Unregister(s, c, joined);
    forall m ensures Untimed(Lookup(a.models, m)) == Untimed(Lookup(b.models, m)) {
      UnregisterLookup(s, c, left, m);
      UnregisterLookup(s, c, joined, m);
    }
    SameStates(a, b);
  }

  lemma UnregisterTwice(s: State, c: string, left: int, joined: int)
    requires Inv(s)
    ensures Timeless(Unregister(s, c, joined)) == Timeless(Unregister(Unregister(s, c, left), c, joined))
  {
    UnregisterKeeps(s, c, left);
    UnregisterUnknown(Unregister(s, c, left), c, joined);
    UnregisterTimes(s, c, left, joined);
  }
}
