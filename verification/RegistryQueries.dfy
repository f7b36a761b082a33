/** What the registry's queries answer, and what the answers mean for the relation. */
module RegistryQueries {
  import opened Text
  import opened RegistryModel
  import opened RegistryProofs

  // ----- counts -----

  function ModelCount(s: State, m: string, now: int): int {
    if m !in s.models then 0
    else
      var n := s.models[m].count - |Cooling(s.models[m], now)| - |s.models[m].suspended|;
      if n < 0 then 0 else n
  }

  ghost function Listers(s: State, cs: set<string>, m: string): set<string>
    requires cs <= s.clientModels.Keys
  {
    set c | c in cs && Occurs(s.clientModels[c], m) > 0
  }

  /** No client lists m twice. */
  ghost predicate NoRepeat(s: State, m: string) {
    forall c :: Occurs(ModelsOf(s, c), m) <= 1
  }

  /** A sum counts each lister at least once, and exactly once when none repeats m. */
  lemma {:induction false} SumAtLeastListers(s: State, cs: set<string>, m: string)
    requires cs <= s.clientModels.Keys
    ensures Sum(s.clientModels, cs, m) >= |Listers(s, cs, m)|
    ensures Sum(s.clientModels, cs, m) == |Listers(s, cs, m)| <==>
      forall c :: c in cs ==> Occurs(s.clientModels[c], m) <= 1
    decreases |cs|
  {
    if cs != {} {
      var c :| c in cs;
      SumPick(s.clientModels, cs, c, m);
      SumAtLeastListers(s, cs - {c}, m);
      ListersPick(s, cs, c, m);
      assert forall d :: d in cs <==> d == c || d in cs - {c};
    } else {
      assert Listers(s, cs, m) == {};
    }
  }

  lemma ListersPick(s: State, cs: set<string>, c: string, m: string)
    requires c in cs && cs <= s.clientModels.Keys
    ensures |Listers(s, cs, m)| == |Listers(s, cs - {c}, m)| + if Occurs(s.clientModels[c], m) > 0 then 1 else 0
  {
    assert Listers(s, cs, m) == Listers(s, cs - {c}, m) + if Occurs(s.clientModels[c], m) > 0 then {c} else {};
  }

  /** What the lists of m's clients count beyond one each. */
  ghost function Repeats(s: State, m: string): int {
    Supply(s, m) - |Listers(s, s.clientModels.Keys, m)|
  }

  lemma RepeatsIff(s: State, m: string)
    ensures Repeats(s, m) >= 0
    ensures Repeats(s, m) == 0 <==> NoRepeat(s, m)
  {
    SumAtLeastListers(s, s.clientModels.Keys, m);
    if forall c :: c in s.clientModels.Keys ==> Occurs(s.clientModels[c], m) <= 1 {
      forall c ensures Occurs(ModelsOf(s, c), m) <= 1 {
        assert c in s.clientModels.Keys ==> Occurs(s.clientModels[c], m) <= 1;
      }
    } else {
      var c :| c in s.clientModels.Keys && Occurs(s.clientModels[c], m) > 1;
      assert Occurs(ModelsOf(s, c), m) > 1;
    }
  }

  /** A client that can serve m now: it lists m, is not suspended, is not cooling down. */
  predicate Serves(s: State, c: string, m: string, now: int) {
    && m in s.models
    && c in s.clientModels
    && m in s.clientModels[c]
    && c !in s.models[m].suspended
    && c !in Cooling(s.models[m], now)
  }

  function Servers(s: State, m: string, now: int): set<string> {
    set c | c in s.clientModels && Serves(s, c, m, now)
  }

  /** The clients that are both cooling down and suspended, which the code subtracts twice. */
  function Both(s: State, m: string, now: int): set<string> {
    if m in s.models then Cooling(s.models[m], now) * s.models[m].suspended.Keys else {}
  }

  /** The clients that are subtracted without listing m. */
  ghost function Strays(s: State, m: string, now: int): set<string> {
    if m in s.models
    then Cooling(s.models[m], now) + s.models[m].suspended.Keys - Listers(s, s.clientModels.Keys, m)
    else {}
  }

  lemma Sizes<T>(listers: set<T>, cooling: set<T>, suspended: set<T>)
    ensures |listers| - |cooling| - |suspended| ==
      |listers - (cooling + suspended)| - |cooling * suspended| - |cooling + suspended - listers|
  {
    var out := cooling + suspended;
    assert |out| == |cooling| + |suspended| - |cooling * suspended|;
    assert |listers - out| == |listers| - |listers * out|;
    assert |out - listers| == |out| - |out * listers|;
    assert listers * out == out * listers;
  }

  /** The count is the number of servers and of repeated entries, less the clients that are
      subtracted twice and those that are subtracted without being counted; never negative. */
  lemma CountLaw(s: State, m: string, now: int)
    requires Inv(s)
    ensures var n := |Servers(s, m, now)| + Repeats(s, m) - |Both(s, m, now)| - |Strays(s, m, now)|;
      ModelCount(s, m, now) == if n < 0 then 0 else n
  {
    assert Agrees(s, m);
    var listers := Listers(s, s.clientModels.Keys, m);
    if m in s.models {
      var cooling, suspended := Cooling(s.models[m], now), s.models[m].suspended.Keys;
      Sizes(listers, cooling, suspended);
      assert Servers(s, m, now) == listers - (cooling + suspended);
    } else {
      RepeatsIff(s, m);
      assert Servers(s, m, now) == {};
    }
  }

  /** A positive count is backed by a client that can serve. */
  ghost predicate Backed(s: State, m: string, now: int) {
    ModelCount(s, m, now) > 0 ==> exists c :: Serves(s, c, m, now)
  }

  /** Exactly when a positive count promises too much. */
  lemma BackedIff(s: State, m: string, now: int)
    requires Inv(s)
    ensures Backed(s, m, now) <==>
      Servers(s, m, now) != {} || Repeats(s, m) <= |Both(s, m, now)| + |Strays(s, m, now)|
  {
    CountLaw(s, m, now);
    if c :| Serves(s, c, m, now) {
      assert c in Servers(s, m, now);
    }
    if Servers(s, m, now) != {} {
      var c :| c in Servers(s, m, now);
      assert Serves(s, c, m, now);
    }
  }

  /** When no client lists m twice a positive count is backed, wherever the marks are. */
  lemma PositiveCountHasServer(s: State, m: string, now: int)
    requires Inv(s) && NoRepeat(s, m) && ModelCount(s, m, now) > 0
    ensures exists c :: Serves(s, c, m, now)
  {
    RepeatsIff(s, m);
    BackedIff(s, m, now);
  }

  /** The state with other marks on m. */
  function Remarked(s: State, m: string, quota: map<string, int>, suspended: map<string, string>): State
    requires m in s.models
  {
    s.(models := s.models[m := s.models[m].(quota := quota, suspended := suspended)])
  }

  /** Whichever of its clients are marked, a positive count of m is backed. */
  ghost predicate AlwaysBacked(s: State, m: string, now: int) {
    m in s.models ==> forall quota: map<string, int>, suspended: map<string, string> ::
      quota.Keys + suspended.Keys <= Listers(s, s.clientModels.Keys, m) ==>
      Backed(Remarked(s, m, quota, suspended), m, now)
  }

  lemma RemarkedState(s: State, m: string, quota: map<string, int>, suspended: map<string, string>)
    requires Inv(s) && m in s.models
    ensures var t := Remarked(s, m, quota, suspended);
      Inv(t) && Repeats(t, m) == Repeats(s, m) && (NoRepeat(t, m) <==> NoRepeat(s, m))
  {
    var t := Remarked(s, m, quota, suspended);
    MarkKeeps(s, t);
    assert t.clientModels == s.clientModels;
    RepeatsIff(s, m);
    RepeatsIff(t, m);
  }

  /** With marks on the model's clients only, the promise holds however they are placed if and
      only if no client lists the model twice. */
  lemma AlwaysBackedIff(s: State, m: string, now: int)
    requires Inv(s)
    ensures AlwaysBacked(s, m, now) <==> NoRepeat(s, m)
  {
    RepeatsIff(s, m);
    if m !in s.models {
      assert Agrees(s, m);
      SumAtLeastListers(s, s.clientModels.Keys, m);
    } else if NoRepeat(s, m) {
      forall quota: map<string, int>, suspended: map<string, string>
        ensures Backed(Remarked(s, m, quota, suspended), m, now)
      {
        RemarkedState(s, m, quota, suspended);
        var t := Remarked(s, m, quota, suspended);
        if ModelCount(t, m, now) > 0 { PositiveCountHasServer(t, m, now); }
      }
    } else if AlwaysBacked(s, m, now) {
      AllSuspended(s, m, now);
    }
  }

  lemma AllSuspended(s: State, m: string, now: int)
    requires Inv(s) && m in s.models && AlwaysBacked(s, m, now)
    ensures Repeats(s, m) <= 0
  {
    var all: map<string, string> := map c | c in Listers(s, s.clientModels.Keys, m) :: "";
    var none: map<string, int> := map[];
    var t := Remarked(s, m, none, all);
    RemarkedState(s, m, none, all);
    assert none.Keys + all.Keys <= Listers(s, s.clientModels.Keys, m);
    assert Backed(t, m, now);
    BackedIff(t, m, now);
    assert Servers(t, m, now) == {} && Both(t, m, now) == {} && Strays(t, m, now) == {};
  }

  // ----- a count nobody backs -----

  const M := ModelInfo("m", "")

  /** One client registers, listing a model twice, and is suspended for it. */
  const TwiceRun := [(RegisterOp("c", "p", [Some(M), Some(M)]), 0), (SuspendOp("c", "m", ""), 0)]

  function Twice(suspended: map<string, string>): State {
    State(
      map["m" := Registration(M, map["p" := M], 2, 0, map[], map["p" := 2], suspended)],
      map["c" := ["m", "m"]], map["c" := map["m" := M]], map["c" := "p"])
  }

  lemma TwoSteps(a: (Op, int), b: (Op, int))
    ensures Run([a, b]) == Step(Step(Empty, a.0, a.1), b.0, b.1)
  {
    assert [a, b][..1] == [a] && [a][..0] == [];
    assert Run([a]) == Step(Run([]), a.0, a.1);
  }

  lemma TwiceListed()
    ensures RawIds([Some(M), Some(M)]) == ["m", "m"] && FirstInfos([Some(M), Some(M)]) == map["m" := M]
  {
    var list := [Some(M), Some(M)];
    assert list[..1] == [Some(M)] && [Some(M)][..0] == [];
    assert RawIds([Some(M)]) == ["m"] && FirstInfos([Some(M)]) == map["m" := M];
  }

  lemma TwiceRecord()
    ensures Increase(None, "p", M, 2, 0) == Twice(map[]).models["m"]
  {
  }

  lemma TwiceRegisteredNew()
    ensures RegisterNew(Empty, "c", "p", ["m", "m"], map["m" := M], 0) == Twice(map[])
  {
    TwiceRecord();
    assert Occurs(["m", "m"], "m") == 2;
    assert RegisterNew(Empty, "c", "p", ["m", "m"], map["m" := M], 0).models == Twice(map[]).models;
  }

  lemma TwiceRegistered()
    ensures Register(Empty, "c", "p", [Some(M), Some(M)], 0) == Twice(map[])
  {
    TwiceListed();
    TwiceRegisteredNew();
    assert ToLower("p") == "p";
  }

  lemma TwiceReached()
    ensures Run(TwiceRun) == Twice(map["c" := ""])
  {
    TwoSteps(TwiceRun[0], TwiceRun[1]);
    TwiceRegistered();
    assert Suspend(Twice(map[]), "c", "m", "", 0).models == Twice(map["c" := ""]).models;
  }

  /** With a repeated model the count need not be backed: a run in which the one client of m,
      which lists it twice, is suspended, and m still counts one. */
  lemma RepeatedModelCountsSuspendedClient()
    ensures var s := Run(TwiceRun); ModelCount(s, "m", 0) == 1 && forall c :: !Serves(s, c, "m", 0)
  {
    TwiceReached();
    TwiceCounted();
  }

  lemma TwiceCounted()
    ensures var s := Twice(map["c" := ""]); ModelCount(s, "m", 0) == 1 && forall c :: !Serves(s, c, "m", 0)
  {
    var r := Twice(map["c" := ""]).models["m"];
    assert Cooling(r, 0) == {};
    assert |r.suspended| == |r.suspended.Keys| == |{"c"}| by { assert r.suspended.Keys == {"c"}; }
  }

  // ----- availability -----

  function CooldownSuspended(r: Registration): set<string> {
    set c | c in r.suspended && EqualFold(r.suspended[c], "quota")
  }

  function OtherSuspended(r: Registration): set<string> {
    set c | c in r.suspended && !EqualFold(r.suspended[c], "quota")
  }

  /** Shown when a client is left, or when all are only waiting for their quota. */
  predicate Shown(clients: int, cooling: nat, waiting: nat, other: nat) {
    clients - cooling - other > 0 || (clients > 0 && (cooling > 0 || waiting > 0) && other == 0)
  }

  predicate Available(s: State, m: string, now: int) {
    m in s.models &&
    var r := s.models[m];
    Shown(r.count, |Cooling(r, now)|, |CooldownSuspended(r)|, |OtherSuspended(r)|)
  }

  function AvailableModels(s: State, now: int): map<string, ModelInfo> {
    map m | m in s.models && Available(s, m, now) :: s.models[m].info
  }

  // ----- availability by provider, by scanning the clients -----

  function TrimAll(list: seq<string>): seq<string> {
    seq(|list|, i requires 0 <= i < |list| => Trim(list[i]))
  }

  function TrimmedLists(s: State): map<string, seq<string>> {
    map c | c in s.clientModels :: TrimAll(s.clientModels[c])
  }

  /** How often the clients of a provider list an ID that trims to m. */
  ghost function ScannedCount(s: State, provider: string, m: string): nat {
    Sum(TrimmedLists(s), ClientsOf(s, provider), m)
  }

  function Within(clientProviders: map<string, string>, provider: string, cs: set<string>): set<string> {
    set c | c in cs && c != "" && c in clientProviders && clientProviders[c] == provider
  }

  ghost predicate AvailableBy(s: State, provider: string, m: string, now: int) {
    && m != ""
    && ScannedCount(s, provider, m) > 0
    && if m in s.models then
         var r := s.models[m];
         Shown(ScannedCount(s, provider, m), |Within(s.clientProviders, provider, Cooling(r, now))|,
               |Within(s.clientProviders, provider, CooldownSuspended(r))|,
               |Within(s.clientProviders, provider, OtherSuspended(r))|)
       else true
  }

  lemma OccursNext(list: seq<string>, x: string, m: string)
    ensures Occurs(list + [x], m) == Occurs(list, m) + if x == m then 1 else 0
  {
  }

  lemma TrimAllNext(list: seq<string>, x: string)
    ensures TrimAll(list + [x]) == TrimAll(list) + [Trim(x)]
  {
  }

  /** In this list trimming neither makes an m nor changes one. */
  predicate KeepsApart(list: seq<string>, m: string) {
    forall i :: 0 <= i < |list| ==> (Trim(list[i]) == m <==> list[i] == m)
  }

  /** Trimming a list can only make more of a trimmed ID, and only fewer of any other. */
  lemma {:induction false} TrimmedOccurs(list: seq<string>, m: string)
    ensures if Trim(m) == m then Occurs(TrimAll(list), m) >= Occurs(list, m)
      else Occurs(TrimAll(list), m) <= Occurs(list, m)
    ensures Occurs(TrimAll(list), m) == Occurs(list, m) <==> KeepsApart(list, m)
  {
    if list != [] {
      var init, x := list[..|list| - 1], list[|list| - 1];
      assert list == init + [x];
      TrimmedOccurs(init, m);
      TrimAllNext(init, x);
      OccursNext(init, x, m);
      OccursNext(TrimAll(init), Trim(x), m);
      TrimTwice(x);
      assert KeepsApart(list, m) <==> KeepsApart(init, m) && (Trim(x) == m <==> x == m);
    }
  }

  lemma TrimTwice(x: string)
    ensures Trim(Trim(x)) == Trim(x)
  {
    TrimIsTrimmed(x);
    TrimIsTrimmed(Trim(x));
  }

  /** Sums of which one is the larger everywhere are equal only if they are so everywhere. */
  lemma {:induction false} SumsCompare(a: map<string, seq<string>>, b: map<string, seq<string>>, cs: set<string>,
                                       m: string)
    requires cs <= a.Keys && cs <= b.Keys && forall c :: c in cs ==> Occurs(a[c], m) <= Occurs(b[c], m)
    ensures Sum(a, cs, m) <= Sum(b, cs, m)
    ensures Sum(a, cs, m) == Sum(b, cs, m) <==> forall c :: c in cs ==> Occurs(a[c], m) == Occurs(b[c], m)
    decreases |cs|
  {
    if cs != {} {
      var c :| c in cs;
      SumPick(a, cs, c, m);
      SumPick(b, cs, c, m);
      SumsCompare(a, b, cs - {c}, m);
      assert forall d :: d in cs <==> d == c || d in cs - {c};
    }
  }

  /** The scan of a provider's clients rebuilds its share in m if and only if, in their lists,
      trimming neither makes an m nor changes one. */
  lemma ScanEqualsIndex(s: State, provider: string, m: string)
    requires Inv(s) && provider != ""
    ensures ScannedCount(s, provider, m) == (if m in s.models then CountIn(s.models[m].providers, provider) else 0)
      <==> forall c :: c in ClientsOf(s, provider) ==> KeepsApart(s.clientModels[c], m)
  {
    var cs := ClientsOf(s, provider);
    assert Agrees(s, m);
    if m !in s.models { NothingSupplied(s, provider, m); }
    forall c | c in cs
      ensures Occurs(TrimmedLists(s)[c], m) == Occurs(s.clientModels[c], m) <==> KeepsApart(s.clientModels[c], m)
      ensures if Trim(m) == m then Occurs(s.clientModels[c], m) <= Occurs(TrimmedLists(s)[c], m)
        else Occurs(TrimmedLists(s)[c], m) <= Occurs(s.clientModels[c], m)
    {
      TrimmedOccurs(s.clientModels[c], m);
    }
    if Trim(m) == m {
      SumsCompare(s.clientModels, TrimmedLists(s), cs, m);
    } else {
      SumsCompare(TrimmedLists(s), s.clientModels, cs, m);
    }
  }

  /** A provider has a share in m exactly when one of its clients lists m. */
  lemma {:induction false} SumPositive(lists: map<string, seq<string>>, cs: set<string>, m: string)
    requires cs <= lists.Keys
    ensures Sum(lists, cs, m) > 0 <==> exists c :: c in cs && m in lists[c]
    decreases |cs|
  {
    if cs != {} {
      var c :| c in cs;
      SumPick(lists, cs, c, m);
      SumPositive(lists, cs - {c}, m);
    }
  }

  lemma ProvidersAreThoseWithClients(s: State, m: string, p: string)
    requires Inv(s) && p != ""
    ensures (m in s.models && p in s.models[m].providers) <==>
      exists c :: c in s.clientProviders && s.clientProviders[c] == p && m in ModelsOf(s, c)
  {
    assert Agrees(s, m);
    SumPositive(s.clientModels, ClientsOf(s, p), m);
    if m !in s.models {
      NothingSupplied(s, p, m);
    }
    if m in s.models && p in s.models[m].providers {
      assert CountIn(s.models[m].providers, p) == SupplyBy(s, p, m);
      var c :| c in ClientsOf(s, p) && m in s.clientModels[c];
      assert c in s.clientProviders && m in ModelsOf(s, c);
    }
    if c :| c in s.clientProviders && s.clientProviders[c] == p && m in ModelsOf(s, c) {
      assert c in ClientsOf(s, p) && m in s.clientModels[c];
      assert m in s.models ==> CountIn(s.models[m].providers, p) == SupplyBy(s, p, m);
    }
  }

  function CountOf(counts: map<string, nat>, id: string): nat {
    if id in counts then counts[id] else 0
  }

  /** The table `after` counts the non-blank entries of a list on top of `before`. */
  ghost predicate Adds(before: map<string, nat>, list: seq<string>, after: map<string, nat>) {
    && (forall t :: t != "" ==> CountOf(after, t) == CountOf(before, t) + Occurs(list, t))
    && (forall t :: t in after <==> t in before || (t != "" && Occurs(list, t) > 0))
  }

  /** Metadata given by the index or by one of the clients. */
  ghost predicate Sourced(s: State, clients: set<string>, t: string, info: ModelInfo) {
    || (t in s.models && info == s.models[t].info)
    || exists c :: c in clients && c in s.clientInfos && t in s.clientInfos[c] && info == s.clientInfos[c][t]
  }

  /** Metadata is found for exactly the counted IDs that the index has. */
  ghost predicate InfosFound(s: State, clients: set<string>, counts: map<string, nat>, infos: map<string, ModelInfo>) {
    && (forall t :: t in infos <==> t in counts && t in s.models)
    && (forall t :: t in infos ==> Sourced(s, clients, t, infos[t]))
  }

  lemma AddsMore(a: map<string, nat>, l: seq<string>, b: map<string, nat>, r: seq<string>, c: map<string, nat>)
    requires Adds(a, l, b) && Adds(b, r, c)
    ensures Adds(a, l + r, c)
  {
    assert forall t :: Occurs(l + r, t) == Occurs(l, t) + Occurs(r, t);
  }

  /** The table counts the trimmed lists of a set of clients. */
  ghost predicate Tabulates(s: State, done: set<string>, counts: map<string, nat>) {
    && done <= s.clientModels.Keys
    && (forall t :: t != "" ==> CountOf(counts, t) == Sum(TrimmedLists(s), done, t))
    && (forall t :: t in counts <==> t != "" && Sum(TrimmedLists(s), done, t) > 0)
  }

  lemma TabulatesMore(s: State, done: set<string>, c: string, before: map<string, nat>, after: map<string, nat>)
    requires Tabulates(s, done, before) && c in s.clientModels && c !in done
    requires Adds(before, TrimAll(s.clientModels[c]), after)
    ensures Tabulates(s, done + {c}, after)
  {
    forall t
      ensures Sum(TrimmedLists(s), done + {c}, t)
           == Occurs(TrimAll(s.clientModels[c]), t) + Sum(TrimmedLists(s), done, t)
    {
      SumPick(TrimmedLists(s), done + {c}, c, t);
      assert done + {c} - {c} == done;
    }
  }

  /** What a scan needs of the registry: clients with a provider are known, and every ID a
      client has metadata for is in the index. */
  ghost predicate Linked(s: State) {
    && s.clientInfos.Keys == s.clientModels.Keys
    && s.clientProviders.Keys <= s.clientModels.Keys
    && forall c, t :: c in s.clientInfos && t in s.clientInfos[c] ==> t in s.models
  }

  lemma InvLinks(s: State)
    requires Inv(s)
    ensures Linked(s)
  {
    forall c, t | c in s.clientInfos && t in s.clientInfos[c] ensures t in s.models {
      assert Listing(s.clientModels[c], s.clientInfos[c]);
      assert Agrees(s, t);
      SumPick(s.clientModels, s.clientModels.Keys, c, t);
    }
  }

  lemma AddsEntry(a: map<string, nat>, list: seq<string>, b: map<string, nat>, t: string)
    requires Adds(a, list, b)
    ensures Adds(a, list + [t], if t == "" then b else b[t := CountOf(b, t) + 1])
  {
    AddsMore(a, list, b, [t], if t == "" then b else b[t := CountOf(b, t) + 1]);
  }

  /** The table after counting the trimmed entries of a list. */
  function Tally(counts: map<string, nat>, list: seq<string>): map<string, nat> {
    if list == [] then counts
    else
      var before := Tally(counts, list[..|list| - 1]);
      var t := Trim(list[|list| - 1]);
      if t == "" then before else before[t := CountOf(before, t) + 1]
  }

  lemma TallyNext(counts: map<string, nat>, list: seq<string>, i: nat)
    requires i < |list|
    ensures var before, t := Tally(counts, list[..i]), Trim(list[i]);
      Tally(counts, list[..i + 1]) == if t == "" then before else before[t := CountOf(before, t) + 1]
  {
    assert list[..i + 1][..i] == list[..i];
  }

  lemma {:induction false} TallyAdds(counts: map<string, nat>, list: seq<string>)
    ensures Adds(counts, TrimAll(list), Tally(counts, list))
  {
    if list != [] {
      var init, t := list[..|list| - 1], Trim(list[|list| - 1]);
      TallyAdds(counts, init);
      assert TrimAll(list) == TrimAll(init) + [t];
      AddsEntry(counts, TrimAll(init), Tally(counts, init), t);
    }
  }

  // ----- ranking of providers -----

  /** Higher count first, equal counts by name. */
  predicate Before(ps: map<string, int>, a: string, b: string)
    requires a in ps && b in ps
  {
    ps[a] > ps[b] || (ps[a] == ps[b] && Less(a, b))
  }

  lemma BeforeTransitive(ps: map<string, int>, a: string, b: string, c: string)
    requires a in ps && b in ps && c in ps && Before(ps, a, b) && Before(ps, b, c)
    ensures Before(ps, a, c)
  {
    if ps[a] == ps[b] == ps[c] { LessTransitive(a, b, c); }
  }

  lemma BeforeOrder(ps: map<string, int>, a: string, b: string)
    requires a in ps && b in ps && a != b
    ensures Before(ps, a, b) <==> !Before(ps, b, a)
  {
    LessTotal(a, b);
  }

  predicate Ranked(ps: map<string, int>, names: seq<string>) {
    && (forall i :: 0 <= i < |names| ==> names[i] in ps)
    && forall i, j :: 0 <= i < j < |names| ==> Before(ps, names[i], names[j])
  }

  /** In a ranked list counts never rise, and equal counts stand in the order of the names. */
  lemma RankedIff(ps: map<string, int>, names: seq<string>)
    requires forall i :: 0 <= i < |names| ==> names[i] in ps
    ensures Ranked(ps, names) <==> forall i, j :: 0 <= i < j < |names| ==>
      ps[names[i]] > ps[names[j]] || (ps[names[i]] == ps[names[j]] && exists k: nat :: Precedes(names[i], names[j], k))
  {
    forall i, j | 0 <= i < j < |names|
      ensures Less(names[i], names[j]) <==> exists k: nat :: Precedes(names[i], names[j], k)
    {
      LessIff(names[i], names[j]);
    }
  }

  /** The ranking is strict, so it fixes the list. */
  lemma {:induction false} RankingUnique(ps: map<string, int>, a: seq<string>, b: seq<string>)
    requires Ranked(ps, a) && Ranked(ps, b)
    requires forall p :: p in a <==> p in b
    ensures a == b
  {
    assert a == [] <==> b == [] by {
      assert a != [] ==> a[0] in b;
      assert b != [] ==> b[0] in a;
    }
    if a != [] {
      assert a[0] in b;
      assert b[0] in a;
      var i :| 0 <= i < |b| && b[i] == a[0];
      var j :| 0 <= j < |a| && a[j] == b[0];
      LessTotal(a[0], b[0]);
      assert a[0] == b[0];
      forall p ensures p in a[1..] <==> p in b[1..] {
        LessTotal(a[0], a[0]);
        assert p in a <==> p == a[0] || p in a[1..];
        assert p in b <==> p == b[0] || p in b[1..];
      }
      RankingUnique(ps, a[1..], b[1..]);
    }
  }
}
