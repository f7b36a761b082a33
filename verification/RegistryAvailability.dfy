/** What being listed means for a model's clients, and what a mark means for its client. */
module RegistryAvailability {
  import opened Text
  import opened RegistryModel
  import opened RegistryProofs
  import opened RegistryQueries
  import opened RegistryCleanup

  // ----- the clients of a model -----

  /** The quota mark is less than five minutes old. */
  predicate CoolsDown(r: Registration, c: string, now: int) {
    c in r.quota && now - r.quota[c] < 5 * 60 * 1_000_000_000
  }

  /** Suspended for its quota. */
  predicate WaitsForQuota(r: Registration, c: string) {
    c in r.suspended && ToLower(r.suspended[c]) == "quota"
  }

  /** Suspended for another reason. */
  predicate Blocked(r: Registration, c: string) {
    c in r.suspended && ToLower(r.suspended[c]) != "quota"
  }

  /** The marked clients out of `cs`, cooling down or blocked. */
  function Out(r: Registration, cs: set<string>, now: int): set<string> {
    set c | c in cs && (CoolsDown(r, c, now) || Blocked(r, c))
  }

  function CoolingBlocked(r: Registration, cs: set<string>, now: int): set<string> {
    set c | c in cs && CoolsDown(r, c, now) && Blocked(r, c)
  }

  function MarkedClients(r: Registration): set<string> {
    r.quota.Keys + r.suspended.Keys
  }

  /** A model with `supply` entries by `listers`, and marks on the clients `marked`, is listed
      when the listers that are neither cooling down nor blocked, with the repeated entries,
      outnumber the clients that are both and the marked ones that do not list it; or when it has
      a client, none is blocked and one is cooling down or waiting for its quota. */
  ghost predicate Listed(r: Registration, supply: int, listers: set<string>, marked: set<string>, now: int) {
    || |listers - Out(r, marked, now)| + (supply - |listers|)
       > |CoolingBlocked(r, marked, now)| + |Out(r, marked, now) - listers|
    || (supply > 0 && (forall c :: c in marked ==> !Blocked(r, c))
        && exists c :: c in marked && (CoolsDown(r, c, now) || WaitsForQuota(r, c)))
  }

  lemma ShownIff(r: Registration, supply: int, listers: set<string>, marked: set<string>, now: int,
                 cooling: set<string>, waiting: set<string>, other: set<string>)
    requires forall c :: c in cooling <==> c in marked && CoolsDown(r, c, now)
    requires forall c :: c in waiting <==> c in marked && WaitsForQuota(r, c)
    requires forall c :: c in other <==> c in marked && Blocked(r, c)
    ensures Shown(supply, |cooling|, |waiting|, |other|) <==> Listed(r, supply, listers, marked, now)
  {
    Sizes(listers, cooling, other);
    assert Out(r, marked, now) == cooling + other;
    assert CoolingBlocked(r, marked, now) == cooling * other;
    Inhabited(cooling);
    Inhabited(waiting);
    Inhabited(other);
  }

  lemma Inhabited<T>(xs: set<T>)
    ensures |xs| > 0 <==> exists x :: x in xs
  {
    if |xs| > 0 { var x :| x in xs; }
  }

  /** When a model is listed, in every state that agrees with its relation. */
  lemma ListedIff(s: State, m: string, now: int)
    requires Inv(s) && m in s.models
    ensures m in AvailableModels(s, now) <==>
      Listed(s.models[m], Supply(s, m), Listers(s, s.clientModels.Keys, m), MarkedClients(s.models[m]), now)
  {
    var r := s.models[m];
    assert Agrees(s, m);
    assert ToLower("quota") == "quota";
    ShownIff(r, r.count, Listers(s, s.clientModels.Keys, m), MarkedClients(r), now, Cooling(r, now),
             CooldownSuspended(r), OtherSuspended(r));
  }

  /** With no repeated entry and marks on the model's clients only: a model is listed when more of
      its clients are free than are both cooling down and blocked, or when none is blocked and one
      is cooling down or waiting for its quota. */
  lemma ListedWithoutRepeats(s: State, m: string, now: int)
    requires Inv(s) && m in s.models && NoRepeat(s, m)
    requires MarkedClients(s.models[m]) <= Listers(s, s.clientModels.Keys, m)
    ensures var r, clients := s.models[m], Listers(s, s.clientModels.Keys, m);
      m in AvailableModels(s, now) <==>
        || |clients - Out(r, clients, now)| > |CoolingBlocked(r, clients, now)|
        || ((forall c :: c in clients ==> !Blocked(r, c))
            && exists c :: c in clients && (CoolsDown(r, c, now) || WaitsForQuota(r, c)))
  {
    var r, clients := s.models[m], Listers(s, s.clientModels.Keys, m);
    assert Agrees(s, m);
    RepeatsIff(s, m);
    ListedIff(s, m, now);
    assert Out(r, MarkedClients(r), now) == Out(r, clients, now);
    assert CoolingBlocked(r, MarkedClients(r), now) == CoolingBlocked(r, clients, now);
    assert Out(r, clients, now) - clients == {};
  }

  // ----- the clients of one provider -----

  /** The provider's clients with an entry that trims to m. */
  ghost function ListersBy(s: State, provider: string, m: string): set<string> {
    set c | c in ClientsOf(s, provider) && Occurs(TrimAll(s.clientModels[c]), m) > 0
  }

  function MarkedBy(s: State, provider: string, r: Registration): set<string> {
    set c | c in MarkedClients(r) && c != "" && c in s.clientProviders && s.clientProviders[c] == provider
  }

  lemma {:induction false} ScannedPositive(lists: map<string, seq<string>>, cs: set<string>, m: string)
    requires cs <= lists.Keys
    ensures Sum(lists, cs, m) > 0 <==> exists c :: c in cs && Occurs(lists[c], m) > 0
    decreases |cs|
  {
    if cs != {} {
      var c :| c in cs;
      SumPick(lists, cs, c, m);
      ScannedPositive(lists, cs - {c}, m);
    }
  }

  /** When a model is on offer by a provider: the same of the provider's clients and their marks. */
  lemma ListedByIff(s: State, provider: string, m: string, now: int)
    requires m in s.models && m != ""
    ensures AvailableBy(s, provider, m, now) <==>
      && ListersBy(s, provider, m) != {}
      && Listed(s.models[m], ScannedCount(s, provider, m), ListersBy(s, provider, m),
                MarkedBy(s, provider, s.models[m]), now)
  {
    var r, lists := s.models[m], TrimmedLists(s);
    ScannedPositive(lists, ClientsOf(s, provider), m);
    if ScannedCount(s, provider, m) > 0 {
      var c :| c in ClientsOf(s, provider) && Occurs(lists[c], m) > 0;
      assert c in ListersBy(s, provider, m);
    }
    if ListersBy(s, provider, m) != {} {
      var c :| c in ListersBy(s, provider, m);
      assert Occurs(lists[c], m) > 0;
    }
    assert ToLower("quota") == "quota";
    ShownIff(r, ScannedCount(s, provider, m), ListersBy(s, provider, m), MarkedBy(s, provider, r), now,
             Within(s.clientProviders, provider, Cooling(r, now)),
             Within(s.clientProviders, provider, CooldownSuspended(r)),
             Within(s.clientProviders, provider, OtherSuspended(r)));
  }

  // ----- what a mark does to its client -----

  /** The marks of c on m. */
  datatype Marks = Marks(quota: Option<int>, suspended: bool)

  function MarksOf(s: State, c: string, m: string): Marks {
    if m !in s.models then Marks(None, false)
    else Marks(Lookup(s.models[m].quota, c), c in s.models[m].suspended)
  }

  /** The operation is none of c's registrations and none of its marks on m. */
  predicate Leaves(op: Op, c: string, m: string) {
    match op
    case RegisterOp(d, _, _) => d != c
    case UnregisterOp(d) => d != c
    case SetQuotaOp(d, n) => d != c || n != m
    case ClearQuotaOp(d, n) => d != c || n != m
    case SuspendOp(d, n, _) => d != c || n != m
    case ResumeOp(d, n) => d != c || n != m
    case CleanupOp => true
  }

  /** c lists m and has the given marks on it, but for a quota mark that has expired by now. */
  predicate KeepsMarks(s: State, c: string, m: string, marks: Marks, now: int) {
    && c in s.clientModels && m in s.clientModels[c] && m in s.models
    && MarksOf(s, c, m).suspended == marks.suspended
    && (MarksOf(s, c, m).quota == marks.quota || (MarksOf(s, c, m).quota == None && Expired(marks, now)))
  }

  predicate Expired(marks: Marks, now: int) {
    marks.quota.Some? && now - marks.quota.value >= 5 * 60 * 1_000_000_000
  }

  lemma UnregisterLeavesMarks(s: State, d: string, now: int, c: string, m: string)
    requires c != d && m in s.models && m in Unregister(s, d, now).models
    ensures MarksOf(Unregister(s, d, now), c, m) == MarksOf(s, c, m)
  {
  }

  lemma RegisterNewLeavesMarks(s: State, d: string, p: string, raw: seq<string>, infos: map<string, ModelInfo>,
                               now: int, c: string, m: string)
    requires m in s.models
    ensures var t := RegisterNew(s, d, p, raw, infos, now); m in t.models && MarksOf(t, c, m) == MarksOf(s, c, m)
  {
  }

  lemma RegisterKnownLeavesMarks(s: State, d: string, p: string, raw: seq<string>, infos: map<string, ModelInfo>,
                                 now: int, c: string, m: string)
    requires c != d && m in s.models && m in RegisterKnown(s, d, p, raw, infos, now).models
    ensures MarksOf(RegisterKnown(s, d, p, raw, infos, now), c, m) == MarksOf(s, c, m)
  {
    if m in infos { assert Lookup(s.models, m) == Some(s.models[m]); }
  }

  lemma RegisterLeavesMarks(s: State, d: string, p: string, ms: seq<Option<ModelInfo>>, now: int, c: string, m: string)
    requires c != d && m in s.models && m in Register(s, d, p, ms, now).models
    ensures MarksOf(Register(s, d, p, ms, now), c, m) == MarksOf(s, c, m)
  {
    var provider, raw, infos := ToLower(p), RawIds(ms), FirstInfos(ms);
    if raw == [] {
      UnregisterLeavesMarks(s, d, now, c, m);
    } else if d in s.clientModels {
      RegisterKnownLeavesMarks(s, d, provider, raw, infos, now, c, m);
    } else {
      RegisterNewLeavesMarks(s, d, provider, raw, infos, now, c, m);
    }
  }

  /** What one client lists does not change with another's registration. */
  lemma OthersKeepList(s: State, op: Op, now: int, c: string)
    requires (op.RegisterOp? || op.UnregisterOp?) && op.client != c && c in s.clientModels
    ensures var t := Step(s, op, now); c in t.clientModels && t.clientModels[c] == s.clientModels[c]
  {
  }

  /** A client's models are in the index. */
  lemma ListedIsPresent(s: State, c: string, m: string)
    requires Inv(s) && c in s.clientModels && m in s.clientModels[c]
    ensures m in s.models
  {
    assert Agrees(s, m);
    SumPick(s.clientModels, s.clientModels.Keys, c, m);
  }

  lemma StepLeavesMarks(s: State, op: Op, time: int, c: string, m: string, marks: Marks, now: int)
    requires Inv(Step(s, op, time)) && Leaves(op, c, m) && KeepsMarks(s, c, m, marks, now) && time <= now
    ensures KeepsMarks(Step(s, op, time), c, m, marks, now)
  {
    match op
    case RegisterOp(d, p, ms) =>
      OthersKeepList(s, op, time, c);
      ListedIsPresent(Step(s, op, time), c, m);
      RegisterLeavesMarks(s, d, p, ms, time, c, m);
    case UnregisterOp(d) =>
      OthersKeepList(s, op, time, c);
      ListedIsPresent(Step(s, op, time), c, m);
      UnregisterLeavesMarks(s, d, time, c, m);
    case _ => MarkLeavesMarks(s, op, time, c, m, marks, now);
  }

  lemma MarkLeavesMarks(s: State, op: Op, time: int, c: string, m: string, marks: Marks, now: int)
    requires !op.RegisterOp? && !op.UnregisterOp? && Leaves(op, c, m)
    requires KeepsMarks(s, c, m, marks, now) && time <= now
    ensures KeepsMarks(Step(s, op, time), c, m, marks, now)
  {
  }

  lemma {:induction false} RunLeavesMarks(before: seq<(Op, int)>, after: seq<(Op, int)>, c: string, m: string,
                                          marks: Marks, now: int)
    requires KeepsMarks(Run(before), c, m, marks, now)
    requires forall k :: 0 <= k < |after| ==> Leaves(after[k].0, c, m) && after[k].1 <= now
    ensures KeepsMarks(Run(before + after), c, m, marks, now)
    decreases |after|
  {
    if after == [] {
      assert before + after == before;
    } else {
      var init, last := after[..|after| - 1], after[|after| - 1];
      RunLeavesMarks(before, init, c, m, marks, now);
      assert before + after == before + init + [last];
      RunAppend(before + init, last);
      Reachable(before + after);
      StepLeavesMarks(Run(before + init), last.0, last.1, c, m, marks, now);
    }
  }

  /** What a client's marks mean until it is registered or marked again, whatever else happens
      in between: it serves the model exactly when it is not suspended and its quota mark, if it
      has one, is five minutes old or older. */
  lemma MarksLast(before: seq<(Op, int)>, after: seq<(Op, int)>, c: string, m: string, now: int)
    requires c in Run(before).clientModels && m in Run(before).clientModels[c]
    requires forall k :: 0 <= k < |after| ==> Leaves(after[k].0, c, m) && after[k].1 <= now
    ensures var marks := MarksOf(Run(before), c, m);
      Serves(Run(before + after), c, m, now) <==>
        !marks.suspended && (marks.quota.None? || now - marks.quota.value >= 5 * 60 * 1_000_000_000)
  {
    Reachable(before);
    ListedIsPresent(Run(before), c, m);
    RunLeavesMarks(before, after, c, m, MarksOf(Run(before), c, m), now);
  }

  /** What each marking operation does to the marks of its client. */
  lemma MarkingSetsMarks(s: State, c: string, m: string, why: string, now: int)
    requires Inv(s) && c in s.clientModels && m in s.clientModels[c]
    ensures var marks := MarksOf(s, c, m);
      && MarksOf(SetQuota(s, c, m, now), c, m) == marks.(quota := Some(now))
      && MarksOf(ClearQuota(s, c, m), c, m) == marks.(quota := None)
      && (c != "" ==> MarksOf(Suspend(s, c, m, why, now), c, m) == marks.(suspended := true))
      && (c != "" ==> MarksOf(Resume(s, c, m, now), c, m) == marks.(suspended := false))
      && (c != "" && !marks.suspended ==> Suspend(s, c, m, why, now).models[m].suspended[c] == why)
  {
    ListedIsPresent(s, c, m);
    assert Listing(s.clientModels[c], s.clientInfos[c]);
  }

  /** A mark that is there already, or is not there to be taken away, changes nothing; nor does a
      mark on a model without clients or for no client, and a suspension keeps its first reason. */
  lemma IdleMarks(s: State, c: string, m: string, why: string, now: int)
    ensures m !in s.models ==> SetQuota(s, c, m, now) == s && ClearQuota(s, c, m) == s
    ensures c == "" || m == "" || m !in s.models || MarksOf(s, c, m).suspended ==> Suspend(s, c, m, why, now) == s
    ensures c == "" || m == "" || m !in s.models || !MarksOf(s, c, m).suspended ==> Resume(s, c, m, now) == s
  {
  }

  /** So from a quota mark on, the client does not serve the model for five minutes, and from then
      on it does, unless it is suspended. */
  lemma QuotaMarkLasts(before: seq<(Op, int)>, at: int, after: seq<(Op, int)>, c: string, m: string, now: int)
    requires c in Run(before).clientModels && m in Run(before).clientModels[c]
    requires forall k :: 0 <= k < |after| ==> Leaves(after[k].0, c, m) && after[k].1 <= now
    ensures var s := Run(before + [(SetQuotaOp(c, m), at)] + after);
      Serves(s, c, m, now) <==> !MarksOf(Run(before), c, m).suspended && now >= at + 5 * 60 * 1_000_000_000
  {
    var marked := before + [(SetQuotaOp(c, m), at)];
    Reachable(before);
    RunAppend(before, (SetQuotaOp(c, m), at));
    MarkingSetsMarks(Run(before), c, m, "", at);
    MarksLast(marked, after, c, m, now);
  }
}
