/** The passes the incremental path makes over one model's record, and the proof that
    together they are one reconciliation. */
module RegistryPasses {
  import opened Text
  import opened RegistryModel
  import opened RegistryProofs
  import opened RegistryEquivalence
  import opened RegistryQueries

  function Min(a: nat, b: nat): nat { if a < b then a else b }

  /** Pass 1: the supplies that stay leave the old provider. */
  function Shifted(o: Option<Registration>, oldProvider: string, n: nat): Option<Registration> {
    if n == 0 || o.None? then o
    else
      var r := o.value;
      Some(r.(providers := DropProvider(r.providers, oldProvider, n),
              infoByProvider := DropInfo(r.infoByProvider, r.providers, oldProvider, n)))
  }

  /** Pass 5: the metadata. */
  function Refreshed(r: Registration, client: string, provider: string, info: ModelInfo, overlap: nat,
                     now: int): Registration {
    r.(info := info, infoByProvider := SetInfo(r.infoByProvider, provider, info), lastUpdated := now,
       quota := r.quota - {client}, suspended := r.suspended - {client},
       providers := if overlap == 0 then r.providers else AddProvider(r.providers, provider, overlap))
  }

  lemma DropTwice(ps: map<string, int>, infos: map<string, ModelInfo>, p: string, a: nat, b: nat)
    requires a > 0 && b > 0
    ensures var once := DropProvider(ps, p, a);
      && DropProvider(once, p, b) == DropProvider(ps, p, a + b)
      && DropInfo(DropInfo(infos, ps, p, a), once, p, b) == DropInfo(infos, ps, p, a + b)
  {
    if p != "" && p in ps && ps[p] > a + b {
      assert ps[p := ps[p] - a][p := ps[p] - a - b] == ps[p := ps[p] - (a + b)];
    }
  }

  lemma FewerOnce(o: Option<Registration>, c: string, p: string, n: nat, now: int)
    ensures Fewer(Fewer(o, c, p, n, now), c, p, 1, now) == Fewer(o, c, p, n + 1, now)
  {
    if n > 0 && o.Some? {
      var r := o.value;
      DropTwice(r.providers, r.infoByProvider, p, n, 1);
      assert r.quota - {c} - {c} == r.quota - {c};
      assert r.suspended - {c} - {c} == r.suspended - {c};
    }
  }

  lemma AddTwice(ps: map<string, int>, p: string, a: nat, b: nat)
    ensures AddProvider(AddProvider(ps, p, a), p, b) == AddProvider(ps, p, a + b)
  {
    assert ps[p := CountIn(ps, p) + a][p := CountIn(ps, p) + a + b] == ps[p := CountIn(ps, p) + (a + b)];
  }

  lemma MoreOnce(o: Option<Registration>, p: string, info: ModelInfo, n: nat, now: int)
    ensures More(More(o, p, info, n, now), p, info, 1, now) == More(o, p, info, n + 1, now)
  {
    if n > 0 {
      var r := if o.Some? then o.value else Blank;
      AddTwice(r.providers, p, n, 1);
      SetInfoTwice(r.infoByProvider, p, info);
    }
  }

  lemma SetInfoTwice(infos: map<string, ModelInfo>, p: string, info: ModelInfo)
    ensures SetInfo(SetInfo(infos, p, info), p, info) == SetInfo(infos, p, info)
  {
    assert infos[p := info][p := info] == infos[p := info];
  }

  /** Provider counts and provider metadata through the passes, when the provider changes. */
  lemma PassesChangeProvider(ps: map<string, int>, infos: map<string, ModelInfo>, oldP: string, was: nat, p: string,
                             listed: nat)
    requires oldP != p && 0 < listed && (forall q :: q in ps ==> ps[q] > 0)
    requires oldP != "" ==> was <= CountIn(ps, oldP)
    ensures var stay := Min(was, listed);
      var ps1, infos1 := if oldP == "" || stay == 0 then ps else DropProvider(ps, oldP, stay),
                         if oldP == "" || stay == 0 then infos else DropInfo(infos, ps, oldP, stay);
      var ps2, infos2 := if was == stay then ps1 else DropProvider(ps1, oldP, was - stay),
                         if was == stay then infos1 else DropInfo(infos1, ps1, oldP, was - stay);
      var ps3 := if listed == stay then ps2 else AddProvider(ps2, p, listed - stay);
      && (if stay == 0 then ps3 else AddProvider(ps3, p, stay)) == AddProvider(DropProvider(ps, oldP, was), p, listed)
      && infos2 == DropInfo(infos, ps, oldP, was)
  {
    var stay := Min(was, listed);
    if 0 < stay < was {
      DropTwice(ps, infos, oldP, stay, was - stay);
    }
    if was == 0 {
      assert DropProvider(ps, oldP, 0) == ps;
    }
    AddTwice(DropProvider(ps, oldP, was), p, listed - stay, stay);
  }

  /** The same when the provider stays. */
  lemma PassesSameProvider(ps: map<string, int>, infos: map<string, ModelInfo>, p: string, was: nat, listed: nat,
                           info: ModelInfo)
    requires 0 < listed && (forall q :: q in ps ==> ps[q] > 0)
    requires p != "" ==> was <= CountIn(ps, p)
    ensures var stay := Min(was, listed);
      var ps2, infos2 := if was == stay then ps else DropProvider(ps, p, was - stay),
                         if was == stay then infos else DropInfo(infos, ps, p, was - stay);
      && (if listed == stay then ps2 else AddProvider(ps2, p, listed - stay))
         == AddProvider(DropProvider(ps, p, was), p, listed)
      && SetInfo(infos2, p, info) == SetInfo(DropInfo(infos, ps, p, was), p, info)
  {
  }

  /** The five passes amount to one reconciliation of the record. */
  lemma PassesReconcile(o: Option<Registration>, c: string, oldP: string, was: nat, p: string, listed: nat,
                        info: ModelInfo, now: int)
    requires Sane(o) && listed > 0 && was <= Count(o) && (oldP != "" ==> was <= Share(o, oldP))
    ensures var stay, changed := Min(was, listed), oldP != p;
      var o1 := Shifted(o, oldP, if changed && oldP != "" then stay else 0);
      var o3 := More(Fewer(o1, c, oldP, was - stay, now), p, info, listed - stay, now);
      o3.Some? && Refreshed(o3.value, c, p, info, if changed then stay else 0, now)
               == Reconcile(o, c, oldP, was, p, listed, info, now)
  {
    var r := if o.Some? then o.value else Blank;
    assert r.quota - {c} - {c} == r.quota - {c};
    assert r.suspended - {c} - {c} == r.suspended - {c};
    if oldP != p {
      PassesChangeProvider(r.providers, r.infoByProvider, oldP, was, p, listed);
    } else {
      PassesSameProvider(r.providers, r.infoByProvider, p, was, listed, info);
    }
    SetInfoTwice(DropInfo(r.infoByProvider, r.providers, oldP, was), p, info);
  }

  /** The occurrence counts of a list, as the code tabulates them. */
  ghost predicate Counts(counts: map<string, nat>, ids: seq<string>) {
    forall id :: CountOf(counts, id) == Occurs(ids, id) && (id in counts <==> Occurs(ids, id) > 0)
  }

  function InfoOf(infos: map<string, ModelInfo>, id: string): ModelInfo {
    if id in infos then infos[id] else ModelInfo("", "")
  }

  lemma NewLookup(s: State, c: string, p: string, raw: seq<string>, infos: map<string, ModelInfo>, now: int, m: string)
    requires Listing(raw, infos)
    ensures Lookup(RegisterNew(s, c, p, raw, infos, now).models, m)
         == More(Lookup(s.models, m), p, InfoOf(infos, m), Occurs(raw, m), now)
  {
  }

  /** Passes 2 (models removed) and 3 (models listed less often). */
  function Surplus(o: Option<Registration>, c: string, oldP: string, was: nat, listed: nat, removed: bool, now: int)
    : Option<Registration> {
    if was > listed && (listed == 0 <==> removed) then Fewer(o, c, oldP, was - listed, now) else o
  }

  /** Pass 4. */
  function Missing(o: Option<Registration>, p: string, was: nat, listed: nat, info: ModelInfo,
                   now: int): Option<Registration> {
    if listed > was then More(o, p, info, listed - was, now) else o
  }

  /** Pass 5. */
  function Metadata(o: Option<Registration>, c: string, p: string, was: nat, listed: nat, info: ModelInfo,
                    changed: bool, now: int)
    : Option<Registration> {
    if listed > 0 && o.Some? then Some(Refreshed(o.value, c, p, info, if changed then Min(was, listed) else 0, now))
    else o
  }

  function Passes(o: Option<Registration>, c: string, oldP: string, was: nat, p: string, listed: nat,
                  info: ModelInfo, now: int)
    : Option<Registration>
  {
    var o1 := if oldP != p && oldP != "" then Shifted(o, oldP, Min(was, listed)) else o;
    var o3 := Surplus(Surplus(o1, c, oldP, was, listed, true, now), c, oldP, was, listed, false, now);
    Metadata(Missing(o3, p, was, listed, info, now), c, p, was, listed, info, oldP != p, now)
  }

  lemma PassesListed(o: Option<Registration>, c: string, oldP: string, was: nat, p: string, listed: nat,
                     info: ModelInfo, now: int)
    requires Sane(o) && listed > 0 && was <= Count(o) && (oldP != "" ==> was <= Share(o, oldP))
    ensures Passes(o, c, oldP, was, p, listed, info, now) == Some(Reconcile(o, c, oldP, was, p, listed, info, now))
  {
    PassesReconcile(o, c, oldP, was, p, listed, info, now);
  }

  /** The passes, on the record of any model, reach the record of the updated registry. */
  lemma PassesUpdate(s: State, c: string, p: string, raw: seq<string>, infos: map<string, ModelInfo>, now: int,
                     m: string)
    requires Agrees(s, m) && c in s.clientModels && Listing(raw, infos)
    ensures Passes(Lookup(s.models, m), c, ProviderOf(s, c), Occurs(ModelsOf(s, c), m), p, Occurs(raw, m),
                   InfoOf(infos, m), now)
         == Lookup(RegisterKnown(s, c, p, raw, infos, now).models, m)
  {
    KnownRecord(s, c, p, raw, infos, now, m);
    var o, oldP, was := Lookup(s.models, m), ProviderOf(s, c), Occurs(ModelsOf(s, c), m);
    if m in infos {
      ClientShare(s, c, m);
      PassesListed(o, c, oldP, was, p, Occurs(raw, m), infos[m], now);
    } else {
      assert Passes(o, c, oldP, was, p, 0, InfoOf(infos, m), now) == Fewer(o, c, oldP, was, now);
    }
  }
}
