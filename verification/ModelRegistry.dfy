/** The registry itself: four maps, the first one to registration objects that the
    methods update in place. View() is its value; each method is proved to take it to
    the value RegistryModel gives, and Valid() carries the agreement of the index. */
module ModelRegistryObjects {
  import opened Text
  import opened RegistryModel
  import opened RegistryProofs
  import opened RegistryPasses
  import opened RegistryEquivalence
  import opened RegistryQueries
  import opened RegistryCleanup

  class ModelRegistration {
    var info: ModelInfo
    var infoByProvider: map<string, ModelInfo>
    var count: int
    var lastUpdated: int
    var quotaExceededClients: map<string, int>
    var providers: map<string, int>
    var suspendedClients: map<string, string>

    constructor (info: ModelInfo, provider: string, now: int)
      ensures View() == Increase(None, provider, info, 1, now)
    {
      this.info, count, lastUpdated := info, 1, now;
      quotaExceededClients, suspendedClients := map[], map[];
      providers, infoByProvider := map[], map[];
      if provider != "" {
        providers := map[provider := 1];
        infoByProvider := map[provider := info];
      }
    }

    ghost function View(): Registration
      reads this
    {
      Registration(info, infoByProvider, count, lastUpdated, quotaExceededClients, providers, suspendedClients)
    }

    /** One supply more. */
    method Gain(provider: string, model: ModelInfo, now: int)
      modifies this
      ensures View() == Increase(Some(old(View())), provider, model, 1, now)
    {
      count := count + 1;
      lastUpdated := now;
      info := model;
      if provider != "" {
        providers := providers[provider := CountIn(providers, provider) + 1];
        infoByProvider := infoByProvider[provider := model];
      }
    }

    /** n supplies less by a provider; the provider goes with its last one. */
    method DropProvider(provider: string, n: nat)
      modifies this`providers, this`infoByProvider
      ensures providers == RegistryModel.DropProvider(old(providers), provider, n)
      ensures infoByProvider == DropInfo(old(infoByProvider), old(providers), provider, n)
    {
      if provider != "" && provider in providers {
        if providers[provider] <= n {
          providers := providers - {provider};
          infoByProvider := infoByProvider - {provider};
        } else {
          providers := providers[provider := providers[provider] - n];
        }
      }
    }

    /** The metadata pass of a re-registration; `overlap` supplies move to a new provider. */
    method Refresh(clientID: string, provider: string, model: ModelInfo, overlap: nat, now: int)
      modifies this
      ensures View() == Refreshed(old(View()), clientID, provider, model, overlap, now)
    {
      info := model;
      if provider != "" {
        infoByProvider := infoByProvider[provider := model];
      }
      lastUpdated := now;
      quotaExceededClients := quotaExceededClients - {clientID};
      suspendedClients := suspendedClients - {clientID};
      if provider != "" && overlap > 0 {
        providers := providers[provider := CountIn(providers, provider) + overlap];
      }
    }

    /** One supply less by a client; an exhausted record is left with count 0. */
    method Lose(clientID: string, provider: string, now: int)
      modifies this
      ensures var r := Decrease(old(View()), clientID, provider, 1, now);
        if r.Some? then View() == r.value && count > 0 else count <= 0
    {
      count := count - 1;
      lastUpdated := now;
      quotaExceededClients := quotaExceededClients - {clientID};
      suspendedClients := suspendedClients - {clientID};
      if count < 0 {
        count := 0;
      }
      DropProvider(provider, 1);
    }
  }

  class ModelRegistry {
    var models: map<string, ModelRegistration>
    var clientModels: map<string, seq<string>>
    var clientModelInfos: map<string, map<string, ModelInfo>>
    var clientProviders: map<string, string>

    constructor ()
      ensures Valid() && View() == Empty && fresh(models.Values)
    {
      models, clientModels, clientModelInfos, clientProviders := map[], map[], map[], map[];
      new;
      assert View() == Empty;
      assert forall m :: Agrees(Empty, m);
    }

    /** Every model has a registration object of its own. */
    ghost predicate Separate()
      reads this`models
    {
      forall m, n :: m in models && n in models && models[m] == models[n] ==> m == n
    }

    ghost function At(m: string): Option<Registration>
      reads this`models, models.Values
    {
      if m in models then Some(models[m].View()) else None
    }

    ghost function Index(): Index
      reads this`models, models.Values
    {
      map m | m in models :: models[m].View()
    }

    ghost function View(): State
      reads this, models.Values
    {
      State(Index(), clientModels, clientModelInfos, clientProviders)
    }

    /** s is the registry's value, entry by entry. */
    ghost predicate Shows(s: State)
      reads this, models.Values
    {
      && s.clientModels == clientModels && s.clientInfos == clientModelInfos && s.clientProviders == clientProviders
      && s.models.Keys == models.Keys
      && forall m :: m in models ==> models[m].View() == s.models[m]
    }

    ghost predicate Valid()
      reads this, models.Values
    {
      Separate() && Inv(View())
    }

    // ----- one supply more or less -----

    method AddModelRegistration(modelID: string, provider: string, model: ModelInfo, now: int)
      requires Separate()
      modifies this`models, models.Values
      ensures Separate() && fresh(models.Values - old(models.Values))
      ensures At(modelID) == Some(Increase(old(At(modelID)), provider, model, 1, now))
      ensures forall m :: m != modelID ==> At(m) == old(At(m))
    {
      if modelID in models {
        models[modelID].Gain(provider, model, now);
      } else {
        var registration := new ModelRegistration(model, provider, now);
        models := models[modelID := registration];
      }
    }

    method RemoveModelRegistration(clientID: string, modelID: string, provider: string, now: int)
      requires Separate()
      modifies this`models, models.Values
      ensures Separate() && models.Values <= old(models.Values)
      ensures At(modelID) ==
        if old(At(modelID)).Some? then Decrease(old(At(modelID)).value, clientID, provider, 1, now) else None
      ensures forall m :: m != modelID ==> At(m) == old(At(m))
    {
      if modelID !in models {
        return;
      }
      var registration := models[modelID];
      registration.Lose(clientID, provider, now);
      if registration.count <= 0 {
        models := models - {modelID};
      }
    }

    // ----- unregistering -----

    method UnregisterClient(clientID: string, now: int)
      requires Valid()
      modifies this, models.Values
      ensures Valid() && models.Values <= old(models.Values)
      ensures View() == Unregister(old(View()), clientID, now)
    {
      UnregisterKeeps(View(), clientID, now);
      UnregisterClientInternal(clientID, now);
    }

    method UnregisterClientInternal(clientID: string, now: int)
      requires Separate() && clientModelInfos.Keys == clientModels.Keys
      modifies this, models.Values
      ensures Separate() && models.Values <= old(models.Values)
      ensures View() == Unregister(old(View()), clientID, now)
    {
      if clientID !in clientModels {
        UnregisterUnknownShape(View(), clientID, now);
        clientProviders := clientProviders - {clientID};
        return;
      }
      DropClient(clientID, now);
      Forget(clientID);
    }

    /** The books part of unregistering. */
    method Forget(clientID: string)
      modifies this`clientModels, this`clientModelInfos, this`clientProviders
      ensures clientModels == old(clientModels) - {clientID}
      ensures clientModelInfos == old(clientModelInfos) - {clientID}
      ensures clientProviders == old(clientProviders) - {clientID}
    {
      clientModels := clientModels - {clientID};
      clientModelInfos := clientModelInfos - {clientID};
      if clientID in clientProviders {
        clientProviders := clientProviders - {clientID};
      }
    }

    /** The index part of unregistering. */
    method DropClient(clientID: string, now: int)
      requires Separate() && clientID in clientModels
      modifies this`models, models.Values
      ensures Separate() && models.Values <= old(models.Values)
      ensures Index() == Unregister(old(View()), clientID, now).models
    {
      var provider := if clientID in clientProviders then clientProviders[clientID] else "";
      DropList(clientID, clientModels[clientID], provider, now);
      forall m ensures At(m) == Lookup(Unregister(old(View()), clientID, now).models, m) {
        assert old(At(m)) == Lookup(old(Index()), m);
        UnregisterLookup(old(View()), clientID, now, m);
      }
      IndexIs(Unregister(old(View()), clientID, now).models);
    }

    lemma IndexIs(target: Index)
      requires forall m :: At(m) == Lookup(target, m)
      ensures Index() == target
    {
      forall m ensures Lookup(Index(), m) == Lookup(target, m) {
        assert At(m) == Lookup(target, m);
      }
      SameIndexes(Index(), target);
    }

    /** One supply less for every entry of a list, repeated entries included. */
    method DropList(clientID: string, list: seq<string>, provider: string, now: int)
      requires Separate()
      modifies this`models, models.Values
      ensures Separate() && models.Values <= old(models.Values)
      ensures forall m :: At(m) == Fewer(old(At(m)), clientID, provider, Occurs(list, m), now)
    {
      for i := 0 to |list|
        invariant Separate() && models.Values <= old(models.Values)
        invariant forall m :: At(m) == Fewer(old(At(m)), clientID, provider, Occurs(list[..i], m), now)
      {
        assert list[..i + 1] == list[..i] + [list[i]];
        FewerOnce(old(At(list[i])), clientID, provider, Occurs(list[..i], list[i]), now);
        RemoveModelRegistration(clientID, list[i], provider, now);
      }
      assert list[..|list|] == list;
    }

    /** n supplies less of one model. */
    method DropMany(clientID: string, modelID: string, provider: string, n: nat, now: int)
      requires Separate()
      modifies this`models, models.Values
      ensures Separate() && models.Values <= old(models.Values)
      ensures forall m :: At(m) == if m == modelID then Fewer(old(At(m)), clientID, provider, n, now) else old(At(m))
    {
      for i := 0 to n
        invariant Separate() && models.Values <= old(models.Values)
        invariant forall m ::
          At(m) == if m == modelID then Fewer(old(At(m)), clientID, provider, i, now) else old(At(m))
      {
        FewerOnce(old(At(modelID)), clientID, provider, i, now);
        RemoveModelRegistration(clientID, modelID, provider, now);
      }
    }

    /** n supplies more of one model. */
    method AddMany(modelID: string, provider: string, model: ModelInfo, n: nat, now: int)
      requires Separate()
      modifies this`models, models.Values
      ensures Separate() && fresh(models.Values - old(models.Values))
      ensures forall m :: At(m) == if m == modelID then More(old(At(m)), provider, model, n, now) else old(At(m))
    {
      for i := 0 to n
        invariant Separate() && fresh(models.Values - old(models.Values))
        invariant forall m :: At(m) == if m == modelID then More(old(At(m)), provider, model, i, now) else old(At(m))
      {
        MoreOnce(old(At(modelID)), provider, model, i, now);
        AddModelRegistration(modelID, provider, model, now);
      }
    }

    // ----- registering -----

    /** Reads the request: the raw IDs, the metadata and the number of times each ID occurs. */
    static method Parse(list: seq<Option<ModelInfo>>)
      returns (raw: seq<string>, infos: map<string, ModelInfo>, counts: map<string, nat>)
      ensures raw == RawIds(list) && infos == FirstInfos(list)
      ensures Counts(counts, raw)
    {
      raw, infos, counts := [], map[], map[];
      for i := 0 to |list|
        invariant raw == RawIds(list[..i]) && infos == FirstInfos(list[..i])
        invariant Counts(counts, raw)
      {
        assert list[..i + 1][..i] == list[..i];
        if list[i].Some? && list[i].value.id != "" {
          var model := list[i].value;
          raw := raw + [model.id];
          counts := counts[model.id := CountOf(counts, model.id) + 1];
          if model.id !in infos {
            infos := infos[model.id := model];
          }
        }
      }
      assert list[..|list|] == list;
    }

    static method CountIds(ids: seq<string>) returns (counts: map<string, nat>)
      ensures Counts(counts, ids)
    {
      counts := map[];
      for i := 0 to |ids|
        invariant Counts(counts, ids[..i])
      {
        assert ids[..i + 1] == ids[..i] + [ids[i]];
        counts := counts[ids[i] := CountOf(counts, ids[i]) + 1];
      }
      assert ids[..|ids|] == ids;
    }

    method RegisterClient(clientID: string, clientProvider: string, list: seq<Option<ModelInfo>>, now: int)
      requires Valid()
      modifies this, models.Values
      ensures Valid() && fresh(models.Values - old(models.Values))
      ensures View() == Register(old(View()), clientID, clientProvider, list, now)
    {
      RegisterKeeps(View(), clientID, clientProvider, list, now);
      RegisterClientLocked(clientID, clientProvider, list, now);
    }

    /** What RegisterClient does under the lock. */
    method RegisterClientLocked(clientID: string, clientProvider: string, list: seq<Option<ModelInfo>>, now: int)
      requires Valid()
      modifies this, models.Values
      ensures Separate() && fresh(models.Values - old(models.Values))
      ensures View() == Register(old(View()), clientID, clientProvider, list, now)
    {
      var provider := ToLower(clientProvider);
      var raw, infos, newCounts := Parse(list);
      if raw == [] {
        UnregisterClientInternal(clientID, now);
        return;
      }
      if clientID !in clientModels {
        AddClient(clientID, provider, raw, infos, now);
      } else {
        UpdateClient(clientID, provider, raw, infos, newCounts, now);
      }
    }

    method AddClient(clientID: string, provider: string, raw: seq<string>, infos: map<string, ModelInfo>, now: int)
      requires Separate() && Listing(raw, infos)
      modifies this, models.Values
      ensures Separate() && fresh(models.Values - old(models.Values))
      ensures View() == RegisterNew(old(View()), clientID, provider, raw, infos, now)
    {
      AddNew(clientID, provider, raw, infos, now);
      Book(clientID, provider, raw, infos);
    }

    method UpdateClient(clientID: string, provider: string, raw: seq<string>, infos: map<string, ModelInfo>,
                        newCounts: map<string, nat>, now: int)
      requires Valid() && clientID in clientModels
      requires Listing(raw, infos) && Counts(newCounts, raw)
      modifies this, models.Values
      ensures Separate() && fresh(models.Values - old(models.Values))
      ensures View() == RegisterKnown(old(View()), clientID, provider, raw, infos, now)
    {
      ghost var before, target := View(), RegisterKnown(View(), clientID, provider, raw, infos, now);
      Update(clientID, provider, raw, infos, newCounts, now, target);
      BookKnown(clientID, provider, raw, infos, now, before, target);
    }

    /** With the index updated, the bookkeeping is what is missing. */
    method BookKnown(clientID: string, provider: string, raw: seq<string>, infos: map<string, ModelInfo>,
                     ghost now: int, ghost before: State, ghost target: State)
      requires target == RegisterKnown(before, clientID, provider, raw, infos, now)
      requires View() == before.(models := target.models)
      modifies this`clientModels, this`clientModelInfos, this`clientProviders
      ensures View() == target
    {
      KnownIsBooked(before, View(), clientID, provider, raw, infos, now, target);
      Book(clientID, provider, raw, infos);
    }

    static lemma KnownIsBooked(before: State, s: State, client: string, provider: string, raw: seq<string>,
                               infos: map<string, ModelInfo>, now: int, target: State)
      requires target == RegisterKnown(before, client, provider, raw, infos, now)
      requires s == before.(models := target.models)
      ensures target == Booked(s, client, provider, raw, infos, s.models)
    {
    }

    /** The client bookkeeping both registration paths end with. */
    method Book(clientID: string, provider: string, raw: seq<string>, infos: map<string, ModelInfo>)
      modifies this`clientModels, this`clientModelInfos, this`clientProviders
      ensures View() == Booked(old(View()), clientID, provider, raw, infos, Index())
    {
      clientModels := clientModels[clientID := raw];
      clientModelInfos := clientModelInfos[clientID := infos];
      if provider != "" {
        clientProviders := clientProviders[clientID := provider];
      } else {
        clientProviders := clientProviders - {clientID};
      }
    }

    /** One supply more for every entry of a list, repeated entries included. */
    method AddList(provider: string, raw: seq<string>, infos: map<string, ModelInfo>, now: int)
      requires Separate()
      modifies this`models, models.Values
      ensures Separate() && fresh(models.Values - old(models.Values))
      ensures forall m :: At(m) == More(old(At(m)), provider, InfoOf(infos, m), Occurs(raw, m), now)
    {
      for i := 0 to |raw|
        invariant Separate() && fresh(models.Values - old(models.Values))
        invariant forall m :: At(m) == More(old(At(m)), provider, InfoOf(infos, m), Occurs(raw[..i], m), now)
      {
        var id := raw[i];
        assert raw[..i + 1] == raw[..i] + [id];
        MoreOnce(old(At(id)), provider, InfoOf(infos, id), Occurs(raw[..i], id), now);
        AddModelRegistration(id, provider, InfoOf(infos, id), now);
      }
      assert raw[..|raw|] == raw;
    }

    /** The index part of registering an unknown client. */
    method AddNew(clientID: string, provider: string, raw: seq<string>, infos: map<string, ModelInfo>, now: int)
      requires Separate() && Listing(raw, infos)
      modifies this`models, models.Values
      ensures Separate() && fresh(models.Values - old(models.Values))
      ensures Index() == RegisterNew(old(View()), clientID, provider, raw, infos, now).models
    {
      AddList(provider, raw, infos, now);
      ghost var target := RegisterNew(old(View()), clientID, provider, raw, infos, now).models;
      forall m ensures At(m) == Lookup(target, m) {
        assert old(At(m)) == Lookup(old(Index()), m);
        NewLookup(old(View()), clientID, provider, raw, infos, now, m);
      }
      IndexIs(target);
    }

    // ----- the passes over a known client's models, each in an arbitrary order -----

    method ShiftOne(id: string, oldProvider: string, n: nat)
      requires Separate() && oldProvider != "" && id in models
      modifies models[id]
      ensures At(id) == Shifted(old(At(id)), oldProvider, n)
      ensures forall m :: m != id ==> At(m) == old(At(m))
    {
      if n > 0 {
        models[id].DropProvider(oldProvider, n);
      }
    }

    /** Pass 1: supplies that stay leave the old provider. */
    method ShiftOverlap(oldProvider: string, oldCounts: map<string, nat>, newCounts: map<string, nat>)
      requires Separate() && oldProvider != ""
      modifies models.Values
      ensures forall m :: At(m) == Shifted(old(At(m)), oldProvider, Min(CountOf(oldCounts, m), CountOf(newCounts, m)))
    {
      var todo := newCounts.Keys;
      while todo != {}
        invariant todo <= newCounts.Keys
        invariant forall m :: m in todo ==> At(m) == old(At(m))
        invariant forall m :: m !in todo ==>
          At(m) == Shifted(old(At(m)), oldProvider, Min(CountOf(oldCounts, m), CountOf(newCounts, m)))
        decreases |todo|
      {
        var id :| id in todo;
        todo := todo - {id};
        if id in models {
          ShiftOne(id, oldProvider, Min(CountOf(oldCounts, id), CountOf(newCounts, id)));
        }
      }
    }

    /** Passes 2 and 3: supplies the new list no longer has. */
    method DropSurplus(clientID: string, oldProvider: string, oldCounts: map<string, nat>, newCounts: map<string, nat>,
                       removed: bool, now: int)
      requires Separate()
      modifies this`models, models.Values
      ensures Separate() && models.Values <= old(models.Values)
      ensures forall m ::
        At(m) == Surplus(old(At(m)), clientID, oldProvider, CountOf(oldCounts, m), CountOf(newCounts, m), removed, now)
    {
      var todo := oldCounts.Keys;
      while todo != {}
        invariant todo <= oldCounts.Keys
        invariant Separate() && models.Values <= old(models.Values)
        invariant forall m :: m in todo ==> At(m) == old(At(m))
        invariant forall m :: m !in todo ==>
          At(m) ==
            Surplus(old(At(m)), clientID, oldProvider, CountOf(oldCounts, m), CountOf(newCounts, m), removed, now)
        decreases |todo|
      {
        var id :| id in todo;
        todo := todo - {id};
        var newCount := CountOf(newCounts, id);
        var surplus := if oldCounts[id] > newCount && (newCount == 0 <==> removed) then oldCounts[id] - newCount else 0;
        DropMany(clientID, id, oldProvider, surplus, now);
      }
    }

    /** Pass 4: supplies the old list did not have. */
    method AddMissing(provider: string, infos: map<string, ModelInfo>, oldCounts: map<string, nat>,
                      newCounts: map<string, nat>, now: int)
      requires Separate() && newCounts.Keys == infos.Keys
      modifies this`models, models.Values
      ensures Separate() && fresh(models.Values - old(models.Values))
      ensures forall m ::
        At(m) == Missing(old(At(m)), provider, CountOf(oldCounts, m), CountOf(newCounts, m), InfoOf(infos, m), now)
    {
      var todo := newCounts.Keys;
      while todo != {}
        invariant todo <= newCounts.Keys
        invariant Separate() && fresh(models.Values - old(models.Values))
        invariant forall m :: m in todo ==> At(m) == old(At(m))
        invariant forall m :: m !in todo ==>
          At(m) == Missing(old(At(m)), provider, CountOf(oldCounts, m), CountOf(newCounts, m), InfoOf(infos, m), now)
        decreases |todo|
      {
        var id :| id in todo;
        todo := todo - {id};
        var oldCount := CountOf(oldCounts, id);
        var missing := if newCounts[id] > oldCount then newCounts[id] - oldCount else 0;
        AddMany(id, provider, InfoOf(infos, id), missing, now);
      }
    }

    method RefreshOne(id: string, clientID: string, provider: string, info: ModelInfo, overlap: nat, now: int)
      requires Separate() && id in models
      modifies models[id]
      ensures At(id) == Some(Refreshed(old(At(id)).value, clientID, provider, info, overlap, now))
      ensures forall m :: m != id ==> At(m) == old(At(m))
    {
      models[id].Refresh(clientID, provider, info, overlap, now);
    }

    /** Pass 5: metadata, marks, and the supplies that stay join the new provider. */
    method RefreshAll(clientID: string, provider: string, infos: map<string, ModelInfo>, oldCounts: map<string, nat>,
                      newCounts: map<string, nat>, providerChanged: bool, now: int)
      requires Separate() && forall id :: id in infos <==> CountOf(newCounts, id) > 0
      modifies models.Values
      ensures forall m ::
        At(m) == Metadata(old(At(m)), clientID, provider, CountOf(oldCounts, m), CountOf(newCounts, m),
                          InfoOf(infos, m), providerChanged, now)
    {
      var todo := infos.Keys;
      while todo != {}
        invariant todo <= infos.Keys
        invariant forall m :: m in todo ==> At(m) == old(At(m))
        invariant forall m :: m !in todo ==>
          At(m) == Metadata(old(At(m)), clientID, provider, CountOf(oldCounts, m), CountOf(newCounts, m),
                            InfoOf(infos, m), providerChanged, now)
        decreases |todo|
      {
        var id :| id in todo;
        todo := todo - {id};
        if id in models {
          var overlap := if providerChanged then Min(CountOf(oldCounts, id), CountOf(newCounts, id)) else 0;
          RefreshOne(id, clientID, provider, InfoOf(infos, id), overlap, now);
        }
      }
    }

    /** All passes, in the order of the code. */
    method RunPasses(clientID: string, oldProvider: string, provider: string, infos: map<string, ModelInfo>,
                     oldCounts: map<string, nat>, newCounts: map<string, nat>, now: int)
      requires Separate() && newCounts.Keys == infos.Keys
      requires forall id :: id in infos <==> CountOf(newCounts, id) > 0
      modifies this`models, models.Values
      ensures Separate() && fresh(models.Values - old(models.Values))
      ensures forall m ::
        At(m) == Passes(old(At(m)), clientID, oldProvider, CountOf(oldCounts, m), provider, CountOf(newCounts, m),
                        InfoOf(infos, m), now)
    {
      var providerChanged := oldProvider != provider;
      if providerChanged && oldProvider != "" {
        ShiftOverlap(oldProvider, oldCounts, newCounts);
      }
      DropSurplus(clientID, oldProvider, oldCounts, newCounts, true, now);
      DropSurplus(clientID, oldProvider, oldCounts, newCounts, false, now);
      AddMissing(provider, infos, oldCounts, newCounts, now);
      RefreshAll(clientID, provider, infos, oldCounts, newCounts, providerChanged, now);
    }

    /** The index part of registering a known client again. */
    method Update(clientID: string, provider: string, raw: seq<string>, infos: map<string, ModelInfo>,
                  newCounts: map<string, nat>, now: int, ghost target: State)
      requires Valid() && clientID in clientModels
      requires Listing(raw, infos) && Counts(newCounts, raw)
      requires target == RegisterKnown(View(), clientID, provider, raw, infos, now)
      modifies this`models, models.Values
      ensures Separate() && fresh(models.Values - old(models.Values))
      ensures Index() == target.models
    {
      ghost var before := View();
      var oldProvider := if clientID in clientProviders then clientProviders[clientID] else "";
      var oldCounts := CountIds(clientModels[clientID]);
      RunPasses(clientID, oldProvider, provider, infos, oldCounts, newCounts, now);
      forall m ensures At(m) == Lookup(target.models, m) {
        assert old(At(m)) == Lookup(before.models, m);
        assert Agrees(before, m);
        PassesUpdate(before, clientID, provider, raw, infos, now, m);
      }
      IndexIs(target.models);
    }

    // ----- marks -----

    lemma MarksKept(before: State, op: Op, now: int)
      requires Inv(before) && !op.RegisterOp? && !op.UnregisterOp? && View() == Step(before, op, now)
      ensures Inv(View())
    {
      MarkShape(before, op, now);
      MarkKeeps(before, View());
    }

    /** Only the record of m differs from an earlier index. */
    lemma OneRecord(before: Index, m: string, r: Registration)
      requires m in before && At(m) == Some(r)
      requires forall n :: n != m ==> At(n) == Lookup(before, n)
      ensures Index() == before[m := r]
    {
      IndexIs(before[m := r]);
    }

    method SetModelQuotaExceeded(clientID: string, modelID: string, now: int)
      requires Valid()
      modifies models.Values
      ensures Valid() && View() == SetQuota(old(View()), clientID, modelID, now)
    {
      ghost var before := View();
      if modelID in models {
        var registration := models[modelID];
        registration.quotaExceededClients := registration.quotaExceededClients[clientID := now];
        assert forall m :: m != modelID ==> At(m) == old(At(m)) == Lookup(before.models, m);
        OneRecord(before.models, modelID, registration.View());
      }
      MarksKept(before, SetQuotaOp(clientID, modelID), now);
    }

    method ClearModelQuotaExceeded(clientID: string, modelID: string)
      requires Valid()
      modifies models.Values
      ensures Valid() && View() == ClearQuota(old(View()), clientID, modelID)
    {
      ghost var before := View();
      if modelID in models {
        var registration := models[modelID];
        registration.quotaExceededClients := registration.quotaExceededClients - {clientID};
        assert forall m :: m != modelID ==> At(m) == old(At(m)) == Lookup(before.models, m);
        OneRecord(before.models, modelID, registration.View());
      }
      MarksKept(before, ClearQuotaOp(clientID, modelID), 0);
    }

    method SuspendClientModel(clientID: string, modelID: string, reason: string, now: int)
      requires Valid()
      modifies models.Values
      ensures Valid() && View() == Suspend(old(View()), clientID, modelID, reason, now)
    {
      ghost var before := View();
      if clientID == "" || modelID == "" || modelID !in models || clientID in models[modelID].suspendedClients {
        return;
      }
      var registration := models[modelID];
      registration.suspendedClients := registration.suspendedClients[clientID := reason];
      registration.lastUpdated := now;
      assert forall m :: m != modelID ==> At(m) == old(At(m)) == Lookup(before.models, m);
      OneRecord(before.models, modelID, registration.View());
      MarksKept(before, SuspendOp(clientID, modelID, reason), now);
    }

    method ResumeClientModel(clientID: string, modelID: string, now: int)
      requires Valid()
      modifies models.Values
      ensures Valid() && View() == Resume(old(View()), clientID, modelID, now)
    {
      ghost var before := View();
      if clientID == "" || modelID == "" || modelID !in models || clientID !in models[modelID].suspendedClients {
        return;
      }
      var registration := models[modelID];
      registration.suspendedClients := registration.suspendedClients - {clientID};
      registration.lastUpdated := now;
      assert forall m :: m != modelID ==> At(m) == old(At(m)) == Lookup(before.models, m);
      OneRecord(before.models, modelID, registration.View());
      MarksKept(before, ResumeOp(clientID, modelID), now);
    }

    method CleanupExpiredQuotas(now: int)
      requires Valid()
      modifies models.Values
      ensures Valid() && View() == Cleanup(old(View()), now)
    {
      ghost var before := View();
      CleanAll(now);
      assert forall m :: old(At(m)) == Lookup(before.models, m);
      CleanedIndex(before, now);
      MarksKept(before, CleanupOp, now);
    }

    lemma CleanedIndex(before: State, now: int)
      requires forall m :: At(m) == Cleaned(Lookup(before.models, m), now)
      ensures Index() == Cleanup(before, now).models
    {
      forall m ensures At(m) == Lookup(Cleanup(before, now).models, m) {
        CleanupRecord(before, now, m);
      }
      IndexIs(Cleanup(before, now).models);
    }

    method CleanAll(now: int)
      requires Separate()
      modifies models.Values
      ensures forall m :: At(m) == Cleaned(old(At(m)), now)
    {
      var todo := models.Keys;
      while todo != {}
        invariant todo <= models.Keys
        invariant forall m :: m in todo ==> At(m) == old(At(m))
        invariant forall m :: m !in todo ==> At(m) == Cleaned(old(At(m)), now)
        decreases |todo|
      {
        var modelID :| modelID in todo;
        todo := todo - {modelID};
        CleanOne(modelID, now);
      }
    }

    method CleanOne(modelID: string, now: int)
      requires Separate() && modelID in models
      modifies models[modelID]
      ensures At(modelID) == Cleaned(old(At(modelID)), now)
      ensures forall m :: m != modelID ==> At(m) == old(At(m))
    {
      var registration := models[modelID];
      ghost var quota := registration.quotaExceededClients;
      var todo := registration.quotaExceededClients.Keys;
      while todo != {}
        invariant todo <= quota.Keys
        invariant registration.View() == old(registration.View()).(quota := registration.quotaExceededClients)
        invariant forall c :: c in registration.quotaExceededClients <==>
          c in quota && (c in todo || now - quota[c] < Cooldown)
        invariant forall c :: c in registration.quotaExceededClients ==>
          registration.quotaExceededClients[c] == quota[c]
        decreases |todo|
      {
        var clientID :| clientID in todo;
        todo := todo - {clientID};
        if now - registration.quotaExceededClients[clientID] >= Cooldown {
          registration.quotaExceededClients := registration.quotaExceededClients - {clientID};
        }
      }
      assert registration.quotaExceededClients == Fresh(quota, now);
    }

    // ----- queries -----

    static method CountCooling(quota: map<string, int>, now: int) returns (n: nat)
      ensures n == |set c | c in quota && now - quota[c] < Cooldown|
    {
      n := 0;
      var todo := quota.Keys;
      ghost var cooling: set<string> := {};
      while todo != {}
        invariant todo <= quota.Keys
        invariant cooling == set c | c in quota && c !in todo && now - quota[c] < Cooldown
        invariant n == |cooling|
        decreases |todo|
      {
        var c :| c in todo;
        todo := todo - {c};
        if now - quota[c] < Cooldown {
          n := n + 1;
          cooling := cooling + {c};
        }
      }
      assert cooling == set c | c in quota && now - quota[c] < Cooldown;
    }

    method GetModelCount(modelID: string, now: int) returns (n: int)
      requires Valid()
      ensures n == ModelCount(View(), modelID, now)
    {
      if modelID !in models {
        return 0;
      }
      var registration := models[modelID];
      var expiredClients := CountCooling(registration.quotaExceededClients, now);
      n := registration.count - expiredClients - |registration.suspendedClients|;
      if n < 0 {
        n := 0;
      }
      assert View().models[modelID] == registration.View();
    }

    /** Suspended clients by reason: waiting for quota, and the rest. */
    static method CountSuspended(suspended: map<string, string>) returns (waiting: nat, other: nat)
      ensures waiting == |set c | c in suspended && EqualFold(suspended[c], "quota")|
      ensures other == |set c | c in suspended && !EqualFold(suspended[c], "quota")|
    {
      waiting, other := 0, 0;
      var todo := suspended.Keys;
      ghost var ws: set<string>, os: set<string> := {}, {};
      while todo != {}
        invariant todo <= suspended.Keys
        invariant ws == set c | c in suspended && c !in todo && EqualFold(suspended[c], "quota")
        invariant os == set c | c in suspended && c !in todo && !EqualFold(suspended[c], "quota")
        invariant waiting == |ws| && other == |os|
        decreases |todo|
      {
        var c :| c in todo;
        todo := todo - {c};
        if EqualFold(suspended[c], "quota") {
          waiting, ws := waiting + 1, ws + {c};
        } else {
          other, os := other + 1, os + {c};
        }
      }
      assert ws == set c | c in suspended && EqualFold(suspended[c], "quota");
      assert os == set c | c in suspended && !EqualFold(suspended[c], "quota");
    }

    /** The models on offer; the order of the list is left out. */
    method GetAvailableModels(now: int) returns (available: map<string, ModelInfo>)
      requires Valid()
      ensures available == AvailableModels(View(), now)
    {
      ghost var s := View();
      ghost var good := set m | m in s.models && Available(s, m, now);
      available := CollectAvailable(now, s, good);
    }

    method CollectAvailable(now: int, ghost s: State, ghost good: set<string>)
      returns (available: map<string, ModelInfo>)
      requires Shows(s) && good <= s.models.Keys
      requires forall m {:trigger Available(s, m, now)} :: m in good <==> Available(s, m, now)
      ensures available.Keys == good
      ensures forall m :: m in available ==> m in s.models && available[m] == s.models[m].info
    {
      available := map[];
      var todo := models.Keys;
      while todo != {}
        invariant todo <= models.Keys
        invariant forall m :: m in available ==> m in good && m !in todo && available[m] == s.models[m].info
        invariant forall m :: m in good && m !in todo ==> m in available
        decreases |todo|
      {
        var m :| m in todo;
        todo := todo - {m};
        var shown := IsAvailable(models[m], now);
        assert shown <==> Available(s, m, now);
        if shown {
          available := available[m := models[m].info];
        }
      }
    }

    static method IsAvailable(registration: ModelRegistration, now: int) returns (shown: bool)
      ensures var r := registration.View();
        shown <==> Shown(r.count, |Cooling(r, now)|, |CooldownSuspended(r)|, |OtherSuspended(r)|)
    {
      var expired := CountCooling(registration.quotaExceededClients, now);
      var waiting, other := CountSuspended(registration.suspendedClients);
      var effective := registration.count - expired - other;
      shown := effective > 0 || (registration.count > 0 && (expired > 0 || waiting > 0) && other == 0);
    }

    /** The providers of a model, by falling count and then by name. */
    method GetModelProviders(modelID: string) returns (names: seq<string>)
      requires Valid()
      ensures modelID !in models ==> names == []
      ensures modelID in models ==>
        && Ranked(View().models[modelID].providers, names)
        && forall p :: p in names <==> p in View().models[modelID].providers
    {
      names := [];
      if modelID !in models {
        return;
      }
      var providers := models[modelID].providers;
      assert View().models[modelID].providers == providers && Agrees(View(), modelID);
      var todo := providers.Keys;
      while todo != {}
        invariant todo <= providers.Keys
        invariant Ranked(providers, names)
        invariant forall p :: p in names <==> p in providers && p !in todo
        decreases |todo|
      {
        var p :| p in todo;
        todo := todo - {p};
        if providers[p] > 0 {
          names := InsertRanked(providers, names, p);
        }
      }
    }

    static method InsertRanked(providers: map<string, int>, names: seq<string>, p: string) returns (r: seq<string>)
      requires Ranked(providers, names) && p in providers && p !in names
      ensures Ranked(providers, r)
      ensures forall q :: q in r <==> q == p || q in names
    {
      var i := 0;
      while i < |names| && Before(providers, names[i], p)
        invariant 0 <= i <= |names|
        invariant forall k :: 0 <= k < i ==> Before(providers, names[k], p)
      {
        i := i + 1;
      }
      r := names[..i] + [p] + names[i..];
      if i < |names| {
        BeforeOrder(providers, p, names[i]);
        forall k | i <= k < |names| ensures Before(providers, p, names[k]) {
          if k > i { BeforeTransitive(providers, p, names[i], names[k]); }
        }
      }
      assert names == names[..i] + names[i..];
    }

    /** Metadata for an entry of a client's list: the client's own, else the index's. */
    method FindInfo(clientID: string, modelID: string, infos: map<string, ModelInfo>, ghost s: State,
               ghost clients: set<string>)
      returns (newInfos: map<string, ModelInfo>)
      requires Shows(s) && Linked(s) && clientID in clientModels && clientID in clients
      ensures newInfos.Keys == infos.Keys + if modelID in s.models then {modelID} else {}
      ensures forall t :: t in newInfos && t !in infos ==> Sourced(s, clients, t, newInfos[t])
      ensures forall t :: t in infos ==> newInfos[t] == infos[t]
    {
      newInfos := infos;
      if modelID !in infos {
        if modelID in clientModelInfos[clientID] {
          newInfos := infos[modelID := clientModelInfos[clientID][modelID]];
        } else if modelID in models {
          newInfos := infos[modelID := models[modelID].info];
        }
      }
    }

    method ScanEntry(clientID: string, modelID: string, counts: map<string, nat>, infos: map<string, ModelInfo>,
                     ghost s: State,
               ghost clients: set<string>)
      returns (newCounts: map<string, nat>, newInfos: map<string, ModelInfo>)
      requires Shows(s) && Linked(s) && clientID in clientModels && clientID in clients
      requires InfosFound(s, clients, counts, infos)
      ensures newCounts == if modelID == "" then counts else counts[modelID := CountOf(counts, modelID) + 1]
      ensures InfosFound(s, clients, newCounts, newInfos)
    {
      newCounts, newInfos := counts, infos;
      if modelID != "" {
        newInfos := FindInfo(clientID, modelID, infos, s, clients);
        newCounts := counts[modelID := CountOf(counts, modelID) + 1];
      }
    }

    method ScanList(clientID: string, counts: map<string, nat>, infos: map<string, ModelInfo>, ghost s: State,
               ghost clients: set<string>)
      returns (newCounts: map<string, nat>, newInfos: map<string, ModelInfo>)
      requires Shows(s) && Linked(s) && clientID in clientModels && clientID in clients
      requires InfosFound(s, clients, counts, infos)
      ensures newCounts == Tally(counts, s.clientModels[clientID])
      ensures InfosFound(s, clients, newCounts, newInfos)
    {
      newCounts, newInfos := counts, infos;
      var list := clientModels[clientID];
      for i := 0 to |list|
        invariant newCounts == Tally(counts, list[..i])
        invariant InfosFound(s, clients, newCounts, newInfos)
      {
        TallyNext(counts, list, i);
        newCounts, newInfos := ScanEntry(clientID, Trim(list[i]), newCounts, newInfos, s, clients);
      }
      assert list[..|list|] == list;
    }

    /** The models a provider has on offer; the order of the list is left out. */
    method GetAvailableModelsByProvider(rawProvider: string, now: int) returns (available: map<string, ModelInfo>)
      requires Valid()
      ensures var provider := ToLower(Trim(rawProvider));
        forall t :: t in available <==> provider != "" && t in models && AvailableBy(View(), provider, t, now)
      ensures forall t :: t in available ==>
        Sourced(View(), ClientsOf(View(), ToLower(Trim(rawProvider))), t, available[t])
    {
      var provider := ToLower(Trim(rawProvider));
      if provider == "" {
        return map[];
      }
      InvLinks(View());
      available := AvailableFor(provider, now, View());
    }

    method AvailableFor(provider: string, now: int, ghost s: State) returns (available: map<string, ModelInfo>)
      requires Shows(s) && Linked(s) && provider != ""
      ensures forall t :: t in available <==> t in s.models && AvailableBy(s, provider, t, now)
      ensures forall t :: t in available ==> Sourced(s, ClientsOf(s, provider), t, available[t])
    {
      var counts, infos := ScanProvider(provider, s);
      forall t | t in infos
        ensures t != "" && t in s.models && t in counts && counts[t] == ScannedCount(s, provider, t) > 0
      {
        assert CountOf(counts, t) == ScannedCount(s, provider, t);
      }
      ghost var good := set t | t in infos && AvailableBy(s, provider, t, now);
      available := KeepAvailable(provider, counts, infos, now, s, good);
    }

    /** The scanned models that are on offer. */
    ghost predicate OnOffer(s: State, provider: string, counts: map<string, nat>, infos: map<string, ModelInfo>,
                            now: int, good: set<string>)
    {
      && (forall t :: t in infos ==>
            t != "" && t in s.models && t in counts && counts[t] == ScannedCount(s, provider, t) > 0)
      && good <= infos.Keys
      && forall t :: t in infos ==> (t in good <==> AvailableBy(s, provider, t, now))
    }

    method IsOnOffer(t: string, provider: string, counts: map<string, nat>, infos: map<string, ModelInfo>, now: int,
                     ghost s: State, ghost good: set<string>)
      returns (shown: bool)
      requires Shows(s) && t in infos && OnOffer(s, provider, counts, infos, now, good) && t in counts
      ensures shown <==> t in good
    {
      shown := IsAvailableBy(provider, t, counts[t], now, s);
    }

    method KeepAvailable(provider: string, counts: map<string, nat>, infos: map<string, ModelInfo>, now: int,
                         ghost s: State, ghost good: set<string>)
      returns (available: map<string, ModelInfo>)
      requires Shows(s) && OnOffer(s, provider, counts, infos, now, good)
      ensures available.Keys == good
      ensures forall t :: t in available ==> t in infos && available[t] == infos[t]
    {
      available := map[];
      var todo := infos.Keys;
      while todo != {}
        invariant todo <= infos.Keys
        invariant forall t :: t in available ==> t in good && t in infos && t !in todo && available[t] == infos[t]
        invariant forall t :: t in good && t !in todo ==> t in available
        decreases |todo|
      {
        var t :| t in todo;
        todo := todo - {t};
        var shown := IsOnOffer(t, provider, counts, infos, now, s, good);
        if shown {
          available := available[t := infos[t]];
        }
      }
    }

    method ScanProvider(provider: string, ghost s: State)
      returns (counts: map<string, nat>, infos: map<string, ModelInfo>)
      requires Shows(s) && Linked(s) && provider != ""
      ensures Tabulates(s, ClientsOf(s, provider), counts)
      ensures InfosFound(s, ClientsOf(s, provider), counts, infos)
    {
      counts, infos := map[], map[];
      ghost var clients := ClientsOf(s, provider);
      ghost var done: set<string> := {};
      var todo := clientProviders.Keys;
      while todo != {}
        invariant todo <= clientProviders.Keys
        invariant done == clients - todo
        invariant Tabulates(s, done, counts)
        invariant InfosFound(s, clients, counts, infos)
        decreases |todo|
      {
        var c :| c in todo;
        todo := todo - {c};
        if clientProviders[c] == provider {
          ghost var soFar := counts;
          counts, infos := ScanList(c, counts, infos, s, clients);
          TallyAdds(soFar, s.clientModels[c]);
          TabulatesMore(s, done, c, soFar, counts);
          done := done + {c};
        }
      }
      assert done == clients;
    }

    method IsAvailableBy(provider: string, t: string, count: nat, now: int, ghost s: State) returns (shown: bool)
      requires Shows(s) && t != "" && t in models
      requires count == ScannedCount(s, provider, t) && count > 0
      ensures shown <==> AvailableBy(s, provider, t, now)
    {
      var registration := models[t];
      var expired := CountCoolingWithin(provider, registration.quotaExceededClients, now);
      var waiting, other := CountSuspendedWithin(provider, registration.suspendedClients);
      shown := count - expired - other > 0 || (count > 0 && (expired > 0 || waiting > 0) && other == 0);
    }

    method CountCoolingWithin(provider: string, quota: map<string, int>, now: int) returns (n: nat)
      ensures n == |Within(clientProviders, provider, set c | c in quota && now - quota[c] < Cooldown)|
    {
      n := 0;
      var todo := quota.Keys;
      ghost var found: set<string> := {};
      while todo != {}
        invariant todo <= quota.Keys
        invariant found ==
          Within(clientProviders, provider, set c | c in quota && c !in todo && now - quota[c] < Cooldown)
        invariant n == |found|
        decreases |todo|
      {
        var c :| c in todo;
        todo := todo - {c};
        if c != "" && c in clientProviders && clientProviders[c] == provider && now - quota[c] < Cooldown {
          n := n + 1;
          found := found + {c};
        }
      }
      assert found == Within(clientProviders, provider, set c | c in quota && now - quota[c] < Cooldown);
    }

    predicate IsOf(provider: string, c: string)
      reads this`clientProviders
    {
      c != "" && c in clientProviders && clientProviders[c] == provider
    }

    method CountSuspendedWithin(provider: string, suspended: map<string, string>) returns (waiting: nat, other: nat)
      ensures waiting == |Within(clientProviders, provider, set c | c in suspended && EqualFold(suspended[c], "quota"))|
      ensures other == |Within(clientProviders, provider, set c | c in suspended && !EqualFold(suspended[c], "quota"))|
    {
      waiting, other := 0, 0;
      var todo := suspended.Keys;
      ghost var ws: set<string>, os: set<string> := {}, {};
      while todo != {}
        invariant todo <= suspended.Keys
        invariant forall c :: c in ws <==>
          c in suspended && c !in todo && IsOf(provider, c) && EqualFold(suspended[c], "quota")
        invariant forall c :: c in os <==>
          c in suspended && c !in todo && IsOf(provider, c) && !EqualFold(suspended[c], "quota")
        invariant waiting == |ws| && other == |os|
        decreases |todo|
      {
        var c :| c in todo;
        todo := todo - {c};
        if IsOf(provider, c) {
          if EqualFold(suspended[c], "quota") {
            waiting, ws := waiting + 1, ws + {c};
          } else {
            other, os := other + 1, os + {c};
          }
        }
      }
      assert ws == Within(clientProviders, provider, set c | c in suspended && EqualFold(suspended[c], "quota"));
      assert os == Within(clientProviders, provider, set c | c in suspended && !EqualFold(suspended[c], "quota"));
    }
  }
}
