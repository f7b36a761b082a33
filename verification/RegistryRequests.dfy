/** What a registration leaves on record, said of the request itself. */
module RegistryRequests {
  import opened Text
  import opened RegistryModel

  /** The positions at which a request gives a model with this ID. */
  function Positions(ms: seq<Option<ModelInfo>>, id: string): set<int> {
    set i | 0 <= i < |ms| && ms[i].Some? && ms[i].value.id == id
  }

  /** The metadata a request gives first for an ID. */
  predicate FirstGiven(ms: seq<Option<ModelInfo>>, id: string, info: ModelInfo) {
    info.id == id && exists i :: 0 <= i < |ms| && ms[i] == Some(info) && Absent(ms[..i], id)
  }

  predicate Absent(ms: seq<Option<ModelInfo>>, id: string) {
    forall j :: 0 <= j < |ms| && ms[j].Some? ==> ms[j].value.id != id
  }

  lemma PositionsNext(ms: seq<Option<ModelInfo>>, last: Option<ModelInfo>, id: string)
    ensures |Positions(ms + [last], id)| == |Positions(ms, id)| + if last.Some? && last.value.id == id then 1 else 0
  {
    assert Positions(ms + [last], id) ==
      Positions(ms, id) + if last.Some? && last.value.id == id then {|ms|} else {};
  }

  /** An ID is listed as often as the request gives it; a blank one never is. */
  lemma {:induction false} ListedAsGiven(ms: seq<Option<ModelInfo>>, id: string)
    ensures Occurs(RawIds(ms), id) == if id == "" then 0 else |Positions(ms, id)|
  {
    if ms == [] {
      assert Positions(ms, id) == {};
    } else {
      var init, last := ms[..|ms| - 1], ms[|ms| - 1];
      ListedAsGiven(init, id);
      assert ms == init + [last];
      PositionsNext(init, last, id);
    }
  }

  lemma GivenLonger(ms: seq<Option<ModelInfo>>, last: Option<ModelInfo>, id: string, info: ModelInfo)
    requires FirstGiven(ms, id, info)
    ensures FirstGiven(ms + [last], id, info)
  {
    var i :| 0 <= i < |ms| && ms[i] == Some(info) && Absent(ms[..i], id);
    assert (ms + [last])[..i] == ms[..i] && (ms + [last])[i] == ms[i];
  }

  lemma GivenLast(ms: seq<Option<ModelInfo>>, info: ModelInfo)
    requires Occurs(RawIds(ms), info.id) == 0 && info.id != ""
    ensures FirstGiven(ms + [Some(info)], info.id, info)
  {
    var all := ms + [Some(info)];
    ListedAsGiven(ms, info.id);
    forall j | 0 <= j < |ms| && ms[j].Some? ensures ms[j].value.id != info.id {
      assert j !in Positions(ms, info.id);
    }
    assert all[..|ms|] == ms && all[|ms|] == Some(info);
  }

  lemma {:induction false} FirstInfoIsFirst(ms: seq<Option<ModelInfo>>, id: string)
    requires id in FirstInfos(ms)
    ensures FirstGiven(ms, id, FirstInfos(ms)[id])
  {
    var init, last := ms[..|ms| - 1], ms[|ms| - 1];
    assert ms == init + [last];
    if id in FirstInfos(init) {
      FirstInfoIsFirst(init, id);
      GivenLonger(init, last, id, FirstInfos(init)[id]);
    } else {
      GivenLast(init, last.value);
    }
  }

  /** What a registration with at least one usable model puts on record: the client with each model
      as often as it was given and the lower-case provider, and for each model the metadata given
      first, in the model's record and in the provider's share of it. */
  lemma RegistrationOnRecord(s: State, c: string, p: string, ms: seq<Option<ModelInfo>>, now: int, id: string)
    requires id != "" && Positions(ms, id) != {}
    ensures var t := Register(s, c, p, ms, now);
      && c in t.clientModels && c in t.clientInfos && id in t.clientInfos[c] && id in t.models
      && Occurs(t.clientModels[c], id) == |Positions(ms, id)|
      && ProviderOf(t, c) == ToLower(p)
      && FirstGiven(ms, id, t.models[id].info) && t.clientInfos[c][id] == t.models[id].info
      && (ToLower(p) != "" ==>
            ToLower(p) in t.models[id].infoByProvider && t.models[id].infoByProvider[ToLower(p)] == t.models[id].info)
      && t.models[id].lastUpdated == now
  {
    ListedAsGiven(ms, id);
    FirstInfoIsFirst(ms, id);
    var provider, raw, infos := ToLower(p), RawIds(ms), FirstInfos(ms);
    if c in s.clientModels {
      assert Register(s, c, p, ms, now) == RegisterKnown(s, c, provider, raw, infos, now);
    } else {
      assert Register(s, c, p, ms, now) == RegisterNew(s, c, provider, raw, infos, now);
    }
  }

  /** A model the request does not give is no longer listed by the client, and a request without a
      usable model takes the client off the books. */
  lemma RegistrationForgets(s: State, c: string, p: string, ms: seq<Option<ModelInfo>>, now: int, id: string)
    requires id == "" || Positions(ms, id) == {}
    ensures Occurs(ModelsOf(Register(s, c, p, ms, now), c), id) == 0
    ensures (forall other :: other == "" || Positions(ms, other) == {}) ==>
      c !in Register(s, c, p, ms, now).clientModels && c !in Register(s, c, p, ms, now).clientProviders
  {
    ListedAsGiven(ms, id);
    if RawIds(ms) != [] {
      ListedAsGiven(ms, RawIds(ms)[0]);
    }
  }

  /** The record keeps its metadata, and so does each provider's share that is left. */
  predicate MetadataStays(before: Registration, after: Registration) {
    && after.info == before.info
    && forall q :: q in after.infoByProvider ==>
         q in before.infoByProvider && after.infoByProvider[q] == before.infoByProvider[q]
  }

  lemma UnregisterLeavesMetadata(s: State, c: string, now: int, m: string)
    requires m in s.models && m in Unregister(s, c, now).models
    ensures MetadataStays(s.models[m], Unregister(s, c, now).models[m])
  {
  }

  lemma OmittedRecord(s: State, c: string, provider: string, raw: seq<string>, infos: map<string, ModelInfo>, now: int,
                      m: string)
    requires m in s.models && m !in infos
    ensures m in RegisterNew(s, c, provider, raw, infos, now).models
    ensures RegisterNew(s, c, provider, raw, infos, now).models[m] == s.models[m]
    ensures Lookup(RegisterKnown(s, c, provider, raw, infos, now).models, m)
         == Lookup(Unregister(s, c, now).models, m)
  {
  }

  /** A model the request does not give keeps its metadata as long as it has a record. */
  lemma OtherMetadataStays(s: State, c: string, p: string, ms: seq<Option<ModelInfo>>, now: int, m: string)
    requires m in s.models && m in Register(s, c, p, ms, now).models
    requires m == "" || Positions(ms, m) == {}
    ensures MetadataStays(s.models[m], Register(s, c, p, ms, now).models[m])
  {
    var provider, raw, infos := ToLower(p), RawIds(ms), FirstInfos(ms);
    ListedAsGiven(ms, m);
    if raw != [] { OmittedRecord(s, c, provider, raw, infos, now, m); }
    if raw == [] || c in s.clientModels { UnregisterLeavesMetadata(s, c, now, m); }
  }

  /** What other clients gave stays as it is. */
  lemma OtherClientsStay(s: State, c: string, p: string, ms: seq<Option<ModelInfo>>, now: int, d: string)
    requires d != c
    ensures SameBooks(s, Register(s, c, p, ms, now), d)
  {
    var provider, raw, infos := ToLower(p), RawIds(ms), FirstInfos(ms);
    if raw == [] {
      UnregisterLeavesBooks(s, c, now, d);
    } else if c in s.clientModels {
      BookedLeavesBooks(s, c, provider, raw, infos, RegisterKnown(s, c, provider, raw, infos, now).models, d);
    } else {
      BookedLeavesBooks(s, c, provider, raw, infos, RegisterNew(s, c, provider, raw, infos, now).models, d);
    }
  }

  predicate SameBooks(s: State, t: State, d: string) {
    && Lookup(t.clientModels, d) == Lookup(s.clientModels, d) && Lookup(t.clientInfos, d) == Lookup(s.clientInfos, d)
    && Lookup(t.clientProviders, d) == Lookup(s.clientProviders, d)
  }

  lemma UnregisterLeavesBooks(s: State, c: string, now: int, d: string)
    requires d != c
    ensures SameBooks(s, Unregister(s, c, now), d)
  {
  }

  lemma BookedLeavesBooks(s: State, c: string, p: string, raw: seq<string>, infos: map<string, ModelInfo>,
                          models: Index, d: string)
    requires d != c
    ensures SameBooks(s, Booked(s, c, p, raw, infos, models), d)
  {
  }

  /** Unregistering a client that is not registered changes nothing. */
  lemma UnknownClientUnregistered(s: State, c: string, now: int)
    requires c !in s.clientModels && c !in s.clientInfos && c !in s.clientProviders
    ensures Unregister(s, c, now) == s
  {
    assert Unregister(s, c, now).models == s.models;
  }
}
