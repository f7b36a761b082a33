/** What the model registry computes, on values.

    The relation the registry indexes is clientModels (a list with duplicates for
    each client) together with clientProviders. The index is `models`. Each public
    operation is a function from state to state in closed form: it says what happens
    to the record of one model in one go, where the code runs several loops. */
module RegistryModel {
  import opened Text

  /** `details` stands for every other field of the metadata, none of which is read here. */
  datatype ModelInfo = ModelInfo(id: string, details: string)

  datatype Registration = Registration(
    info: ModelInfo,
    infoByProvider: map<string, ModelInfo>,
    count: int,
    lastUpdated: int,
    quota: map<string, int>,
    providers: map<string, int>,
    suspended: map<string, string>)

  type Index = map<string, Registration>

  datatype State = State(
    models: Index,
    clientModels: map<string, seq<string>>,
    clientInfos: map<string, map<string, ModelInfo>>,
    clientProviders: map<string, string>)

  const Empty := State(map[], map[], map[], map[])

  function Lookup<V>(m: map<string, V>, k: string): Option<V> {
    if k in m then Some(m[k]) else None
  }

  function CountIn(m: map<string, int>, k: string): int {
    if k in m then m[k] else 0
  }

  function ProviderOf(s: State, client: string): string {
    if client in s.clientProviders then s.clientProviders[client] else ""
  }

  function ModelsOf(s: State, client: string): seq<string> {
    if client in s.clientModels then s.clientModels[client] else []
  }

  /** How often a model occurs in a client's list. */
  function Occurs(list: seq<string>, model: string): nat {
    multiset(list)[model]
  }

  // ----- the registration request -----

  predicate Usable(m: Option<ModelInfo>) {
    m.Some? && m.value.id != ""
  }

  /** The usable model IDs in order, duplicates kept. */
  function RawIds(ms: seq<Option<ModelInfo>>): (ids: seq<string>)
    ensures "" !in ids
  {
    if ms == [] then []
    else
      var last := ms[|ms| - 1];
      RawIds(ms[..|ms| - 1]) + if Usable(last) then [last.value.id] else []
  }

  /** The first metadata given for each usable ID. */
  function FirstInfos(ms: seq<Option<ModelInfo>>): (infos: map<string, ModelInfo>)
    ensures forall id :: id in infos <==> Occurs(RawIds(ms), id) > 0
  {
    if ms == [] then map[]
    else
      var before := FirstInfos(ms[..|ms| - 1]);
      var last := ms[|ms| - 1];
      if Usable(last) && last.value.id !in before then before[last.value.id := last.value] else before
  }

  // ----- one model's record -----

  const Blank := Registration(ModelInfo("", ""), map[], 0, 0, map[], map[], map[])

  function DropProvider(ps: map<string, int>, provider: string, n: nat): map<string, int> {
    if provider == "" || provider !in ps then ps
    else if ps[provider] <= n then ps - {provider}
    else ps[provider := ps[provider] - n]
  }

  function DropInfo(infos: map<string, ModelInfo>, ps: map<string, int>, provider: string, n: nat): map<string,
                    ModelInfo> {
    if provider != "" && provider in ps && ps[provider] <= n then infos - {provider} else infos
  }

  function AddProvider(ps: map<string, int>, provider: string, n: nat): map<string, int> {
    if provider == "" then ps else ps[provider := CountIn(ps, provider) + n]
  }

  function SetInfo(infos: map<string, ModelInfo>, provider: string, info: ModelInfo): map<string, ModelInfo> {
    if provider == "" then infos else infos[provider := info]
  }

  /** n fewer supplies of the model by `client`; the record goes when none is left. */
  function Decrease(r: Registration, client: string, provider: string, n: nat, now: int): Option<Registration> {
    if r.count <= n then None
    else Some(Registration(
      r.info, DropInfo(r.infoByProvider, r.providers, provider, n), r.count - n, now,
      r.quota - {client}, DropProvider(r.providers, provider, n), r.suspended - {client}))
  }

  /** n more supplies of the model. */
  function Increase(o: Option<Registration>, provider: string, info: ModelInfo, n: nat, now: int): Registration {
    var r := if o.Some? then o.value else Blank;
    r.(info := info, infoByProvider := SetInfo(r.infoByProvider, provider, info),
       count := r.count + n, lastUpdated := now, providers := AddProvider(r.providers, provider, n))
  }

  function Fewer(o: Option<Registration>, client: string, provider: string, n: nat, now: int): Option<Registration> {
    if n == 0 || o.None? then o else Decrease(o.value, client, provider, n, now)
  }

  function More(o: Option<Registration>, provider: string, info: ModelInfo, n: nat, now: int): Option<Registration> {
    if n == 0 then o else Some(Increase(o, provider, info, n, now))
  }

  /** A client that listed the model `was` times under oldProvider now lists it
      `listed` > 0 times under provider. */
  function Reconcile(o: Option<Registration>, client: string, oldProvider: string, was: nat,
                     provider: string, listed: nat, info: ModelInfo, now: int): Registration {
    var r := if o.Some? then o.value else Blank;
    Registration(
      info,
      SetInfo(DropInfo(r.infoByProvider, r.providers, oldProvider, was), provider, info),
      r.count - was + listed, now,
      r.quota - {client},
      AddProvider(DropProvider(r.providers, oldProvider, was), provider, listed),
      r.suspended - {client})
  }

  // ----- registering and unregistering -----

  function UnregisteredRecord(s: State, client: string, m: string, now: int): Option<Registration>
    requires m in s.models
  {
    var n := Occurs(ModelsOf(s, client), m);
    if n == 0 then Some(s.models[m]) else Decrease(s.models[m], client, ProviderOf(s, client), n, now)
  }

  function Unregister(s: State, client: string, now: int): State {
    State(
      map m | m in s.models && UnregisteredRecord(s, client, m, now).Some?
        :: UnregisteredRecord(s, client, m, now).value,
      s.clientModels - {client}, s.clientInfos - {client}, s.clientProviders - {client})
  }

  /** The parsed request: the raw ID list and the metadata of its IDs. */
  ghost predicate Listing(raw: seq<string>, infos: map<string, ModelInfo>) {
    && raw != [] && "" !in raw
    && forall id :: id in infos <==> Occurs(raw, id) > 0
  }

  function Booked(s: State, client: string, provider: string, raw: seq<string>, infos: map<string, ModelInfo>,
                  models: Index): State {
    State(
      models,
      s.clientModels[client := raw],
      s.clientInfos[client := infos],
      if provider != "" then s.clientProviders[client := provider] else s.clientProviders - {client})
  }

  /** Registering a client the registry does not know. */
  function RegisterNew(s: State, client: string, provider: string, raw: seq<string>, infos: map<string, ModelInfo>,
                       now: int): State {
    Booked(s, client, provider, raw, infos,
           map m | m in s.models.Keys + infos.Keys ::
             if m in infos then Increase(Lookup(s.models, m), provider, infos[m], Occurs(raw, m), now)
             else s.models[m])
  }

  function UpdatedRecord(s: State, client: string, provider: string, raw: seq<string>, infos: map<string, ModelInfo>,
                         m: string, now: int): Option<Registration>
    requires m in s.models.Keys + infos.Keys
  {
    if m in infos then
      Some(Reconcile(Lookup(s.models, m), client, ProviderOf(s, client), Occurs(ModelsOf(s, client), m),
                     provider, Occurs(raw, m), infos[m], now))
    else UnregisteredRecord(s, client, m, now)
  }

  /** Registering a client again: what the incremental path amounts to. */
  function RegisterKnown(s: State, client: string, provider: string, raw: seq<string>, infos: map<string, ModelInfo>,
                         now: int): State {
    Booked(s, client, provider, raw, infos,
           map m | m in s.models.Keys + infos.Keys && UpdatedRecord(s, client, provider, raw, infos, m, now).Some?
             :: UpdatedRecord(s, client, provider, raw, infos, m, now).value)
  }

  function Register(s: State, client: string, rawProvider: string, ms: seq<Option<ModelInfo>>, now: int): State {
    var provider, raw, infos := ToLower(rawProvider), RawIds(ms), FirstInfos(ms);
    if raw == [] then Unregister(s, client, now)
    else if client in s.clientModels then RegisterKnown(s, client, provider, raw, infos, now)
    else RegisterNew(s, client, provider, raw, infos, now)
  }

  // ----- marks -----

  function SetQuota(s: State, client: string, m: string, now: int): State {
    if m !in s.models then s
    else s.(models := s.models[m := s.models[m].(quota := s.models[m].quota[client := now])])
  }

  function ClearQuota(s: State, client: string, m: string): State {
    if m !in s.models then s
    else s.(models := s.models[m := s.models[m].(quota := s.models[m].quota - {client})])
  }

  function Suspend(s: State, client: string, m: string, reason: string, now: int): State {
    if client == "" || m == "" || m !in s.models || client in s.models[m].suspended then s
    else s.(models := s.models[m := s.models[m].(
      suspended := s.models[m].suspended[client := reason], lastUpdated := now)])
  }

  function Resume(s: State, client: string, m: string, now: int): State {
    if client == "" || m == "" || m !in s.models || client !in s.models[m].suspended then s
    else s.(models := s.models[m := s.models[m].(
      suspended := s.models[m].suspended - {client}, lastUpdated := now)])
  }

  /** The quota cooldown, in nanoseconds: five minutes. */
  const Cooldown := 300_000_000_000

  function Cooling(r: Registration, now: int): set<string> {
    set c | c in r.quota && now - r.quota[c] < Cooldown
  }

  /** The quota marks that have not expired. */
  function Fresh(quota: map<string, int>, now: int): map<string, int> {
    map c | c in quota && now - quota[c] < Cooldown :: quota[c]
  }

  function Cleanup(s: State, now: int): State {
    s.(models := map m | m in s.models :: s.models[m].(quota := Fresh(s.models[m].quota, now)))
  }

  // ----- runs -----

  datatype Op =
    | RegisterOp(client: string, provider: string, list: seq<Option<ModelInfo>>)
    | UnregisterOp(client: string)
    | SetQuotaOp(client: string, model: string)
    | ClearQuotaOp(client: string, model: string)
    | SuspendOp(client: string, model: string, reason: string)
    | ResumeOp(client: string, model: string)
    | CleanupOp

  function Step(s: State, op: Op, now: int): State {
    match op
    case RegisterOp(c, p, ms) => Register(s, c, p, ms, now)
    case UnregisterOp(c) => Unregister(s, c, now)
    case SetQuotaOp(c, m) => SetQuota(s, c, m, now)
    case ClearQuotaOp(c, m) => ClearQuota(s, c, m)
    case SuspendOp(c, m, why) => Suspend(s, c, m, why, now)
    case ResumeOp(c, m) => Resume(s, c, m, now)
    case CleanupOp => Cleanup(s, now)
  }

  /** The state after a run of operations, each with the clock reading it takes. */
  function Run(ops: seq<(Op, int)>): State {
    if ops == [] then Empty else Step(Run(ops[..|ops| - 1]), ops[|ops| - 1].0, ops[|ops| - 1].1)
  }

  // ----- agreement of the index with the relation -----

  /** Occurrences of a model over a set of clients' lists. */
  ghost function Sum(lists: map<string, seq<string>>, cs: set<string>, m: string): nat
    requires cs <= lists.Keys
  {
    if cs == {} then 0
    else
      var c :| c in cs;
      Occurs(lists[c], m) + Sum(lists, cs - {c}, m)
  }

  ghost function Supply(s: State, m: string): nat {
    Sum(s.clientModels, s.clientModels.Keys, m)
  }

  function ClientsOf(s: State, provider: string): set<string> {
    set c | c in s.clientModels && ProviderOf(s, c) == provider
  }

  ghost function SupplyBy(s: State, provider: string, m: string): nat {
    Sum(s.clientModels, ClientsOf(s, provider), m)
  }

  /** The record of m agrees with the relation. */
  ghost predicate Agrees(s: State, m: string) {
    if m in s.models then
      var r := s.models[m];
      && r.count == Supply(s, m) > 0
      && "" !in r.providers
      && (forall p :: p != "" ==> CountIn(r.providers, p) == SupplyBy(s, p, m))
      && (forall p :: p in r.providers ==> r.providers[p] > 0)
      && r.infoByProvider.Keys == r.providers.Keys
    else Supply(s, m) == 0
  }

  ghost predicate Books(s: State) {
    && s.clientInfos.Keys == s.clientModels.Keys
    && s.clientProviders.Keys <= s.clientModels.Keys
    && (forall c :: c in s.clientProviders ==> s.clientProviders[c] != "")
    && (forall c :: c in s.clientModels ==> Listing(s.clientModels[c], s.clientInfos[c]))
  }

  ghost predicate Inv(s: State) {
    && Books(s)
    && forall m :: Agrees(s, m)
  }

  predicate Marked(s: State, m: string, c: string) {
    m in s.models && (c in s.models[m].quota || c in s.models[m].suspended)
  }

  /** Marks sit only on clients that list the model. */
  ghost predicate MarksSound(s: State) {
    forall m, c :: Marked(s, m, c) ==> Occurs(ModelsOf(s, c), m) > 0
  }

  /** The caller marks only clients that list the model. */
  predicate Guarded(s: State, op: Op) {
    match op
    case SetQuotaOp(c, m) => Occurs(ModelsOf(s, c), m) > 0
    case SuspendOp(c, m, _) => Occurs(ModelsOf(s, c), m) > 0
    case _ => true
  }
}
