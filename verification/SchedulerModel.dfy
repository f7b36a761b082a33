/** Choosing a credential and keeping its books, as functions on values. */
module SchedulerModel {
  import opened Text

  /** What a strategy sees of a credential. */
  datatype Candidate = Candidate(id: string, weight: int, activeConns: int, circuitOpen: bool)

  /** A strategy with what it draws on: the cursor it has reached, or a random number. */
  datatype Strategy = RoundRobin(cursor: nat) | LeastLoad | FillFirst | Random(draw: nat)

  // ----- candidates -----

  function Healthy(cs: seq<Candidate>): (r: seq<Candidate>)
    ensures forall c :: c in r <==> c in cs && !c.circuitOpen
  {
    if cs == [] then []
    else Healthy(cs[..|cs| - 1]) + if cs[|cs| - 1].circuitOpen then [] else [cs[|cs| - 1]]
  }

  function EffectiveWeight(c: Candidate): (w: nat)
    ensures w >= 1
  {
    if c.weight <= 0 then 1 else c.weight
  }

  function Repeat(c: Candidate, n: nat): seq<Candidate> {
    seq(n, _ => c)
  }

  /** Each candidate as often as it weighs. */
  function Expanded(cs: seq<Candidate>): (r: seq<Candidate>)
    ensures |r| >= |cs|
    ensures forall c :: c in r ==> c in cs
  {
    if cs == [] then []
    else Expanded(cs[..|cs| - 1]) + Repeat(cs[|cs| - 1], EffectiveWeight(cs[|cs| - 1]))
  }

  // ----- strategies -----

  /** i is the first position of least load. */
  predicate IsLeast(cs: seq<Candidate>, i: nat) {
    && i < |cs|
    && (forall j :: 0 <= j < |cs| ==> cs[i].activeConns <= cs[j].activeConns)
    && forall j :: 0 <= j < i ==> cs[i].activeConns < cs[j].activeConns
  }

  /** The first position of least load among the first n. */
  function LeastIndex(cs: seq<Candidate>, n: nat): (i: nat)
    requires 0 < n <= |cs|
    ensures IsLeast(cs[..n], i)
  {
    if n == 1 then 0
    else
      var best := LeastIndex(cs, n - 1);
      if cs[n - 1].activeConns < cs[best].activeConns then n - 1 else best
  }

  function Choose(strategy: Strategy, cs: seq<Candidate>): (r: Option<Candidate>)
    ensures r.None? <==> Healthy(cs) == []
    ensures r.Some? ==> r.value in cs && !r.value.circuitOpen
  {
    var h := Healthy(cs);
    if h == [] then None
    else
      match strategy
      case RoundRobin(cursor) => Some(Expanded(h)[cursor % |Expanded(h)|])
      case LeastLoad => Some(h[LeastIndex(h, |h|)])
      case FillFirst => Some(h[0])
      case Random(draw) => Some(h[draw % |h|])
  }

  // ----- the books -----

  datatype Metrics = Metrics(activeConns: int, totalReqs: int, totalErrors: int, totalLatency: int, circuitOpen: bool)

  const NoMetrics := Metrics(0, 0, 0, 0, false)

  type Books = map<string, Metrics>

  function MetricsOf(books: Books, id: string): Metrics {
    if id in books then books[id] else NoMetrics
  }

  datatype Credential = Credential(id: string, enabled: bool, weight: int)

  /** The enabled credentials with what the books know about them. */
  function Candidates(books: Books, creds: seq<Credential>): (r: seq<Candidate>)
    ensures forall c :: c in r ==> c.circuitOpen == MetricsOf(books, c.id).circuitOpen
    ensures forall c :: c in r ==> c.activeConns == MetricsOf(books, c.id).activeConns
  {
    if creds == [] then []
    else
      var cred := creds[|creds| - 1];
      var m := MetricsOf(books, cred.id);
      Candidates(books, creds[..|creds| - 1]) +
      if !cred.enabled then [] else [Candidate(cred.id, cred.weight, m.activeConns, m.circuitOpen)]
  }

  /** What a selection answers; `pool` is what the pool manager hands out, None if it fails. */
  datatype Selection = Selected(id: string) | PoolFailed | NoCredentials | NoneEnabled | NoneAvailable

  function SelectFrom(books: Books, pool: Option<seq<Credential>>, strategy: Strategy): Selection {
    if pool.None? then PoolFailed
    else if pool.value == [] then NoCredentials
    else if Candidates(books, pool.value) == [] then NoneEnabled
    else
      match Choose(strategy, Candidates(books, pool.value))
      case None => NoneAvailable
      case Some(c) => Selected(c.id)
  }

  function Opened(books: Books, id: string): Books {
    books[id := MetricsOf(books, id).(activeConns := MetricsOf(books, id).activeConns + 1)]
  }

  const ErrorWindow := 10

  /** The circuit trips when more than half of at least ten requests failed. */
  predicate Trips(requests: int, errors: int) {
    requests >= ErrorWindow && 2 * errors > requests
  }

  function Reported(m: Metrics, success: bool, latency: int): Metrics {
    var errors := m.totalErrors + if success then 0 else 1;
    Metrics(m.activeConns - 1, m.totalReqs + 1, errors, m.totalLatency + latency,
            m.circuitOpen || Trips(m.totalReqs + 1, errors))
  }

  // ----- runs -----

  datatype Step =
    | Select(pool: Option<seq<Credential>>, strategy: Strategy)
    | Report(id: string, success: bool, latency: int)

  function Do(books: Books, step: Step): Books {
    match step
    case Select(pool, strategy) =>
      var s := SelectFrom(books, pool, strategy);
      if s.Selected? then Opened(books, s.id) else books
    case Report(id, success, latency) => books[id := Reported(MetricsOf(books, id), success, latency)]
  }

  function Run(steps: seq<Step>): Books {
    if steps == [] then map[] else Do(Run(steps[..|steps| - 1]), steps[|steps| - 1])
  }
}
