/** The scheduler: metrics objects behind a map, counted up and down in place. Each call is one
    atomic step, as its counters are. */
module SchedulerObjects {
  import opened Text
  import opened SchedulerModel
  import opened Strategies

  class CredentialMetrics {
    var activeConns: int
    var totalReqs: int
    var totalErrors: int
    var totalLatency: int
    var circuitOpen: bool

    constructor ()
      ensures View() == NoMetrics
    {
      activeConns, totalReqs, totalErrors, totalLatency, circuitOpen := 0, 0, 0, 0, false;
    }

    ghost function View(): Metrics
      reads this
    {
      Metrics(activeConns, totalReqs, totalErrors, totalLatency, circuitOpen)
    }

    method Open()
      modifies this
      ensures View() == old(View()).(activeConns := old(activeConns) + 1)
    {
      activeConns := activeConns + 1;
    }

    /** The counter updates and the circuit test of one report. */
    method Close(success: bool, latency: int)
      modifies this
      ensures View() == Reported(old(View()), success, latency)
    {
      activeConns := activeConns - 1;
      totalReqs := totalReqs + 1;
      totalLatency := totalLatency + latency;
      if !success {
        totalErrors := totalErrors + 1;
      }
      if totalReqs >= ErrorWindow {
        if 2 * totalErrors > totalReqs {
          circuitOpen := true;
        }
      }
    }
  }

  /** The strategy in use; the round robin keeps its cursor in an object. */
  datatype StrategyInUse = UseRoundRobin(state: WeightedRoundRobin) | UseLeastLoad | UseFillFirst | UseRandom

  class Scheduler {
    var strategy: StrategyInUse
    var metrics: map<string, CredentialMetrics>

    ghost predicate Valid()
      reads this, if strategy.UseRoundRobin? then {strategy.state} else {}
    {
      && (forall a, b :: a in metrics && b in metrics && a != b ==> metrics[a] != metrics[b])
      && (strategy.UseRoundRobin? ==> strategy.state.index >= 0)
    }

    ghost function View(): Books
      reads this, metrics.Values
    {
      map id | id in metrics :: metrics[id].View()
    }

    /** The strategy as a value, with the random number of this call. */
    ghost function Current(draw: nat): Strategy
      requires Valid()
      reads this, if strategy.UseRoundRobin? then {strategy.state} else {}
    {
      match strategy
      case UseRoundRobin(state) => RoundRobin(state.index)
      case UseLeastLoad => LeastLoad
      case UseFillFirst => FillFirst
      case UseRandom => Random(draw)
    }

    constructor (strategy: StrategyInUse)
      requires strategy.UseRoundRobin? ==> strategy.state.index >= 0
      ensures Valid() && View() == map[] && this.strategy == strategy
    {
      this.strategy := strategy;
      metrics := map[];
    }

    method GetOrCreateMetrics(id: string) returns (m: CredentialMetrics)
      requires Valid()
      modifies this`metrics
      ensures Valid() && id in metrics && metrics[id] == m
      ensures old(id in metrics) ==> metrics == old(metrics)
      ensures old(id !in metrics) ==> metrics == old(metrics)[id := m] && fresh(m)
      ensures m.View() == if old(id in metrics) then old(metrics[id].View()) else NoMetrics
    {
      if id in metrics {
        return metrics[id];
      }
      m := new CredentialMetrics();
      metrics := metrics[id := m];
    }

    lemma OneChanged(before: Books, id: string)
      requires id in metrics && metrics.Keys == before.Keys + {id}
      requires forall k :: k in metrics && k != id ==> metrics[k].View() == before[k]
      ensures View() == before[id := metrics[id].View()]
    {
    }

    /** One more open connection for a credential. */
    method CountSelection(id: string)
      requires Valid()
      modifies this`metrics, metrics.Values
      ensures Valid() && View() == Opened(old(View()), id)
    {
      ghost var before := View();
      var m := GetOrCreateMetrics(id);
      m.Open();
      OneChanged(before, id);
    }

    /** The candidate list of one selection. */
    method BuildCandidates(creds: seq<Credential>) returns (candidates: seq<Candidate>)
      requires Valid()
      ensures candidates == Candidates(View(), creds)
    {
      candidates := [];
      for i := 0 to |creds|
        invariant candidates == Candidates(View(), creds[..i])
      {
        var cred := creds[i];
        assert creds[..i + 1][..i] == creds[..i];
        if cred.enabled {
          var c := Candidate(cred.id, cred.weight, 0, false);
          if cred.id in metrics {
            var m := metrics[cred.id];
            c := c.(activeConns := m.activeConns, circuitOpen := m.circuitOpen);
          }
          candidates := candidates + [c];
        }
      }
      assert creds[..|creds|] == creds;
    }

    method Delegate(candidates: seq<Candidate>, draw: nat) returns (r: Option<Candidate>)
      requires Valid()
      modifies if strategy.UseRoundRobin? then {strategy.state} else {}
      ensures Valid() && r == Choose(old(Current(draw)), candidates)
      ensures strategy.UseRoundRobin? ==>
        strategy.state.index == old(strategy.state.index) + if r.Some? then 1 else 0
      ensures View() == old(View())
    {
      match strategy
      case UseRoundRobin(state) => r := state.Select(candidates);
      case UseLeastLoad => r := SelectLeastLoad(candidates);
      case UseFillFirst => r := SelectFillFirst(candidates);
      case UseRandom => r := SelectRandom(candidates, draw);
    }

    /** The choice among the candidates of the enabled credentials, and its count. */
    method SelectAmong(creds: seq<Credential>, candidates: seq<Candidate>, draw: nat) returns (r: Selection)
      requires Valid() && creds != [] && candidates != [] && candidates == Candidates(View(), creds)
      modifies this`metrics, metrics.Values, if strategy.UseRoundRobin? then {strategy.state} else {}
      ensures Valid() && r == SelectFrom(old(View()), Some(creds), old(Current(draw)))
      ensures strategy.UseRoundRobin? ==>
        strategy.state.index == old(strategy.state.index) + if r.Selected? then 1 else 0
      ensures View() == Do(old(View()), SchedulerModel.Select(Some(creds), old(Current(draw))))
    {
      var selected := Delegate(candidates, draw);
      if selected.None? {
        return NoneAvailable;
      }
      CountSelection(selected.value.id);
      r := Selected(selected.value.id);
    }

    /** The choice among the enabled credentials of a pool. */
    method SelectEnabled(creds: seq<Credential>, draw: nat) returns (r: Selection)
      requires Valid() && creds != []
      modifies this`metrics, metrics.Values, if strategy.UseRoundRobin? then {strategy.state} else {}
      ensures Valid() && r == SelectFrom(old(View()), Some(creds), old(Current(draw)))
      ensures strategy.UseRoundRobin? ==>
        strategy.state.index == old(strategy.state.index) + if r.Selected? then 1 else 0
      ensures View() == Do(old(View()), SchedulerModel.Select(Some(creds), old(Current(draw))))
    {
      var candidates := BuildCandidates(creds);
      if |candidates| == 0 {
        return NoneEnabled;
      }
      r := SelectAmong(creds, candidates, draw);
    }

    /** `pool` is what the pool manager answers, None for an error. A selection moves the cursor of
        the round robin by one, any other answer leaves it. */
    method Select(pool: Option<seq<Credential>>, draw: nat) returns (r: Selection)
      requires Valid()
      modifies this`metrics, metrics.Values, if strategy.UseRoundRobin? then {strategy.state} else {}
      ensures Valid() && r == SelectFrom(old(View()), pool, old(Current(draw)))
      ensures strategy.UseRoundRobin? ==>
        strategy.state.index == old(strategy.state.index) + if r.Selected? then 1 else 0
      ensures View() == Do(old(View()), SchedulerModel.Select(pool, old(Current(draw))))
    {
      if pool.None? {
        return PoolFailed;
      }
      if |pool.value| == 0 {
        return NoCredentials;
      }
      r := SelectEnabled(pool.value, draw);
    }

    method ReportResult(id: string, success: bool, latency: int)
      requires Valid()
      modifies this`metrics, metrics.Values
      ensures Valid() && View() == Do(old(View()), Report(id, success, latency))
    {
      ghost var before := View();
      var m := GetOrCreateMetrics(id);
      m.Close(success, latency);
      OneChanged(before, id);
    }

    method SetStrategy(strategy: StrategyInUse)
      requires Valid() && (strategy.UseRoundRobin? ==> strategy.state.index >= 0)
      modifies this`strategy
      ensures Valid() && this.strategy == strategy && View() == old(View())
    {
      this.strategy := strategy;
    }
  }
}
