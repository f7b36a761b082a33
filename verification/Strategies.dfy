/** The scheduling strategies as they run. */
module Strategies {
  import opened Text
  import opened SchedulerModel

  method FilterHealthy(candidates: seq<Candidate>) returns (healthy: seq<Candidate>)
    ensures healthy == Healthy(candidates)
  {
    healthy := [];
    for i := 0 to |candidates|
      invariant healthy == Healthy(candidates[..i])
    {
      assert candidates[..i + 1][..i] == candidates[..i];
      if !candidates[i].circuitOpen {
        healthy := healthy + [candidates[i]];
      }
    }
    assert candidates[..|candidates|] == candidates;
  }

  /** The expanded table: each candidate as often as it weighs, at least once. */
  method Expand(healthy: seq<Candidate>) returns (expanded: seq<Candidate>)
    ensures expanded == Expanded(healthy)
  {
    expanded := [];
    for i := 0 to |healthy|
      invariant expanded == Expanded(healthy[..i])
    {
      var c := healthy[i];
      var w := c.weight;
      if w <= 0 {
        w := 1;
      }
      ghost var before := expanded;
      for k := 0 to w
        invariant expanded == before + Repeat(c, k)
      {
        assert Repeat(c, k + 1) == Repeat(c, k) + [c];
        expanded := expanded + [c];
      }
      assert healthy[..i + 1][..i] == healthy[..i];
    }
    assert healthy[..|healthy|] == healthy;
  }

  class WeightedRoundRobin {
    var index: int

    constructor ()
      ensures index == 0
    {
      index := 0;
    }

    /** The cursor moves by one with every successful selection. */
    method Select(candidates: seq<Candidate>) returns (r: Option<Candidate>)
      requires index >= 0
      modifies this
      ensures r == Choose(RoundRobin(old(index)), candidates)
      ensures index == old(index) + if r.Some? then 1 else 0
    {
      var healthy := FilterHealthy(candidates);
      if |healthy| == 0 {
        return None;
      }
      var expanded := Expand(healthy);
      index := index + 1;
      var idx := index - 1;
      r := Some(expanded[idx % |expanded|]);
    }
  }

  lemma LeastNext(cs: seq<Candidate>, i: nat)
    requires 0 < i < |cs|
    ensures var best := LeastIndex(cs, i);
      LeastIndex(cs, i + 1) == if cs[i].activeConns < cs[best].activeConns then i else best
  {
  }

  method SelectLeastLoad(candidates: seq<Candidate>) returns (r: Option<Candidate>)
    ensures r == Choose(LeastLoad, candidates)
  {
    var healthy := FilterHealthy(candidates);
    if |healthy| == 0 {
      return None;
    }
    var best := healthy[0];
    for i := 1 to |healthy|
      invariant best == healthy[LeastIndex(healthy, i)]
    {
      LeastNext(healthy, i);
      if healthy[i].activeConns < best.activeConns {
        best := healthy[i];
      }
    }
    r := Some(best);
  }

  method SelectFillFirst(candidates: seq<Candidate>) returns (r: Option<Candidate>)
    ensures r == Choose(FillFirst, candidates)
  {
    for i := 0 to |candidates|
      invariant Healthy(candidates[..i]) == []
    {
      assert candidates[..i + 1][..i] == candidates[..i];
      if !candidates[i].circuitOpen {
        HealthyPrefix(candidates, i + 1);
        return Some(candidates[i]);
      }
    }
    assert candidates[..|candidates|] == candidates;
    r := None;
  }

  lemma {:induction false} HealthyPrefix(cs: seq<Candidate>, n: nat)
    requires n <= |cs|
    ensures Healthy(cs[..n]) <= Healthy(cs)
    decreases |cs|
  {
    if n < |cs| {
      HealthyPrefix(cs[..|cs| - 1], n);
      assert cs[..|cs| - 1][..n] == cs[..n];
    } else {
      assert cs[..n] == cs;
    }
  }

  /** `draw` is the random number. */
  method SelectRandom(candidates: seq<Candidate>, draw: nat) returns (r: Option<Candidate>)
    ensures r == Choose(Random(draw), candidates)
  {
    var healthy := FilterHealthy(candidates);
    if |healthy| == 0 {
      return None;
    }
    r := Some(healthy[draw % |healthy|]);
  }
}
